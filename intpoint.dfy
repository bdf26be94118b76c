/** Integer points of the mesh: `Point3` with 32-bit components and `Point3d`
    with 64-bit components.

    Components are mathematical integers restricted by subset types to the
    width of the C++ field. Where a C++ operation could overflow (which is
    undefined behaviour for signed integers), the function requires that its
    result fits instead of modelling a wrap-around. C++ integer division
    rounds toward zero and is modelled by `TruncDiv`. */
module IntPoint {

  type Int32 = n: int | -0x8000_0000 <= n <= 0x7fff_ffff
  type Int64 = n: int | -0x8000_0000_0000_0000 <= n <= 0x7fff_ffff_ffff_ffff

  predicate IsInt32(n: int) { -0x8000_0000 <= n <= 0x7fff_ffff }
  predicate IsInt64(n: int) { -0x8000_0000_0000_0000 <= n <= 0x7fff_ffff_ffff_ffff }

  predicate Fits32(x: int, y: int, z: int) { IsInt32(x) && IsInt32(y) && IsInt32(z) }
  predicate Fits64(x: int, y: int, z: int) { IsInt64(x) && IsInt64(y) && IsInt64(z) }

  function Abs(n: int): nat { if n < 0 then -n else n }

  /** C++ integer division: the exact quotient rounded toward zero, so that
      the remainder `a - q * b` has the sign of `a`. */
  function TruncDiv(a: int, b: int): (q: int)
    requires b != 0
    ensures Abs(q * b) <= Abs(a) < Abs(q * b) + Abs(b)
    ensures q * b == 0 || (q * b < 0 <==> a < 0)
  {
    var m: int := Abs(a) / Abs(b);
    var q := if (a < 0) == (b < 0) then m else -m;
    RoundedTowardZero(a, b, m, q);
    q
  }

  lemma EuclidBounds(n: nat, d: int)
    requires d > 0
    ensures 0 <= n / d
    ensures (n / d) * d <= n < (n / d) * d + d
  {
  }

  lemma RoundedTowardZero(a: int, b: int, m: int, q: int)
    requires b != 0 && m == Abs(a) / Abs(b)
    requires q == if (a < 0) == (b < 0) then m else -m
    ensures Abs(q * b) <= Abs(a) < Abs(q * b) + Abs(b)
    ensures q * b == 0 || (q * b < 0 <==> a < 0)
  {
    EuclidBounds(Abs(a), Abs(b));
    AbsOfProduct(q, b);
    assert Abs(q) == m;
    assert Abs(q * b) == m * Abs(b);
    if m > 0 {
      assert a != 0;
    } else {
      assert q == 0;
    }
  }

  lemma AbsOfProduct(a: int, b: int)
    ensures Abs(a * b) == Abs(a) * Abs(b)
    ensures a * b < 0 <==> (a < 0 && b > 0) || (a > 0 && b < 0)
  {
    if a < 0 && b < 0 {
      assert a * b == (-a) * (-b);
    } else if a < 0 {
      assert a * b == -((-a) * b);
    } else if b < 0 {
      assert a * b == -(a * (-b));
    }
  }

  lemma MulMonotone(x: int, y: int, z: int)
    requires x <= y && 0 <= z
    ensures x * z <= y * z
  {
    assert y * z - x * z == (y - x) * z;
  }

  lemma DivOfMultiple(n: nat, d: int)
    requires d > 0
    ensures (n * d) / d == n
  {
    var q, r := (n * d) / d, (n * d) % d;
    assert (n - q) * d == r;
    if n - q >= 1 {
      MulMonotone(1, n - q, d);
    } else if n - q <= -1 {
      MulMonotone(1, q - n, d);
    }
  }

  /** Dividing an exact multiple gives the factor back, whatever the signs. */
  lemma TruncDivOfMultiple(k: int, b: int)
    requires b != 0
    ensures TruncDiv(k * b, b) == k
  {
    AbsOfProduct(k, b);
    DivOfMultiple(Abs(k), Abs(b));
  }

  /** A component no longer than `len` has a square no larger than `len * len`. */
  lemma SquareBelowBound(a: int, len: int)
    requires 0 <= len && -len <= a <= len
    ensures a * a <= len * len
  {
    var b := Abs(a);
    assert a * a == b * b by { AbsOfProduct(a, a); }
    MulMonotone(b, len, b);
    MulMonotone(b, len, len);
  }

  /** A component longer than `len` has a square larger than `len * len`. */
  lemma SquareAboveBound(a: int, len: int)
    requires 0 <= len && (a > len || a < -len)
    ensures a * a > len * len
  {
    var b := Abs(a);
    assert a * a == b * b by { AbsOfProduct(a, a); }
    MulMonotone(len + 1, b, b);
    MulMonotone(len + 1, b, len + 1);
    MulMonotone(len, len + 1, len);
  }

  /** Exact dot product of two integer vectors, with no width restriction. */
  function Inner(ux: int, uy: int, uz: int, vx: int, vy: int, vz: int): int
  {
    ux * vx + uy * vy + uz * vz
  }

  /** A point whose components are all in [-2^30, 2^30): the difference of any
      two such points fits in 32 bits. */
  predicate InHalfRange(p: Point3)
  {
    -0x4000_0000 <= p.x < 0x4000_0000 &&
    -0x4000_0000 <= p.y < 0x4000_0000 &&
    -0x4000_0000 <= p.z < 0x4000_0000
  }

  /** intpoint.h `Point3`: a point or vector with int32 components. */
  datatype Point3 = Point3(x: Int32, y: Int32, z: Int32)
  {
    /** `operator+`: subtracting `p` again undoes it. */
    function Plus(p: Point3): (r: Point3)
      requires Fits32(x + p.x, y + p.y, z + p.z)
      ensures Fits32(r.x - p.x, r.y - p.y, r.z - p.z) && r.Minus(p) == this
    {
      Point3(x + p.x, y + p.y, z + p.z)
    }

    /** `operator-`: the difference is the zero vector exactly for equal points. */
    function Minus(p: Point3): (r: Point3)
      requires Fits32(x - p.x, y - p.y, z - p.z)
      ensures r == Point3(0, 0, 0) <==> this == p
    {
      Point3(x - p.x, y - p.y, z - p.z)
    }

    /** `operator/`: every component is divided with rounding toward zero. */
    function DivBy(i: Int32): (r: Point3)
      requires i != 0
      requires Fits32(TruncDiv(x, i), TruncDiv(y, i), TruncDiv(z, i))
      ensures Abs(r.x * i) <= Abs(x) < Abs(r.x * i) + Abs(i)
      ensures Abs(r.y * i) <= Abs(y) < Abs(r.y * i) + Abs(i)
      ensures Abs(r.z * i) <= Abs(z) < Abs(r.z * i) + Abs(i)
      ensures r.x * i == 0 || (r.x * i < 0 <==> x < 0)
      ensures r.y * i == 0 || (r.y * i < 0 <==> y < 0)
      ensures r.z * i == 0 || (r.z * i < 0 <==> z < 0)
    {
      Point3(TruncDiv(x, i), TruncDiv(y, i), TruncDiv(z, i))
    }

    /** `operator*`: dividing by a nonzero factor again undoes it. */
    function Times(i: Int32): (r: Point3)
      requires Fits32(x * i, y * i, z * i)
      ensures i != 0 ==> Fits32(TruncDiv(r.x, i), TruncDiv(r.y, i), TruncDiv(r.z, i)) && r.DivBy(i) == this
    {
      var r := Point3(x * i, y * i, z * i);
      if i == 0 then r
      else
        TruncDivOfMultiple(x, i);
        TruncDivOfMultiple(y, i);
        TruncDivOfMultiple(z, i);
        r
    }

    /** `operator==`: componentwise comparison, which is exactly equality of
        the points. */
    function Equals(p: Point3): (r: bool)
      ensures r <==> this == p
    {
      x == p.x && y == p.y && z == p.z
    }

    /** `operator!=`: the exact complement of `operator==`. */
    function NotEquals(p: Point3): (r: bool)
      ensures r <==> !Equals(p)
      ensures r <==> this != p
    {
      x != p.x || y != p.y || z != p.z
    }

    /** The largest component. */
    function Max(): (r: Int32)
      ensures r == x || r == y || r == z
      ensures r >= x && r >= y && r >= z
    {
      if x > y && x > z then x
      else if y > z then y
      else z
    }

    /** Squared length, computed in 64 bits. */
    function VSize2(): (r: Int64)
      requires IsInt64(x * x + y * y + z * z)
      ensures r >= 0
      ensures r == 0 <==> x == 0 && y == 0 && z == 0
    {
      SquareNonNegative(x);
      SquareNonNegative(y);
      SquareNonNegative(z);
      x * x + y * y + z * z
    }

    /** Whether the vector is no longer than `len`. Each component is first
        compared with `len`, which rejects long vectors cheaply and keeps the
        squared length inside 64 bits. */
    function TestLength(len: Int32): (r: bool)
      requires IsInt32(len * len)
      ensures r ==> 0 <= len && -len <= x <= len && -len <= y <= len && -len <= z <= len
    {
      if x > len || x < -len then false
      else if y > len || y < -len then false
      else if z > len || z < -len then false
      else
        SquareBelowBound(x, len);
        SquareBelowBound(y, len);
        SquareBelowBound(z, len);
        VSize2() <= len * len
    }

    /** Cross product; the products are taken in 64 bits and the result is
        narrowed back to 32 bits, which this model requires to be lossless. */
    function Cross(p: Point3): (r: Point3)
      requires Fits32(y * p.z - z * p.y, z * p.x - x * p.z, x * p.y - y * p.x)
      ensures Inner(x, y, z, r.x, r.y, r.z) == 0
      ensures Inner(p.x, p.y, p.z, r.x, r.y, r.z) == 0
    {
      var r := Point3(y * p.z - z * p.y, z * p.x - x * p.z, x * p.y - y * p.x);
      CrossOrthogonal(x, y, z, p.x, p.y, p.z);
      r
    }

    /** Whether the dot product with `p`, evaluated in 32-bit arithmetic as
        the source does, stays free of overflow. */
    predicate DotFits(p: Point3)
    {
      IsInt32(x * p.x) && IsInt32(y * p.y) && IsInt32(z * p.z) &&
      IsInt32(x * p.x + y * p.y) && IsInt32(x * p.x + y * p.y + z * p.z)
    }

    /** `dot`: symmetric in its operands, and never negative for a vector
        with itself. */
    function Dot(p: Point3): (r: Int64)
      requires DotFits(p)
      ensures r == Inner(p.x, p.y, p.z, x, y, z)
      ensures p == this ==> r >= 0
    {
      SquareNonNegative(x);
      SquareNonNegative(y);
      SquareNonNegative(z);
      x * p.x + y * p.y + z * p.z
    }
  }

  lemma SquareNonNegative(a: int)
    ensures a * a >= 0
    ensures a * a == 0 <==> a == 0
  {
    if a < 0 {
      assert a * a == (-a) * (-a);
    }
  }

  lemma CrossOrthogonal(ux: int, uy: int, uz: int, vx: int, vy: int, vz: int)
    ensures Inner(ux, uy, uz, uy * vz - uz * vy, uz * vx - ux * vz, ux * vy - uy * vx) == 0
    ensures Inner(vx, vy, vz, uy * vz - uz * vy, uz * vx - ux * vz, ux * vy - uy * vx) == 0
  {
    assert ux * (uy * vz - uz * vy) == ux * uy * vz - ux * uz * vy;
    assert uy * (uz * vx - ux * vz) == uy * uz * vx - uy * ux * vz;
    assert uz * (ux * vy - uy * vx) == uz * ux * vy - uz * uy * vx;
    assert vx * (uy * vz - uz * vy) == vx * uy * vz - vx * uz * vy;
    assert vy * (uz * vx - ux * vz) == vy * uz * vx - vy * ux * vz;
    assert vz * (ux * vy - uy * vx) == vz * ux * vy - vz * uy * vx;
  }

  /** `operator*(int32_t, Point3)`: scaling from the left forwards to the member. */
  function ScaleLeft(i: Int32, rhs: Point3): (r: Point3)
    requires Fits32(rhs.x * i, rhs.y * i, rhs.z * i)
    ensures i != 0 ==> Fits32(TruncDiv(r.x, i), TruncDiv(r.y, i), TruncDiv(r.z, i)) && r.DivBy(i) == rhs
  {
    rhs.Times(i)
  }

  /** `testLength(len)` holds exactly when the vector's exact squared length is
      at most `len * len` and `len` is not negative: the per-component early
      rejections never change the answer. */
  lemma {:induction false} TestLengthMeansWithin(p: Point3, len: Int32)
    requires IsInt32(len * len)
    ensures p.TestLength(len) <==> 0 <= len && p.x * p.x + p.y * p.y + p.z * p.z <= len * len
  {
    SquareNonNegative(p.x);
    SquareNonNegative(p.y);
    SquareNonNegative(p.z);
    if len < 0 {
      assert p.x > len || p.x < -len;
    } else if p.x > len || p.x < -len {
      SquareAboveBound(p.x, len);
    } else if p.y > len || p.y < -len {
      SquareAboveBound(p.y, len);
    } else if p.z > len || p.z < -len {
      SquareAboveBound(p.z, len);
    }
  }

  /** Adding a point and subtracting it again is the identity, for both widths. */
  lemma PlusMinusRoundTrip(p: Point3, q: Point3)
    requires Fits32(p.x + q.x, p.y + q.y, p.z + q.z)
    ensures p.Plus(q).Minus(q) == p
  {
  }

  /** Scaling by a nonzero factor and dividing by it again (with truncating
      division) is the identity; scaling from the left equals scaling from the
      right. */
  lemma TimesDivRoundTrip(p: Point3, i: Int32)
    requires i != 0
    requires Fits32(p.x * i, p.y * i, p.z * i)
    ensures ScaleLeft(i, p) == p.Times(i)
    ensures var t := p.Times(i);
      Fits32(TruncDiv(t.x, i), TruncDiv(t.y, i), TruncDiv(t.z, i)) && t.DivBy(i) == p
  {
    var t := p.Times(i);
    assert TruncDiv(t.x, i) == p.x by { TruncDivOfMultiple(p.x, i); }
    assert TruncDiv(t.y, i) == p.y by { TruncDivOfMultiple(p.y, i); }
    assert TruncDiv(t.z, i) == p.z by { TruncDivOfMultiple(p.z, i); }
  }

  /** The cross product is anti-commutative. */
  lemma CrossAntiCommutes(a: Point3, b: Point3)
    requires Fits32(a.y * b.z - a.z * b.y, a.z * b.x - a.x * b.z, a.x * b.y - a.y * b.x)
    ensures Fits32(b.y * a.z - b.z * a.y, b.z * a.x - b.x * a.z, b.x * a.y - b.y * a.x) ==>
      var c := b.Cross(a);
      a.Cross(b) == Point3(-c.x, -c.y, -c.z)
  {
  }

  /** Dotting either factor with the cross product gives zero whenever the
      source's 32-bit evaluation of the dot product does not overflow. */
  lemma CrossDotIsZero(a: Point3, b: Point3)
    requires Fits32(a.y * b.z - a.z * b.y, a.z * b.x - a.x * b.z, a.x * b.y - a.y * b.x)
    ensures a.DotFits(a.Cross(b)) ==> a.Dot(a.Cross(b)) == 0
    ensures b.DotFits(a.Cross(b)) ==> b.Dot(a.Cross(b)) == 0
  {
  }

  /** A `Point3` variable: the compound-assignment operators update its three
      components in place. */
  class Point3Cell
  {
    var x: Int32
    var y: Int32
    var z: Int32

    function Value(): Point3
      reads this
    {
      Point3(x, y, z)
    }

    constructor (p: Point3)
      ensures Value() == p
    {
      x, y, z := p.x, p.y, p.z;
    }

    /** `operator+=` */
    method AddAssign(p: Point3)
      requires Fits32(x + p.x, y + p.y, z + p.z)
      modifies this
      ensures Value() == old(Value()).Plus(p)
    {
      x := x + p.x;
      y := y + p.y;
      z := z + p.z;
    }

    /** `operator-=` */
    method SubAssign(p: Point3)
      requires Fits32(x - p.x, y - p.y, z - p.z)
      modifies this
      ensures Value() == old(Value()).Minus(p)
    {
      x := x - p.x;
      y := y - p.y;
      z := z - p.z;
    }

    /** `operator*=` */
    method MulAssign(c: Int32)
      requires Fits32(x * c, y * c, z * c)
      modifies this
      ensures Value() == old(Value()).Times(c)
    {
      x := x * c;
      y := y * c;
      z := z * c;
    }

    /** `operator/=` */
    method DivAssign(c: Int32)
      requires c != 0
      requires Fits32(TruncDiv(x, c), TruncDiv(y, c), TruncDiv(z, c))
      modifies this
      ensures Value() == old(Value()).DivBy(c)
    {
      x := TruncDiv(x, c);
      y := TruncDiv(y, c);
      z := TruncDiv(z, c);
    }
  }

  /** intpoint.h `Point3d`: a point or vector with int64 components. */
  datatype Point3d = Point3d(x: Int64, y: Int64, z: Int64)
  {
    /** Up-casting constructor `Point3d(Point3&)`: always lossless, and
        `downCast()` gives the original point back. */
    static function FromPoint3(p: Point3): (r: Point3d)
      ensures r.FitsPoint3() && r.DownCast() == p
    {
      Point3d(p.x, p.y, p.z)
    }

    predicate FitsPoint3() { Fits32(x, y, z) }

    /** `downCast()`: narrowing to `Point3`, required here to be lossless. */
    function DownCast(): (r: Point3)
      requires FitsPoint3()
      ensures Point3d(r.x, r.y, r.z) == this
    {
      Point3(x, y, z)
    }

    /** `operator+`: subtracting `p` again undoes it. */
    function Plus(p: Point3d): (r: Point3d)
      requires Fits64(x + p.x, y + p.y, z + p.z)
      ensures Fits64(r.x - p.x, r.y - p.y, r.z - p.z) && r.Minus(p) == this
    {
      Point3d(x + p.x, y + p.y, z + p.z)
    }

    /** `operator-`: the difference is the zero vector exactly for equal points. */
    function Minus(p: Point3d): (r: Point3d)
      requires Fits64(x - p.x, y - p.y, z - p.z)
      ensures r == Point3d(0, 0, 0) <==> this == p
    {
      Point3d(x - p.x, y - p.y, z - p.z)
    }

    /** `operator/`: every component is divided with rounding toward zero. */
    function DivBy(i: Int64): (r: Point3d)
      requires i != 0
      requires Fits64(TruncDiv(x, i), TruncDiv(y, i), TruncDiv(z, i))
      ensures Abs(r.x * i) <= Abs(x) < Abs(r.x * i) + Abs(i)
      ensures Abs(r.y * i) <= Abs(y) < Abs(r.y * i) + Abs(i)
      ensures Abs(r.z * i) <= Abs(z) < Abs(r.z * i) + Abs(i)
      ensures r.x * i == 0 || (r.x * i < 0 <==> x < 0)
      ensures r.y * i == 0 || (r.y * i < 0 <==> y < 0)
      ensures r.z * i == 0 || (r.z * i < 0 <==> z < 0)
    {
      Point3d(TruncDiv(x, i), TruncDiv(y, i), TruncDiv(z, i))
    }

    /** `operator*`: dividing by a nonzero factor again undoes it. */
    function Times(i: Int64): (r: Point3d)
      requires Fits64(x * i, y * i, z * i)
      ensures i != 0 ==> Fits64(TruncDiv(r.x, i), TruncDiv(r.y, i), TruncDiv(r.z, i)) && r.DivBy(i) == this
    {
      var r := Point3d(x * i, y * i, z * i);
      if i == 0 then r
      else
        TruncDivOfMultiple(x, i);
        TruncDivOfMultiple(y, i);
        TruncDivOfMultiple(z, i);
        r
    }

    /** `operator==` */
    function Equals(p: Point3d): (r: bool)
      ensures r <==> this == p
    {
      x == p.x && y == p.y && z == p.z
    }

    /** `operator!=`: the exact complement of `operator==`. */
    function NotEquals(p: Point3d): (r: bool)
      ensures r <==> !Equals(p)
      ensures r <==> this != p
    {
      x != p.x || y != p.y || z != p.z
    }

    /** The largest component. */
    function Max(): (r: Int64)
      ensures r == x || r == y || r == z
      ensures r >= x && r >= y && r >= z
    {
      if x > y && x > z then x
      else if y > z then y
      else z
    }

    /** Whether the 64-bit products and differences of `cross` stay in range. */
    predicate CrossFits(p: Point3d)
    {
      Fits64(y * p.z, z * p.x, x * p.y) && Fits64(z * p.y, x * p.z, y * p.x) &&
      Fits64(y * p.z - z * p.y, z * p.x - x * p.z, x * p.y - y * p.x)
    }

    /** Cross product in 64-bit arithmetic. */
    function Cross(p: Point3d): (r: Point3d)
      requires CrossFits(p)
      ensures Inner(x, y, z, r.x, r.y, r.z) == 0
      ensures Inner(p.x, p.y, p.z, r.x, r.y, r.z) == 0
    {
      var r := Point3d(y * p.z - z * p.y, z * p.x - x * p.z, x * p.y - y * p.x);
      CrossOrthogonal(x, y, z, p.x, p.y, p.z);
      r
    }
  }

  /** `operator*(int64_t, Point3d)` */
  function ScaleLeft64(i: Int64, rhs: Point3d): (r: Point3d)
    requires Fits64(rhs.x * i, rhs.y * i, rhs.z * i)
    ensures i != 0 ==> Fits64(TruncDiv(r.x, i), TruncDiv(r.y, i), TruncDiv(r.z, i)) && r.DivBy(i) == rhs
  {
    rhs.Times(i)
  }

  lemma PlusMinusRoundTrip64(p: Point3d, q: Point3d)
    requires Fits64(p.x + q.x, p.y + q.y, p.z + q.z)
    ensures p.Plus(q).Minus(q) == p
  {
  }

  lemma TimesDivRoundTrip64(p: Point3d, i: Int64)
    requires i != 0
    requires Fits64(p.x * i, p.y * i, p.z * i)
    ensures ScaleLeft64(i, p) == p.Times(i)
    ensures var t := p.Times(i);
      Fits64(TruncDiv(t.x, i), TruncDiv(t.y, i), TruncDiv(t.z, i)) && t.DivBy(i) == p
  {
    var t := p.Times(i);
    assert TruncDiv(t.x, i) == p.x by { TruncDivOfMultiple(p.x, i); }
    assert TruncDiv(t.y, i) == p.y by { TruncDivOfMultiple(p.y, i); }
    assert TruncDiv(t.z, i) == p.z by { TruncDivOfMultiple(p.z, i); }
  }

  lemma CrossAntiCommutes64(a: Point3d, b: Point3d)
    requires a.CrossFits(b) && b.CrossFits(a)
    ensures var c := b.Cross(a);
      a.Cross(b) == Point3d(-c.x, -c.y, -c.z)
  {
  }

  /** A `Point3d` variable: the compound-assignment operators update its three
      components in place. */
  class Point3dCell
  {
    var x: Int64
    var y: Int64
    var z: Int64

    function Value(): Point3d
      reads this
    {
      Point3d(x, y, z)
    }

    constructor (p: Point3d)
      ensures Value() == p
    {
      x, y, z := p.x, p.y, p.z;
    }

    /** `operator+=` */
    method AddAssign(p: Point3d)
      requires Fits64(x + p.x, y + p.y, z + p.z)
      modifies this
      ensures Value() == old(Value()).Plus(p)
    {
      x := x + p.x;
      y := y + p.y;
      z := z + p.z;
    }

    /** `operator-=` */
    method SubAssign(p: Point3d)
      requires Fits64(x - p.x, y - p.y, z - p.z)
      modifies this
      ensures Value() == old(Value()).Minus(p)
    {
      x := x - p.x;
      y := y - p.y;
      z := z - p.z;
    }

    /** `operator*=` */
    method MulAssign(c: Int64)
      requires Fits64(x * c, y * c, z * c)
      modifies this
      ensures Value() == old(Value()).Times(c)
    {
      x := x * c;
      y := y * c;
      z := z * c;
    }

    /** `operator/=` */
    method DivAssign(c: Int64)
      requires c != 0
      requires Fits64(TruncDiv(x, c), TruncDiv(y, c), TruncDiv(z, c))
      modifies this
      ensures Value() == old(Value()).DivBy(c)
    {
      x := TruncDiv(x, c);
      y := TruncDiv(y, c);
      z := TruncDiv(z, c);
    }
  }
}
