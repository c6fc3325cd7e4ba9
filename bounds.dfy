/**
 * BoundsFinder and its per-axis MaxMinFinder: a running minimum and maximum
 * per axis over every coordinate added, starting from +infinity / -infinity.
 */
module Bounds {
  import opened NifRecords

  /** A float that may be one of the two infinities the finder starts from. */
  datatype Extended = NegInf | Finite(value: real) | PosInf

  /** The float comparison `a < b`. */
  predicate Less(a: Extended, b: Extended) {
    match (a, b)
    case (Finite(x), Finite(y)) => x < y
    case (NegInf, NegInf) => false
    case (NegInf, _) => true
    case (Finite(_), PosInf) => true
    case (_, _) => false
  }

  /** The float comparison `a <= b`. */
  predicate AtMost(a: Extended, b: Extended) {
    a == b || Less(a, b)
  }

  /** The float product `a * a`. */
  function Square(a: Extended): (r: Extended)
    ensures a.Finite? <==> r.Finite?
  {
    match a
    case Finite(x) => Finite(x * x)
    case _ => PosInf
  }

  /** The float sum; only called on values that are never infinities of opposite signs. */
  function Plus(a: Extended, b: Extended): Extended {
    match (a, b)
    case (Finite(x), Finite(y)) => Finite(x + y)
    case (PosInf, _) => PosInf
    case (_, PosInf) => PosInf
    case (_, _) => NegInf
  }

  /** The least of `s`, +infinity for an empty `s`. */
  function MinOf(s: seq<real>): Extended {
    if s == [] then PosInf
    else
      var m := MinOf(s[..|s| - 1]);
      if Less(Finite(s[|s| - 1]), m) then Finite(s[|s| - 1]) else m
  }

  /** The greatest of `s`, -infinity for an empty `s`. */
  function MaxOf(s: seq<real>): Extended {
    if s == [] then NegInf
    else
      var m := MaxOf(s[..|s| - 1]);
      if Less(m, Finite(s[|s| - 1])) then Finite(s[|s| - 1]) else m
  }

  /** Every added value lies between the running minimum and maximum, which are finite once a value was added. */
  lemma {:induction false} MinMaxBound(s: seq<real>)
    ensures s != [] ==> MinOf(s).Finite? && MaxOf(s).Finite?
    ensures forall i :: 0 <= i < |s| ==> AtMost(MinOf(s), Finite(s[i])) && AtMost(Finite(s[i]), MaxOf(s))
  {
    if s != [] {
      MinMaxBound(s[..|s| - 1]);
      assert forall i :: 0 <= i < |s| - 1 ==> s[i] == s[..|s| - 1][i];
    }
  }

  /** The running minimum and maximum are added values (each attained), for non-empty `s`. */
  lemma {:induction false} MinMaxAttained(s: seq<real>)
    requires s != []
    ensures exists i :: 0 <= i < |s| && MinOf(s) == Finite(s[i])
    ensures exists i :: 0 <= i < |s| && MaxOf(s) == Finite(s[i])
  {
    var t := s[..|s| - 1];
    if t != [] {
      MinMaxAttained(t);
      var i :| 0 <= i < |t| && MinOf(t) == Finite(t[i]);
      var j :| 0 <= j < |t| && MaxOf(t) == Finite(t[j]);
      assert t[i] == s[i] && t[j] == s[j];
    } else {
      assert MinOf(s) == Finite(s[0]) && MaxOf(s) == Finite(s[0]);
    }
  }

  lemma SquareBetween(lo: real, x: real, hi: real)
    requires lo <= x <= hi
    ensures x * x <= lo * lo || x * x <= hi * hi
    ensures x * x <= (if lo * lo <= hi * hi then hi * hi else lo * lo)
  {
    if x >= 0.0 {
      assert x * x <= hi * x <= hi * hi;
    } else {
      assert x * x <= lo * x <= lo * lo;
    }
  }

  /** One axis of the finder (BoundsFinder::MaxMinFinder). */
  class MaxMinFinder {
    var max: Extended
    var min: Extended
    /** Every value added so far, in order. */
    ghost var added: seq<real>

    ghost predicate Valid()
      reads this
    {
      min == MinOf(added) && max == MaxOf(added)
    }

    /** A fresh axis starts at min = +infinity and max = -infinity. */
    constructor ()
      ensures Valid() && added == []
      ensures min == PosInf && max == NegInf
    {
      min := PosInf;
      max := NegInf;
      added := [];
    }

    /** Widens the range to include `f`: min never increases and max never decreases. */
    method Add(f: real)
      requires Valid()
      modifies this
      ensures Valid() && added == old(added) + [f]
      ensures AtMost(min, old(min)) && AtMost(old(max), max)
      ensures AtMost(min, Finite(f)) && AtMost(Finite(f), max)
    {
      if Less(max, Finite(f)) { max := Finite(f); }
      if Less(Finite(f), min) { min := Finite(f); }
      added := added + [f];
      assert added[..|added| - 1] == old(added);
    }

    /** max(max*max, min*min): at least the square of every added value; +infinity while empty. */
    function MaxSquared(): (r: Extended)
      reads this
      requires Valid()
      ensures added == [] ==> r == PosInf
      ensures added != [] ==> SquaresBoundedBy(added, r)
    {
      MaxSquaredEmpty();
      assert added != [] ==> SquaresBoundedBy(added, MaxSquaredOf(min, max)) by {
        if added != [] { SquaresBounded(added); }
      }
      MaxSquaredOf(min, max)
    }
  }

  /** The body of getMaxSquared: the larger of the two squares. */
  function MaxSquaredOf(min: Extended, max: Extended): Extended {
      var m1 := Square(max);
      var m2 := Square(min);
      if AtMost(m2, m1) then m1 else m2
  }

  ghost predicate SquaresBoundedBy(s: seq<real>, r: Extended) {
    r.Finite? && forall f :: f in s ==> f * f <= r.value
  }

  lemma MaxSquaredEmpty()
    ensures MaxSquaredOf(MinOf([]), MaxOf([])) == PosInf
  {
  }

  /** The larger square of the two ends bounds the square of every value in `s`. */
  lemma SquaresBounded(s: seq<real>)
    requires s != []
    ensures SquaresBoundedBy(s, MaxSquaredOf(MinOf(s), MaxOf(s)))
  {
    MinMaxBound(s);
    var lo, hi := MinOf(s).value, MaxOf(s).value;
    assert forall i :: 0 <= i < |s| ==> lo <= s[i] <= hi;
    SquaresWithin(s, lo, hi);
    MaxSquaredOfFinite(lo, hi);
  }

  lemma MaxSquaredOfFinite(lo: real, hi: real)
    ensures MaxSquaredOf(Finite(lo), Finite(hi)) == Finite(if lo * lo <= hi * hi then hi * hi else lo * lo)
  {
  }

  lemma SquaresWithin(s: seq<real>, lo: real, hi: real)
    requires forall i :: 0 <= i < |s| ==> lo <= s[i] <= hi
    ensures SquaresBoundedBy(s, Finite(if lo * lo <= hi * hi then hi * hi else lo * lo))
  {
    forall f | f in s
      ensures f * f <= (if lo * lo <= hi * hi then hi * hi else lo * lo)
    {
      var i :| 0 <= i < |s| && s[i] == f;
      SquareBetween(lo, f, hi);
    }
  }

  /**
   * Coordinate `axis` (0, 1 or 2) of each of the first `verts` points of a
   * flat x, y, z, x, y, z, ... buffer; none when `verts` is not positive.
   */
  function Coordinates(data: seq<real>, verts: int, axis: nat): (r: seq<real>)
    requires axis < 3
    requires verts <= 0 || 3 * verts <= |data|
    ensures |r| == (if verts <= 0 then 0 else verts)
  {
    if verts <= 0 then []
    else Coordinates(data, verts - 1, axis) + [data[3 * (verts - 1) + axis]]
  }

  /** Adding the coordinate `v` of point `prev` extends the coordinates seen so far by one. */
  lemma CoordinatesNext(prefix: seq<real>, data: seq<real>, prev: nat, next: int, axis: nat, v: real)
    requires axis < 3 && next == prev + 1 && 3 * next <= |data| && v == data[3 * prev + axis]
    ensures (prefix + Coordinates(data, prev, axis)) + [v] == prefix + Coordinates(data, next, axis)
  {
    assert Coordinates(data, next, axis) == Coordinates(data, prev, axis) + [v];
  }

  /** The three-axis bounds of a mesh (class BoundsFinder). */
  class BoundsFinder {
    const X: MaxMinFinder
    const Y: MaxMinFinder
    const Z: MaxMinFinder

    /** The three axes are distinct, each is consistent, and each has seen the same number of points. */
    ghost predicate Valid()
      reads this, X, Y, Z
    {
      X != Y && Y != Z && X != Z &&
      X.Valid() && Y.Valid() && Z.Valid() &&
      |X.added| == |Y.added| == |Z.added|
    }

    /** The number of points added so far. */
    ghost function Count(): nat
      reads this, X
    {
      |X.added|
    }

    constructor ()
      ensures Valid() && fresh(X) && fresh(Y) && fresh(Z) && Count() == 0
    {
      X := new MaxMinFinder();
      Y := new MaxMinFinder();
      Z := new MaxMinFinder();
    }

    /** Adds the `verts` points stored as consecutive x, y, z triples in `data`. */
    method Add(data: seq<real>, verts: int)
      requires Valid()
      requires verts <= 0 || 3 * verts <= |data|
      modifies X, Y, Z
      ensures Valid()
      ensures X.added == old(X.added) + Coordinates(data, verts, 0)
      ensures Y.added == old(Y.added) + Coordinates(data, verts, 1)
      ensures Z.added == old(Z.added) + Coordinates(data, verts, 2)
    {
      var i := 0;
      while i < verts
        invariant 0 <= i && (verts <= 0 ==> i == 0) && (verts > 0 ==> i <= verts)
        invariant Valid()
        invariant X.added == old(X.added) + Coordinates(data, i, 0)
        invariant Y.added == old(Y.added) + Coordinates(data, i, 1)
        invariant Z.added == old(Z.added) + Coordinates(data, i, 2)
      {
        ghost var prev := i;
        var x, y, z := data[3 * i], data[3 * i + 1], data[3 * i + 2];
        AddPoint(x, y, z);
        i := i + 1;
        CoordinatesNext(old(X.added), data, prev, i, 0, x);
        CoordinatesNext(old(Y.added), data, prev, i, 1, y);
        CoordinatesNext(old(Z.added), data, prev, i, 2, z);
      }
    }

    /** One step of Add: the point (x, y, z) goes to the three axes. */
    method AddPoint(x: real, y: real, z: real)
      requires Valid()
      modifies X, Y, Z
      ensures Valid()
      ensures X.added == old(X.added) + [x] && Y.added == old(Y.added) + [y] && Z.added == old(Z.added) + [z]
    {
      X.Add(x);
      Y.Add(y);
      Z.Add(z);
    }

    /** min <= max on every axis. */
    predicate IsValid()
      reads this, X, Y, Z
    {
      AtMost(X.min, X.max) && AtMost(Y.min, Y.max) && AtMost(Z.min, Z.max)
    }

    /** The squared radius from the origin: the sum of the three axes' MaxSquared. */
    function RadiusSquared(): (r: Extended)
      reads this, X, Y, Z
      requires Valid()
      ensures Count() > 0 ==> r.Finite?
      ensures Count() > 0 ==> forall i :: 0 <= i < Count() ==>
        X.added[i] * X.added[i] + Y.added[i] * Y.added[i] + Z.added[i] * Z.added[i] <= r.value
    {
      var r := Plus(Plus(X.MaxSquared(), Y.MaxSquared()), Z.MaxSquared());
      assert Count() > 0 ==> forall i :: 0 <= i < Count() ==>
        X.added[i] in X.added && Y.added[i] in Y.added && Z.added[i] in Z.added;
      r
    }
  }

  /** A finder is valid exactly when at least one point has been added. */
  lemma IsValidIffNonEmpty(b: BoundsFinder)
    requires b.Valid()
    ensures b.IsValid() <==> b.Count() > 0
  {
    MinMaxBound(b.X.added);
    MinMaxBound(b.Y.added);
    MinMaxBound(b.Z.added);
  }
}
