/** Object identifiers and the order a walk visits them in.

    An identifier is the sequence of its sub-identifiers.  Comparison goes arc by arc
    with a prefix before everything under it, which is what comparing minimal wire
    encodings group by group amounts to. */
module Oids {

  type Oid = seq<nat>

  /** Strictly before, arc by arc. */
  predicate Less(a: Oid, b: Oid)
  {
    b != [] && (a == [] || a[0] < b[0] || (a[0] == b[0] && Less(a[1..], b[1..])))
  }

  predicate AtMost(a: Oid, b: Oid)
  {
    a == b || Less(a, b)
  }

  /** Whether `p` names `o` or one of its ancestors. */
  predicate HasPrefix(o: Oid, p: Oid)
  {
    p <= o
  }

  /** Whether `o` lies strictly below `root`. */
  predicate Under(root: Oid, o: Oid)
  {
    root < o
  }

  /** The three-way comparison the code branches on. */
  function Compare(a: Oid, b: Oid): (c: int)
    ensures c < 0 <==> Less(a, b)
    ensures c == 0 <==> a == b
    ensures c > 0 <==> Less(b, a)
  {
    if a == [] && b == [] then 0
    else if a == [] then -1
    else if b == [] then 1
    else if a[0] < b[0] then -1
    else if b[0] < a[0] then 1
    else
      assert a == [a[0]] + a[1..] && b == [b[0]] + b[1..];
      Compare(a[1..], b[1..])
  }

  lemma {:induction false} LessIrreflexive(a: Oid)
    ensures !Less(a, a)
  {
    if a != [] { LessIrreflexive(a[1..]); }
  }

  lemma {:induction false} LessTransitive(a: Oid, b: Oid, c: Oid)
    requires Less(a, b) && Less(b, c)
    ensures Less(a, c)
  {
    if a != [] && a[0] == b[0] && b[0] == c[0] {
      LessTransitive(a[1..], b[1..], c[1..]);
    }
  }

  /** The order is total and never holds both ways. */
  lemma LessTotal(a: Oid, b: Oid)
    ensures Less(a, b) || a == b || Less(b, a)
    ensures !(Less(a, b) && Less(b, a)) && !(a == b && Less(a, b))
  {
    var _ := Compare(a, b);
  }

  lemma AtMostTransitive(a: Oid, b: Oid, c: Oid)
    requires AtMost(a, b) && AtMost(b, c)
    ensures AtMost(a, c)
    ensures Less(a, b) || Less(b, c) ==> Less(a, c)
  {
    if a != b && b != c { LessTransitive(a, b, c); }
  }

  /** Comparing two identifiers that share a prefix is comparing what follows it. */
  lemma {:induction false} LessSharedPrefix(p: Oid, a: Oid, b: Oid)
    ensures Less(p + a, p + b) <==> Less(a, b)
  {
    if p == [] {
      assert p + a == a && p + b == b;
    } else {
      assert (p + a)[1..] == p[1..] + a && (p + b)[1..] == p[1..] + b;
      LessSharedPrefix(p[1..], a, b);
    }
  }

  lemma LessSuffix(p: Oid, a: Oid, b: Oid)
    requires HasPrefix(a, p) && HasPrefix(b, p)
    ensures Less(a, b) <==> Less(a[|p|..], b[|p|..])
    ensures a == b <==> a[|p|..] == b[|p|..]
  {
    assert a == p + a[|p|..] && b == p + b[|p|..];
    LessSharedPrefix(p, a[|p|..], b[|p|..]);
  }

  lemma UnderIsLess(p: Oid, a: Oid)
    requires Under(p, a)
    ensures Less(p, a)
  {
    assert a == p + a[|p|..] && p == p + [];
    LessSharedPrefix(p, [], a[|p|..]);
  }

  /** Everything below one identifier is contiguous in the order. */
  lemma {:induction false} SubtreeContiguous(p: Oid, a: Oid, b: Oid, c: Oid)
    requires HasPrefix(a, p) && HasPrefix(c, p)
    requires Less(a, b) && Less(b, c)
    ensures HasPrefix(b, p)
  {
    if p != [] {
      assert a[0] == p[0] == c[0];
      assert a[0] == b[0];
      SubtreeContiguous(p[1..], a[1..], b[1..], c[1..]);
      assert b == [b[0]] + b[1..] && p == [p[0]] + p[1..];
    }
  }

  /** The least identifier of a non-empty finite set exists. */
  lemma LeastExists(s: set<Oid>) returns (m: Oid)
    requires s != {}
    ensures m in s && forall o :: o in s ==> AtMost(m, o)
  {
    var x :| x in s;
    if s == {x} {
      m := x;
    } else {
      var rest := s - {x};
      var y := LeastExists(rest);
      LessTotal(x, y);
      m := if Less(x, y) then x else y;
      forall o | o in s ensures AtMost(m, o) {
        if o != x { AtMostTransitive(m, y, o); }
      }
    }
  }
}
