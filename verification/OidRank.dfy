/** A numeric rank that grows along the OID order.

    A request can only be sent for an identifier the codec can carry: at most 127
    sub-identifiers of 32 bits on the wire.  There are finitely many of those, so a cursor that only
    moves forward runs out of them.  The rank makes that bound usable as a termination
    measure. */
module OidRank {
  import opened Oids

  /** One more than the largest sub-identifier (uint32). */
  const ARC_LIMIT: nat := 0x1_0000_0000

  /** The digits an identifier is read in: 0 for "ended", then each arc plus one. */
  function Size(n: nat): (s: nat)
    ensures s > 0
  {
    if n == 0 then 1 else (ARC_LIMIT + 1) * Size(n - 1)
  }

  /** The first `n` digits of `o` as one number, saturating at the first arc that is no uint32. */
  function Rank(o: Oid, n: nat): (r: nat)
    ensures r <= Size(n)
  {
    if n == 0 || o == [] then 0
    else if o[0] >= ARC_LIMIT then Size(n)
    else
      DigitFits(o[0] + 1, Size(n - 1));
      (o[0] + 1) * Size(n - 1) + Rank(o[1..], n - 1)
  }

  lemma DigitFits(d: nat, s: nat)
    requires d <= ARC_LIMIT
    ensures d * s + s <= (ARC_LIMIT + 1) * s
  {
    assert d * s + s == (d + 1) * s;
    assert (ARC_LIMIT + 1) * s - (d + 1) * s == (ARC_LIMIT - d) * s;
  }

  lemma DigitGap(x: nat, y: nat, s: nat)
    requires x < y
    ensures (x + 1) * s + s <= (y + 1) * s
  {
    assert (y + 1) * s - (x + 2) * s == (y - x - 1) * s;
    assert (x + 1) * s + s == (x + 2) * s;
  }

  predicate ArcsFit(o: Oid)
  {
    forall i :: 0 <= i < |o| ==> o[i] < ARC_LIMIT
  }

  lemma {:induction false} RankBelowSize(o: Oid, n: nat)
    requires ArcsFit(o) && |o| < n
    ensures Rank(o, n) < Size(n)
  {
    if o != [] {
      RankBelowSize(o[1..], n - 1);
      DigitFits(o[0] + 1, Size(n - 1));
    }
  }

  /** The rank follows the order, strictly when the smaller identifier is one the codec can carry. */
  lemma {:induction false} RankMonotone(a: Oid, b: Oid, n: nat)
    requires Less(a, b)
    ensures Rank(a, n) <= Rank(b, n)
    ensures ArcsFit(a) && |a| < n ==> Rank(a, n) < Rank(b, n)
  {
    if n == 0 || a == [] {
      if n > 0 && b[0] < ARC_LIMIT { assert (b[0] + 1) * Size(n - 1) >= Size(n - 1) by { DigitGap0(b[0], Size(n - 1)); } }
    } else if a[0] == b[0] {
      RankMonotone(a[1..], b[1..], n - 1);
    } else {
      var s := Size(n - 1);
      DigitGap(a[0], b[0], s);
      if a[0] < ARC_LIMIT {
        DigitFits(a[0] + 1, s);
        assert Rank(a, n) <= (a[0] + 1) * s + s;
        if ArcsFit(a) && |a| < n { RankBelowSize(a[1..], n - 1); }
      }
    }
  }

  lemma DigitGap0(y: nat, s: nat)
    ensures (y + 1) * s >= s
  {
    assert (y + 1) * s == y * s + s;
  }
}
