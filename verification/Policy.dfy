/** Restart budgets and capped exponential backoff. */
module Policy {

  // ---------------------------------------------------------------- rolling budget

  /** The recorded decisions without the leading ones at or before `cutoff`. */
  function Recent(uses: seq<int>, cutoff: int): seq<int>
  {
    if uses == [] || uses[0] > cutoff then uses else Recent(uses[1..], cutoff)
  }

  /** One decision at `now`: the decisions recorded afterwards and whether it was admitted. */
  function Consume(uses: seq<int>, now: int, max: nat, window: nat): (seq<int>, bool)
  {
    var kept := Recent(uses, now - window);
    if |kept| >= max then (kept, false) else (kept + [now], true)
  }

  class RollingBudget {
    const max: nat
    const window: nat
    var uses: seq<int>

    constructor (max: nat, window: nat)
      ensures this.max == max && this.window == window && uses == []
    {
      this.max, this.window, uses := max, window, [];
    }

    method TryConsume(now: int) returns (admitted: bool)
      modifies this
      ensures (uses, admitted) == Consume(old(uses), now, max, window)
    {
      var cutoff := now - window;
      var first := 0;
      while first < |uses| && uses[first] <= cutoff
        invariant 0 <= first <= |uses| && uses == old(uses)
        invariant Recent(uses[first..], cutoff) == Recent(uses, cutoff)
      {
        first := first + 1;
      }
      uses := uses[first..];
      if |uses| >= max { return false; }
      uses := uses + [now];
      return true;
    }

    method Reset()
      modifies this
      ensures uses == []
    {
      uses := [];
    }
  }

  /** The budget after decisions at `times` with no reset in between. */
  function Uses(times: seq<int>, max: nat, window: nat): seq<int>
  {
    if times == [] then []
    else Consume(Uses(times[..|times| - 1], max, window), times[|times| - 1], max, window).0
  }

  /** The times at which a decision was admitted. */
  function Admitted(times: seq<int>, max: nat, window: nat): seq<int>
  {
    if times == [] then []
    else
      var before, now := times[..|times| - 1], times[|times| - 1];
      Admitted(before, max, window) + if Consume(Uses(before, max, window), now, max, window).1 then [now] else []
  }

  ghost predicate NonDecreasing(times: seq<int>)
  {
    forall i, j :: 0 <= i < j < |times| ==> times[i] <= times[j]
  }

  lemma {:induction false} RecentIsSuffix(uses: seq<int>, cutoff: int) returns (k: nat)
    ensures k <= |uses| && Recent(uses, cutoff) == uses[k..]
    ensures forall i :: 0 <= i < k ==> uses[i] <= cutoff
    ensures NonDecreasing(uses) ==> forall i :: k <= i < |uses| ==> uses[i] > cutoff
  {
    if uses == [] || uses[0] > cutoff {
      k := 0;
    } else {
      var k' := RecentIsSuffix(uses[1..], cutoff);
      k := k' + 1;
      assert uses[1..][k'..] == uses[k..];
      forall i | 0 <= i < k ensures uses[i] <= cutoff {
        if i > 0 { assert uses[i] == uses[1..][i - 1]; }
      }
      forall i | NonDecreasing(uses) && k <= i < |uses| ensures uses[i] > cutoff { assert uses[i] == uses[1..][i - 1]; }
    }
  }

  /** Decisions `max` admissions apart are at least a window apart, and all but the last `max` or
      fewer, from index `d` on, are outside the window that ends at `last`. */
  ghost predicate Spaced(admitted: seq<int>, d: nat, last: int, max: nat, window: nat)
  {
    && NonDecreasing(admitted) && (forall i :: 0 <= i < |admitted| ==> admitted[i] <= last)
    && (forall i :: 0 <= i && i + max < |admitted| ==> admitted[i] + window <= admitted[i + max])
    && d <= |admitted| <= d + max
    && (forall i :: 0 <= i < d ==> admitted[i] <= last - window)
  }

  lemma DropKeepsSpaced(admitted: seq<int>, d: nat, last: int, now: int, max: nat, window: nat) returns (d': nat)
    requires Spaced(admitted, d, last, max, window) && last <= now
    ensures Spaced(admitted, d', now, max, window) && Recent(admitted[d..], now - window) == admitted[d'..]
    ensures forall i :: d' <= i < |admitted| ==> now - window < admitted[i]
  {
    var k := RecentIsSuffix(admitted[d..], now - window);
    d' := d + k;
    assert admitted[d..][k..] == admitted[d'..];
    forall i | d <= i < d' ensures admitted[i] <= now - window { assert admitted[i] == admitted[d..][i - d]; }
    forall i | d' <= i < |admitted| ensures now - window < admitted[i] { assert admitted[i] == admitted[d..][i - d]; }
  }

  lemma AdmitKeepsSpaced(admitted: seq<int>, d: nat, now: int, max: nat, window: nat)
    requires Spaced(admitted, d, now, max, window) && |admitted| - d < max
    ensures Spaced(admitted + [now], d, now, max, window)
  {
    var more := admitted + [now];
    forall i | 0 <= i && i + max < |more| ensures more[i] + window <= more[i + max] {
      if i + max == |admitted| { assert i < d; }
    }
  }

  lemma PrefixNonDecreasing(times: seq<int>, now: int)
    requires NonDecreasing(times + [now])
    ensures NonDecreasing(times) && (times != [] ==> times[|times| - 1] <= now)
  {
    var all := times + [now];
    forall i, j | 0 <= i < j < |times| ensures times[i] <= times[j] { assert all[i] <= all[j]; }
    if times != [] { assert all[|times| - 1] <= all[|times|]; }
  }

  /** The recorded decisions are always the last admitted ones, missing none inside the window. */
  lemma {:induction false} PlaySpaced(times: seq<int>, last: int, max: nat, window: nat) returns (d: nat)
    requires NonDecreasing(times) && (times != [] ==> times[|times| - 1] <= last)
    ensures Spaced(Admitted(times, max, window), d, last, max, window)
    ensures Uses(times, max, window) == Admitted(times, max, window)[d..]
  {
    if times == [] {
      d := 0;
    } else {
      var before, now := times[..|times| - 1], times[|times| - 1];
      assert times == before + [now];
      PrefixNonDecreasing(before, now);
      PlayStep(before, now, max, window);
      d := PlaySpaced(before, now, max, window);
      d := StepSpaced(Admitted(before, max, window), d, now, last, max, window);
    }
  }

  lemma StepSpaced(admitted: seq<int>, d: nat, now: int, last: int, max: nat, window: nat) returns (d': nat)
    requires Spaced(admitted, d, now, max, window) && now <= last
    ensures var kept := Recent(admitted[d..], now - window);
      var more := admitted + (if |kept| >= max then [] else [now]);
      && Spaced(more, d', last, max, window)
      && (if |kept| >= max then kept else kept + [now]) == more[d'..]
  {
    d' := DropKeepsSpaced(admitted, d, now, now, max, window);
    if |admitted| - d' < max {
      AdmitKeepsSpaced(admitted, d', now, max, window);
      assert (admitted + [now])[d'..] == admitted[d'..] + [now];
      LaterKeepsSpaced(admitted + [now], d', now, last, max, window);
    } else {
      LaterKeepsSpaced(admitted, d', now, last, max, window);
      assert admitted + [] == admitted;
    }
  }

  lemma PlayStep(before: seq<int>, now: int, max: nat, window: nat)
    ensures var kept := Recent(Uses(before, max, window), now - window);
      && Uses(before + [now], max, window) == (if |kept| >= max then kept else kept + [now])
      && Admitted(before + [now], max, window) == Admitted(before, max, window) + (if |kept| >= max then [] else [now])
  {
    assert (before + [now])[..|before|] == before;
  }

  lemma LaterKeepsSpaced(admitted: seq<int>, d: nat, last: int, later: int, max: nat, window: nat)
    requires Spaced(admitted, d, last, max, window) && last <= later
    ensures Spaced(admitted, d, later, max, window)
  {
  }

  /** Over any nondecreasing times no half-open window of the configured length holds more than
      `max` admitted decisions: a run of them from `i` to `j` inside it has at most that many. */
  lemma WindowHoldsAtMostMax(times: seq<int>, max: nat, window: nat, from: int, i: nat, j: nat)
    requires NonDecreasing(times)
    requires i <= j < |Admitted(times, max, window)|
    requires from <= Admitted(times, max, window)[i] && Admitted(times, max, window)[j] < from + window
    ensures j - i + 1 <= max
  {
    var d := PlaySpaced(times, times[|times| - 1], max, window);
    var admitted := Admitted(times, max, window);
    if i + max <= j { FarApart(admitted, d, times[|times| - 1], max, window, i, j); }
  }

  lemma FarApart(admitted: seq<int>, d: nat, last: int, max: nat, window: nat, i: nat, j: nat)
    requires Spaced(admitted, d, last, max, window) && i + max <= j < |admitted|
    ensures admitted[i] + window <= admitted[j]
  {
    assert i + max == j || admitted[i + max] <= admitted[j];
  }

  /** A decision is refused only when `max` were admitted in the window that ends with it. */
  lemma RefusedOnlyWhenFull(times: seq<int>, now: int, max: nat, window: nat) returns (i: nat)
    requires NonDecreasing(times + [now])
    requires !Consume(Uses(times, max, window), now, max, window).1
    ensures i + max == |Admitted(times, max, window)|
    ensures forall k :: i <= k < |Admitted(times, max, window)| ==> now - window < Admitted(times, max, window)[k] <= now
  {
    PrefixNonDecreasing(times, now);
    i := PlaySpaced(times, now, max, window);
    i := DropKeepsSpaced(Admitted(times, max, window), i, now, now, max, window);
  }

  // ---------------------------------------------------------------- backoff

  function Pow2(e: nat): (p: nat)
    ensures p >= 1
  {
    if e == 0 then 1 else 2 * Pow2(e - 1)
  }

  /** The delay doubled `e` times and capped. */
  function Capped(initial: nat, maximum: nat, e: nat): nat
  {
    if initial * Pow2(e) <= maximum then initial * Pow2(e) else maximum
  }

  /** The capped doubling, exact except that a delay one short of an odd maximum is rounded up to it. */
  method ExponentialBackoff(initial: nat, maximum: nat, exponent: int) returns (delay: nat)
    ensures var e := if exponent < 0 then 0 else exponent;
      delay == if e > 0 && maximum % 2 == 1 && initial * Pow2(e) == maximum - 1 then maximum else Capped(initial, maximum, e)
    ensures var e := if exponent < 0 then 0 else exponent;
      Capped(initial, maximum, e) <= delay <= Capped(initial, maximum, e) + 1 && delay <= maximum
  {
    delay := initial;
    var i := 0;
    while i < exponent
      invariant 0 <= i && (exponent >= 0 ==> i <= exponent) && (exponent < 0 ==> i == 0)
      invariant delay == initial * Pow2(i)
      invariant i > 0 ==> delay <= maximum && !(maximum % 2 == 1 && delay == maximum - 1)
    {
      if delay >= maximum / 2 {
        PastHalf(initial, maximum, i, exponent);
        return maximum;
      }
      assert initial * Pow2(i + 1) == 2 * (initial * Pow2(i));
      delay := delay * 2;
      i := i + 1;
    }
    if delay > maximum { return maximum; }
  }

  /** Half of the maximum reached before the last doubling: the exact value is the maximum, or one less. */
  lemma {:induction false} PastHalf(initial: nat, maximum: nat, i: nat, e: nat)
    requires i < e && initial * Pow2(i) >= maximum / 2
    ensures initial * Pow2(e) >= maximum || (maximum % 2 == 1 && initial * Pow2(e) == maximum - 1)
    decreases e
  {
    assert initial * Pow2(e) == 2 * (initial * Pow2(e - 1));
    if i < e - 1 { PastHalf(initial, maximum, i, e - 1); }
  }
}
