/** Making import timestamps strictly increasing. */
module Timestamps {
  import opened Records

  /** The timestamp the loop leaves at position `i`: the old one, or one past its predecessor. */
  function DedupAt(ts: seq<nat>, start: nat, i: nat): nat
    requires i < |ts|
  {
    var prev := if i == 0 then start else DedupAt(ts, start, i - 1);
    if ts[i] <= prev then prev + 1 else ts[i]
  }

  function Dedup(ts: seq<nat>, start: nat): (r: seq<nat>)
    ensures |r| == |ts|
  {
    seq(|ts|, i requires 0 <= i < |ts| => DedupAt(ts, start, i))
  }

  /** Strictly increasing from `start`, and no timestamp is lowered. */
  ghost predicate Admissible(ts: seq<nat>, start: nat, r: seq<nat>) {
    && |r| == |ts|
    && (forall i :: 0 <= i < |r| ==> r[i] > start && r[i] >= ts[i])
    && (forall i, j :: 0 <= i < j < |r| ==> r[i] < r[j])
  }

  lemma {:induction false} DedupStep(ts: seq<nat>, start: nat, i: nat, j: nat)
    requires i < j < |ts|
    ensures DedupAt(ts, start, i) < DedupAt(ts, start, j)
    decreases j
  {
    if i < j - 1 {
      DedupStep(ts, start, i, j - 1);
    }
  }

  lemma {:induction false} DedupAboveStart(ts: seq<nat>, start: nat, i: nat)
    requires i < |ts|
    ensures DedupAt(ts, start, i) > start
  {
    if i > 0 {
      DedupAboveStart(ts, start, i - 1);
    }
  }

  lemma {:induction false} DedupBelow(ts: seq<nat>, start: nat, r: seq<nat>, i: nat)
    requires Admissible(ts, start, r) && i < |ts|
    ensures DedupAt(ts, start, i) <= r[i]
  {
    if i > 0 {
      DedupBelow(ts, start, r, i - 1);
    }
  }

  /** The output is the pointwise least admissible sequence, for sorted or unsorted input. */
  lemma DedupIsLeast(ts: seq<nat>, start: nat)
    ensures Admissible(ts, start, Dedup(ts, start))
    ensures forall r, i :: Admissible(ts, start, r) && 0 <= i < |r| ==> Dedup(ts, start)[i] <= r[i]
  {
    forall i | 0 <= i < |ts|
      ensures Dedup(ts, start)[i] > start
    {
      DedupAboveStart(ts, start, i);
    }
    forall i, j | 0 <= i < j < |ts|
      ensures Dedup(ts, start)[i] < Dedup(ts, start)[j]
    {
      DedupStep(ts, start, i, j);
    }
    forall r, i | Admissible(ts, start, r) && 0 <= i < |r|
      ensures Dedup(ts, start)[i] <= r[i]
    {
      DedupBelow(ts, start, r, i);
    }
  }

  /** Closed form: the maximum of `start + 1 + i` and every `ts[j] + (i - j)` with `j <= i`. */
  lemma {:induction false} DedupClosedForm(ts: seq<nat>, start: nat, i: nat)
    requires i < |ts|
    ensures DedupAt(ts, start, i) >= start + 1 + i
    ensures forall j :: 0 <= j <= i ==> DedupAt(ts, start, i) >= ts[j] + (i - j)
    ensures || DedupAt(ts, start, i) == start + 1 + i
            || exists j :: 0 <= j <= i && DedupAt(ts, start, i) == ts[j] + (i - j)
  {
    if i > 0 {
      DedupClosedForm(ts, start, i - 1);
    }
    if ts[i] == DedupAt(ts, start, i) {
      assert DedupAt(ts, start, i) == ts[i] + (i - i);
    } else if i > 0 && DedupAt(ts, start, i - 1) != start + i {
      var j :| 0 <= j <= i - 1 && DedupAt(ts, start, i - 1) == ts[j] + (i - 1 - j);
      assert DedupAt(ts, start, i) == ts[j] + (i - j);
    }
  }

  /** Timestamps that are already strictly increasing above `start` are left alone, and only those. */
  lemma DedupIdentityIff(ts: seq<nat>, start: nat)
    ensures Dedup(ts, start) == ts <==> Admissible(ts, start, ts)
  {
    DedupIsLeast(ts, start);
    if Admissible(ts, start, ts) {
      assert forall i :: 0 <= i < |ts| ==> Dedup(ts, start)[i] == ts[i];
    }
  }

  function TransferTimestamps(ts: seq<Transfer>): (r: seq<nat>)
    ensures |r| == |ts|
  {
    seq(|ts|, i requires 0 <= i < |ts| => ts[i].timestamp)
  }

  /** The transfers with their timestamps made strictly increasing from `start`. */
  function DedupTransfers(ts: seq<Transfer>, start: nat): (r: seq<Transfer>)
    ensures |r| == |ts|
  {
    if ts == [] then []
    else
      var r, t := DedupTransfers(ts[..|ts| - 1], start), ts[|ts| - 1];
      var prev := if r == [] then start else r[|r| - 1].timestamp;
      r + [if t.timestamp <= prev then t.(timestamp := prev + 1) else t]
  }

  lemma {:induction false} DedupTransfersAt(ts: seq<Transfer>, start: nat, i: nat)
    requires i < |ts|
    ensures DedupTransfers(ts, start)[i] == ts[i].(timestamp := DedupAt(TransferTimestamps(ts), start, i))
  {
    var init, n := ts[..|ts| - 1], |ts| - 1;
    if i < n {
      DedupTransfersAt(init, start, i);
      DedupPrefix(TransferTimestamps(init), TransferTimestamps(ts), start, i);
    } else if n > 0 {
      DedupTransfersAt(init, start, n - 1);
      DedupPrefix(TransferTimestamps(init), TransferTimestamps(ts), start, n - 1);
    }
  }

  lemma {:induction false} DedupPrefix(ts: seq<nat>, us: seq<nat>, start: nat, i: nat)
    requires i < |ts| <= |us| && ts == us[..|ts|]
    ensures DedupAt(ts, start, i) == DedupAt(us, start, i)
  {
    if i > 0 {
      DedupPrefix(ts, us, start, i - 1);
    }
  }

  /** One more transfer at the end. */
  lemma DedupSnoc(ts: seq<Transfer>, i: nat, start: nat)
    requires i < |ts|
    ensures var r, t := DedupTransfers(ts[..i], start), ts[i];
            var prev := if i == 0 then start else r[i - 1].timestamp;
            DedupTransfers(ts[..i + 1], start) == r + [if t.timestamp <= prev then t.(timestamp := prev + 1) else t]
  {
    assert ts[..i + 1][..i] == ts[..i];
  }

  /** In place: bumps every timestamp that does not exceed its predecessor. */
  method DedupeTimestamps(a: array<Transfer>, startPrev: nat)
    modifies a
    ensures a[..] == DedupTransfers(old(a[..]), startPrev)
  {
    hide DedupTransfers;
    ghost var source := a[..];
    NothingToDedup(startPrev);
    var prev := startPrev;
    for i := 0 to a.Length
      invariant prev == if i == 0 then startPrev else a[i - 1].timestamp
      invariant a[..i] == DedupTransfers(source[..i], startPrev)
      invariant a[i..] == source[i..]
    {
      DedupSnoc(source, i, startPrev);
      assert a[i] == a[i..][0] == source[i];
      ghost var done := a[..i];
      if a[i].timestamp <= prev {
        a[i] := a[i].(timestamp := prev + 1);
      }
      prev := a[i].timestamp;
      assert a[..i + 1] == done + [a[i]];
    }
    assert a[..] == a[..a.Length] && source[..a.Length] == source;
  }

  lemma NothingToDedup(start: nat)
    ensures DedupTransfers([], start) == []
  {
  }
}
