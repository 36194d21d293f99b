/** Whether a CSV import is accepted whatever order the hash map iterates its keys in. */
module CsvOrders {
  import opened Records
  import opened Sorting
  import opened Ledgers
  import opened Importers
  import opened Acceptance
  import opened CsvPlanning

  // ---------------------------------------------------------------------------
  // The condition, on the transfers and the cluster
  // ---------------------------------------------------------------------------

  /** Account `a` is open, in the ledger of `t`, and older than all synthetic transfers. */
  predicate OldEnough(a: Account, t: Transfer, base: nat) {
    a.ledger == t.ledger && a.timestamp < base && !Closed(a.flags)
  }

  /**
    The debit account of `t` takes all that the transfers before the cutoff debit from it, with no help from
    what they credit to it.
   */
  ghost predicate OpeningCoversDebits(c: Cluster, pre: seq<Transfer>, t: Transfer, base: nat) {
    var debits := c.debits(t.debitAccountId) + Debits(pre, t.debitAccountId);
    exists a :: a in c.accounts && a.id == t.debitAccountId && OldEnough(a, t, base) && debits <= U128_MAX
                && (DebitsMustNotExceedCredits(a.flags) ==> debits <= c.credits(a.id))
  }

  ghost predicate OpeningCoversCredits(c: Cluster, pre: seq<Transfer>, t: Transfer, base: nat) {
    var credits := c.credits(t.creditAccountId) + Credits(pre, t.creditAccountId);
    exists a :: a in c.accounts && a.id == t.creditAccountId && OldEnough(a, t, base) && credits <= U128_MAX
                && (CreditsMustNotExceedDebits(a.flags) ==> credits <= c.debits(a.id))
  }

  ghost predicate Compressible(c: Cluster, pre: seq<Transfer>, t: Transfer, base: nat) {
    && t.debitAccountId != t.creditAccountId && t.ledger != 0
    && OpeningCoversDebits(c, pre, t, base) && OpeningCoversCredits(c, pre, t, base)
  }

  /** The transfers before the cutoff can be imported compressed, in every order. */
  ghost predicate KeysImportable(c: Cluster, pre: seq<Transfer>, cutoffTs: nat) {
    var n := |KeySet(pre)|;
    var base := BaseTimestamp(cutoffTs, n);
    n > 0 ==>
      && c.idsUsed == 0 && base > c.lastTimestamp && TimestampOk(base + n - 1, c.clock)
      && forall t <- pre :: Compressible(c, pre, t, base)
  }

  /** What is known of the cluster once the transfers before the cutoff are in. */
  function AfterKeys(c: Cluster, pre: seq<Transfer>, cutoffTs: nat): Cluster {
    var n := |KeySet(pre)|;
    Cluster(c.accounts, (id: nat) => c.debits(id) + Debits(pre, id), (id: nat) => c.credits(id) + Credits(pre, id),
            if n == 0 then c.idsUsed else n,
            if n == 0 then c.lastTimestamp else BaseTimestamp(cutoffTs, n) + n - 1, c.clock)
  }

  /** The CSV transfers can be imported with this cutoff, in every order. */
  ghost predicate CsvImportable(c: Cluster, ts: seq<Transfer>, cutoffTs: nat) {
    var pre := Before(ts, cutoffTs);
    KeysImportable(c, pre, cutoffTs) && TransfersImportable(AfterKeys(c, pre, cutoffTs), WindowedPart(ts, cutoffTs))
  }

  // ---------------------------------------------------------------------------
  // The compressed transfers
  // ---------------------------------------------------------------------------

  function KeyTransfers(pre: seq<Transfer>, order: seq<Key>, cutoffTs: nat): (r: seq<Transfer>)
    ensures |r| == |order|
    ensures var base := BaseTimestamp(cutoffTs, |order|);
            forall i :: 0 <= i < |r| ==> r[i] == ConvertTransfer(AggregatedAt(pre, order[i], i, base))
  {
    ConvertTransfers(Aggregated(pre, order, cutoffTs))
  }

  lemma PlannedParts(ts: seq<Transfer>, cutoffTs: nat, order: seq<Key>)
    requires PossibleOrder(ts, cutoffTs, order)
    ensures PlannedTransfers(CsvPlan(ts, cutoffTs, order))
         == KeyTransfers(Before(ts, cutoffTs), order, cutoffTs) + WindowedPart(ts, cutoffTs)
  {
    hide Before, WindowedPart, AggregatedAt;
    if cutoffTs == 0 {
      NothingBeforeZero(ts);
      EnumerationLength(order, KeySet([]));
    }
  }

  /** What the first `m` compressed transfers move, from their keys. */
  lemma PrefixTotalsByKey(pre: seq<Transfer>, order: seq<Key>, cutoffTs: nat, m: nat, id: nat)
    requires m <= |order|
    ensures Debits(KeyTransfers(pre, order, cutoffTs)[..m], id) == SumBy(KeyDebit(pre, id), order[..m])
    ensures Credits(KeyTransfers(pre, order, cutoffTs)[..m], id) == SumBy(KeyCredit(pre, id), order[..m])
  {
    hide SumBy, Debits, Credits, AmountFor;
    var r := Aggregated(pre, order, cutoffTs);
    AggregatedTotals(pre, order[..m], r[..m], id);
    assert ConvertTransfers(r)[..m] == ConvertTransfers(r[..m]);
  }

  lemma KeysTotal(pre: seq<Transfer>, order: seq<Key>, cutoffTs: nat, id: nat)
    requires IsEnumeration(order, KeySet(pre))
    ensures Debits(KeyTransfers(pre, order, cutoffTs), id) == Debits(pre, id)
    ensures Credits(KeyTransfers(pre, order, cutoffTs), id) == Credits(pre, id)
  {
    CompressedTotals(pre, cutoffTs, order, id);
  }

  /** No prefix moves more than the whole list, and transfer `k` adds its amount. */
  lemma PrefixBounded(ts: seq<Transfer>, k: nat, id: nat)
    requires k < |ts|
    ensures Debits(ts[..k], id) <= Debits(ts, id) && Credits(ts[..k], id) <= Credits(ts, id)
    ensures ts[k].debitAccountId == id ==> Debits(ts[..k], id) + ts[k].amount <= Debits(ts, id)
    ensures ts[k].creditAccountId == id ==> Credits(ts[..k], id) + ts[k].amount <= Credits(ts, id)
  {
    OneMore(ts[..k], ts[k], id);
    assert ts == (ts[..k] + [ts[k]]) + ts[k + 1..];
    hide Debits, Credits;
    TotalsAppend(ts[..k] + [ts[k]], ts[k + 1..], id);
  }

  // ---------------------------------------------------------------------------
  // The condition suffices
  // ---------------------------------------------------------------------------

  lemma SomeTransferOf(pre: seq<Transfer>, key: Key) returns (t: Transfer)
    requires key in KeySet(pre)
    ensures t in pre && KeyOf(t) == key
  {
    t :| t in pre && KeyOf(t) == key;
  }

  lemma KeyDebitTaken(c: Cluster, pre: seq<Transfer>, t: Transfer, base: nat, us: seq<Transfer>, k: nat)
    requires k < |us| && OpeningCoversDebits(c, pre, t, base) && us[k].timestamp >= base
    requires us[k].debitAccountId == t.debitAccountId && us[k].ledger == t.ledger
    requires Debits(us, t.debitAccountId) == Debits(pre, t.debitAccountId)
    ensures DebitTaken(c, us, k)
  {
    hide Debits, Credits, Closed, DebitsMustNotExceedCredits;
    PrefixBounded(us, k, t.debitAccountId);
  }

  lemma KeyCreditTaken(c: Cluster, pre: seq<Transfer>, t: Transfer, base: nat, us: seq<Transfer>, k: nat)
    requires k < |us| && OpeningCoversCredits(c, pre, t, base) && us[k].timestamp >= base
    requires us[k].creditAccountId == t.creditAccountId && us[k].ledger == t.ledger
    requires Credits(us, t.creditAccountId) == Credits(pre, t.creditAccountId)
    ensures CreditTaken(c, us, k)
  {
    hide Debits, Credits, Closed, CreditsMustNotExceedDebits;
    PrefixBounded(us, k, t.creditAccountId);
  }

  lemma KeysAccepted(c: Cluster, pre: seq<Transfer>, cutoffTs: nat, order: seq<Key>)
    requires KeysImportable(c, pre, cutoffTs) && IsEnumeration(order, KeySet(pre))
    ensures TransfersImportable(c, KeyTransfers(pre, order, cutoffTs))
  {
    hide KeyTransfers, Debits, Credits, OpeningCoversDebits, OpeningCoversCredits, DebitTaken, CreditTaken, KeySet;
    var us, n := KeyTransfers(pre, order, cutoffTs), |order|;
    EnumerationLength(order, KeySet(pre));
    var base := BaseTimestamp(cutoffTs, n);
    forall k | 0 <= k < n
      ensures Taken(c, us, k)
    {
      var t := SomeTransferOf(pre, order[k]);
      KeysTotal(pre, order, cutoffTs, t.debitAccountId);
      KeysTotal(pre, order, cutoffTs, t.creditAccountId);
      assert Compressible(c, pre, t, base);
      KeyDebitTaken(c, pre, t, base, us, k);
      KeyCreditTaken(c, pre, t, base, us, k);
      assert WellFormed(us[k]);
    }
  }

  // ---------------------------------------------------------------------------
  // It is necessary: orders that show each clause
  // ---------------------------------------------------------------------------

  /** An order that lists `first`, then `key`, then the rest. */
  lemma OrderThrough(keys: set<Key>, first: set<Key>, key: Key) returns (order: seq<Key>, m: nat)
    requires first <= keys && key in keys && key !in first
    ensures IsEnumeration(order, keys) && m < |order| && order[m] == key
    ensures forall i :: 0 <= i < m ==> order[i] in first
    ensures forall i :: m < i < |order| ==> order[i] !in first && order[i] != key
    ensures m == |first|
  {
    var a := EnumerationExists(first);
    var b := EnumerationExists(keys - first - {key});
    EnumerationLength(a, first);
    order, m := a + [key] + b, |a|;
    forall x | x in keys
      ensures x in order
    {
      assert x in first || x == key || x in keys - first - {key};
      assert order[|a|] == key;
      assert x in first ==> x in a;
    }
    forall i | m < i < |order|
      ensures order[i] !in first && order[i] != key
    {
      assert order[i] == b[i - m - 1] && b[i - m - 1] in b;
    }
    forall i, j | 0 <= i < j < |order|
      ensures order[i] != order[j]
    {
      assert i < m ==> order[i] in a;
      assert j > m ==> order[j] in b;
      assert i > m ==> order[i] == b[i - m - 1] && order[j] == b[j - m - 1];
    }
  }

  ghost predicate KeysAlwaysAccepted(c: Cluster, pre: seq<Transfer>, cutoffTs: nat) {
    forall order :: IsEnumeration(order, KeySet(pre)) ==> TransfersImportable(c, KeyTransfers(pre, order, cutoffTs))
  }

  /** The order that starts with the key of `t`: its accounts must be older than the first timestamp. */
  lemma FirstKey(c: Cluster, pre: seq<Transfer>, cutoffTs: nat, t: Transfer) returns (a: Account, b: Account)
    requires KeysAlwaysAccepted(c, pre, cutoffTs) && t in pre
    ensures var base := BaseTimestamp(cutoffTs, |KeySet(pre)|);
            && t.debitAccountId != t.creditAccountId && t.ledger != 0
            && c.idsUsed == 0 && base > c.lastTimestamp
            && a in c.accounts && a.id == t.debitAccountId && OldEnough(a, t, base)
            && b in c.accounts && b.id == t.creditAccountId && OldEnough(b, t, base)
  {
    hide Debits, Credits, IsEnumeration, AmountFor;
    var key := KeyOf(t);
    var order, m := OrderThrough(KeySet(pre), {}, key);
    EnumerationLength(order, KeySet(pre));
    var us := KeyTransfers(pre, order, cutoffTs);
    assert Taken(c, us, 0);
    assert us[0] == ConvertTransfer(AggregatedAt(pre, key, 0, BaseTimestamp(cutoffTs, |order|)));
    a :| a in c.accounts && a.id == t.debitAccountId && Usable(a, us[0]);
    b :| b in c.accounts && b.id == t.creditAccountId && Usable(b, us[0]);
  }

  /** The timestamp of the last compressed transfer is in the past. */
  lemma LastKey(c: Cluster, pre: seq<Transfer>, cutoffTs: nat)
    requires KeysAlwaysAccepted(c, pre, cutoffTs) && KeySet(pre) != {}
    ensures TimestampOk(BaseTimestamp(cutoffTs, |KeySet(pre)|) + |KeySet(pre)| - 1, c.clock)
  {
    hide Debits, Credits, AmountFor;
    var order := EnumerationExists(KeySet(pre));
    EnumerationLength(order, KeySet(pre));
    var us := KeyTransfers(pre, order, cutoffTs);
    assert Taken(c, us, |us| - 1);
  }

  /** The keys that debit `id`, other than `key`. */
  function OtherDebits(keys: set<Key>, key: Key): set<Key> {
    set k <- keys | k.debitAccountId == key.debitAccountId && k != key
  }

  function OtherCredits(keys: set<Key>, key: Key): set<Key> {
    set k <- keys | k.creditAccountId == key.creditAccountId && k != key
  }

  /** When all keys up to `m` debit one account, and none after it does, the debits up to `m` are all there are. */
  lemma DebitsSoFar(pre: seq<Transfer>, order: seq<Key>, cutoffTs: nat, m: nat, id: nat)
    requires IsEnumeration(order, KeySet(pre)) && m < |order| && order[m].debitAccountId == id
    requires forall i :: 0 <= i < m ==> order[i].debitAccountId == id && order[i].creditAccountId != id
    requires forall i :: m < i < |order| ==> order[i].debitAccountId != id
    ensures var us := KeyTransfers(pre, order, cutoffTs);
            Debits(us[..m], id) + us[m].amount == Debits(pre, id) && Credits(us[..m], id) == 0
  {
    hide SumBy, Debits, Credits, AmountFor, IsEnumeration;
    var us := KeyTransfers(pre, order, cutoffTs);
    KeysTotal(pre, order, cutoffTs, id);
    PrefixTotalsByKey(pre, order, cutoffTs, m, id);
    PrefixTotalsByKey(pre, order, cutoffTs, |order|, id);
    assert us[..|order|] == us && order[..|order|] == order;
    assert order == (order[..m] + [order[m]]) + order[m + 1..];
    SumByAppend(KeyDebit(pre, id), order[..m] + [order[m]], order[m + 1..]);
    SumByLast(KeyDebit(pre, id), order[..m], order[m]);
    SumByZero(KeyDebit(pre, id), order[m + 1..]);
    SumByZero(KeyCredit(pre, id), order[..m]);
  }

  lemma CreditsSoFar(pre: seq<Transfer>, order: seq<Key>, cutoffTs: nat, m: nat, id: nat)
    requires IsEnumeration(order, KeySet(pre)) && m < |order| && order[m].creditAccountId == id
    requires forall i :: 0 <= i < m ==> order[i].creditAccountId == id && order[i].debitAccountId != id
    requires forall i :: m < i < |order| ==> order[i].creditAccountId != id
    ensures var us := KeyTransfers(pre, order, cutoffTs);
            Credits(us[..m], id) + us[m].amount == Credits(pre, id) && Debits(us[..m], id) == 0
  {
    hide SumBy, Debits, Credits, AmountFor, IsEnumeration;
    var us := KeyTransfers(pre, order, cutoffTs);
    KeysTotal(pre, order, cutoffTs, id);
    PrefixTotalsByKey(pre, order, cutoffTs, m, id);
    PrefixTotalsByKey(pre, order, cutoffTs, |order|, id);
    assert us[..|order|] == us && order[..|order|] == order;
    assert order == (order[..m] + [order[m]]) + order[m + 1..];
    SumByAppend(KeyCredit(pre, id), order[..m] + [order[m]], order[m + 1..]);
    SumByLast(KeyCredit(pre, id), order[..m], order[m]);
    SumByZero(KeyCredit(pre, id), order[m + 1..]);
    SumByZero(KeyDebit(pre, id), order[..m]);
  }

  /** The order that lists all debits of the account first, that of `t` last: nothing has been credited to it yet. */
  lemma DebitsFirst(c: Cluster, pre: seq<Transfer>, cutoffTs: nat, t: Transfer) returns (a: Account)
    requires KeysAlwaysAccepted(c, pre, cutoffTs) && t in pre
    requires forall u <- pre :: u.debitAccountId != u.creditAccountId
    ensures var debits := c.debits(t.debitAccountId) + Debits(pre, t.debitAccountId);
            && a in c.accounts && a.id == t.debitAccountId && a.ledger == t.ledger && !Closed(a.flags)
            && debits <= U128_MAX && (DebitsMustNotExceedCredits(a.flags) ==> debits <= c.credits(a.id))
  {
    hide Debits, Credits, IsEnumeration, AmountFor, WellFormed, InTurn, CreditTaken;
    var key, id := KeyOf(t), t.debitAccountId;
    var order, m := OrderThrough(KeySet(pre), OtherDebits(KeySet(pre), key), key);
    KeysAreTransfers(pre, order);
    assert forall i :: 0 <= i < |order| ==> order[i] in order;
    DebitsSoFar(pre, order, cutoffTs, m, id);
    var us := KeyTransfers(pre, order, cutoffTs);
    assert Taken(c, us, m);
    a :| a in c.accounts && a.id == id && Usable(a, us[m])
         && (DebitsMustNotExceedCredits(a.flags) ==>
               c.debits(id) + Debits(us[..m], id) + us[m].amount <= c.credits(a.id) + Credits(us[..m], a.id));
  }

  lemma CreditsFirst(c: Cluster, pre: seq<Transfer>, cutoffTs: nat, t: Transfer) returns (a: Account)
    requires KeysAlwaysAccepted(c, pre, cutoffTs) && t in pre
    requires forall u <- pre :: u.debitAccountId != u.creditAccountId
    ensures var credits := c.credits(t.creditAccountId) + Credits(pre, t.creditAccountId);
            && a in c.accounts && a.id == t.creditAccountId && a.ledger == t.ledger && !Closed(a.flags)
            && credits <= U128_MAX && (CreditsMustNotExceedDebits(a.flags) ==> credits <= c.debits(a.id))
  {
    hide Debits, Credits, IsEnumeration, AmountFor, WellFormed, InTurn, DebitTaken;
    var key, id := KeyOf(t), t.creditAccountId;
    var order, m := OrderThrough(KeySet(pre), OtherCredits(KeySet(pre), key), key);
    KeysAreTransfers(pre, order);
    assert forall i :: 0 <= i < |order| ==> order[i] in order;
    CreditsSoFar(pre, order, cutoffTs, m, id);
    var us := KeyTransfers(pre, order, cutoffTs);
    assert Taken(c, us, m);
    a :| a in c.accounts && a.id == id && Usable(a, us[m])
         && (CreditsMustNotExceedDebits(a.flags) ==>
               c.credits(id) + Credits(us[..m], id) + us[m].amount <= c.debits(a.id) + Debits(us[..m], a.id));
  }

  lemma KeysAreTransfers(pre: seq<Transfer>, order: seq<Key>)
    requires IsEnumeration(order, KeySet(pre))
    requires forall u <- pre :: u.debitAccountId != u.creditAccountId
    ensures forall k <- order :: k in KeySet(pre) && k.debitAccountId != k.creditAccountId
  {
    forall k <- order
      ensures k in KeySet(pre) && k.debitAccountId != k.creditAccountId
    {
      var u := SomeTransferOf(pre, k);
    }
  }

  /** A described cluster gives one id one timestamp. */
  lemma OneTimestamp(c: Cluster, s: Ledger, a: Account, b: Account)
    requires c.Describes(s) && a in c.accounts && b in c.accounts && a.id == b.id
    ensures a.timestamp == b.timestamp
  {
    assert s.accounts[a.id] == c.Stored(a) == c.Stored(b);
  }

  lemma KeysNecessary(c: Cluster, s: Ledger, pre: seq<Transfer>, cutoffTs: nat)
    requires c.Describes(s) && KeysAlwaysAccepted(c, pre, cutoffTs)
    ensures KeysImportable(c, pre, cutoffTs)
  {
    hide Debits, Credits, AmountFor, Closed, DebitsMustNotExceedCredits, CreditsMustNotExceedDebits,
         KeysAlwaysAccepted, TimestampOk, BaseTimestamp;
    if KeySet(pre) != {} {
      LastKey(c, pre, cutoffTs);
      var key :| key in KeySet(pre);
      var some := SomeTransferOf(pre, key);
      var _, _ := FirstKey(c, pre, cutoffTs, some);
    }
    forall u <- pre
      ensures u.debitAccountId != u.creditAccountId
    {
      var _, _ := FirstKey(c, pre, cutoffTs, u);
    }
    forall t <- pre
      ensures Compressible(c, pre, t, BaseTimestamp(cutoffTs, |KeySet(pre)|))
    {
      var a, b := FirstKey(c, pre, cutoffTs, t);
      var d := DebitsFirst(c, pre, cutoffTs, t);
      var e := CreditsFirst(c, pre, cutoffTs, t);
      OneTimestamp(c, s, a, d);
      OneTimestamp(c, s, b, e);
    }
  }

  // ---------------------------------------------------------------------------
  // The transfers since the cutoff
  // ---------------------------------------------------------------------------

  /** `d` is what is known of the cluster described by `c` once the transfers `us` are in. */
  ghost predicate Continues(c: Cluster, us: seq<Transfer>, d: Cluster) {
    && d.accounts == c.accounts && d.clock == c.clock
    && (forall id: nat :: d.debits(id) == c.debits(id) + Debits(us, id))
    && (forall id: nat :: d.credits(id) == c.credits(id) + Credits(us, id))
    && (forall id: nat :: id in TransferIds(us) || id <= c.idsUsed <==> id <= d.idsUsed)
    && d.lastTimestamp == if us == [] then c.lastTimestamp else us[|us| - 1].timestamp
  }

  lemma TakenEarlier(c: Cluster, us: seq<Transfer>, vs: seq<Transfer>, k: nat)
    requires k < |us|
    ensures Taken(c, us + vs, k) <==> Taken(c, us, k)
  {
    hide Debits, Credits;
    assert (us + vs)[..k] == us[..k];
    assert forall j :: 0 <= j <= k ==> (us + vs)[j] == us[j];
  }

  lemma TakenLater(c: Cluster, us: seq<Transfer>, d: Cluster, vs: seq<Transfer>, k: nat)
    requires Continues(c, us, d) && k < |vs|
    ensures Taken(c, us + vs, |us| + k) <==> Taken(d, vs, k)
  {
    hide Debits, Credits, WellFormed, Closed, DebitsMustNotExceedCredits, CreditsMustNotExceedDebits, TimestampOk;
    var all := us + vs;
    assert all[..|us| + k] == us + vs[..k] && all[|us| + k] == vs[k];
    forall id: nat
      ensures Debits(all[..|us| + k], id) == Debits(us, id) + Debits(vs[..k], id)
      ensures Credits(all[..|us| + k], id) == Credits(us, id) + Credits(vs[..k], id)
    {
      TotalsAppend(us, vs[..k], id);
    }
    InTurnLater(c, us, d, vs, k);
  }

  lemma HasTransferId(us: seq<Transfer>, id: nat)
    ensures id in TransferIds(us) <==> exists j :: 0 <= j < |us| && us[j].id == id
  {
    if id in TransferIds(us) {
      var u :| u in us && u.id == id;
      var j :| 0 <= j < |us| && us[j] == u;
    }
    if j :| 0 <= j < |us| && us[j].id == id {
      assert us[j] in us;
    }
  }

  lemma IdsApart(us: seq<Transfer>, vs: seq<Transfer>, k: nat, id: nat)
    requires k <= |vs|
    ensures (forall j :: 0 <= j < |us| + k ==> (us + vs)[j].id != id) <==>
            id !in TransferIds(us) && forall j :: 0 <= j < k ==> vs[j].id != id
  {
    HasTransferId(us, id);
    hide TransferIds;
    var all, n := us + vs, |us|;
    assert forall j :: 0 <= j < n ==> all[j] == us[j];
    if forall j :: 0 <= j < n + k ==> all[j].id != id {
      assert forall j :: 0 <= j < k ==> vs[j] == all[n + j];
    }
    if id !in TransferIds(us) && forall j :: 0 <= j < k ==> vs[j].id != id {
      assert forall j :: n <= j < n + k ==> all[j] == vs[j - n];
    }
  }

  lemma InTurnLater(c: Cluster, us: seq<Transfer>, d: Cluster, vs: seq<Transfer>, k: nat)
    requires Continues(c, us, d) && k < |vs|
    ensures InTurn(c, us + vs, |us| + k) <==> InTurn(d, vs, k)
  {
    hide Debits, Credits, TimestampOk, TransferIds;
    IdsApart(us, vs, k, vs[k].id);
    assert (us + vs)[|us| + k] == vs[k];
    assert us != [] ==> (us + vs)[|us| - 1] == us[|us| - 1];
    assert k > 0 ==> (us + vs)[|us| + k - 1] == vs[k - 1];
  }

  /** A list is importable part by part. */
  lemma ImportableInParts(c: Cluster, us: seq<Transfer>, d: Cluster, vs: seq<Transfer>)
    requires Continues(c, us, d)
    ensures TransfersImportable(c, us + vs) <==> TransfersImportable(c, us) && TransfersImportable(d, vs)
  {
    hide Taken, Continues;
    forall k | 0 <= k < |us|
      ensures Taken(c, us + vs, k) <==> Taken(c, us, k)
    {
      TakenEarlier(c, us, vs, k);
    }
    forall k | 0 <= k < |vs|
      ensures Taken(c, us + vs, |us| + k) <==> Taken(d, vs, k)
    {
      TakenLater(c, us, d, vs, k);
    }
    if TransfersImportable(c, us) && TransfersImportable(d, vs) {
      forall k | 0 <= k < |us + vs|
        ensures Taken(c, us + vs, k)
      {
        if k >= |us| {
          assert Taken(d, vs, k - |us|);
        }
      }
    }
  }

  /** After the compressed transfers, in any order, the cluster is as described. */
  lemma KeysContinue(c: Cluster, pre: seq<Transfer>, cutoffTs: nat, order: seq<Key>)
    requires IsEnumeration(order, KeySet(pre)) && (KeySet(pre) != {} ==> c.idsUsed == 0)
    ensures Continues(c, KeyTransfers(pre, order, cutoffTs), AfterKeys(c, pre, cutoffTs))
  {
    hide Debits, Credits, AmountFor, IsEnumeration;
    var us, d := KeyTransfers(pre, order, cutoffTs), AfterKeys(c, pre, cutoffTs);
    EnumerationLength(order, KeySet(pre));
    forall id: nat
      ensures d.debits(id) == c.debits(id) + Debits(us, id) && d.credits(id) == c.credits(id) + Credits(us, id)
    {
      KeysTotal(pre, order, cutoffTs, id);
    }
    assert forall j :: 0 <= j < |us| ==> us[j].id == j + 1;
    forall id: nat
      ensures id in TransferIds(us) <==> 1 <= id <= |us|
    {
      if 1 <= id <= |us| {
        assert us[id - 1].id == id && us[id - 1] in us;
      }
    }
  }

  // ---------------------------------------------------------------------------
  // Every order
  // ---------------------------------------------------------------------------

  lemma FirstPartImportable(c: Cluster, us: seq<Transfer>, vs: seq<Transfer>)
    requires TransfersImportable(c, us + vs)
    ensures TransfersImportable(c, us)
  {
    hide Taken;
    forall k | 0 <= k < |us|
      ensures Taken(c, us, k)
    {
      TakenEarlier(c, us, vs, k);
      assert Taken(c, us + vs, k);
    }
  }

  lemma PlannedInParts(c: Cluster, ts: seq<Transfer>, cutoffTs: nat, order: seq<Key>)
    requires PossibleOrder(ts, cutoffTs, order)
    ensures var pre, planned := Before(ts, cutoffTs), PlannedTransfers(CsvPlan(ts, cutoffTs, order));
            && (TransfersImportable(c, planned) ==> TransfersImportable(c, KeyTransfers(pre, order, cutoffTs)))
            && (KeysImportable(c, pre, cutoffTs) ==>
                  (TransfersImportable(c, planned) <==>
                   TransfersImportable(AfterKeys(c, pre, cutoffTs), WindowedPart(ts, cutoffTs))))
  {
    hide TransfersImportable, KeyTransfers, PlannedTransfers, CsvPlan, Before, WindowedPart, AfterKeys, Continues,
         IsEnumeration, Compressible;
    var pre := Before(ts, cutoffTs);
    var us, vs := KeyTransfers(pre, order, cutoffTs), WindowedPart(ts, cutoffTs);
    PlannedParts(ts, cutoffTs, order);
    if TransfersImportable(c, us + vs) {
      FirstPartImportable(c, us, vs);
    }
    if KeysImportable(c, pre, cutoffTs) {
      KeysAccepted(c, pre, cutoffTs, order);
      KeysContinue(c, pre, cutoffTs, order);
      ImportableInParts(c, us, AfterKeys(c, pre, cutoffTs), vs);
    }
  }

  ghost predicate AlwaysImportable(c: Cluster, ts: seq<Transfer>, cutoffTs: nat) {
    forall order :: PossibleOrder(ts, cutoffTs, order) ==>
      TransfersImportable(c, PlannedTransfers(CsvPlan(ts, cutoffTs, order)))
  }

  /** The planned transfers are importable for every order exactly under the condition on list and cluster. */
  lemma ImportableInEveryOrderIff(c: Cluster, s: Ledger, ts: seq<Transfer>, cutoffTs: nat)
    requires c.Describes(s)
    ensures AlwaysImportable(c, ts, cutoffTs) <==> CsvImportable(c, ts, cutoffTs)
  {
    hide TransfersImportable, KeyTransfers, PlannedTransfers, CsvPlan, Before, WindowedPart, AfterKeys,
         KeysImportable, IsEnumeration;
    var pre := Before(ts, cutoffTs);
    if CsvImportable(c, ts, cutoffTs) {
      forall order | PossibleOrder(ts, cutoffTs, order)
        ensures TransfersImportable(c, PlannedTransfers(CsvPlan(ts, cutoffTs, order)))
      {
        PlannedInParts(c, ts, cutoffTs, order);
      }
    }
    if AlwaysImportable(c, ts, cutoffTs) {
      forall order | IsEnumeration(order, KeySet(pre))
        ensures TransfersImportable(c, KeyTransfers(pre, order, cutoffTs))
      {
        assert PossibleOrder(ts, cutoffTs, order);
        PlannedInParts(c, ts, cutoffTs, order);
      }
      KeysNecessary(c, s, pre, cutoffTs);
      var order := EnumerationExists(KeySet(pre));
      assert PossibleOrder(ts, cutoffTs, order);
      PlannedInParts(c, ts, cutoffTs, order);
    }
  }

  /**
    Whatever order the hash map iterates its keys in, the import is accepted: exactly when the accounts used
    before the cutoff are older than the synthetic transfers and their opening balances alone cover what is
    moved before the cutoff, the synthetic transfers fit between the cluster's last transfer and the clock,
    and the transfers since the cutoff can be imported after them. Then every account gains its totals.
   */
  lemma AcceptedInEveryOrderIff(s: Ledger, c: Cluster, ts: seq<Transfer>, cutoffTs: nat)
    requires c.Describes(s)
    ensures (forall order :: PossibleOrder(ts, cutoffTs, order) ==>
               Run(s, TransferEvents(PlanTransfers(CsvPlan(ts, cutoffTs, order)))).Ok?)
            <==> CsvImportable(c, ts, cutoffTs)
    ensures forall order | PossibleOrder(ts, cutoffTs, order) ::
              var r := Run(s, TransferEvents(PlanTransfers(CsvPlan(ts, cutoffTs, order))));
              r.Ok? ==> r.value.accounts == WithTotals(s, ts) && Replayed(r.value, WindowedPart(ts, cutoffTs))
  {
    hide *;
    forall order | PossibleOrder(ts, cutoffTs, order)
      ensures var r := Run(s, TransferEvents(PlanTransfers(CsvPlan(ts, cutoffTs, order))));
              && (r.Ok? <==> TransfersImportable(c, PlannedTransfers(CsvPlan(ts, cutoffTs, order))))
              && (r.Ok? ==> r.value.accounts == WithTotals(s, ts) && Replayed(r.value, WindowedPart(ts, cutoffTs)))
    {
      CsvPlanAcceptedIff(s, c, ts, cutoffTs, order);
    }
    ImportableInEveryOrderIff(c, s, ts, cutoffTs);
    AlwaysImportableIs(c, ts, cutoffTs);
  }

  lemma AlwaysImportableIs(c: Cluster, ts: seq<Transfer>, cutoffTs: nat)
    ensures AlwaysImportable(c, ts, cutoffTs) <==>
            forall order :: PossibleOrder(ts, cutoffTs, order) ==>
              TransfersImportable(c, PlannedTransfers(CsvPlan(ts, cutoffTs, order)))
  {
  }
}
