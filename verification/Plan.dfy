/** Balance planning: genesis accounts, re-timestamped accounts and synthetic transfers. */
module Plans {
  import opened Wrappers
  import opened Records
  import opened Sorting
  import opened Ledgers

  const U32_MAX: nat := 0xFFFF_FFFF

  datatype SyntheticTransfer = SyntheticTransfer(
    id: nat, debitAccountId: nat, creditAccountId: nat, amount: nat, ledger: nat, code: nat, timestamp: nat)

  datatype BalancePlan = BalancePlan(
    genesisAccounts: seq<Account>, regularAccounts: seq<Account>,
    syntheticTransfers: seq<SyntheticTransfer>, windowedTransfers: seq<Transfer>)

  datatype AccountGroup = AccountGroup(ledger: nat, accounts: seq<Account>, genesisCreditId: nat, genesisDebitId: nat)

  /** Ledger numbers are 32-bit. */
  ghost predicate LedgersFit(accounts: seq<Account>) {
    forall a <- accounts :: a.ledger <= U32_MAX
  }

  function GenesisCreditId(ledger: nat): nat
    requires ledger <= U32_MAX
  {
    U128_MAX - ledger * 2
  }

  function GenesisDebitId(ledger: nat): nat
    requires ledger <= U32_MAX
  {
    U128_MAX - ledger * 2 - 1
  }

  /** The two genesis ids of a ledger differ, and no id serves two ledgers or two sides. */
  lemma GenesisIdsNeverClash(l: nat, m: nat)
    requires l <= U32_MAX && m <= U32_MAX
    ensures GenesisCreditId(l) != GenesisDebitId(m)
    ensures GenesisCreditId(l) == GenesisCreditId(m) ==> l == m
    ensures GenesisDebitId(l) == GenesisDebitId(m) ==> l == m
  {
  }

  // ---------------------------------------------------------------------------
  // Specification of the plan
  // ---------------------------------------------------------------------------

  function GroupLedger(g: AccountGroup): nat {
    g.ledger
  }

  function LedgerSet(accounts: seq<Account>): set<nat> {
    set a <- accounts :: a.ledger
  }

  function InLedger(accounts: seq<Account>, ledger: nat): seq<Account> {
    if accounts == [] then []
    else
      var a := accounts[|accounts| - 1];
      InLedger(accounts[..|accounts| - 1], ledger) + (if a.ledger == ledger then [a] else [])
  }

  function InsertLedger(ledgers: seq<nat>, l: nat): seq<nat> {
    if ledgers == [] || ledgers[|ledgers| - 1] < l then ledgers + [l]
    else if ledgers[|ledgers| - 1] == l then ledgers
    else InsertLedger(ledgers[..|ledgers| - 1], l) + [ledgers[|ledgers| - 1]]
  }

  /** The ledgers in use, ascending. */
  function SortedLedgers(accounts: seq<Account>): seq<nat> {
    if accounts == [] then []
    else InsertLedger(SortedLedgers(accounts[..|accounts| - 1]), accounts[|accounts| - 1].ledger)
  }

  ghost predicate Ascending(ledgers: seq<nat>) {
    forall i, j :: 0 <= i < j < |ledgers| ==> ledgers[i] < ledgers[j]
  }

  lemma {:induction false} InsertLedgerAscending(ledgers: seq<nat>, l: nat)
    requires Ascending(ledgers)
    ensures Ascending(InsertLedger(ledgers, l))
    ensures forall x :: x in InsertLedger(ledgers, l) <==> x in ledgers || x == l
  {
    hide Ascending;
    if ledgers == [] || ledgers[|ledgers| - 1] < l {
      AscendingBelow(ledgers, l);
    } else if ledgers[|ledgers| - 1] > l {
      var init, last := ledgers[..|ledgers| - 1], ledgers[|ledgers| - 1];
      assert ledgers == init + [last];
      AscendingInit(init, last);
      InsertLedgerAscending(init, l);
      AscendingSnoc(InsertLedger(init, l), last);
    }
  }

  lemma AscendingInit(ledgers: seq<nat>, l: nat)
    requires Ascending(ledgers + [l])
    ensures Ascending(ledgers) && forall x :: x in ledgers ==> x < l
  {
    var all := ledgers + [l];
    assert forall i :: 0 <= i < |ledgers| ==> all[i] == ledgers[i] && all[i] < all[|ledgers|];
  }

  lemma AscendingSnoc(ledgers: seq<nat>, l: nat)
    requires Ascending(ledgers) && forall x :: x in ledgers ==> x < l
    ensures Ascending(ledgers + [l])
  {
    assert forall i :: 0 <= i < |ledgers| ==> ledgers[i] in ledgers;
  }

  lemma AscendingBelow(ledgers: seq<nat>, l: nat)
    requires Ascending(ledgers) && (ledgers == [] || ledgers[|ledgers| - 1] < l)
    ensures Ascending(ledgers + [l])
  {
  }

  lemma {:induction false} SortedLedgersAscending(accounts: seq<Account>)
    ensures Ascending(SortedLedgers(accounts))
    ensures forall l :: l in SortedLedgers(accounts) <==> l in LedgerSet(accounts)
  {
    if accounts != [] {
      var init, a := accounts[..|accounts| - 1], accounts[|accounts| - 1];
      SortedLedgersAscending(init);
      InsertLedgerAscending(SortedLedgers(init), a.ledger);
      assert accounts == init + [a];
    }
  }

  lemma SortedLedgersFit(accounts: seq<Account>)
    requires LedgersFit(accounts)
    ensures forall i :: 0 <= i < |SortedLedgers(accounts)| ==> SortedLedgers(accounts)[i] <= U32_MAX
  {
    SortedLedgersAscending(accounts);
    var ledgers := SortedLedgers(accounts);
    forall i | 0 <= i < |ledgers|
      ensures ledgers[i] <= U32_MAX
    {
      assert ledgers[i] in ledgers;
    }
  }

  function GenesisAccount(id: nat, ledger: nat, timestamp: nat): Account {
    Account(id, 0, 0, 0, 0, 0, 0, 0, 0, ledger, 1, 0, timestamp)
  }

  /** Two genesis accounts per ledger, with timestamps 1, 2, ... */
  function GenesisAccounts(ledgers: seq<nat>): (r: seq<Account>)
    requires forall i :: 0 <= i < |ledgers| ==> ledgers[i] <= U32_MAX
    ensures |r| == 2 * |ledgers|
  {
    if ledgers == [] then []
    else
      var r, l := GenesisAccounts(ledgers[..|ledgers| - 1]), ledgers[|ledgers| - 1];
      r + [GenesisAccount(GenesisCreditId(l), l, |r| + 1), GenesisAccount(GenesisDebitId(l), l, |r| + 2)]
  }

  function FlattenGroups(ledgers: seq<nat>, accounts: seq<Account>): seq<Account> {
    if ledgers == [] then []
    else FlattenGroups(ledgers[..|ledgers| - 1], accounts) + InLedger(accounts, ledgers[|ledgers| - 1])
  }

  /** The accounts with timestamps made strictly increasing from `start`. */
  function DedupAccounts(accounts: seq<Account>, start: nat): (r: seq<Account>)
    ensures |r| == |accounts|
  {
    if accounts == [] then []
    else
      var r, a := DedupAccounts(accounts[..|accounts| - 1], start), accounts[|accounts| - 1];
      var prev := LastTimestamp(r, start);
      r + [if a.timestamp <= prev then a.(timestamp := prev + 1) else a]
  }

  function LastTimestamp(accounts: seq<Account>, default: nat): nat {
    if accounts == [] then default else accounts[|accounts| - 1].timestamp
  }

  function SortedAccounts(accounts: seq<Account>): seq<Account> {
    SortByKey(AccountTimestamp, FlattenGroups(SortedLedgers(accounts), accounts))
  }

  function RegularAccounts(accounts: seq<Account>): seq<Account> {
    DedupAccounts(SortedAccounts(accounts), 2 * |SortedLedgers(accounts)|)
  }

  predicate Active(a: Account) {
    a.creditsPosted > 0 || a.debitsPosted > 0
  }

  /** The greatest timestamp of an account with a balance, if any. */
  function MaxActiveTimestamp(accounts: seq<Account>): Option<nat> {
    if accounts == [] then None
    else
      var m, a := MaxActiveTimestamp(accounts[..|accounts| - 1]), accounts[|accounts| - 1];
      if !Active(a) || (m.Some? && m.value > a.timestamp) then m else Some(a.timestamp)
  }

  function TransferFloor(regular: seq<Account>, genesisMax: nat, windowedMode: bool): nat {
    if windowedMode then
      var m := MaxActiveTimestamp(regular);
      if m.Some? then m.value else genesisMax
    else LastTimestamp(regular, genesisMax)
  }

  const SYNTHETIC_CODE: nat := 999

  /** The transfers for one account when `n` were emitted before: credit side first, then debit side. */
  function SyntheticFor(a: Account, floor: nat, n: nat): seq<SyntheticTransfer>
    requires a.ledger <= U32_MAX
  {
    var credit :=
      if a.creditsPosted > 0 then
        [SyntheticTransfer(n + 1, GenesisCreditId(a.ledger), a.id, a.creditsPosted, a.ledger, SYNTHETIC_CODE,
                           floor + n + 1)]
      else [];
    var m := n + |credit|;
    var debit :=
      if a.debitsPosted > 0 then
        [SyntheticTransfer(m + 1, a.id, GenesisDebitId(a.ledger), a.debitsPosted, a.ledger, SYNTHETIC_CODE,
                           floor + m + 1)]
      else [];
    credit + debit
  }

  function SyntheticTransfers(regular: seq<Account>, floor: nat): seq<SyntheticTransfer>
    requires LedgersFit(regular)
  {
    if regular == [] then []
    else
      var r := SyntheticTransfers(regular[..|regular| - 1], floor);
      r + SyntheticFor(regular[|regular| - 1], floor, |r|)
  }

  /** The whole plan, as a function of the accounts alone. */
  function SnapshotPlan(accounts: seq<Account>, windowedMode: bool): BalancePlan
    requires LedgersFit(accounts)
  {
    var ledgers := SortedLedgers(accounts);
    SortedLedgersFit(accounts);
    RegularLedgersFit(accounts);
    var regular := RegularAccounts(accounts);
    BalancePlan(
      GenesisAccounts(ledgers), regular,
      SyntheticTransfers(regular, TransferFloor(regular, 2 * |ledgers|, windowedMode)), [])
  }

  // ---------------------------------------------------------------------------
  // The regular accounts are the input accounts, re-timestamped
  // ---------------------------------------------------------------------------

  /** A group keeps the order of its accounts. */
  lemma {:induction false} InLedgerAppend(xs: seq<Account>, ys: seq<Account>, l: nat)
    ensures InLedger(xs + ys, l) == InLedger(xs, l) + InLedger(ys, l)
  {
    if ys == [] {
      assert xs + ys == xs;
    } else {
      assert (xs + ys)[..|xs + ys| - 1] == xs + ys[..|ys| - 1];
      InLedgerAppend(xs, ys[..|ys| - 1], l);
    }
  }

  lemma {:induction false} InLedgerElements(accounts: seq<Account>, l: nat)
    ensures forall a :: a in InLedger(accounts, l) <==> a in accounts && a.ledger == l
    ensures forall a :: multiset(InLedger(accounts, l))[a] == if a.ledger == l then multiset(accounts)[a] else 0
  {
    if accounts != [] {
      var init, last := accounts[..|accounts| - 1], accounts[|accounts| - 1];
      InLedgerElements(init, l);
      assert accounts == init + [last];
    }
  }

  lemma {:induction false} FlattenCounts(ledgers: seq<nat>, accounts: seq<Account>, a: Account)
    requires Ascending(ledgers)
    ensures multiset(FlattenGroups(ledgers, accounts))[a] == if a.ledger in ledgers then multiset(accounts)[a] else 0
  {
    if ledgers != [] {
      var init, l := ledgers[..|ledgers| - 1], ledgers[|ledgers| - 1];
      FlattenCounts(init, accounts, a);
      InLedgerElements(accounts, l);
      assert ledgers == init + [l];
    }
  }

  /** Grouping, flattening and sorting lose and duplicate nothing. */
  lemma SortedAccountsPermute(accounts: seq<Account>)
    ensures multiset(SortedAccounts(accounts)) == multiset(accounts)
    ensures SortedBy(AccountTimestamp, SortedAccounts(accounts))
    ensures forall t: nat :: WithKey(AccountTimestamp, SortedAccounts(accounts), t)
                          == WithKey(AccountTimestamp, FlattenGroups(SortedLedgers(accounts), accounts), t)
  {
    var ledgers := SortedLedgers(accounts);
    var flat := FlattenGroups(ledgers, accounts);
    SortedLedgersAscending(accounts);
    SortByKeyIsStableSort(AccountTimestamp, flat);
    forall a
      ensures multiset(flat)[a] == multiset(accounts)[a]
    {
      FlattenCounts(ledgers, accounts, a);
      assert a.ledger !in ledgers ==> a !in accounts;
    }
    assert multiset(flat) == multiset(accounts);
  }

  lemma {:induction false} DedupAccountsAt(accounts: seq<Account>, start: nat, i: nat)
    requires i < |accounts|
    ensures var r := DedupAccounts(accounts, start);
            && r[i] == accounts[i].(timestamp := r[i].timestamp)
            && r[i].timestamp >= accounts[i].timestamp && r[i].timestamp > start
            && forall j :: 0 <= j < i ==> r[j].timestamp < r[i].timestamp
  {
    var init, n := accounts[..|accounts| - 1], |accounts| - 1;
    if i < n {
      DedupAccountsAt(init, start, i);
    } else if n > 0 {
      DedupAccountsAt(init, start, n - 1);
    }
  }

  lemma RegularLedgersFit(accounts: seq<Account>)
    requires LedgersFit(accounts)
    ensures LedgersFit(RegularAccounts(accounts))
  {
    SortedAccountsPermute(accounts);
    var sorted := SortedAccounts(accounts);
    forall i | 0 <= i < |sorted|
      ensures RegularAccounts(accounts)[i].ledger <= U32_MAX
    {
      DedupAccountsAt(sorted, 2 * |SortedLedgers(accounts)|, i);
      assert sorted[i] in multiset(sorted);
      assert sorted[i] in accounts;
    }
  }

  // ---------------------------------------------------------------------------
  // The planner
  // ---------------------------------------------------------------------------

  method Build(accounts: seq<Account>) returns (plan: BalancePlan)
    requires LedgersFit(accounts)
    ensures plan == SnapshotPlan(accounts, false)
  {
    plan := BuildSnapshotImpl(accounts, false);
  }

  /** Groups the accounts by ledger, one map entry at a time. */
  method GroupByLedger(accounts: seq<Account>) returns (groups: map<nat, seq<Account>>)
    ensures groups.Keys == LedgerSet(accounts)
    ensures forall l <- groups :: groups[l] == InLedger(accounts, l)
  {
    groups := map[];
    for i := 0 to |accounts|
      invariant groups.Keys == LedgerSet(accounts[..i])
      invariant forall l <- groups :: groups[l] == InLedger(accounts[..i], l)
    {
      var a := accounts[i];
      assert accounts[..i + 1] == accounts[..i] + [a];
      assert accounts[..i + 1][..i] == accounts[..i];
      if a.ledger !in groups {
        NoneInLedger(accounts[..i], a.ledger);
      }
      groups := groups[a.ledger := (if a.ledger in groups then groups[a.ledger] else []) + [a]];
    }
    assert accounts[..|accounts|] == accounts;
  }

  lemma {:induction false} NoneInLedger(accounts: seq<Account>, l: nat)
    requires l !in LedgerSet(accounts)
    ensures InLedger(accounts, l) == []
  {
    if accounts != [] {
      assert accounts[|accounts| - 1] in accounts;
      NoneInLedger(accounts[..|accounts| - 1], l);
    }
  }

  function GroupFor(accounts: seq<Account>, ledger: nat): AccountGroup
    requires ledger <= U32_MAX
  {
    AccountGroup(ledger, InLedger(accounts, ledger), GenesisCreditId(ledger), GenesisDebitId(ledger))
  }

  ghost predicate AreGroups(groups: seq<AccountGroup>, ledgers: seq<nat>, accounts: seq<Account>) {
    && |groups| == |ledgers|
    && forall i :: 0 <= i < |groups| ==> ledgers[i] <= U32_MAX && groups[i] == GroupFor(accounts, ledgers[i])
  }

  /** The groups in ascending ledger order, whatever order the hash map iterated in. */
  method SortedGroups(accounts: seq<Account>) returns (groups: seq<AccountGroup>)
    requires LedgersFit(accounts)
    ensures AreGroups(groups, SortedLedgers(accounts), accounts)
  {
    var groupsMap := GroupByLedger(accounts);
    var order := Enumerate(groupsMap.Keys);
    groups := [];
    for i := 0 to |order|
      invariant AreGroups(groups, order[..i], accounts)
    {
      var ledger := order[i];
      assert ledger in groupsMap.Keys;
      groups := groups + [AccountGroup(ledger, groupsMap[ledger], U128_MAX - ledger * 2, U128_MAX - ledger * 2 - 1)];
    }
    assert order[..|order|] == order;
    SortingGroups(groups, order, accounts);
    groups := SortByKey(GroupLedger, groups);
  }

  lemma GroupMembers(groups: seq<AccountGroup>, ledgers: seq<nat>, accounts: seq<Account>)
    requires AreGroups(groups, ledgers, accounts)
    ensures forall g: AccountGroup :: g in groups <==>
              g.ledger in ledgers && g.ledger <= U32_MAX && g == GroupFor(accounts, g.ledger)
  {
    forall g | g in groups
      ensures g.ledger in ledgers && g.ledger <= U32_MAX && g == GroupFor(accounts, g.ledger)
    {
      var i :| 0 <= i < |groups| && groups[i] == g;
    }
    forall g: AccountGroup | g.ledger in ledgers && g.ledger <= U32_MAX && g == GroupFor(accounts, g.ledger)
      ensures g in groups
    {
      var i :| 0 <= i < |ledgers| && ledgers[i] == g.ledger;
      assert groups[i] == g;
    }
  }

  lemma SortingGroups(groups: seq<AccountGroup>, order: seq<nat>, accounts: seq<Account>)
    requires LedgersFit(accounts)
    requires AreGroups(groups, order, accounts) && IsEnumeration(order, LedgerSet(accounts))
    ensures AreGroups(SortByKey(GroupLedger, groups), SortedLedgers(accounts), accounts)
  {
    var ledgers := SortedLedgers(accounts);
    SortedLedgersFit(accounts);
    SortedLedgersAscending(accounts);
    var expected := seq(|ledgers|, i requires 0 <= i < |ledgers| => GroupFor(accounts, ledgers[i]));
    GroupMembers(groups, order, accounts);
    GroupMembers(expected, ledgers, accounts);
    SortedDistinctKeysStrict(GroupLedger, groups);
    SortKeepsElements(GroupLedger, groups);
    StrictlySortedUnique(GroupLedger, SortByKey(GroupLedger, groups), expected);
  }

  method BuildSnapshotImpl(accounts: seq<Account>, windowedMode: bool) returns (plan: BalancePlan)
    requires LedgersFit(accounts)
    ensures plan == SnapshotPlan(accounts, windowedMode)
  {
    SortedLedgersFit(accounts);
    RegularLedgersFit(accounts);
    hide SortedLedgers, FlattenGroups, InLedger, GenesisAccounts, DedupAccounts, SyntheticTransfers, LedgersFit,
         SortByKey;
    var groups := SortedGroups(accounts);
    var genesisAccounts, flat := BuildGenesis(groups, SortedLedgers(accounts), accounts);
    var genesisMaxTs := |genesisAccounts|;

    var regular := SortByKey(AccountTimestamp, flat);
    regular := DedupeAccountTimestamps(regular, genesisMaxTs);

    var synthetic := GenerateSynthetic(regular, TransferFloor(regular, genesisMaxTs, windowedMode));
    plan := BalancePlan(genesisAccounts, regular, synthetic, []);
  }

  /** Two genesis accounts per group with running timestamps, and the accounts of all groups one after the other. */
  method BuildGenesis(groups: seq<AccountGroup>, ghost ledgers: seq<nat>, ghost accounts: seq<Account>)
    returns (genesisAccounts: seq<Account>, flat: seq<Account>)
    requires AreGroups(groups, ledgers, accounts) && forall i :: 0 <= i < |ledgers| ==> ledgers[i] <= U32_MAX
    ensures genesisAccounts == GenesisAccounts(ledgers) && flat == FlattenGroups(ledgers, accounts)
  {
    genesisAccounts, flat := [], [];
    for i := 0 to |groups|
      invariant genesisAccounts == GenesisAccounts(ledgers[..i])
      invariant flat == FlattenGroups(ledgers[..i], accounts)
    {
      assert ledgers[..i + 1][..i] == ledgers[..i];
      var group, baseTs := groups[i], i * 2 + 1;
      genesisAccounts := genesisAccounts
        + [GenesisAccount(group.genesisCreditId, group.ledger, baseTs)]
        + [GenesisAccount(group.genesisDebitId, group.ledger, baseTs + 1)];
      flat := flat + group.accounts;
    }
    assert ledgers[..|groups|] == ledgers;
  }

  /** Bumps every timestamp that does not exceed its predecessor, position by position. */
  method DedupeAccountTimestamps(accounts: seq<Account>, genesisMaxTs: nat) returns (regular: seq<Account>)
    ensures regular == DedupAccounts(accounts, genesisMaxTs)
  {
    regular := accounts;
    var prevTs := genesisMaxTs;
    for i := 0 to |accounts|
      invariant |regular| == |accounts|
      invariant regular[..i] == DedupAccounts(accounts[..i], genesisMaxTs)
      invariant regular[i..] == accounts[i..]
      invariant prevTs == LastTimestamp(regular[..i], genesisMaxTs)
    {
      assert accounts[..i + 1][..i] == accounts[..i];
      assert regular[i] == regular[i..][0] == accounts[i];
      ghost var before := regular;
      if regular[i].timestamp <= prevTs {
        regular := regular[i := regular[i].(timestamp := prevTs + 1)];
      }
      prevTs := regular[i].timestamp;
      assert regular[..i + 1] == before[..i] + [regular[i]];
    }
    assert regular[..|accounts|] == regular && accounts[..|accounts|] == accounts;
  }

  /** One or two transfers per account with a balance, with running ids and timestamps. */
  method GenerateSynthetic(regular: seq<Account>, floor: nat) returns (synthetic: seq<SyntheticTransfer>)
    requires LedgersFit(regular)
    ensures synthetic == SyntheticTransfers(regular, floor)
  {
    synthetic := [];
    var transferIdCounter, transferTs := 1, floor;
    for i := 0 to |regular|
      invariant synthetic == SyntheticTransfers(regular[..i], floor)
      invariant transferIdCounter == |synthetic| + 1 && transferTs == floor + |synthetic|
    {
      assert regular[..i + 1][..i] == regular[..i];
      var a := regular[i];
      ghost var before := synthetic;
      var genesisCreditId, genesisDebitId := GenesisCreditId(a.ledger), GenesisDebitId(a.ledger);
      if a.creditsPosted > 0 {
        transferTs := transferTs + 1;
        synthetic := synthetic + [SyntheticTransfer(
          transferIdCounter, genesisCreditId, a.id, a.creditsPosted, a.ledger, SYNTHETIC_CODE, transferTs)];
        transferIdCounter := transferIdCounter + 1;
      }
      if a.debitsPosted > 0 {
        transferTs := transferTs + 1;
        synthetic := synthetic + [SyntheticTransfer(
          transferIdCounter, a.id, genesisDebitId, a.debitsPosted, a.ledger, SYNTHETIC_CODE, transferTs)];
        transferIdCounter := transferIdCounter + 1;
      }
      assert synthetic == before + SyntheticFor(a, floor, |before|);
    }
    assert regular[..|regular|] == regular;
  }

  // ---------------------------------------------------------------------------
  // Windowed planning
  // ---------------------------------------------------------------------------

  function SaturatingSub(x: nat, y: nat): nat {
    if x >= y then x - y else 0
  }

  /** The account as it stood at the cutoff, according to the planner. */
  function AtCutoff(a: Account, windowed: seq<Transfer>, cutoffTs: nat): Account {
    if a.timestamp >= cutoffTs then a.(debitsPosted := 0, creditsPosted := 0)
    else a.(debitsPosted := SaturatingSub(a.debitsPosted, Debits(windowed, a.id)),
            creditsPosted := SaturatingSub(a.creditsPosted, Credits(windowed, a.id)))
  }

  function AccountsAtCutoff(accounts: seq<Account>, windowed: seq<Transfer>, cutoffTs: nat): (r: seq<Account>)
    ensures |r| == |accounts|
    ensures forall i :: 0 <= i < |r| ==> r[i] == AtCutoff(accounts[i], windowed, cutoffTs)
  {
    if accounts == [] then []
    else
      AccountsAtCutoff(accounts[..|accounts| - 1], windowed, cutoffTs)
      + [AtCutoff(accounts[|accounts| - 1], windowed, cutoffTs)]
  }

  lemma CutoffLedgersFit(accounts: seq<Account>, windowed: seq<Transfer>, cutoffTs: nat)
    requires LedgersFit(accounts)
    ensures LedgersFit(AccountsAtCutoff(accounts, windowed, cutoffTs))
  {
    var r := AccountsAtCutoff(accounts, windowed, cutoffTs);
    forall i | 0 <= i < |r|
      ensures r[i].ledger <= U32_MAX
    {
      assert accounts[i] in accounts;
    }
  }

  function WindowedPlan(accounts: seq<Account>, windowed: seq<Transfer>, cutoffTs: nat): BalancePlan
    requires LedgersFit(accounts)
  {
    CutoffLedgersFit(accounts, windowed, cutoffTs);
    SnapshotPlan(AccountsAtCutoff(accounts, windowed, cutoffTs), true).(windowedTransfers := windowed)
  }

  function Lookup(m: map<nat, nat>, id: nat): nat {
    if id in m then m[id] else 0
  }

  method BuildWindowed(accounts: seq<Account>, windowed: seq<Transfer>, cutoffTs: nat) returns (plan: BalancePlan)
    requires LedgersFit(accounts)
    ensures plan == WindowedPlan(accounts, windowed, cutoffTs)
  {
    var debitDelta: map<nat, nat>, creditDelta: map<nat, nat> := map[], map[];
    for i := 0 to |windowed|
      invariant forall id :: Lookup(debitDelta, id) == Debits(windowed[..i], id)
      invariant forall id :: Lookup(creditDelta, id) == Credits(windowed[..i], id)
    {
      var t := windowed[i];
      assert windowed[..i + 1][..i] == windowed[..i];
      debitDelta := debitDelta[t.debitAccountId := Lookup(debitDelta, t.debitAccountId) + t.amount];
      creditDelta := creditDelta[t.creditAccountId := Lookup(creditDelta, t.creditAccountId) + t.amount];
    }
    assert windowed[..|windowed|] == windowed;

    var adjusted: seq<Account> := [];
    for i := 0 to |accounts|
      invariant adjusted == AccountsAtCutoff(accounts[..i], windowed, cutoffTs)
    {
      assert accounts[..i + 1][..i] == accounts[..i];
      var a := accounts[i];
      if a.timestamp >= cutoffTs {
        a := a.(debitsPosted := 0, creditsPosted := 0);
      } else {
        a := a.(debitsPosted := SaturatingSub(a.debitsPosted, Lookup(debitDelta, a.id)),
                creditsPosted := SaturatingSub(a.creditsPosted, Lookup(creditDelta, a.id)));
      }
      adjusted := adjusted + [a];
    }
    assert accounts[..|accounts|] == accounts;

    CutoffLedgersFit(accounts, windowed, cutoffTs);
    plan := BuildSnapshotImpl(adjusted, true);
    plan := plan.(windowedTransfers := windowed);
  }
}
