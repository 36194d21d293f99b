/** The migration theorems: running a plan on an empty ledger. */
module Migration {
  import opened Wrappers
  import opened Records
  import opened Sorting
  import opened Ledgers
  import opened Plans
  import opened Importers
  import opened Acceptance
  import opened Replay

  // ---------------------------------------------------------------------------
  // The regular accounts are the input accounts in another order, re-timestamped
  // ---------------------------------------------------------------------------

  predicate SameButTimestamp(a: Account, b: Account) {
    a == b.(timestamp := a.timestamp)
  }

  lemma RegularFromSorted(accounts: seq<Account>)
    ensures |RegularAccounts(accounts)| == |SortedAccounts(accounts)| == |accounts|
    ensures forall i :: 0 <= i < |accounts| ==> SameButTimestamp(RegularAccounts(accounts)[i],
                                                                 SortedAccounts(accounts)[i])
    ensures multiset(SortedAccounts(accounts)) == multiset(accounts)
  {
    var sorted := SortedAccounts(accounts);
    SortedAccountsPermute(accounts);
    assert |multiset(sorted)| == |sorted| && |multiset(accounts)| == |accounts|;
    forall i | 0 <= i < |sorted|
      ensures SameButTimestamp(RegularAccounts(accounts)[i], sorted[i])
    {
      DedupAccountsAt(sorted, 2 * |SortedLedgers(accounts)|, i);
    }
  }

  /** Which input account regular account `i` is. */
  lemma RegularSource(accounts: seq<Account>, i: nat) returns (a: Account)
    requires i < |accounts|
    ensures |RegularAccounts(accounts)| == |accounts|
    ensures a in accounts && SameButTimestamp(RegularAccounts(accounts)[i], a)
  {
    RegularFromSorted(accounts);
    a := SortedAccounts(accounts)[i];
    assert a in multiset(accounts);
  }

  /** Where input account `a` went. */
  lemma RegularIndex(accounts: seq<Account>, a: Account) returns (i: nat)
    requires a in accounts
    ensures |RegularAccounts(accounts)| == |accounts|
    ensures i < |accounts| && SameButTimestamp(RegularAccounts(accounts)[i], a)
  {
    RegularFromSorted(accounts);
    assert a in multiset(SortedAccounts(accounts));
    i :| 0 <= i < |accounts| && SortedAccounts(accounts)[i] == a;
  }

  lemma RegularDistinctIff(accounts: seq<Account>)
    ensures DistinctIds(RegularAccounts(accounts)) <==> DistinctIds(accounts)
  {
    var sorted, regular := SortedAccounts(accounts), RegularAccounts(accounts);
    RegularFromSorted(accounts);
    assert forall i :: 0 <= i < |sorted| ==> SameButTimestamp(regular[i], sorted[i]) && regular[i].id == sorted[i].id;
    if DistinctIds(accounts) {
      DistinctByPermutation(AccountId, accounts, sorted);
    }
    if DistinctIds(sorted) {
      DistinctByPermutation(AccountId, sorted, accounts);
    }
  }

  /** Sums that ignore timestamps are the same over the input and the regular accounts. */
  lemma RegularSums(accounts: seq<Account>, f: Account -> nat)
    requires forall a, b :: SameButTimestamp(a, b) ==> f(a) == f(b)
    ensures SumBy(f, RegularAccounts(accounts)) == SumBy(f, accounts)
  {
    var sorted, regular := SortedAccounts(accounts), RegularAccounts(accounts);
    RegularFromSorted(accounts);
    SumByPermutation(f, sorted, accounts);
    SumByPointwise(f, sorted, regular);
  }

  lemma {:induction false} SumByPointwise<T>(f: T -> nat, s: seq<T>, r: seq<T>)
    requires |s| == |r| && forall i :: 0 <= i < |s| ==> f(s[i]) == f(r[i])
    ensures SumBy(f, s) == SumBy(f, r)
  {
    if s != [] {
      SumByPointwise(f, s[..|s| - 1], r[..|r| - 1]);
    }
  }

  lemma RegularSumsFit(accounts: seq<Account>)
    ensures SumsFit(RegularAccounts(accounts)) <==> SumsFit(accounts)
  {
    forall l: nat
      ensures SumBy(CreditIn(l), RegularAccounts(accounts)) == SumBy(CreditIn(l), accounts)
      ensures SumBy(DebitIn(l), RegularAccounts(accounts)) == SumBy(DebitIn(l), accounts)
    {
      RegularSums(accounts, CreditIn(l));
      RegularSums(accounts, DebitIn(l));
    }
  }

  // ---------------------------------------------------------------------------
  // Genesis accounts
  // ---------------------------------------------------------------------------

  lemma {:induction false} GenesisAt(ledgers: seq<nat>, k: nat)
    requires (forall i :: 0 <= i < |ledgers| ==> ledgers[i] <= U32_MAX) && k < |ledgers|
    ensures GenesisAccounts(ledgers)[2 * k] == GenesisAccount(GenesisCreditId(ledgers[k]), ledgers[k], 2 * k + 1)
    ensures GenesisAccounts(ledgers)[2 * k + 1] == GenesisAccount(GenesisDebitId(ledgers[k]), ledgers[k], 2 * k + 2)
  {
    if k < |ledgers| - 1 {
      GenesisAt(ledgers[..|ledgers| - 1], k);
    }
  }

  /** Genesis timestamps are 1, 2, ... and genesis ids strictly decrease, so they never clash. */
  predicate GenesisOrdered(g: seq<Account>) {
    && (forall i :: 0 <= i < |g| ==> g[i].timestamp == i + 1)
    && (forall i, j :: 0 <= i < j < |g| ==> g[i].id > g[j].id)
  }

  /** Which ledger genesis account `i` serves, and on which side. */
  lemma GenesisSide(ledgers: seq<nat>, i: nat) returns (h: nat)
    requires (forall i :: 0 <= i < |ledgers| ==> ledgers[i] <= U32_MAX) && i < |GenesisAccounts(ledgers)|
    ensures h < |ledgers| && (i == 2 * h || i == 2 * h + 1)
    ensures var g := GenesisAccounts(ledgers)[i];
            g == GenesisAccount(U128_MAX - 2 * ledgers[h] - (i - 2 * h), ledgers[h], i + 1)
  {
    h := i / 2;
    assert i == 2 * h || i == 2 * h + 1;
    GenesisAt(ledgers, h);
  }

  lemma GenesisOrder(ledgers: seq<nat>, g: seq<Account>)
    requires Ascending(ledgers) && forall i :: 0 <= i < |ledgers| ==> ledgers[i] <= U32_MAX
    requires g == GenesisAccounts(ledgers)
    ensures GenesisOrdered(g)
  {
    hide GenesisAccounts;
    forall i | 0 <= i < |g|
      ensures g[i].timestamp == i + 1
    {
      var h := GenesisSide(ledgers, i);
    }
    forall i, j | 0 <= i < j < |g|
      ensures g[i].id > g[j].id
    {
      var h := GenesisSide(ledgers, i);
      var k := GenesisSide(ledgers, j);
      assert h < k ==> ledgers[h] < ledgers[k];
    }
  }

  lemma GenesisOfOrder(accounts: seq<Account>)
    requires LedgersFit(accounts)
    ensures |GenesisOf(accounts)| == 2 * |SortedLedgers(accounts)| && GenesisOrdered(GenesisOf(accounts))
  {
    SortedLedgersFit(accounts);
    SortedLedgersAscending(accounts);
    GenesisOrder(SortedLedgers(accounts), GenesisOf(accounts));
  }

  /** The genesis ids in a plan are exactly the genesis ids of the accounts' ledgers. */
  lemma GenesisOwner(accounts: seq<Account>, k: nat) returns (a: Account)
    requires LedgersFit(accounts) && k < |GenesisOf(accounts)|
    ensures a in accounts
    ensures CreditGenesisOf(a, GenesisOf(accounts)[k].id) || DebitGenesisOf(a, GenesisOf(accounts)[k].id)
  {
    var side;
    a, side := GenesisFor(accounts, k);
  }

  lemma GenesisIndex(accounts: seq<Account>, a: Account) returns (k: nat)
    requires LedgersFit(accounts) && a in accounts
    ensures a.ledger <= U32_MAX && 2 * k + 1 < |GenesisOf(accounts)|
    ensures GenesisOf(accounts)[2 * k] == GenesisAccount(GenesisCreditId(a.ledger), a.ledger, 2 * k + 1)
    ensures GenesisOf(accounts)[2 * k + 1] == GenesisAccount(GenesisDebitId(a.ledger), a.ledger, 2 * k + 2)
  {
    var ledgers := SortedLedgers(accounts);
    SortedLedgersFit(accounts);
    SortedLedgersAscending(accounts);
    assert a.ledger in ledgers;
    k :| 0 <= k < |ledgers| && ledgers[k] == a.ledger;
    GenesisAt(ledgers, k);
  }

  function GenesisOf(accounts: seq<Account>): seq<Account>
    requires LedgersFit(accounts)
  {
    SortedLedgersFit(accounts);
    GenesisAccounts(SortedLedgers(accounts))
  }

  /** The accounts a plan creates, in import order. */
  function PlanAccounts(accounts: seq<Account>): seq<Account>
    requires LedgersFit(accounts)
  {
    GenesisOf(accounts) + RegularAccounts(accounts)
  }

  // ---------------------------------------------------------------------------
  // The account phases
  // ---------------------------------------------------------------------------

  ghost predicate Rising(accounts: seq<Account>, floor: nat) {
    && (forall i :: 0 <= i < |accounts| ==> accounts[i].timestamp > floor)
    && (forall i, j :: 0 <= i < j < |accounts| ==> accounts[i].timestamp < accounts[j].timestamp)
  }

  lemma RegularRising(accounts: seq<Account>)
    ensures Rising(RegularAccounts(accounts), 2 * |SortedLedgers(accounts)|)
  {
    var regular := RegularAccounts(accounts);
    RegularFromSorted(accounts);
    forall i | 0 <= i < |regular|
      ensures regular[i].timestamp > 2 * |SortedLedgers(accounts)|
      ensures forall j :: 0 <= j < i ==> regular[j].timestamp < regular[i].timestamp
    {
      DedupAccountsAt(SortedAccounts(accounts), 2 * |SortedLedgers(accounts)|, i);
    }
  }

  /** Timestamps strictly increase over genesis and regular accounts together. */
  lemma Timeline(accounts: seq<Account>)
    requires LedgersFit(accounts)
    ensures Rising(PlanAccounts(accounts), 0)
  {
    hide RegularAccounts, GenesisOf, SortedLedgers;
    var genesis, regular, all := GenesisOf(accounts), RegularAccounts(accounts), PlanAccounts(accounts);
    GenesisOfOrder(accounts);
    RegularRising(accounts);
    assert forall i :: 0 <= i < |all| ==> all[i] == if i < |genesis| then genesis[i] else regular[i - |genesis|];
  }

  /** What the ledger asks of an account to be migrated. */
  predicate AllowedShape(a: Account) {
    && a.id != 0 && a.id != U128_MAX && a.ledger != 0 && a.code != 0
    && !AccountLinked(a.flags)
    && !(DebitsMustNotExceedCredits(a.flags) && CreditsMustNotExceedDebits(a.flags))
  }

  /** The accounts can be created: checkable before planning, apart from the last planned timestamp. */
  ghost predicate Creatable(accounts: seq<Account>, clock: nat) {
    && (forall a <- accounts :: AllowedShape(a))
    && DistinctIds(accounts) && ClearOfGenesis(accounts)
    && (accounts != [] ==> TimestampOk(LastTimestamp(RegularAccounts(accounts), 0), clock))
  }

  lemma ConvertedShape(a: Account)
    ensures AcceptableShape(ConvertAccount(a)) <==> AllowedShape(a)
  {
    AccountFlagsPreserved(a.flags);
  }

  lemma GenesisShape(accounts: seq<Account>, i: nat)
    requires LedgersFit(accounts) && i < |GenesisOf(accounts)|
    requires forall a <- accounts :: a.ledger != 0
    ensures AllowedShape(GenesisOf(accounts)[i])
  {
    hide *;
    var a, side := GenesisFor(accounts, i);
    GenesisAllowed(a.ledger, side, i + 1);
  }

  lemma GenesisFor(accounts: seq<Account>, i: nat) returns (a: Account, side: nat)
    requires LedgersFit(accounts) && i < |GenesisOf(accounts)|
    ensures a in accounts && side <= 1 && a.ledger <= U32_MAX
    ensures GenesisOf(accounts)[i] == GenesisAccount(U128_MAX - 2 * a.ledger - side, a.ledger, i + 1)
    ensures GenesisOf(accounts)[i]
         == Account(U128_MAX - 2 * a.ledger - side, 0, 0, 0, 0, 0, 0, 0, 0, a.ledger, 1, 0, i + 1)
  {
    hide SortedLedgers, GenesisAccounts, GenesisAccount;
    var ledgers := SortedLedgers(accounts);
    SortedLedgersFit(accounts);
    SortedLedgersAscending(accounts);
    var h := GenesisSide(ledgers, i);
    assert ledgers[h] in ledgers;
    a :| a in accounts && a.ledger == ledgers[h];
    side := i - 2 * h;
    GenesisAccountIs(U128_MAX - 2 * a.ledger - side, a.ledger, i + 1);
  }

  lemma GenesisAccountIs(id: nat, ledger: nat, timestamp: nat)
    ensures GenesisAccount(id, ledger, timestamp) == Account(id, 0, 0, 0, 0, 0, 0, 0, 0, ledger, 1, 0, timestamp)
  {
  }

  lemma GenesisAllowed(ledger: nat, side: nat, timestamp: nat)
    requires 0 < ledger <= U32_MAX && side <= 1
    ensures AllowedShape(GenesisAccount(U128_MAX - 2 * ledger - side, ledger, timestamp))
  {
  }

  lemma ConvertedShapes(accounts: seq<Account>)
    requires LedgersFit(accounts)
    ensures (forall i :: 0 <= i < |PlanAccounts(accounts)| ==> AllowedShape(PlanAccounts(accounts)[i]))
            <==> forall a <- accounts :: AllowedShape(a)
  {
    var genesis, regular, all := GenesisOf(accounts), RegularAccounts(accounts), PlanAccounts(accounts);
    RegularFromSorted(accounts);
    if forall a <- accounts :: AllowedShape(a) {
      forall i | 0 <= i < |all|
        ensures AllowedShape(all[i])
      {
        if i < |genesis| {
          GenesisShape(accounts, i);
        } else {
          var a := RegularSource(accounts, i - |genesis|);
          assert AllowedShape(a);
        }
      }
    }
    if forall i :: 0 <= i < |all| ==> AllowedShape(all[i]) {
      forall a <- accounts
        ensures AllowedShape(a)
      {
        var i := RegularIndex(accounts, a);
        assert all[|genesis| + i] == regular[i];
        assert AllowedShape(all[|genesis| + i]);
      }
    }
  }

  lemma ClearIff(accounts: seq<Account>)
    requires LedgersFit(accounts)
    ensures (forall i, j :: 0 <= i < |GenesisOf(accounts)| && 0 <= j < |RegularAccounts(accounts)| ==>
               GenesisOf(accounts)[i].id != RegularAccounts(accounts)[j].id)
            <==> ClearOfGenesis(accounts)
  {
    var genesis, regular := GenesisOf(accounts), RegularAccounts(accounts);
    RegularFromSorted(accounts);
    if ClearOfGenesis(accounts) {
      forall i, j | 0 <= i < |genesis| && 0 <= j < |regular|
        ensures genesis[i].id != regular[j].id
      {
        var owner := GenesisOwner(accounts, i);
        var source := RegularSource(accounts, j);
        var o :| 0 <= o < |accounts| && accounts[o] == owner;
        var s :| 0 <= s < |accounts| && accounts[s] == source;
        assert !CreditGenesisOf(accounts[o], accounts[s].id);
      }
    }
    if forall i, j :: 0 <= i < |genesis| && 0 <= j < |regular| ==> genesis[i].id != regular[j].id {
      forall i, j | 0 <= i < |accounts| && 0 <= j < |accounts|
        ensures !CreditGenesisOf(accounts[j], accounts[i].id) && !DebitGenesisOf(accounts[j], accounts[i].id)
      {
        var k := GenesisIndex(accounts, accounts[j]);
        var r := RegularIndex(accounts, accounts[i]);
        assert genesis[2 * k].id != regular[r].id && genesis[2 * k + 1].id != regular[r].id;
      }
    }
  }

  lemma PlanIdsDistinctIff(accounts: seq<Account>)
    requires LedgersFit(accounts)
    ensures DistinctIds(PlanAccounts(accounts)) <==> DistinctIds(accounts) && ClearOfGenesis(accounts)
  {
    hide RegularAccounts, GenesisOf, SortedLedgers, ClearOfGenesis;
    var genesis, regular, all := GenesisOf(accounts), RegularAccounts(accounts), PlanAccounts(accounts);
    GenesisOfOrder(accounts);
    RegularDistinctIff(accounts);
    ClearIff(accounts);
    if DistinctIds(all) {
      forall i, j | 0 <= i < j < |regular|
        ensures regular[i].id != regular[j].id
      {
        assert all[|genesis| + i].id != all[|genesis| + j].id;
      }
      forall i, j | 0 <= i < |genesis| && 0 <= j < |regular|
        ensures genesis[i].id != regular[j].id
      {
        assert all[i].id != all[|genesis| + j].id;
      }
    }
    if DistinctIds(regular) && ClearOfGenesis(accounts) {
      forall i, j | 0 <= i < j < |all|
        ensures all[i].id != all[j].id
      {
        if j < |genesis| {
          assert genesis[i].id > genesis[j].id;
        } else if |genesis| <= i {
          assert regular[i - |genesis|].id != regular[j - |genesis|].id;
        } else {
          assert genesis[i].id != regular[j - |genesis|].id;
        }
      }
    }
  }

  /** The two account phases are accepted by an empty ledger if and only if the accounts are creatable. */
  lemma AccountPhasesAcceptedIff(accounts: seq<Account>, clock: nat)
    requires LedgersFit(accounts)
    ensures Run(EmptyLedger(clock), AccountEvents(ConvertAccounts(PlanAccounts(accounts)))).Ok? <==>
            Creatable(accounts, clock)
  {
    hide Run, CreateAccount, CreateTransfer;
    var all := PlanAccounts(accounts);
    var events := ConvertAccounts(all);
    AccountsAcceptedIff(EmptyLedger(clock), events);
    Timeline(accounts);
    ConvertedShapes(accounts);
    forall i | 0 <= i < |all|
      ensures AcceptableShape(events[i]) <==> AllowedShape(all[i])
    {
      ConvertedShape(all[i]);
    }
    PlanIdsDistinctIff(accounts);
    assert DistinctIds(events) <==> DistinctIds(all);
    RegularFromSorted(accounts);
    LastIsGreatestTimestamp(accounts, clock);
  }

  lemma RisingImportableIff(all: seq<Account>, clock: nat)
    requires Rising(all, 0)
    ensures TimestampsImportable(ConvertAccounts(all), 0, clock) <==>
            (all != [] ==> TimestampOk(all[|all| - 1].timestamp, clock))
  {
    var events := ConvertAccounts(all);
    assert forall i :: 0 <= i < |all| ==> events[i].timestamp == all[i].timestamp;
    if all != [] {
      assert forall i :: 0 <= i < |all| ==> all[i].timestamp <= all[|all| - 1].timestamp;
    }
  }

  lemma LastIsGreatestTimestamp(accounts: seq<Account>, clock: nat)
    requires LedgersFit(accounts)
    ensures TimestampsImportable(ConvertAccounts(PlanAccounts(accounts)), 0, clock) <==>
            (accounts != [] ==> TimestampOk(LastTimestamp(RegularAccounts(accounts), 0), clock))
  {
    Timeline(accounts);
    RegularFromSorted(accounts);
    RisingImportableIff(PlanAccounts(accounts), clock);
    assert accounts == [] ==> SortedLedgers(accounts) == [];
  }

  // ---------------------------------------------------------------------------
  // The synthetic phase, from the ledger the account phases leave
  // ---------------------------------------------------------------------------

  function FloorOf(accounts: seq<Account>, windowedMode: bool): nat {
    TransferFloor(RegularAccounts(accounts), 2 * |SortedLedgers(accounts)|, windowedMode)
  }

  /** The ledger once all accounts are created. */
  function AccountsCreated(accounts: seq<Account>, clock: nat): Ledger
    requires LedgersFit(accounts)
  {
    AfterAccounts(EmptyLedger(clock), ConvertAccounts(PlanAccounts(accounts)))
  }

  lemma CreatedAt(accounts: seq<Account>, clock: nat, k: nat)
    requires LedgersFit(accounts) && Creatable(accounts, clock) && k < |PlanAccounts(accounts)|
    ensures var a, s := PlanAccounts(accounts)[k], AccountsCreated(accounts, clock);
            && a.id in s.accounts
            && s.accounts[a.id] == Balance(a.ledger, ConvertAccountFlags(a.flags), a.timestamp, TagsOf(a), 0, 0)
  {
    var events := ConvertAccounts(PlanAccounts(accounts));
    PlanIdsDistinctIff(accounts);
    assert DistinctIds(events) by {
      assert forall i :: 0 <= i < |events| ==> events[i].id == PlanAccounts(accounts)[i].id;
    }
    BalancesOfAt(events, k);
  }

  lemma {:induction false} MaxActiveBounds(regular: seq<Account>, i: nat)
    requires i < |regular| && Active(regular[i])
    ensures MaxActiveTimestamp(regular).Some? && regular[i].timestamp <= MaxActiveTimestamp(regular).value
  {
    if i < |regular| - 1 {
      MaxActiveBounds(regular[..|regular| - 1], i);
    }
  }

  lemma {:induction false} MaxActiveAttained(regular: seq<Account>)
    ensures MaxActiveTimestamp(regular).Some? ==>
              exists i :: 0 <= i < |regular| && Active(regular[i])
                && regular[i].timestamp == MaxActiveTimestamp(regular).value
  {
    if regular != [] {
      var init := regular[..|regular| - 1];
      MaxActiveAttained(init);
      if MaxActiveTimestamp(init).Some? {
        var i :| 0 <= i < |init| && Active(init[i]) && init[i].timestamp == MaxActiveTimestamp(init).value;
        assert regular[i] == init[i];
      }
    }
  }

  predicate HasBalance(a: Account) {
    a.debitsPosted + a.creditsPosted > 0
  }

  /**
    The floor is the timestamp of an account with a balance (in snapshot mode, of an account), or the last
    genesis timestamp if there is none.
   */
  ghost predicate FloorAttained(accounts: seq<Account>, windowedMode: bool) {
    AttainsFloor(RegularAccounts(accounts), 2 * |SortedLedgers(accounts)|, windowedMode,
                 FloorOf(accounts, windowedMode))
  }

  ghost predicate AttainsFloor(regular: seq<Account>, genesisMax: nat, windowedMode: bool, floor: nat) {
    || (exists i :: 0 <= i < |regular| && (HasBalance(regular[i]) || !windowedMode) && regular[i].timestamp == floor)
    || (floor == genesisMax && forall i :: 0 <= i < |regular| ==> windowedMode && !HasBalance(regular[i]))
  }

  /**
    The transfer floor is at least every genesis timestamp and that of every account with a balance (in
    snapshot mode, of every account), and it is attained.
   */
  lemma FloorBounds(accounts: seq<Account>, windowedMode: bool)
    ensures FloorOf(accounts, windowedMode) >= 2 * |SortedLedgers(accounts)|
    ensures var regular := RegularAccounts(accounts);
            forall i | 0 <= i < |regular| && (HasBalance(regular[i]) || !windowedMode) ::
              regular[i].timestamp <= FloorOf(accounts, windowedMode)
    ensures FloorAttained(accounts, windowedMode)
  {
    var regular, genesisMax := RegularAccounts(accounts), 2 * |SortedLedgers(accounts)|;
    RegularRising(accounts);
    hide RegularAccounts, SortedLedgers;
    FloorOfRising(regular, genesisMax, windowedMode);
  }

  lemma FloorOfRising(regular: seq<Account>, genesisMax: nat, windowedMode: bool)
    requires Rising(regular, genesisMax)
    ensures var floor := TransferFloor(regular, genesisMax, windowedMode);
            && floor >= genesisMax
            && (forall i | 0 <= i < |regular| && (HasBalance(regular[i]) || !windowedMode) ::
                  regular[i].timestamp <= floor)
            && AttainsFloor(regular, genesisMax, windowedMode, floor)
  {
    var floor := TransferFloor(regular, genesisMax, windowedMode);
    if windowedMode {
      hide MaxActiveTimestamp;
      MaxActiveAttained(regular);
      forall i | 0 <= i < |regular| && Active(regular[i])
        ensures MaxActiveTimestamp(regular).Some? && regular[i].timestamp <= floor
      {
        MaxActiveBounds(regular, i);
      }
    } else if regular != [] {
      assert floor == regular[|regular| - 1].timestamp;
    }
  }

  lemma RegularClear(accounts: seq<Account>)
    requires LedgersFit(accounts) && ClearOfGenesis(accounts)
    ensures ClearOfGenesis(RegularAccounts(accounts))
  {
    var regular := RegularAccounts(accounts);
    RegularFromSorted(accounts);
    forall i, j | 0 <= i < |regular| && 0 <= j < |regular|
      ensures !CreditGenesisOf(regular[j], regular[i].id) && !DebitGenesisOf(regular[j], regular[i].id)
    {
      var a := RegularSource(accounts, i);
      var b := RegularSource(accounts, j);
      var p :| 0 <= p < |accounts| && accounts[p] == a;
      var q :| 0 <= q < |accounts| && accounts[q] == b;
      assert !CreditGenesisOf(accounts[q], accounts[p].id) && !DebitGenesisOf(accounts[q], accounts[p].id);
    }
  }

  lemma NoFlags()
    ensures ConvertAccountFlags(0) == ACCOUNT_IMPORTED
  {
  }

  lemma GenesisHeld(accounts: seq<Account>, windowedMode: bool, clock: nat, a: Account)
    requires LedgersFit(accounts) && Creatable(accounts, clock) && a in accounts
    ensures a.ledger <= U32_MAX
    ensures HoldsGenesis(AccountsCreated(accounts, clock), GenesisCreditId(a.ledger), a.ledger,
                         FloorOf(accounts, windowedMode))
    ensures HoldsGenesis(AccountsCreated(accounts, clock), GenesisDebitId(a.ledger), a.ledger,
                         FloorOf(accounts, windowedMode))
  {
    hide RegularAccounts, GenesisOf, SortedLedgers, Creatable, AccountsCreated, FloorOf, ConvertAccountFlags;
    var genesis, all := GenesisOf(accounts), PlanAccounts(accounts);
    var k := GenesisIndex(accounts, a);
    NoFlags();
    assert all[2 * k] == genesis[2 * k] && all[2 * k + 1] == genesis[2 * k + 1];
    CreatedAt(accounts, clock, 2 * k);
    CreatedAt(accounts, clock, 2 * k + 1);
    FloorBounds(accounts, windowedMode);
    GenesisOfOrder(accounts);
  }

  lemma CreatableLedger(accounts: seq<Account>, clock: nat, a: Account)
    requires Creatable(accounts, clock) && a in accounts
    ensures a.ledger != 0
  {
  }

  lemma RegularHeld(accounts: seq<Account>, windowedMode: bool, clock: nat, i: nat)
    requires LedgersFit(accounts) && Creatable(accounts, clock) && i < |RegularAccounts(accounts)|
    ensures RegularAccounts(accounts)[i].ledger <= U32_MAX
    ensures HoldsAccount(AccountsCreated(accounts, clock), RegularAccounts(accounts)[i],
                         FloorOf(accounts, windowedMode))
  {
    hide RegularAccounts, GenesisOf, SortedLedgers, Creatable, AccountsCreated, FloorOf, ConvertAccountFlags,
         HoldsGenesis, AllowedShape;
    RegularFromSorted(accounts);
    var a := RegularSource(accounts, i);
    CreatableLedger(accounts, clock, a);
    var k := |GenesisOf(accounts)| + i;
    assert PlanAccounts(accounts)[k] == RegularAccounts(accounts)[i];
    CreatedAt(accounts, clock, k);
    GenesisHeld(accounts, windowedMode, clock, a);
    FloorBounds(accounts, windowedMode);
  }

  lemma AccountsCreatedPrepared(accounts: seq<Account>, windowedMode: bool, clock: nat)
    requires LedgersFit(accounts) && Creatable(accounts, clock)
    ensures Prepared(AccountsCreated(accounts, clock), RegularAccounts(accounts), FloorOf(accounts, windowedMode))
  {
    var regular := RegularAccounts(accounts);
    RegularLedgersFit(accounts);
    RegularDistinctIff(accounts);
    RegularClear(accounts);
    forall i | 0 <= i < |regular|
      ensures HoldsAccount(AccountsCreated(accounts, clock), regular[i], FloorOf(accounts, windowedMode))
    {
      RegularHeld(accounts, windowedMode, clock, i);
    }
  }

  /** How many synthetic transfers one account needs. */
  function SideCount(): Account -> nat {
    (a: Account) => (if a.creditsPosted > 0 then 1 else 0) + (if a.debitsPosted > 0 then 1 else 0)
  }

  lemma {:induction false} SyntheticCount(regular: seq<Account>, floor: nat)
    requires LedgersFit(regular)
    ensures |SyntheticTransfers(regular, floor)| == SumBy(SideCount(), regular)
  {
    if regular != [] {
      SyntheticCount(regular[..|regular| - 1], floor);
    }
  }

  /** The accounts can be migrated: everything the cluster will check, known before the import. */
  ghost predicate Importable(accounts: seq<Account>, windowedMode: bool, clock: nat) {
    Creatable(accounts, clock) && Refillable(accounts, windowedMode, clock)
  }

  /** What the accounts must meet for the synthetic phase, once they are created. */
  ghost predicate Refillable(accounts: seq<Account>, windowedMode: bool, clock: nat) {
    && (forall a <- accounts :: Rebuildable(a))
    && SumsFit(accounts)
    && var n := SumBy(SideCount(), accounts);
       n > 0 ==> TimestampOk(FloorOf(accounts, windowedMode) + n, clock)
  }

  lemma RegularRebuildableIff(accounts: seq<Account>)
    ensures (forall i :: 0 <= i < |RegularAccounts(accounts)| ==> Rebuildable(RegularAccounts(accounts)[i]))
            <==> forall a <- accounts :: Rebuildable(a)
  {
    var regular := RegularAccounts(accounts);
    RegularFromSorted(accounts);
    if forall i :: 0 <= i < |regular| ==> Rebuildable(regular[i]) {
      forall a <- accounts
        ensures Rebuildable(a)
      {
        var i := RegularIndex(accounts, a);
        assert Rebuildable(regular[i]);
      }
    }
    if forall a <- accounts :: Rebuildable(a) {
      forall i | 0 <= i < |regular|
        ensures Rebuildable(regular[i])
      {
        var a := RegularSource(accounts, i);
        assert Rebuildable(a);
      }
    }
  }

  lemma RegularReplayableIff(accounts: seq<Account>, floor: nat, clock: nat)
    requires LedgersFit(accounts)
    ensures LedgersFit(RegularAccounts(accounts))
    ensures Replayable(RegularAccounts(accounts), floor, clock) <==>
            && (forall a <- accounts :: Rebuildable(a)) && SumsFit(accounts)
            && (SumBy(SideCount(), accounts) > 0 ==> TimestampOk(floor + SumBy(SideCount(), accounts), clock))
  {
    hide Rebuildable, SumsFit, RegularAccounts;
    var regular := RegularAccounts(accounts);
    RegularLedgersFit(accounts);
    RegularRebuildableIff(accounts);
    RegularSumsFit(accounts);
    RegularSums(accounts, SideCount());
    SyntheticCount(regular, floor);
  }

  // ---------------------------------------------------------------------------
  // The whole plan
  // ---------------------------------------------------------------------------

  function PlanEvents(plan: BalancePlan): seq<Event> {
    AllEvents(Phases(plan))
  }

  function AndThen(r: Result<Ledger, Rejection>, events: seq<Event>): Result<Ledger, Rejection> {
    match r
    case Ok(s) => Run(s, events)
    case Err(e) => Err(e)
  }

  lemma FourPhases(a: Phase, b: Phase, c: Phase, d: Phase)
    ensures AllEvents([a, b, c, d]) == a.events + b.events + c.events + d.events
  {
    var all := [a, b, c, d];
    assert all[..3] == [a, b, c] && [a, b, c][..2] == [a, b] && [a, b][..1] == [a] && [a][..0] == [];
    assert AllEvents([a]) == a.events;
    assert AllEvents([a, b]) == a.events + b.events;
    assert AllEvents([a, b, c]) == a.events + b.events + c.events;
  }

  /** A plan runs as its accounts, then its synthetic transfers, then its windowed transfers. */
  lemma PlanRuns(s: Ledger, plan: BalancePlan)
    ensures var accounts := Run(s, AccountEvents(ConvertAccounts(plan.genesisAccounts + plan.regularAccounts)));
            var synthetic := AndThen(accounts, TransferEvents(ConvertTransfers(plan.syntheticTransfers)));
            Run(s, PlanEvents(plan)) == AndThen(synthetic,
                                                TransferEvents(ConvertWindowedTransfers(plan.windowedTransfers)))
  {
    hide Apply;
    var a := AccountEvents(ConvertAccounts(plan.genesisAccounts));
    var b := AccountEvents(ConvertAccounts(plan.regularAccounts));
    var c := TransferEvents(ConvertTransfers(plan.syntheticTransfers));
    var d := TransferEvents(ConvertWindowedTransfers(plan.windowedTransfers));
    var phases := Phases(plan);
    FourPhases(phases[0], phases[1], phases[2], phases[3]);
    assert AccountEvents(ConvertAccounts(plan.genesisAccounts + plan.regularAccounts)) == a + b;
    RunAppend(s, a + b, c);
    RunAppend(s, a + b + c, d);
  }

  /** The ledger once accounts and synthetic transfers are in. */
  ghost function SyntheticDone(accounts: seq<Account>, windowedMode: bool, clock: nat): Ledger
    requires LedgersFit(accounts)
  {
    RegularLedgersFit(accounts);
    After(AccountsCreated(accounts, clock), SyntheticEvents(RegularAccounts(accounts), FloorOf(accounts, windowedMode)))
  }

  /** The account phases end in the ledger of the created accounts, or are refused. */
  lemma AccountPhasesRun(accounts: seq<Account>, clock: nat)
    requires LedgersFit(accounts)
    ensures var r := Run(EmptyLedger(clock), AccountEvents(ConvertAccounts(PlanAccounts(accounts))));
            if Creatable(accounts, clock) then r == Ok(AccountsCreated(accounts, clock)) else r.Err?
  {
    hide Run, Creatable, AccountsImportable, AfterAccounts, PlanAccounts;
    AccountPhasesAcceptedIff(accounts, clock);
    AccountsAcceptedIff(EmptyLedger(clock), ConvertAccounts(PlanAccounts(accounts)));
  }

  lemma SyntheticPhaseAccepted(accounts: seq<Account>, windowedMode: bool, clock: nat)
    requires LedgersFit(accounts) && Creatable(accounts, clock)
    ensures LedgersFit(RegularAccounts(accounts))
    ensures var events := SyntheticEvents(RegularAccounts(accounts), FloorOf(accounts, windowedMode));
            Run(AccountsCreated(accounts, clock), TransferEvents(events)).Ok? <==>
            Refillable(accounts, windowedMode, clock)
  {
    hide *;
    var s, floor := AccountsCreated(accounts, clock), FloorOf(accounts, windowedMode);
    CreatedClock(accounts, clock);
    RegularReplayableIff(accounts, floor, clock);
    AccountsCreatedPrepared(accounts, windowedMode, clock);
    SyntheticAcceptedIff(s, RegularAccounts(accounts), floor);
    RefillableIs(accounts, windowedMode, clock);
  }

  lemma CreatedClock(accounts: seq<Account>, clock: nat)
    requires LedgersFit(accounts)
    ensures AccountsCreated(accounts, clock).clock == clock
  {
    hide PlanAccounts, BalancesOf;
  }

  lemma RefillableIs(accounts: seq<Account>, windowedMode: bool, clock: nat)
    ensures var n := SumBy(SideCount(), accounts);
            Refillable(accounts, windowedMode, clock) <==>
            && (forall a <- accounts :: Rebuildable(a)) && SumsFit(accounts)
            && (n > 0 ==> TimestampOk(FloorOf(accounts, windowedMode) + n, clock))
  {
    hide FloorOf, Rebuildable, SumsFit;
  }

  lemma SyntheticPhaseRun(accounts: seq<Account>, windowedMode: bool, clock: nat)
    requires LedgersFit(accounts) && Creatable(accounts, clock)
    ensures LedgersFit(RegularAccounts(accounts))
    ensures var events := SyntheticEvents(RegularAccounts(accounts), FloorOf(accounts, windowedMode));
            var r := Run(AccountsCreated(accounts, clock), TransferEvents(events));
            && (r.Ok? <==> Refillable(accounts, windowedMode, clock))
            && (r.Ok? ==> r.value == SyntheticDone(accounts, windowedMode, clock))
  {
    SyntheticPhaseAccepted(accounts, windowedMode, clock);
    hide Run, Creatable, After, AllAcceptable, AccountsCreated, RegularAccounts, FloorOf, SyntheticEvents, Refillable;
    TransfersAcceptedIff(AccountsCreated(accounts, clock),
                         SyntheticEvents(RegularAccounts(accounts), FloorOf(accounts, windowedMode)));
  }

  /** The first three phases are accepted if and only if the accounts are importable. */
  lemma ThreePhasesAcceptedIff(accounts: seq<Account>, windowedMode: bool, clock: nat)
    requires LedgersFit(accounts)
    ensures LedgersFit(RegularAccounts(accounts))
    ensures var regular, floor := RegularAccounts(accounts), FloorOf(accounts, windowedMode);
            var synthetic := TransferEvents(SyntheticEvents(regular, floor));
            var r := AndThen(Run(EmptyLedger(clock), AccountEvents(ConvertAccounts(PlanAccounts(accounts)))),
                             synthetic);
            && (r.Ok? <==> Importable(accounts, windowedMode, clock))
            && (r.Ok? ==> r.value == SyntheticDone(accounts, windowedMode, clock))
  {
    hide Run, Creatable, SyntheticDone, RegularAccounts, FloorOf, PlanAccounts, AccountsCreated, SyntheticEvents,
         Refillable, LedgersFit;
    RegularLedgersFit(accounts);
    AccountPhasesRun(accounts, clock);
    if Creatable(accounts, clock) {
      SyntheticPhaseRun(accounts, windowedMode, clock);
    }
  }

  // ---------------------------------------------------------------------------
  // Snapshot migration
  // ---------------------------------------------------------------------------

  /** The cluster holds account `a` with these balances, its ledger and its flags. */
  predicate Holds(s: Ledger, a: Account, debits: nat, credits: nat) {
    && a.id in s.accounts
    && var b := s.accounts[a.id];
       && b.ledger == a.ledger && b.flags == ConvertAccountFlags(a.flags) && b.timestamp >= a.timestamp
       && b.tags == Tags(a.code, a.userData128, a.userData64, a.userData32)
       && b.debits == debits && b.credits == credits
  }

  lemma DoneAt(accounts: seq<Account>, windowedMode: bool, clock: nat, id: nat)
    requires LedgersFit(accounts) && id in AccountsCreated(accounts, clock).accounts
    ensures LedgersFit(RegularAccounts(accounts))
    ensures var ts := SyntheticEvents(RegularAccounts(accounts), FloorOf(accounts, windowedMode));
            var before, after := AccountsCreated(accounts, clock), SyntheticDone(accounts, windowedMode, clock);
            && id in after.accounts
            && after.accounts[id] == before.accounts[id].(debits := before.accounts[id].debits + Debits(ts, id),
                                                          credits := before.accounts[id].credits + Credits(ts, id))
  {
    RegularLedgersFit(accounts);
    var ts := SyntheticEvents(RegularAccounts(accounts), FloorOf(accounts, windowedMode));
    AfterAt(AccountsCreated(accounts, clock), ts, id);
  }

  lemma RegularWellFormed(accounts: seq<Account>, clock: nat)
    requires LedgersFit(accounts) && Creatable(accounts, clock)
    ensures var regular := RegularAccounts(accounts);
            |regular| == |accounts| && LedgersFit(regular) && DistinctIds(regular) && ClearOfGenesis(regular)
    ensures DistinctIds(accounts)
  {
    RegularFromSorted(accounts);
    RegularLedgersFit(accounts);
    RegularDistinctIff(accounts);
    RegularClear(accounts);
  }

  /** After the synthetic phase every account holds exactly the balances it was planned with. */
  lemma SyntheticRestores(accounts: seq<Account>, windowedMode: bool, clock: nat, a: Account)
    requires LedgersFit(accounts) && Creatable(accounts, clock) && a in accounts
    ensures Holds(SyntheticDone(accounts, windowedMode, clock), a, a.debitsPosted, a.creditsPosted)
  {
    hide SyntheticDone, AccountsCreated, Creatable, SyntheticEvents, RegularAccounts, FloorOf, Debits, Credits,
         ConvertAccountFlags, GenesisOf;
    var regular := RegularAccounts(accounts);
    RegularWellFormed(accounts, clock);
    var i := RegularIndex(accounts, a);
    RegularTotals(regular, FloorOf(accounts, windowedMode), i);
    var k := |GenesisOf(accounts)| + i;
    assert PlanAccounts(accounts)[k] == regular[i];
    CreatedAt(accounts, clock, k);
    DoneAt(accounts, windowedMode, clock, a.id);
    NotEarlier(accounts, a, i);
  }

  lemma DistinctAt(accounts: seq<Account>, p: nat, q: nat)
    requires DistinctIds(accounts) && p < |accounts| && q < |accounts|
    ensures p != q ==> accounts[p].id != accounts[q].id
  {
    assert p < q ==> AccountId(accounts[p]) != AccountId(accounts[q]);
    assert q < p ==> AccountId(accounts[q]) != AccountId(accounts[p]);
  }

  lemma NotEarlier(accounts: seq<Account>, a: Account, i: nat)
    requires a in accounts && DistinctIds(accounts)
    requires |RegularAccounts(accounts)| == |accounts| && i < |accounts| && RegularAccounts(accounts)[i].id == a.id
    ensures RegularAccounts(accounts)[i].timestamp >= a.timestamp
  {
    RegularFromSorted(accounts);
    var b := SortedAccounts(accounts)[i];
    DedupAccountsAt(SortedAccounts(accounts), 2 * |SortedLedgers(accounts)|, i);
    assert b in multiset(accounts);
    var p :| 0 <= p < |accounts| && accounts[p] == a;
    var q :| 0 <= q < |accounts| && accounts[q] == b;
    DistinctAt(accounts, p, q);
  }

  /** After the synthetic phase the genesis accounts of a ledger hold the sums of its balances. */
  lemma SyntheticGenesis(accounts: seq<Account>, windowedMode: bool, clock: nat, a: Account)
    requires LedgersFit(accounts) && Creatable(accounts, clock) && a in accounts
    ensures a.ledger <= U32_MAX
    ensures var s := SyntheticDone(accounts, windowedMode, clock);
            && GenesisCreditId(a.ledger) in s.accounts && GenesisDebitId(a.ledger) in s.accounts
            && s.accounts[GenesisCreditId(a.ledger)].debits == SumBy(CreditIn(a.ledger), accounts)
            && s.accounts[GenesisDebitId(a.ledger)].credits == SumBy(DebitIn(a.ledger), accounts)
  {
    hide SyntheticDone, AccountsCreated, Creatable, SyntheticEvents, RegularAccounts, FloorOf, Debits, Credits,
         GenesisOf;
    var regular, l := RegularAccounts(accounts), a.ledger;
    RegularWellFormed(accounts, clock);
    var i := RegularIndex(accounts, a);
    var k := GenesisIndex(accounts, a);
    forall j | 0 <= j < |regular|
      ensures regular[j].id != GenesisCreditId(l) && regular[j].id != GenesisDebitId(l)
    {
      assert !CreditGenesisOf(regular[i], regular[j].id) && !DebitGenesisOf(regular[i], regular[j].id);
    }
    GenesisTotals(regular, FloorOf(accounts, windowedMode), l);
    RegularSums(accounts, CreditIn(l));
    RegularSums(accounts, DebitIn(l));
    CreatedAt(accounts, clock, 2 * k);
    CreatedAt(accounts, clock, 2 * k + 1);
    DoneAt(accounts, windowedMode, clock, GenesisCreditId(l));
    DoneAt(accounts, windowedMode, clock, GenesisDebitId(l));
  }

  /**
    Snapshot migration preserves meaning: importing the plan of any list of accounts into an empty
    ledger is accepted exactly when the accounts are importable, and then every account holds its
    original posted balances and the genesis accounts hold the sums of their ledger.
   */
  lemma SnapshotMigration(accounts: seq<Account>, clock: nat)
    requires LedgersFit(accounts)
    ensures var r := Run(EmptyLedger(clock), PlanEvents(SnapshotPlan(accounts, false)));
            && (r.Ok? <==> Importable(accounts, false, clock))
            && (r.Ok? ==> forall a <- accounts ::
                  && Holds(r.value, a, a.debitsPosted, a.creditsPosted)
                  && GenesisCreditId(a.ledger) in r.value.accounts && GenesisDebitId(a.ledger) in r.value.accounts
                  && r.value.accounts[GenesisCreditId(a.ledger)].debits == SumBy(CreditIn(a.ledger), accounts)
                  && r.value.accounts[GenesisDebitId(a.ledger)].credits == SumBy(DebitIn(a.ledger), accounts))
  {
    hide SyntheticDone, Creatable, Holds, Apply;
    var plan := SnapshotPlan(accounts, false);
    PlanRuns(EmptyLedger(clock), plan);
    SnapshotPlanParts(accounts, false);
    ThreePhasesAcceptedIff(accounts, false, clock);
    assert TransferEvents(ConvertWindowedTransfers(plan.windowedTransfers)) == [];
    if Importable(accounts, false, clock) {
      forall a <- accounts
        ensures Holds(SyntheticDone(accounts, false, clock), a, a.debitsPosted, a.creditsPosted)
        ensures a.ledger <= U32_MAX
        ensures var s := SyntheticDone(accounts, false, clock);
                && GenesisCreditId(a.ledger) in s.accounts && GenesisDebitId(a.ledger) in s.accounts
                && s.accounts[GenesisCreditId(a.ledger)].debits == SumBy(CreditIn(a.ledger), accounts)
                && s.accounts[GenesisDebitId(a.ledger)].credits == SumBy(DebitIn(a.ledger), accounts)
      {
        SyntheticRestores(accounts, false, clock, a);
        SyntheticGenesis(accounts, false, clock, a);
      }
    }
  }

  lemma SnapshotPlanParts(accounts: seq<Account>, windowedMode: bool)
    requires LedgersFit(accounts)
    ensures LedgersFit(RegularAccounts(accounts))
    ensures var plan := SnapshotPlan(accounts, windowedMode);
            && plan.genesisAccounts + plan.regularAccounts == PlanAccounts(accounts)
            && ConvertTransfers(plan.syntheticTransfers)
               == SyntheticEvents(RegularAccounts(accounts), FloorOf(accounts, windowedMode))
            && plan.windowedTransfers == []
  {
    RegularLedgersFit(accounts);
  }

  // ---------------------------------------------------------------------------
  // Windowed migration
  // ---------------------------------------------------------------------------

  /**
    The window explains the account: an old account moved no more in the window than it holds at the
    end, and a new account holds exactly what it moved in the window.
   */
  predicate ExplainedByWindow(a: Account, windowed: seq<Transfer>, cutoffTs: nat) {
    if a.timestamp >= cutoffTs then
      a.debitsPosted == Debits(windowed, a.id) && a.creditsPosted == Credits(windowed, a.id)
    else
      Debits(windowed, a.id) <= a.debitsPosted && Credits(windowed, a.id) <= a.creditsPosted
  }

  /** Saturation never fires, and the window adds up to the final balance, exactly for explained accounts. */
  lemma CutoffPlusWindowIff(a: Account, windowed: seq<Transfer>, cutoffTs: nat)
    ensures ExplainedByWindow(a, windowed, cutoffTs) <==>
            var c := AtCutoff(a, windowed, cutoffTs);
            && c.debitsPosted + Debits(windowed, a.id) == a.debitsPosted
            && c.creditsPosted + Credits(windowed, a.id) == a.creditsPosted
    ensures var c := AtCutoff(a, windowed, cutoffTs);
            && c.debitsPosted + Debits(windowed, a.id)
               == WindowedEnd(a, a.debitsPosted, Debits(windowed, a.id), cutoffTs)
            && (c.creditsPosted + Credits(windowed, a.id)
                == WindowedEnd(a, a.creditsPosted, Credits(windowed, a.id), cutoffTs))
  {
  }

  /**
    What the accounts phases and the synthetic transfers leave behind, in terms of the accounts alone: what
    is owed to and by every id, transfer ids 1..n used, and the last synthetic timestamp.
   */
  function PlanCluster(accounts: seq<Account>, clock: nat): Cluster
    requires LedgersFit(accounts)
  {
    var n := SumBy(SideCount(), accounts);
    Cluster(PlanAccounts(accounts),
            (id: nat) => SumBy(DebitedFrom(id), accounts), (id: nat) => SumBy(CreditedTo(id), accounts),
            n, if n > 0 then FloorOf(accounts, true) + n else 0, clock)
  }

  /** The opening balances are the planned ones, and the sums of the ledger on the genesis accounts. */
  lemma OpeningBalances(accounts: seq<Account>, clock: nat, a: Account)
    requires LedgersFit(accounts) && DistinctIds(accounts) && ClearOfGenesis(accounts) && a in accounts
    ensures a.ledger <= U32_MAX
    ensures var c := PlanCluster(accounts, clock);
            && c.debits(a.id) == a.debitsPosted && c.credits(a.id) == a.creditsPosted
            && c.debits(GenesisCreditId(a.ledger)) == SumBy(CreditIn(a.ledger), accounts)
            && c.credits(GenesisDebitId(a.ledger)) == SumBy(DebitIn(a.ledger), accounts)
  {
    var k :| 0 <= k < |accounts| && accounts[k] == a;
    assert forall i :: 0 <= i < |accounts| && i != k ==> AccountId(accounts[i]) != AccountId(accounts[k]);
    forall i | 0 <= i < |accounts|
      ensures accounts[i].id != GenesisCreditId(a.ledger) && accounts[i].id != GenesisDebitId(a.ledger)
    {
      assert !CreditGenesisOf(accounts[k], accounts[i].id) && !DebitGenesisOf(accounts[k], accounts[i].id);
    }
    SyntheticTotals(accounts, 0, a.id);
    RegularTotals(accounts, 0, k);
    SyntheticTotals(accounts, 0, GenesisCreditId(a.ledger));
    SyntheticTotals(accounts, 0, GenesisDebitId(a.ledger));
    GenesisTotals(accounts, 0, a.ledger);
  }

  lemma PlanClusterAt(accounts: seq<Account>, clock: nat, a: Account)
    requires LedgersFit(accounts) && Creatable(accounts, clock) && a in PlanAccounts(accounts)
    ensures var s := SyntheticDone(accounts, true, clock);
            a.id in s.accounts && s.accounts[a.id] == PlanCluster(accounts, clock).Stored(a)
  {
    hide SyntheticDone, AccountsCreated, Creatable, SyntheticEvents, RegularAccounts, FloorOf, Debits, Credits,
         ConvertAccountFlags, PlanAccounts;
    var k :| 0 <= k < |PlanAccounts(accounts)| && PlanAccounts(accounts)[k] == a;
    CreatedAt(accounts, clock, k);
    DoneAt(accounts, true, clock, a.id);
    SyntheticTotals(RegularAccounts(accounts), FloorOf(accounts, true), a.id);
    RegularSums(accounts, DebitedFrom(a.id));
    RegularSums(accounts, CreditedTo(a.id));
  }

  lemma ConvertedIds(all: seq<Account>)
    ensures (set e <- ConvertAccounts(all) :: e.id) == (set a <- all :: a.id)
  {
    var events := ConvertAccounts(all);
    forall a <- all
      ensures a.id in set e <- events :: e.id
    {
      var i :| 0 <= i < |all| && all[i] == a;
      assert events[i] in events;
    }
    forall e <- events
      ensures e.id in set a <- all :: a.id
    {
      var i :| 0 <= i < |events| && events[i] == e;
      assert all[i] in all;
    }
  }

  lemma CreatedIds(accounts: seq<Account>, clock: nat)
    requires LedgersFit(accounts)
    ensures AccountsCreated(accounts, clock).accounts.Keys == set a <- PlanAccounts(accounts) :: a.id
  {
    hide PlanAccounts, BalancesOf;
    var events := ConvertAccounts(PlanAccounts(accounts));
    BalancesOfKeys(events);
    ConvertedIds(PlanAccounts(accounts));
    assert (EmptyLedger(clock).accounts + BalancesOf(events)).Keys == BalancesOf(events).Keys;
  }

  lemma SyntheticIds(regular: seq<Account>, floor: nat, id: nat)
    requires LedgersFit(regular)
    ensures id in TransferIds(SyntheticEvents(regular, floor)) <==> 1 <= id <= |SyntheticEvents(regular, floor)|
  {
    var ts := SyntheticEvents(regular, floor);
    forall k | 0 <= k < |ts|
      ensures ts[k].id == k + 1
    {
      SyntheticNumbers(regular, floor, k);
    }
    if 1 <= id <= |ts| {
      assert ts[id - 1] in ts && ts[id - 1].id == id;
    }
  }

  lemma PlanClusterDescribes(accounts: seq<Account>, clock: nat)
    requires LedgersFit(accounts) && Creatable(accounts, clock)
    ensures PlanCluster(accounts, clock).Describes(SyntheticDone(accounts, true, clock))
  {
    hide AccountsCreated, Creatable, SyntheticEvents, RegularAccounts, FloorOf, Debits, Credits, PlanAccounts;
    var c, s := PlanCluster(accounts, clock), SyntheticDone(accounts, true, clock);
    var regular, floor := RegularAccounts(accounts), FloorOf(accounts, true);
    forall a <- c.accounts
      ensures a.id in s.accounts && s.accounts[a.id] == c.Stored(a)
    {
      PlanClusterAt(accounts, clock, a);
    }
    CreatedIds(accounts, clock);
    RegularLedgersFit(accounts);
    PlannedNumbers(accounts, clock);
    forall id: nat
      ensures id in TransferIds(SyntheticEvents(regular, floor)) <==> 1 <= id <= c.idsUsed
    {
      SyntheticIds(regular, floor, id);
    }
    AfterScalars(AccountsCreated(accounts, clock), SyntheticEvents(regular, floor));
  }

  lemma PlannedNumbers(accounts: seq<Account>, clock: nat)
    requires LedgersFit(accounts) && LedgersFit(RegularAccounts(accounts))
    ensures var ts, s := SyntheticEvents(RegularAccounts(accounts), FloorOf(accounts, true)),
            AccountsCreated(accounts, clock);
            && |ts| == SumBy(SideCount(), accounts)
            && (ts != [] ==> ts[|ts| - 1].timestamp == FloorOf(accounts, true) + |ts|)
            && s.UsedIds() == {} && s.lastTransferTimestamp == 0 && s.clock == clock
  {
    NothingPosted(accounts, clock);
    hide AccountsCreated, TransferIds, RegularAccounts, FloorOf, SumBy, SideCount, LedgersFit;
    SyntheticIdsBelow(RegularAccounts(accounts), FloorOf(accounts, true));
    SyntheticCount(RegularAccounts(accounts), FloorOf(accounts, true));
    RegularSums(accounts, SideCount());
  }

  lemma NothingPosted(accounts: seq<Account>, clock: nat)
    requires LedgersFit(accounts)
    ensures var s := AccountsCreated(accounts, clock);
            s.posted == [] && s.UsedIds() == {} && s.lastTransferTimestamp == 0 && s.clock == clock
  {
    hide PlanAccounts, BalancesOf;
  }

  /** Everything the cluster will check of a windowed migration, known before the import. */
  ghost predicate WindowImportable(accounts: seq<Account>, windowed: seq<Transfer>, cutoffTs: nat, clock: nat)
    requires LedgersFit(accounts)
  {
    CutoffLedgersFit(accounts, windowed, cutoffTs);
    var atCutoff := AccountsAtCutoff(accounts, windowed, cutoffTs);
    Importable(atCutoff, true, clock) && TransfersImportable(PlanCluster(atCutoff, clock), windowed)
  }

  /**
    Windowed migration is accepted exactly when the accounts at the cutoff and the window can be imported;
    then the transfers of the window are posted as they were, and every account holds its cutoff balances plus
    its window totals, which is its final balance exactly if the window explains it.
   */
  lemma WindowedMigration(accounts: seq<Account>, windowed: seq<Transfer>, cutoffTs: nat, clock: nat)
    requires LedgersFit(accounts)
    ensures var r := Run(EmptyLedger(clock), PlanEvents(WindowedPlan(accounts, windowed, cutoffTs)));
            && (r.Ok? <==> WindowImportable(accounts, windowed, cutoffTs, clock))
            && (r.Ok? ==> Replayed(r.value, windowed))
            && (r.Ok? ==> forall a <- accounts :: WindowedOutcome(r.value, a, windowed, cutoffTs))
  {
    hide Run, PlanEvents, WindowedPlan, TransfersImportable, AccountsAtCutoff, WindowedOutcome, SyntheticDone, Replayed,
         After;
    var adjusted := AccountsAtCutoff(accounts, windowed, cutoffTs);
    CutoffLedgersFit(accounts, windowed, cutoffTs);
    WindowedAcceptedIff(accounts, windowed, cutoffTs, clock);
    if Importable(adjusted, true, clock) {
      WindowedOutcomes(accounts, windowed, cutoffTs, clock);
      ReplayedAfter(SyntheticDone(adjusted, true, clock), [], windowed);
      assert [] + ConvertWindowedTransfers(windowed) == ConvertWindowedTransfers(windowed);
    }
  }

  lemma WindowedAcceptedIff(accounts: seq<Account>, windowed: seq<Transfer>, cutoffTs: nat, clock: nat)
    requires LedgersFit(accounts)
    ensures LedgersFit(AccountsAtCutoff(accounts, windowed, cutoffTs))
    ensures var atCutoff := AccountsAtCutoff(accounts, windowed, cutoffTs);
            var r := Run(EmptyLedger(clock), PlanEvents(WindowedPlan(accounts, windowed, cutoffTs)));
            && (r.Ok? <==> WindowImportable(accounts, windowed, cutoffTs, clock))
            && (r.Ok? ==> r.value == After(SyntheticDone(atCutoff, true, clock), ConvertWindowedTransfers(windowed)))
  {
    hide SyntheticDone, AllAcceptable, After, Run, PlanEvents, AccountsAtCutoff, Replayable, Creatable,
         TransfersImportable;
    CutoffLedgersFit(accounts, windowed, cutoffTs);
    var adjusted := AccountsAtCutoff(accounts, windowed, cutoffTs);
    PlanRuns(EmptyLedger(clock), WindowedPlan(accounts, windowed, cutoffTs));
    SnapshotPlanParts(adjusted, true);
    ThreePhasesAcceptedIff(adjusted, true, clock);
    if Importable(adjusted, true, clock) {
      var done := SyntheticDone(adjusted, true, clock);
      TransfersAcceptedIff(done, ConvertWindowedTransfers(windowed));
      PlanClusterDescribes(adjusted, clock);
      TransfersImportableIff(PlanCluster(adjusted, clock), done, windowed);
    }
  }

  lemma ImportableIds(accounts: seq<Account>, windowed: seq<Transfer>, cutoffTs: nat, clock: nat, k: nat)
    requires LedgersFit(accounts) && WindowImportable(accounts, windowed, cutoffTs, clock) && k < |windowed|
    ensures windowed[k].id > SumBy(SideCount(), AccountsAtCutoff(accounts, windowed, cutoffTs))
  {
    hide AccountsAtCutoff, Importable;
    CutoffLedgersFit(accounts, windowed, cutoffTs);
    assert Taken(PlanCluster(AccountsAtCutoff(accounts, windowed, cutoffTs), clock), windowed, k);
  }

  /** A windowed transfer that carries the id of a synthetic one makes the import fail. */
  lemma IdCollisionRejected(accounts: seq<Account>, windowed: seq<Transfer>, cutoffTs: nat, clock: nat, k: nat)
    requires LedgersFit(accounts) && k < |windowed|
    requires windowed[k].id <= SumBy(SideCount(), AccountsAtCutoff(accounts, windowed, cutoffTs))
    ensures Run(EmptyLedger(clock), PlanEvents(WindowedPlan(accounts, windowed, cutoffTs))).Err?
  {
    hide *;
    WindowedMigration(accounts, windowed, cutoffTs, clock);
    if WindowImportable(accounts, windowed, cutoffTs, clock) {
      ImportableIds(accounts, windowed, cutoffTs, clock, k);
    }
  }

  lemma WindowedOutcomes(accounts: seq<Account>, windowed: seq<Transfer>, cutoffTs: nat, clock: nat)
    requires LedgersFit(accounts) && LedgersFit(AccountsAtCutoff(accounts, windowed, cutoffTs))
    requires Creatable(AccountsAtCutoff(accounts, windowed, cutoffTs), clock)
    ensures var done := SyntheticDone(AccountsAtCutoff(accounts, windowed, cutoffTs), true, clock);
            forall a <- accounts :: WindowedOutcome(After(done, ConvertWindowedTransfers(windowed)), a, windowed,
                                                    cutoffTs)
  {
    hide SyntheticDone, Creatable, After, AtCutoff, ExplainedByWindow, Debits, Credits;
    var done := SyntheticDone(AccountsAtCutoff(accounts, windowed, cutoffTs), true, clock);
    forall a <- accounts
      ensures WindowedOutcome(After(done, ConvertWindowedTransfers(windowed)), a, windowed, cutoffTs)
    {
      WindowedBalance(accounts, windowed, cutoffTs, clock, a);
      CutoffPlusWindowIff(a, windowed, cutoffTs);
    }
  }

  /** What an account ends with: a new one what the window moved, an old one at least its final balance. */
  function WindowedEnd(a: Account, final: nat, moved: nat, cutoffTs: nat): nat {
    if a.timestamp >= cutoffTs || final < moved then moved else final
  }

  /** The account holds that; and it is its final balance on both sides exactly if the window explains it. */
  predicate WindowedOutcome(s: Ledger, a: Account, windowed: seq<Transfer>, cutoffTs: nat) {
    && Holds(s, a, WindowedEnd(a, a.debitsPosted, Debits(windowed, a.id), cutoffTs),
                   WindowedEnd(a, a.creditsPosted, Credits(windowed, a.id), cutoffTs))
    && (Holds(s, a, a.debitsPosted, a.creditsPosted) <==> ExplainedByWindow(a, windowed, cutoffTs))
  }

  lemma WindowedBalance(accounts: seq<Account>, windowed: seq<Transfer>, cutoffTs: nat, clock: nat, a: Account)
    requires LedgersFit(accounts) && a in accounts && LedgersFit(AccountsAtCutoff(accounts, windowed, cutoffTs))
    requires Creatable(AccountsAtCutoff(accounts, windowed, cutoffTs), clock)
    ensures Holds(After(SyntheticDone(AccountsAtCutoff(accounts, windowed, cutoffTs), true, clock),
                        ConvertWindowedTransfers(windowed)),
                  a, AtCutoff(a, windowed, cutoffTs).debitsPosted + Debits(windowed, a.id),
                  AtCutoff(a, windowed, cutoffTs).creditsPosted + Credits(windowed, a.id))
  {
    var adjusted := AccountsAtCutoff(accounts, windowed, cutoffTs);
    var i :| 0 <= i < |accounts| && accounts[i] == a;
    assert adjusted[i] == AtCutoff(a, windowed, cutoffTs) && adjusted[i] in adjusted;
    SyntheticRestores(adjusted, true, clock, adjusted[i]);
    ConvertedTotals(windowed, a.id);
    AfterAt(SyntheticDone(adjusted, true, clock), ConvertWindowedTransfers(windowed), a.id);
  }
}
