/** Time-based identifiers: 48 bits of milliseconds, 80 bits of randomness, strictly increasing. */
module TimeBasedId {
  import opened Wrappers

  const U80: nat := 0x1_0000_0000_0000_0000_0000 // 2^80
  const U48: nat := 0x1_0000_0000_0000 // 2^48
  const U128: nat := 0x1_0000_0000_0000_0000_0000_0000_0000_0000 // 2^128

  /** Generator state; `random` has 80 bits. */
  datatype State = State(ms: nat, random: nat) {
    predicate Valid() {
      random < U80
    }

    function NextRandom(): Option<nat>
      requires Valid()
    {
      if random == U80 - 1 then None else Some(random + 1)
    }
  }

  /** What one call reads from outside: the system time in ms relative to the epoch, and 128 random bits. */
  datatype Input = Input(now: int, draw: nat)

  /** Milliseconds since the epoch; times before it count as 0. */
  function Millis(now: int): nat {
    if now < 0 then 0 else now
  }

  function RandomU80(draw: nat): (r: nat)
    ensures r < U80
  {
    draw % U80
  }

  function NextState(s: State, i: Input): (r: State)
    requires s.Valid()
    ensures r.Valid()
  {
    if Millis(i.now) > s.ms then State(Millis(i.now), RandomU80(i.draw))
    else
      match s.NextRandom()
      case Some(next) => State(s.ms, next)
      case None => State(s.ms + 1, RandomU80(i.draw))
  }

  /** `ms << 80 | random` on 128 bits: millisecond bits above the 48th are lost. */
  function Pack(s: State): nat
    requires s.Valid()
  {
    s.ms * U80 % U128 + s.random
  }

  // ---------------------------------------------------------------------------
  // Runs
  // ---------------------------------------------------------------------------

  /** The state after every input. */
  function After(s: State, inputs: seq<Input>): (r: State)
    requires s.Valid()
    ensures r.Valid()
  {
    if inputs == [] then s else NextState(After(s, inputs[..|inputs| - 1]), inputs[|inputs| - 1])
  }

  /** The id the `k`-th call returns. */
  function IdAt(s: State, inputs: seq<Input>, k: nat): nat
    requires s.Valid() && k < |inputs|
  {
    Pack(After(s, inputs[..k + 1]))
  }

  /** Whether the step from `s` on `i` overflows the random part. */
  predicate Overflows(s: State, i: Input)
    requires s.Valid()
  {
    Millis(i.now) <= s.ms && s.random == U80 - 1
  }

  function OverflowCount(s: State, inputs: seq<Input>): nat
    requires s.Valid()
  {
    if inputs == [] then 0
    else
      var init := inputs[..|inputs| - 1];
      OverflowCount(s, init) + (if Overflows(After(s, init), inputs[|inputs| - 1]) then 1 else 0)
  }

  /** The greatest clock value read so far, or the initial one. */
  function MaxClock(s: State, inputs: seq<Input>): nat {
    if inputs == [] then s.ms
    else
      var m, now := MaxClock(s, inputs[..|inputs| - 1]), Millis(inputs[|inputs| - 1].now);
      if now > m then now else m
  }

  /** Packing keeps both parts while the milliseconds fit 48 bits. */
  lemma PackSplits(s: State)
    requires s.Valid() && s.ms < U48
    ensures Pack(s) / U80 == s.ms && Pack(s) % U80 == s.random && Pack(s) < U128
  {
    assert s.ms * U80 < U48 * U80 == U128;
    assert Pack(s) == s.ms * U80 + s.random;
  }

  /** Packed ids order states first by milliseconds, then by randomness. */
  lemma PackOrder(s: State, t: State)
    requires s.Valid() && t.Valid() && s.ms < U48 && t.ms < U48
    ensures Pack(s) < Pack(t) <==> s.ms < t.ms || (s.ms == t.ms && s.random < t.random)
  {
    PackSplits(s);
    PackSplits(t);
    if s.ms < t.ms {
      assert (s.ms + 1) * U80 <= t.ms * U80;
    }
    if t.ms < s.ms {
      assert (t.ms + 1) * U80 <= s.ms * U80;
    }
  }

  lemma {:induction false} StatesIncrease(s: State, inputs: seq<Input>, j: nat, k: nat)
    requires s.Valid() && j < k <= |inputs|
    ensures var a, b := After(s, inputs[..j]), After(s, inputs[..k]);
            a.ms < b.ms || (a.ms == b.ms && a.random < b.random)
    decreases k
  {
    assert inputs[..k][..k - 1] == inputs[..k - 1];
    if j < k - 1 {
      StatesIncrease(s, inputs, j, k - 1);
    }
  }

  /** Over any run, for any clock and any randomness, ids strictly increase while the milliseconds fit 48 bits. */
  lemma IdsStrictlyIncrease(s: State, inputs: seq<Input>, j: nat, k: nat)
    requires s.Valid() && j < k < |inputs| && After(s, inputs[..k + 1]).ms < U48
    ensures IdAt(s, inputs, j) < IdAt(s, inputs, k)
  {
    hide Pack, After;
    var a, b := After(s, inputs[..j + 1]), After(s, inputs[..k + 1]);
    StatesIncrease(s, inputs, j + 1, k + 1);
    PackOrder(a, b);
  }

  /** The milliseconds never run ahead of the clock by more than the number of random overflows. */
  lemma {:induction false} AheadOfClockBound(s: State, inputs: seq<Input>)
    requires s.Valid()
    ensures After(s, inputs).ms <= MaxClock(s, inputs) + OverflowCount(s, inputs)
    ensures After(s, inputs).ms >= MaxClock(s, inputs)
  {
    if inputs != [] {
      AheadOfClockBound(s, inputs[..|inputs| - 1]);
    }
  }

  /** Once the milliseconds leave 48 bits the order is lost: the next id is smaller than the last. */
  lemma OrderLostBeyond48Bits()
    ensures var s, i := State(U48 - 1, U80 - 1), Input(0, 0);
            s.Valid() && NextState(s, i).ms == U48 && Pack(NextState(s, i)) < Pack(s)
  {
    assert U48 * U80 == U128;
    assert U128 % U128 == 0;
    PackSplits(State(U48 - 1, U80 - 1));
    assert Pack(State(U48 - 1, U80 - 1)) >= U80;
  }

  /** What the clock and the draw must satisfy for the next id to be larger than the current one. */
  predicate KeepsOrder(s: State, i: Input) {
    var now := Millis(i.now);
    if now > s.ms then now % U48 > s.ms || (now % U48 == s.ms && RandomU80(i.draw) > s.random)
    else s.random < U80 - 1 || s.ms + 1 < U48
  }

  /**
    While the current milliseconds fit 48 bits, the next id is larger exactly under that condition: a clock
    ahead of the generator is compared on its low 48 bits, and a carry must not leave them.
   */
  lemma NextIdLargerIff(s: State, i: Input)
    requires s.Valid() && s.ms < U48
    ensures Pack(NextState(s, i)) > Pack(s) <==> KeepsOrder(s, i)
  {
    hide Pack;
    var n := NextState(s, i);
    PackCut(n);
    PackOrder(s, State(n.ms % U48, n.random));
    if Millis(i.now) <= s.ms && s.random == U80 - 1 && s.ms + 1 == U48 {
      assert n.ms % U48 == 0;
    }
  }

  lemma PackCut(n: State)
    requires n.Valid()
    ensures Pack(n) == Pack(State(n.ms % U48, n.random))
  {
    var q, r := n.ms / U48, n.ms % U48;
    assert n.ms == q * U48 + r;
    assert n.ms * U80 == q * U128 + r * U80;
    assert r * U80 < U128;
    ModOfSum(q, r * U80);
  }

  lemma ModOfSum(q: nat, r: nat)
    requires r < U128
    ensures (q * U128 + r) % U128 == r
  {
  }

  /** A draw of 80 bits is taken as it is, and of a longer one the low 80 bits count. */
  lemma DrawTaken(draw: nat, high: nat)
    requires draw < 0x1_0000_0000_0000_0000_0000
    ensures RandomU80(draw) == draw && RandomU80(draw + high * 0x1_0000_0000_0000_0000_0000) == draw
  {
  }

  /**
    The next id, in numbers. A clock ahead of the generator gives clock and draw; otherwise the id goes up by
    one, and when the random part is exhausted the milliseconds go up by one with a new draw.
   */
  lemma NextIdIs(s: State, i: Input)
    requires s.Valid() && s.ms + 1 < 0x1_0000_0000_0000 && i.now < 0x1_0000_0000_0000
    ensures var draw := i.draw % 0x1_0000_0000_0000_0000_0000;
            Pack(NextState(s, i)) == if i.now > s.ms then i.now * 0x1_0000_0000_0000_0000_0000 + draw
                                     else if s.random < 0xFFFF_FFFF_FFFF_FFFF_FFFF then Pack(s) + 1
                                     else (s.ms + 1) * 0x1_0000_0000_0000_0000_0000 + draw
  {
    PackIs(s);
    PackIs(NextState(s, i));
    hide Pack;
  }

  lemma PackIs(s: State)
    requires s.Valid() && s.ms < U48
    ensures Pack(s) == s.ms * U80 + s.random
  {
    assert s.ms * U80 < U48 * U80 == U128;
  }

  // ---------------------------------------------------------------------------
  // The generator
  // ---------------------------------------------------------------------------

  class TbidGenerator {
    var ms: nat
    var random: nat

    ghost predicate Valid()
      reads this
    {
      random < U80
    }

    ghost function Current(): State
      reads this
    {
      State(ms, random)
    }

    constructor FromState(s: State)
      requires s.Valid()
      ensures Valid() && Current() == s
    {
      ms, random := s.ms, s.random;
    }

    constructor (i: Input)
      ensures Valid() && Current() == State(Millis(i.now), RandomU80(i.draw))
    {
      ms, random := Millis(i.now), RandomU80(i.draw);
    }

    method NextFromSystemTime(i: Input) returns (id: nat)
      requires Valid()
      modifies this
      ensures Valid() && Current() == NextState(old(Current()), i) && id == Pack(Current())
    {
      var nextMs := Millis(i.now);
      if nextMs > ms {
        ms, random := nextMs, RandomU80(i.draw);
      } else if random != U80 - 1 {
        random := random + 1;
      } else {
        ms, random := ms + 1, RandomU80(i.draw);
      }
      id := ms * U80 % U128 + random;
    }
  }

  /** The process-wide generator, created on first use. */
  class GlobalGenerator {
    var generator: TbidGenerator?

    constructor ()
      ensures generator == null
    {
      generator := null;
    }

    /** The first call creates the generator from `created` and then asks it like every later call. */
    method Id(created: Input, i: Input) returns (id: nat)
      requires generator != null ==> generator.Valid()
      modifies this, generator
      ensures generator != null && generator.Valid()
      ensures old(generator) != null ==>
                generator == old(generator) && generator.Current() == NextState(old(generator.Current()), i)
      ensures old(generator) == null ==>
                fresh(generator) && generator.Current()
                  == NextState(State(Millis(created.now), RandomU80(created.draw)), i)
      ensures id == Pack(generator.Current())
    {
      if generator == null {
        generator := new TbidGenerator(created);
      }
      id := generator.NextFromSystemTime(i);
    }
  }

  /** Draws a whole run of ids; each is what the run specification says, so they strictly increase. */
  method Generate(g: TbidGenerator, inputs: seq<Input>) returns (ids: seq<nat>)
    requires g.Valid()
    modifies g
    ensures g.Valid() && g.Current() == After(old(g.Current()), inputs)
    ensures |ids| == |inputs| && forall k :: 0 <= k < |ids| ==> ids[k] == IdAt(old(g.Current()), inputs, k)
    ensures g.ms < U48 ==> forall j, k :: 0 <= j < k < |ids| ==> ids[j] < ids[k]
  {
    ghost var start := g.Current();
    ids := [];
    for n := 0 to |inputs|
      invariant g.Valid() && g.Current() == After(start, inputs[..n])
      invariant |ids| == n && forall k :: 0 <= k < n ==> ids[k] == IdAt(start, inputs, k)
    {
      assert inputs[..n + 1][..n] == inputs[..n];
      var id := g.NextFromSystemTime(inputs[n]);
      ids := ids + [id];
    }
    assert inputs[..|inputs|] == inputs;
    forall j, k | 0 <= j < k < |ids| && g.ms < U48
      ensures ids[j] < ids[k]
    {
      if k + 1 < |inputs| {
        StatesIncrease(start, inputs, k + 1, |inputs|);
      }
      IdsStrictlyIncrease(start, inputs, j, k);
    }
  }
}
