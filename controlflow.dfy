// ControlFlowFlattener: loops guarded by opaque predicates that toggle the
// global seed, the state identifiers, and the state machine that the
// VIVISECT_FLATTEN_* macros expand to.
module ControlFlow {
  import opened W = Word
  import opened Primitives
  import Random

  /** The template argument that selects a specialisation of the flattener. */
  datatype DispatchStrategy = SwitchBased | ComputedGoto | FunctionPointer | Hybrid

  /** A count taken by `for (int i = 0; i < count; ++i)`: negative counts run no iterations. */
  function Iterations(count: Int32): (r: nat)
    ensures r == if count < 0 then 0 else count
  {
    if count < 0 then 0 else count
  }

  /** The seed after `n` calls of volatile_seed_update. */
  function ToggleTimes(seed: Word, n: nat): Word
  {
    if n == 0 then seed else SeedToggle(ToggleTimes(seed, n - 1))
  }

  /** An even number of toggles restores the seed; an odd number toggles it once. */
  lemma {:induction false} ToggleTimesParity(seed: Word, n: nat)
    ensures ToggleTimes(seed, n) == if n % 2 == 0 then seed else SeedToggle(seed)
  {
    if n > 0 {
      ToggleTimesParity(seed, n - 1);
      if n % 2 == 0 {
        assert (n - 1) % 2 == 1;
        assert ToggleTimes(seed, n - 1) == SeedToggle(seed);
        SeedToggleInvolution(seed);
      } else {
        assert (n - 1) % 2 == 0;
        assert ToggleTimes(seed, n - 1) == seed;
      }
    }
  }

  /**
   * inject_bogus_paths: the opaque_false guard never holds, so the volatile
   * `dummy` keeps its initial 0 and the seed is only read.
   */
  method InjectBogusPaths(strategy: DispatchStrategy, seed: SeedCell, complexityLevel: Int32)
    returns (dummy: int)
    ensures dummy == 0
  {
    dummy := 0;
    var i: Int32 := 0;
    while i < complexityLevel
      invariant dummy == 0
    {
      OpaqueOnInt32(i, ToInt32(seed.value));
      if OpaqueFalse(i, ToInt32(seed.value)) {
        dummy := dummy * 2 + i;
        if strategy == Hybrid && dummy > 1000 {
          dummy := 0;
        }
      }
      i := i + 1;
    }
  }

  /**
   * add_opaque_branches: the opaque_true guard always holds, so the taken
   * branch runs once per iteration, and each iteration toggles the seed.
   */
  method AddOpaqueBranches(strategy: DispatchStrategy, seed: SeedCell, count: Int32)
    returns (branchTaken: int)
    modifies seed
    ensures branchTaken == Iterations(count)
    ensures seed.value == ToggleTimes(old(seed.value), Iterations(count))
  {
    branchTaken := 0;
    var i: Int32 := 0;
    while i < count
      invariant 0 <= i <= Iterations(count)
      invariant branchTaken == i
      invariant seed.value == ToggleTimes(old(seed.value), i)
    {
      OpaqueOnInt32(i, ToInt32(seed.value));
      if OpaqueTrue(i, ToInt32(seed.value)) {
        branchTaken := branchTaken + 1;
      } else if strategy == Hybrid {
        branchTaken := branchTaken - 1;
      }
      VolatileSeedUpdate(seed);
      i := i + 1;
    }
  }

  /** add_opaque_branches(c) leaves the seed as it was for even c and toggled once for odd c. */
  method AddOpaqueBranchesNet(strategy: DispatchStrategy, seed: SeedCell, count: Int32)
    modifies seed
    ensures seed.value == if Iterations(count) % 2 == 0 then old(seed.value) else SeedToggle(old(seed.value))
  {
    var _ := AddOpaqueBranches(strategy, seed, count);
    ToggleTimesParity(old(seed.value), Iterations(count));
  }

  /** generate_state_id<Line, Counter>: next() of CompileTimeRandom seeded with mix_seed(Line, Counter). */
  function GenerateStateId(line: Int32, counter: Int32): (r: Word)
    ensures r < 0x8000_0000
  {
    Random.Next(MixSeed(FromInt32(line), FromInt32(counter)))
  }

  /** The header line whose __LINE__ make_state_id mixes in. */
  const StateIdLine: Word := 141

  /** make_state_id<UniqueId>: the same construction with the header's own line. */
  function MakeStateId(uniqueId: Int32): (r: Word)
    ensures r < 0x8000_0000
  {
    Random.Next(MixSeed(FromInt32(uniqueId), StateIdLine))
  }

  /** make_state_id is generate_state_id with the line fixed to that of its definition. */
  lemma MakeStateIdIsGenerate(uniqueId: Int32)
    ensures MakeStateId(uniqueId) == GenerateStateId(uniqueId, 141)
  {
    FromInt32Value(141);
  }

  /** StateMachineContext: the dispatcher's state and a reference to the seed. */
  class StateMachineContext {
    var currentState: Word
    var nextState: Word
    var running: bool
    const seedRef: SeedCell

    constructor (seed: SeedCell)
      ensures currentState == 0 && nextState == 0 && running && seedRef == seed
    {
      currentState := 0;
      nextState := 0;
      running := true;
      seedRef := seed;
    }
  }

  /** A VIVISECT_FLATTEN_STATE ... VIVISECT_FLATTEN_NEXT case: its stage and the tag it moves to. */
  datatype Case = Case(stage: nat, next: Word)

  /** The stages a region runs and whether it reached `default` within `fuel` iterations. */
  datatype Outcome = Outcome(trace: seq<nat>, finished: bool)

  /**
   * The dispatch loop as a function of the case table: run the case whose tag
   * is the current state; a tag with no case reaches `default` and stops.
   */
  function Run(cases: map<Word, Case>, state: Word, fuel: nat): Outcome
    decreases fuel
  {
    if fuel == 0 then Outcome([], false)
    else if state !in cases then Outcome([], true)
    else
      var rest := Run(cases, cases[state].next, fuel - 1);
      Outcome([cases[state].stage] + rest.trace, rest.finished)
  }

  /** A region that finishes in `fuel` iterations finishes the same way with more. */
  lemma {:induction false} RunMoreFuel(cases: map<Word, Case>, state: Word, fuel: nat, more: nat)
    requires Run(cases, state, fuel).finished && fuel <= more
    ensures Run(cases, state, more) == Run(cases, state, fuel)
    decreases fuel
  {
    if state in cases {
      assert fuel > 0;
      RunMoreFuel(cases, cases[state].next, fuel - 1, more - 1);
    }
  }

  /** A finished region ends on a tag with no case; every earlier tag had one. */
  lemma {:induction false} RunFinishedLength(cases: map<Word, Case>, state: Word, fuel: nat)
    requires Run(cases, state, fuel).finished
    ensures |Run(cases, state, fuel).trace| < fuel
    decreases fuel
  {
    if state in cases {
      assert fuel > 0;
      RunFinishedLength(cases, cases[state].next, fuel - 1);
    }
  }

  /** The outcome of a run that has already executed the stages in `done`. */
  function Prefixed(done: seq<nat>, o: Outcome): Outcome
  {
    Outcome(done + o.trace, o.finished)
  }

  lemma PrefixedStep(done: seq<nat>, cases: map<Word, Case>, state: Word, fuel: nat)
    requires fuel > 0 && state in cases
    ensures Prefixed(done, Run(cases, state, fuel)) ==
      Prefixed(done + [cases[state].stage], Run(cases, cases[state].next, fuel - 1))
  {
    var rest := Run(cases, cases[state].next, fuel - 1);
    assert done + ([cases[state].stage] + rest.trace) == (done + [cases[state].stage]) + rest.trace;
  }

  /**
   * The dispatch loop of VIVISECT_FLATTEN_BEGIN ... VIVISECT_FLATTEN_END over a
   * case table, cut after `fuel` iterations. Each case toggles the seed twice
   * and the `default` iteration once, so a region that finishes toggles the
   * seed exactly once.
   */
  method Dispatch(cases: map<Word, Case>, initial: Word, seed: SeedCell, fuel: nat)
    returns (trace: seq<nat>, finished: bool)
    modifies seed
    ensures Outcome(trace, finished) == Run(cases, initial, fuel)
    ensures seed.value == if finished then SeedToggle(old(seed.value)) else old(seed.value)
  {
    var ctx := new StateMachineContext(seed);
    ctx.currentState := initial;
    ctx.running := true;
    trace := [];
    var remaining := fuel;
    while ctx.running && remaining > 0
      invariant ctx.seedRef == seed
      invariant ctx.running ==> Run(cases, initial, fuel) == Prefixed(trace, Run(cases, ctx.currentState, remaining))
      invariant !ctx.running ==> Run(cases, initial, fuel) == Outcome(trace, true)
      invariant seed.value == if ctx.running then old(seed.value) else SeedToggle(old(seed.value))
      decreases remaining
    {
      var _ := InjectBogusPaths(Hybrid, seed, 2);
      if ctx.currentState in cases {
        var c := cases[ctx.currentState];
        PrefixedStep(trace, cases, ctx.currentState, remaining);
        var _ := AddOpaqueBranches(Hybrid, seed, 1);
        trace := trace + [c.stage];
        ctx.currentState := c.next;
      } else {
        ctx.running := false;
      }
      VolatileSeedUpdate(ctx.seedRef);
      SeedToggleInvolution(old(seed.value));
      remaining := remaining - 1;
    }
    finished := !ctx.running;
  }

  /** The multiplication in mix_seed followed by next() is one-to-one below 2^31. */
  lemma MixNextInjective(u: Word, v: Word)
    requires u < 0x8000_0000 && v < 0x8000_0000
    requires Random.Next(Mul(u, 0x9e3779b9)) == Random.Next(Mul(v, 0x9e3779b9))
    ensures u == v
  {
    Random.NextInjective(Mul(u, 0x9e3779b9), Mul(v, 0x9e3779b9));
    Random.WrapLow31(u * 0x9e3779b9);
    Random.WrapLow31(v * 0x9e3779b9);
    Random.OddMulInjective(u, v, 0x9e3779b9, 340573321, 420971776);
  }

  /** make_state_id is one-to-one on the non-negative values __COUNTER__ takes. */
  lemma MakeStateIdInjective(x: Int32, y: Int32)
    requires 0 <= x && 0 <= y
    ensures MakeStateId(x) == MakeStateId(y) ==> x == y
  {
    if MakeStateId(x) == MakeStateId(y) {
      FromInt32Value(x);
      FromInt32Value(y);
      var ux := BitXor(x, StateIdLine);
      var uy := BitXor(y, StateIdLine);
      assert MakeStateId(x) == Random.Next(Mul(ux, 0x9e3779b9));
      assert MakeStateId(y) == Random.Next(Mul(uy, 0x9e3779b9));
      BitXorBelow31(x, StateIdLine);
      BitXorBelow31(y, StateIdLine);
      MixNextInjective(ux, uy);
      BitXorCancel(x, StateIdLine);
      BitXorCancel(y, StateIdLine);
    }
  }

  /**
   * One VIVISECT_FLATTEN_STATE(id) ... VIVISECT_FLATTEN_NEXT(name, nextId)
   * case: the value of __COUNTER__ at the STATE expansion, the `id` argument,
   * the stage its body runs and the `next_id` argument.
   */
  datatype StateDecl = StateDecl(counter: Int32, id: Int32, stage: nat, nextId: Int32)

  /** A VIVISECT_FLATTEN_BEGIN ... VIVISECT_FLATTEN_END region: __COUNTER__ at BEGIN and the states in order. */
  datatype Region = Region(beginCounter: Int32, states: seq<StateDecl>)

  /**
   * The tag that labels a state's case: make_state_id of the STATE expansion's
   * __COUNTER__ as written, make_state_id of the `id` argument as intended.
   */
  function Label(d: StateDecl, byId: bool): Word
  {
    MakeStateId(if byId then d.id else d.counter)
  }

  /** No two cases share a label, as a `switch` that compiles requires. */
  predicate DistinctLabels(states: seq<StateDecl>, byId: bool)
  {
    forall i, j :: 0 <= i < j < |states| ==> Label(states[i], byId) != Label(states[j], byId)
  }

  /** The tags that label some case. */
  function Labels(states: seq<StateDecl>, byId: bool): (l: set<Word>)
    ensures forall i :: 0 <= i < |states| ==> Label(states[i], byId) in l
  {
    if states == [] then {}
    else
      assert forall i :: 1 <= i < |states| ==> states[1..][i - 1] == states[i];
      {Label(states[0], byId)} + Labels(states[1..], byId)
  }

  /** A tag that labels none of the states is not among the labels. */
  lemma {:induction false} NotInLabels(states: seq<StateDecl>, byId: bool, tag: Word)
    requires forall i :: 0 <= i < |states| ==> Label(states[i], byId) != tag
    ensures tag !in Labels(states, byId)
  {
    if states != [] {
      assert forall i :: 0 <= i < |states| - 1 ==> states[1..][i] == states[i + 1];
      NotInLabels(states[1..], byId, tag);
    }
  }

  /**
   * The `switch`'s cases: a case for exactly the labelled tags, each state's
   * label leading to its stage and to make_state_id<next_id>.
   */
  function Table(states: seq<StateDecl>, byId: bool): (t: map<Word, Case>)
    ensures t.Keys == Labels(states, byId)
  {
    if states == [] then map[]
    else Table(states[1..], byId)[Label(states[0], byId) := Case(states[0].stage, MakeStateId(states[0].nextId))]
  }

  /** With distinct labels, the case of each state is the one it declares. */
  lemma {:induction false} TableCase(states: seq<StateDecl>, byId: bool, i: nat)
    requires DistinctLabels(states, byId) && i < |states|
    ensures Table(states, byId)[Label(states[i], byId)] == Case(states[i].stage, MakeStateId(states[i].nextId))
  {
    if i > 0 {
      var rest := states[1..];
      assert rest[i - 1] == states[i];
      assert DistinctLabels(rest, byId) by {
        forall a, b | 0 <= a < b < |rest|
          ensures Label(rest[a], byId) != Label(rest[b], byId)
        {
          assert rest[a] == states[a + 1] && rest[b] == states[b + 1];
        }
      }
      TableCase(rest, byId, i - 1);
      assert Label(states[0], byId) != Label(states[i], byId);
    }
  }

  /** The cases VIVISECT_FLATTEN_STATE builds, each labelled by a fresh __COUNTER__. */
  function WrittenCases(r: Region): map<Word, Case>
  {
    Table(r.states, false)
  }

  /** The initial state VIVISECT_FLATTEN_BEGIN sets: make_state_id of its own __COUNTER__. */
  function WrittenEntry(r: Region): Word
  {
    MakeStateId(r.beginCounter)
  }

  /** Counter values as __COUNTER__ hands them out: non-negative and increasing through the region. */
  predicate Counted(r: Region)
  {
    && 0 <= r.beginCounter
    && (forall i :: 0 <= i < |r.states| ==> r.beginCounter < r.states[i].counter)
    && (forall i, j :: 0 <= i < j < |r.states| ==> r.states[i].counter < r.states[j].counter)
  }

  /** Two regions that differ at most in the `id` arguments of their states. */
  predicate SameButIds(r: Region, r': Region)
  {
    && r.beginCounter == r'.beginCounter
    && |r.states| == |r'.states|
    && forall i :: 0 <= i < |r.states| ==> r'.states[i] == r.states[i].(id := r'.states[i].id)
  }

  lemma {:induction false} TableIgnoresIds(s: seq<StateDecl>, s': seq<StateDecl>)
    requires |s| == |s'| && forall i :: 0 <= i < |s| ==> s'[i] == s[i].(id := s'[i].id)
    ensures Table(s', false) == Table(s, false)
  {
    if s != [] {
      assert forall i :: 0 <= i < |s| - 1 ==> s[1..][i] == s[i + 1] && s'[1..][i] == s'[i + 1];
      TableIgnoresIds(s[1..], s'[1..]);
    }
  }

  /** The `id` argument of VIVISECT_FLATTEN_STATE plays no part in the region as written. */
  lemma WrittenIgnoresIds(r: Region, r': Region)
    requires SameButIds(r, r')
    ensures WrittenCases(r') == WrittenCases(r) && WrittenEntry(r') == WrittenEntry(r)
  {
    TableIgnoresIds(r.states, r'.states);
  }

  /** As written, no case carries the initial tag. */
  lemma WrittenEntryUnlabelled(r: Region)
    requires Counted(r)
    ensures WrittenEntry(r) !in WrittenCases(r)
  {
    forall i | 0 <= i < |r.states|
      ensures Label(r.states[i], false) != WrittenEntry(r)
    {
      MakeStateIdInjective(r.states[i].counter, r.beginCounter);
    }
    NotInLabels(r.states, false, WrittenEntry(r));
  }

  /**
   * As written, a region goes straight to `default`: its first iteration
   * finds no case for the initial tag, so no stage runs.
   */
  lemma WrittenRunsNoStage(r: Region, fuel: nat)
    requires Counted(r)
    ensures Run(WrittenCases(r), WrittenEntry(r), fuel) == Outcome([], fuel > 0)
  {
    WrittenEntryUnlabelled(r);
  }

  /** The stages of `states`, in order. */
  function Stages(states: seq<StateDecl>): (r: seq<nat>)
    ensures |r| == |states| && forall i :: 0 <= i < |states| ==> r[i] == states[i].stage
  {
    if states == [] then [] else [states[0].stage] + Stages(states[1..])
  }

  /**
   * A region that stands for a stage sequence: distinct non-negative ids, each
   * NEXT naming the following state's id and the last one an id no state has.
   */
  predicate Chained(states: seq<StateDecl>)
  {
    && (forall i :: 0 <= i < |states| ==> 0 <= states[i].id && 0 <= states[i].nextId)
    && (forall i, j :: 0 <= i < j < |states| ==> states[i].id != states[j].id)
    && (forall i :: 0 <= i < |states| - 1 ==> states[i].nextId == states[i + 1].id)
    && (|states| > 0 ==> forall i :: 0 <= i < |states| ==> states[i].id != states[|states| - 1].nextId)
  }

  /** The cases keyed by make_state_id of each state's `id`. */
  function IntendedCases(r: Region): map<Word, Case>
  {
    Table(r.states, true)
  }

  /** The first state's tag; a region without states starts where it was written to start. */
  function IntendedEntry(r: Region): Word
  {
    if r.states == [] then WrittenEntry(r) else Label(r.states[0], true)
  }

  lemma ChainedDistinct(states: seq<StateDecl>)
    requires Chained(states)
    ensures DistinctLabels(states, true)
  {
    forall i, j | 0 <= i < j < |states|
      ensures Label(states[i], true) != Label(states[j], true)
    {
      MakeStateIdInjective(states[i].id, states[j].id);
    }
  }

  /** In the intended table the label of state `k` leads to its stage and its NEXT tag. */
  lemma IntendedCase(states: seq<StateDecl>, k: nat)
    requires Chained(states) && k < |states|
    ensures Label(states[k], true) in Table(states, true)
    ensures Table(states, true)[Label(states[k], true)] == Case(states[k].stage, MakeStateId(states[k].nextId))
  {
    ChainedDistinct(states);
    TableCase(states, true, k);
  }

  /** The last state's NEXT tag labels no case of the intended table. */
  lemma IntendedExit(states: seq<StateDecl>)
    requires Chained(states) && |states| > 0
    ensures MakeStateId(states[|states| - 1].nextId) !in Table(states, true)
  {
    var last := states[|states| - 1].nextId;
    forall i | 0 <= i < |states|
      ensures Label(states[i], true) != MakeStateId(last)
    {
      MakeStateIdInjective(states[i].id, last);
    }
    NotInLabels(states, true, MakeStateId(last));
  }

  /** A case whose successor run finishes with `tail` finishes with its stage before `tail`. */
  lemma RunCons(t: map<Word, Case>, tag: Word, fuel: nat, tail: seq<nat>)
    requires fuel > 0 && tag in t && Run(t, t[tag].next, fuel - 1) == Outcome(tail, true)
    ensures Run(t, tag, fuel) == Outcome([t[tag].stage] + tail, true)
  {
  }

  /** The stages from state `k` on: its own, then those after it. */
  lemma StagesFrom(states: seq<StateDecl>, k: nat)
    requires k < |states|
    ensures Stages(states[k..]) == [states[k].stage] + Stages(states[k + 1..])
  {
    assert states[k..][1..] == states[k + 1..];
  }

  /** From the last state, the intended table runs its stage and stops. */
  lemma IntendedLast(states: seq<StateDecl>, fuel: nat)
    requires Chained(states) && |states| > 0 && fuel > 1
    ensures RunsFrom(states, |states| - 1, fuel)
  {
    var k := |states| - 1;
    var t := Table(states, true);
    var tag := Label(states[k], true);
    IntendedCase(states, k);
    IntendedExit(states);
    RunCons(t, tag, fuel, []);
    StagesFrom(states, k);
    assert states[k + 1..] == [];
    assert [t[tag].stage] + [] == Stages(states[k..]);
    assert Run(t, tag, fuel) == Outcome(Stages(states[k..]), true);
  }

  /** From state `k` on, the intended table runs the remaining stages in order and stops. */
  predicate RunsFrom(states: seq<StateDecl>, k: nat, fuel: nat)
    requires k < |states|
  {
    Run(Table(states, true), Label(states[k], true), fuel) == Outcome(Stages(states[k..]), true)
  }

  /** One state of a chained region: its stage comes first, then whatever the following state runs. */
  lemma IntendedStep(states: seq<StateDecl>, k: nat, fuel: nat)
    requires Chained(states) && k + 1 < |states| && fuel > 0 && RunsFrom(states, k + 1, fuel - 1)
    ensures RunsFrom(states, k, fuel)
  {
    var t := Table(states, true);
    var tag := Label(states[k], true);
    IntendedCase(states, k);
    assert states[k].nextId == states[k + 1].id;
    assert t[tag].next == Label(states[k + 1], true);
    RunCons(t, tag, fuel, Stages(states[k + 1..]));
    StagesFrom(states, k);
  }

  lemma {:induction false} IntendedSuffix(states: seq<StateDecl>, k: nat, fuel: nat)
    requires Chained(states) && k < |states| && fuel > |states| - k
    ensures RunsFrom(states, k, fuel)
    decreases |states| - k
  {
    if k + 1 < |states| {
      IntendedSuffix(states, k + 1, fuel - 1);
      IntendedStep(states, k, fuel);
    } else {
      IntendedLast(states, fuel);
    }
  }

  /**
   * With cases keyed by their ids and the entry at the first state, a
   * region runs its stages exactly in order and then reaches `default`.
   */
  lemma IntendedRunsInOrder(r: Region, fuel: nat)
    requires Chained(r.states) && fuel > |r.states|
    ensures Run(IntendedCases(r), IntendedEntry(r), fuel) == Outcome(Stages(r.states), true)
  {
    if r.states != [] {
      IntendedSuffix(r.states, 0, fuel);
      assert r.states[0..] == r.states;
    }
  }

  /**
   * BEGIN at __COUNTER__ 0, then STATE(0) ... NEXT(name, 1) and STATE(1) ...
   * NEXT(name, 2) at __COUNTER__ 1 and 2, running stages 1 and 2.
   */
  const TwoStages := Region(0, [StateDecl(1, 0, 1, 1), StateDecl(2, 1, 2, 2)])

  /** As written, the two-stage region runs neither stage. */
  lemma TwoStagesWritten()
    ensures Run(WrittenCases(TwoStages), WrittenEntry(TwoStages), 3) == Outcome([], true)
  {
    assert Counted(TwoStages);
    WrittenRunsNoStage(TwoStages, 3);
  }

  /** Keyed by id, the two-stage region runs both stages in order. */
  lemma TwoStagesIntended()
    ensures Run(IntendedCases(TwoStages), IntendedEntry(TwoStages), 3) == Outcome([1, 2], true)
  {
    var states := TwoStages.states;
    assert Chained(states);
    IntendedRunsInOrder(TwoStages, 3);
    assert Stages(states[1..]) == [2];
  }

  /**
   * VIVISECT_FLATTEN_BEGIN(name), the states, VIVISECT_FLATTEN_END(name) as
   * written: the dispatch loop over the table the STATE expansions build, from
   * the tag BEGIN sets. With counters as __COUNTER__ hands them out, it runs
   * no stage.
   */
  method RunRegion(r: Region, seed: SeedCell, fuel: nat)
    returns (trace: seq<nat>, finished: bool)
    modifies seed
    ensures Outcome(trace, finished) == Run(WrittenCases(r), WrittenEntry(r), fuel)
    ensures Counted(r) ==> trace == [] && finished == (fuel > 0)
    ensures seed.value == if finished then SeedToggle(old(seed.value)) else old(seed.value)
  {
    trace, finished := Dispatch(WrittenCases(r), WrittenEntry(r), seed, fuel);
    if Counted(r) {
      WrittenRunsNoStage(r, fuel);
    }
  }

  /**
   * The same region with each case labelled make_state_id<id> and the loop
   * entered at the first state: a chained region runs all its stages in order.
   */
  method RunRegionIntended(r: Region, seed: SeedCell, fuel: nat)
    returns (trace: seq<nat>, finished: bool)
    modifies seed
    ensures Outcome(trace, finished) == Run(IntendedCases(r), IntendedEntry(r), fuel)
    ensures Chained(r.states) && fuel > |r.states| ==> trace == Stages(r.states) && finished
    ensures seed.value == if finished then SeedToggle(old(seed.value)) else old(seed.value)
  {
    trace, finished := Dispatch(IntendedCases(r), IntendedEntry(r), seed, fuel);
    if Chained(r.states) && fuel > |r.states| {
      IntendedRunsInOrder(r, fuel);
    }
  }

  /**
   * VIVISECT_FLATTEN_BLOCK(code): one iteration runs `code` once and stops;
   * the toggle of add_opaque_branches(1) and the one at the end of the
   * iteration cancel.
   */
  method FlattenBlock(seed: SeedCell, counter: Int32) returns (codeRuns: nat)
    modifies seed
    ensures codeRuns == 1
    ensures seed.value == old(seed.value)
  {
    var ctx := new StateMachineContext(seed);
    var initial := MakeStateId(counter);
    ctx.currentState := initial;
    ctx.running := true;
    codeRuns := 0;
    while ctx.running
      invariant ctx.seedRef == seed
      invariant ctx.running ==> codeRuns == 0 && ctx.currentState == initial && seed.value == old(seed.value)
      invariant !ctx.running ==> codeRuns == 1 && seed.value == old(seed.value)
      decreases ctx.running
    {
      var _ := InjectBogusPaths(Hybrid, seed, 1);
      if ctx.currentState == initial {
        var _ := AddOpaqueBranches(Hybrid, seed, 1);
        codeRuns := codeRuns + 1;
      }
      // Both the block's case and `default` end by clearing `running`.
      ctx.running := false;
      VolatileSeedUpdate(ctx.seedRef);
      SeedToggleInvolution(old(seed.value));
    }
  }
}
