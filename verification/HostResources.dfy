/** Shard requests competing for host resources in tools/testkit/session.py.

    Every request runs on a worker of its pool, takes the semaphores it names one after
    the other, runs, and gives them back in reverse. One step is one semaphore operation
    of one request; the scheduler may interleave the requests in any way. */
module HostResources {
  import opened Counting

  datatype Resource = ProductionClone | Browser

  datatype Request = Request(pool: nat, useProductionClone: bool, isJsTest: bool, isTourTest: bool)

  /** The order in which a request takes its semaphores. */
  function RequestResourceNames(request: Request): seq<Resource> {
    (if request.useProductionClone then [ProductionClone] else []) +
    (if request.isJsTest || request.isTourTest then [Browser] else [])
  }

  /** `workers[p]` is the size of pool `p`; `slots` the initial value of each semaphore. */
  datatype Config = Config(names: seq<seq<Resource>>, pool: seq<nat>, workers: seq<nat>, slots: map<Resource, nat>)

  datatype Phase = Pending | Acquiring(held: nat) | Running | Releasing(held: nat) | Done

  datatype State = State(phases: seq<Phase>, permits: map<Resource, nat>)

  function ConfigOf(requests: seq<Request>, workers: seq<nat>, slots: map<Resource, nat>): Config {
    Config(seq(|requests|, i requires 0 <= i < |requests| => RequestResourceNames(requests[i])),
           seq(|requests|, i requires 0 <= i < |requests| => requests[i].pool), workers, slots)
  }

  ghost predicate WellFormed(cfg: Config) {
    && |cfg.names| == |cfg.pool|
    && (forall i :: 0 <= i < |cfg.pool| ==> cfg.pool[i] < |cfg.workers|)
    && (forall p :: 0 <= p < |cfg.workers| ==> cfg.workers[p] >= 1)
    && (forall r: Resource :: r in cfg.slots && cfg.slots[r] >= 1)
  }

  /** Nobody takes a browser slot and then asks for a production clone. */
  ghost predicate CloneBeforeBrowser(cfg: Config) {
    forall i :: 0 <= i < |cfg.names| ==> Ordered(cfg.names[i])
  }

  ghost predicate Ordered(names: seq<Resource>) {
    |names| <= 2 && (|names| == 2 ==> names[0] == ProductionClone && names[1] == Browser)
  }

  lemma RequestsAreOrdered(requests: seq<Request>, workers: seq<nat>, slots: map<Resource, nat>)
    ensures CloneBeforeBrowser(ConfigOf(requests, workers, slots))
  {
  }

  /** One worker in each pool and one slot of each resource are enough for what follows. */
  lemma SmallestIsWellFormed(requests: seq<Request>, pools: nat)
    requires forall i :: 0 <= i < |requests| ==> requests[i].pool < pools
    ensures WellFormed(ConfigOf(requests, seq(pools, _ => 1), map[ProductionClone := 1, Browser := 1]))
  {
    forall r: Resource ensures r in map[ProductionClone := 1, Browser := 1] {
      match r case ProductionClone => case Browser =>
    }
  }

  function Init(cfg: Config): State {
    State(seq(|cfg.names|, _ => Pending), cfg.slots)
  }

  // ------------------------------------------------------------ steps

  ghost predicate Fits(cfg: Config, s: State) {
    && |s.phases| == |cfg.names|
    && (forall r: Resource :: r in s.permits)
    && (forall i :: 0 <= i < |s.phases| ==> match s.phases[i]
          case Acquiring(held) => held <= |cfg.names[i]|
          case Releasing(held) => held <= |cfg.names[i]|
          case _ => true)
  }

  ghost predicate Active(phase: Phase) {
    !phase.Pending? && !phase.Done?
  }

  ghost function Busy(cfg: Config, s: State, p: nat): set<nat>
    requires |s.phases| == |cfg.pool|
  {
    set i: nat | i < |s.phases| && cfg.pool[i] == p && Active(s.phases[i])
  }

  /** Request `i` can move: a free worker, a free permit, or nothing to wait for. */
  ghost predicate Enabled(cfg: Config, s: State, i: nat)
    requires WellFormed(cfg) && Fits(cfg, s) && i < |s.phases|
  {
    match s.phases[i]
    case Pending => |Busy(cfg, s, cfg.pool[i])| < cfg.workers[cfg.pool[i]]
    case Acquiring(held) => held < |cfg.names[i]| ==> s.permits[cfg.names[i][held]] > 0
    case Running => true
    case Releasing(_) => true
    case Done => false
  }

  ghost function Apply(cfg: Config, s: State, i: nat): State
    requires WellFormed(cfg) && Fits(cfg, s) && i < |s.phases| && Enabled(cfg, s, i)
  {
    var names := cfg.names[i];
    match s.phases[i]
    case Pending => s.(phases := s.phases[i := Acquiring(0)])
    case Acquiring(held) =>
      if held == |names| then s.(phases := s.phases[i := Running])
      else State(s.phases[i := Acquiring(held + 1)], s.permits[names[held] := s.permits[names[held]] - 1])
    case Running => s.(phases := s.phases[i := Releasing(|names|)])
    case Releasing(held) =>
      if held == 0 then s.(phases := s.phases[i := Done])
      else State(s.phases[i := Releasing(held - 1)], s.permits[names[held - 1] := s.permits[names[held - 1]] + 1])
  }

  ghost predicate Next(cfg: Config, s: State, s': State)
    requires WellFormed(cfg)
  {
    exists i: nat :: StepBy(cfg, s, s', i)
  }

  ghost predicate StepBy(cfg: Config, s: State, s': State, i: nat)
    requires WellFormed(cfg)
  {
    Fits(cfg, s) && i < |s.phases| && Enabled(cfg, s, i) && s' == Apply(cfg, s, i)
  }

  ghost predicate IsRun(cfg: Config, run: seq<State>)
    requires WellFormed(cfg)
  {
    && run != [] && run[0] == Init(cfg)
    && forall k :: 0 <= k < |run| - 1 ==> Next(cfg, run[k], run[k + 1])
  }

  lemma Mover(cfg: Config, run: seq<State>, k: nat) returns (i: nat)
    requires WellFormed(cfg) && IsRun(cfg, run) && k < |run| - 1
    ensures StepBy(cfg, run[k], run[k + 1], i)
  {
    assert Next(cfg, run[k], run[k + 1]);
    i :| StepBy(cfg, run[k], run[k + 1], i);
  }

  // ------------------------------------------------------------ conservation of permits

  function Held(names: seq<Resource>, phase: Phase): seq<Resource> {
    match phase
    case Acquiring(held) => if held <= |names| then names[..held] else []
    case Running => names
    case Releasing(held) => if held <= |names| then names[..held] else []
    case _ => []
  }

  ghost function Holders(cfg: Config, s: State, r: Resource): set<nat>
    requires |s.phases| == |cfg.names|
  {
    set i: nat | i < |s.phases| && r in Held(cfg.names[i], s.phases[i])
  }

  /** Free permits and holders together are always the configured slots. */
  ghost predicate Inv(cfg: Config, s: State) {
    && WellFormed(cfg) && CloneBeforeBrowser(cfg) && Fits(cfg, s)
    && (forall r: Resource :: s.permits[r] + |Holders(cfg, s, r)| == cfg.slots[r])
    && (forall p: nat :: p < |cfg.workers| ==> |Busy(cfg, s, p)| <= cfg.workers[p])
  }

  lemma InvInit(cfg: Config)
    requires WellFormed(cfg) && CloneBeforeBrowser(cfg)
    ensures Inv(cfg, Init(cfg))
  {
    var s := Init(cfg);
    forall r: Resource ensures Holders(cfg, s, r) == {} {}
    forall p: nat ensures Busy(cfg, s, p) == {} {}
  }

  /** The step's effect on who holds `r`, when the request's own holding changes or not. */
  lemma HoldersAfter(cfg: Config, s: State, i: nat, phase: Phase, permits: map<Resource, nat>, r: Resource)
    requires |s.phases| == |cfg.names| && i < |s.phases|
    ensures
      var s' := State(s.phases[i := phase], permits);
      var before, after := r in Held(cfg.names[i], s.phases[i]), r in Held(cfg.names[i], phase);
      |Holders(cfg, s', r)| == |Holders(cfg, s, r)| + (if after then 1 else 0) - (if before then 1 else 0)
  {
    var s' := State(s.phases[i := phase], permits);
    forall j | j != i ensures j in Holders(cfg, s', r) <==> j in Holders(cfg, s, r) {}
    DifferAtOne(Holders(cfg, s, r), Holders(cfg, s', r), i);
  }

  lemma DifferAtOne(a: set<nat>, b: set<nat>, i: nat)
    requires forall j :: j != i ==> (j in a <==> j in b)
    ensures |b| == |a| + (if i in b then 1 else 0) - (if i in a then 1 else 0)
  {
    var others := a - {i};
    assert b - {i} == others;
    assert a == others + if i in a then {i} else {};
    assert b == others + if i in b then {i} else {};
  }

  lemma BusyAfter(cfg: Config, s: State, i: nat, phase: Phase, permits: map<Resource, nat>, p: nat)
    requires |s.phases| == |cfg.pool| && i < |s.phases|
    ensures
      var s' := State(s.phases[i := phase], permits);
      var before, after := cfg.pool[i] == p && Active(s.phases[i]), cfg.pool[i] == p && Active(phase);
      |Busy(cfg, s', p)| == |Busy(cfg, s, p)| + (if after then 1 else 0) - (if before then 1 else 0)
  {
    var s' := State(s.phases[i := phase], permits);
    forall j | j != i ensures j in Busy(cfg, s', p) <==> j in Busy(cfg, s, p) {}
    DifferAtOne(Busy(cfg, s, p), Busy(cfg, s', p), i);
  }

  /** A semaphore operation changes the request's holding by the permit it moved. */
  lemma HeldAfter(cfg: Config, s: State, i: nat, r: Resource)
    requires Inv(cfg, s) && i < |s.phases| && Enabled(cfg, s, i)
    ensures
      var s' := Apply(cfg, s, i);
      && s' == State(s.phases[i := s'.phases[i]], s'.permits)
      && var before, after := r in Held(cfg.names[i], s.phases[i]), r in Held(cfg.names[i], s'.phases[i]);
         r in s'.permits && s'.permits[r] + (if after then 1 else 0) == s.permits[r] + (if before then 1 else 0)
  {
    var names := cfg.names[i];
    match s.phases[i]
    case Acquiring(held) => if held < |names| { NextName(names, held, r); } else { assert names[..held] == names; }
    case Running => assert names[..|names|] == names;
    case Releasing(held) => if held > 0 { NextName(names, held - 1, r); }
    case _ =>
  }

  /** No semaphore is named twice. */
  lemma NextName(names: seq<Resource>, k: nat, r: Resource)
    requires Ordered(names) && k < |names|
    ensures r in names[..k + 1] <==> r in names[..k] || r == names[k]
    ensures names[k] !in names[..k]
  {
    assert names[..k + 1] == names[..k] + [names[k]];
  }

  lemma PermitsConserved(cfg: Config, s: State, i: nat, r: Resource)
    requires Inv(cfg, s) && i < |s.phases| && Enabled(cfg, s, i)
    ensures
      var s' := Apply(cfg, s, i);
      |s'.phases| == |s.phases| && r in s'.permits && s'.permits[r] + |Holders(cfg, s', r)| == cfg.slots[r]
  {
    var s' := Apply(cfg, s, i);
    HeldAfter(cfg, s, i, r);
    HoldersAfter(cfg, s, i, s'.phases[i], s'.permits, r);
  }

  lemma WorkersConserved(cfg: Config, s: State, i: nat, p: nat)
    requires Inv(cfg, s) && i < |s.phases| && Enabled(cfg, s, i) && p < |cfg.workers|
    ensures
      var s' := Apply(cfg, s, i);
      |s'.phases| == |s.phases| && |Busy(cfg, s', p)| <= cfg.workers[p]
  {
    var s' := Apply(cfg, s, i);
    assert s'.phases == s.phases[i := s'.phases[i]];
    BusyAfter(cfg, s, i, s'.phases[i], s'.permits, p);
  }

  lemma InvStep(cfg: Config, s: State, i: nat)
    requires Inv(cfg, s) && i < |s.phases| && Enabled(cfg, s, i)
    ensures Inv(cfg, Apply(cfg, s, i))
  {
    var s' := Apply(cfg, s, i);
    forall r: Resource ensures r in s'.permits && s'.permits[r] + |Holders(cfg, s', r)| == cfg.slots[r] {
      PermitsConserved(cfg, s, i, r);
    }
    forall p: nat | p < |cfg.workers| ensures |Busy(cfg, s', p)| <= cfg.workers[p] {
      WorkersConserved(cfg, s, i, p);
    }
  }

  /** Every state of every run, whatever the interleaving. */
  lemma {:induction false} InvHolds(cfg: Config, run: seq<State>, k: nat)
    requires WellFormed(cfg) && CloneBeforeBrowser(cfg) && IsRun(cfg, run) && k < |run|
    ensures Inv(cfg, run[k])
  {
    if k == 0 {
      InvInit(cfg);
    } else {
      InvHolds(cfg, run, k - 1);
      var i := Mover(cfg, run, k - 1);
      InvStep(cfg, run[k - 1], i);
    }
  }

  // ------------------------------------------------------------ no deadlock

  ghost predicate Stuck(cfg: Config, s: State)
    requires WellFormed(cfg)
  {
    Fits(cfg, s) && forall i: nat :: i < |s.phases| ==> !Enabled(cfg, s, i)
  }

  lemma SomeHolder(cfg: Config, s: State, r: Resource) returns (h: nat)
    requires Inv(cfg, s) && s.permits[r] == 0
    ensures h < |s.phases| && r in Held(cfg.names[h], s.phases[h])
  {
    assert |Holders(cfg, s, r)| == cfg.slots[r] >= 1;
    h :| h in Holders(cfg, s, r);
  }

  /** A request waiting for a browser waits for one that can move. */
  lemma BrowserWaitEnds(cfg: Config, s: State, i: nat) returns (h: nat)
    requires Inv(cfg, s) && i < |s.phases|
    requires s.phases[i].Acquiring? && s.phases[i].held < |cfg.names[i]|
    requires cfg.names[i][s.phases[i].held] == Browser
    ensures h < |s.phases| && Enabled(cfg, s, h)
  {
    if s.permits[Browser] > 0 {
      h := i;
    } else {
      h := SomeHolder(cfg, s, Browser);
      assert Ordered(cfg.names[h]);
    }
  }

  /** As long as a request is not done, some request can move. */
  lemma DeadlockFree(cfg: Config, s: State, i: nat) returns (h: nat)
    requires Inv(cfg, s) && i < |s.phases| && !s.phases[i].Done?
    ensures h < |s.phases| && Enabled(cfg, s, h)
  {
    if s.phases[i].Pending? {
      h := PendingWaitEnds(cfg, s, i);
    } else {
      h := ActiveWaitEnds(cfg, s, i);
    }
  }

  lemma ActiveWaitEnds(cfg: Config, s: State, i: nat) returns (h: nat)
    requires Inv(cfg, s) && i < |s.phases| && Active(s.phases[i])
    ensures h < |s.phases| && Enabled(cfg, s, h)
  {
    if Enabled(cfg, s, i) {
      h := i;
    } else if cfg.names[i][s.phases[i].held] == Browser {
      h := BrowserWaitEnds(cfg, s, i);
    } else {
      var c := SomeHolder(cfg, s, ProductionClone);
      assert Ordered(cfg.names[c]);
      if Enabled(cfg, s, c) {
        h := c;
      } else {
        h := BrowserWaitEnds(cfg, s, c);
      }
    }
  }

  lemma PendingWaitEnds(cfg: Config, s: State, i: nat) returns (h: nat)
    requires Inv(cfg, s) && i < |s.phases| && s.phases[i].Pending?
    ensures h < |s.phases| && Enabled(cfg, s, h)
  {
    if Enabled(cfg, s, i) {
      h := i;
    } else {
      var busy := Busy(cfg, s, cfg.pool[i]);
      assert |busy| >= 1;
      var j :| j in busy;
      h := ActiveWaitEnds(cfg, s, j);
    }
  }

  // ------------------------------------------------------------ termination

  /** The steps a request still has to make. */
  function Remaining(names: seq<Resource>, phase: Phase): nat {
    match phase
    case Pending => 2 * |names| + 4
    case Acquiring(held) => if held <= |names| then 2 * |names| + 3 - held else 0
    case Running => |names| + 2
    case Releasing(held) => held + 1
    case Done => 0
  }

  function StepsLeft(cfg: Config, s: State, n: nat): nat
    requires n <= |s.phases| && n <= |cfg.names|
  {
    if n == 0 then 0 else StepsLeft(cfg, s, n - 1) + Remaining(cfg.names[n - 1], s.phases[n - 1])
  }

  lemma {:induction false} OneStepLess(cfg: Config, s: State, i: nat, n: nat)
    requires WellFormed(cfg) && Fits(cfg, s) && i < |s.phases| && Enabled(cfg, s, i)
    requires n <= |s.phases|
    ensures |Apply(cfg, s, i).phases| == |s.phases|
    ensures StepsLeft(cfg, s, n) == StepsLeft(cfg, Apply(cfg, s, i), n) + if i < n then 1 else 0
  {
    if n > 0 {
      OneStepLess(cfg, s, i, n - 1);
    }
  }

  /** All requests together, each 4 steps and 2 per resource it names. */
  function TotalSteps(names: seq<seq<Resource>>): nat {
    if names == [] then 0 else TotalSteps(names[..|names| - 1]) + 2 * |names[|names| - 1]| + 4
  }

  lemma {:induction false} StepsAtStart(cfg: Config, n: nat)
    requires n <= |cfg.names|
    ensures StepsLeft(cfg, Init(cfg), n) == TotalSteps(cfg.names[..n])
  {
    if n > 0 {
      StepsAtStart(cfg, n - 1);
      assert cfg.names[..n][..n - 1] == cfg.names[..n - 1];
    }
  }

  lemma {:induction false} StepsTaken(cfg: Config, run: seq<State>, k: nat)
    requires WellFormed(cfg) && CloneBeforeBrowser(cfg) && IsRun(cfg, run) && k < |run|
    ensures |run[k].phases| == |cfg.names|
    ensures StepsLeft(cfg, run[k], |cfg.names|) + k == TotalSteps(cfg.names)
  {
    if k == 0 {
      StepsAtStart(cfg, |cfg.names|);
      assert cfg.names[..|cfg.names|] == cfg.names;
    } else {
      StepsTaken(cfg, run, k - 1);
      InvHolds(cfg, run, k - 1);
      var i := Mover(cfg, run, k - 1);
      OneStepLess(cfg, run[k - 1], i, |cfg.names|);
    }
  }

  lemma {:induction false} NothingLeft(cfg: Config, s: State, n: nat)
    requires n <= |s.phases| && n <= |cfg.names|
    requires forall i :: 0 <= i < n ==> s.phases[i].Done?
    ensures StepsLeft(cfg, s, n) == 0
  {
    if n > 0 {
      NothingLeft(cfg, s, n - 1);
    }
  }

  /** Every run is bounded, and one that cannot go on has finished every request, after
      exactly the same number of steps, with every permit back. */
  lemma RunsComplete(cfg: Config, run: seq<State>)
    requires WellFormed(cfg) && CloneBeforeBrowser(cfg) && IsRun(cfg, run)
    ensures |run| - 1 <= TotalSteps(cfg.names)
    ensures
      var last := run[|run| - 1];
      Stuck(cfg, last) ==>
        && |last.phases| == |cfg.names| && (forall i :: 0 <= i < |cfg.names| ==> last.phases[i].Done?)
        && last.permits == cfg.slots && |run| - 1 == TotalSteps(cfg.names)
  {
    var last := run[|run| - 1];
    StepsTaken(cfg, run, |run| - 1);
    InvHolds(cfg, run, |run| - 1);
    if Stuck(cfg, last) {
      forall i | 0 <= i < |last.phases| ensures last.phases[i].Done? {
        if !last.phases[i].Done? {
          var h := DeadlockFree(cfg, last, i);
        }
      }
      NothingLeft(cfg, last, |cfg.names|);
      forall r: Resource ensures last.permits[r] == cfg.slots[r] {
        assert Holders(cfg, last, r) == {};
      }
      assert last.permits.Keys == cfg.slots.Keys;
    }
  }

  /** A running request holds everything it named, and no resource is over-committed. */
  lemma RunningIsExclusive(cfg: Config, run: seq<State>, k: nat, r: Resource)
    requires WellFormed(cfg) && CloneBeforeBrowser(cfg) && IsRun(cfg, run) && k < |run|
    ensures
      var s := run[k];
      && |s.phases| == |cfg.names|
      && var users := set i: nat | i < |s.phases| && s.phases[i].Running? && r in cfg.names[i];
         |users| <= cfg.slots[r]
  {
    InvHolds(cfg, run, k);
    var s := run[k];
    var users := set i: nat | i < |s.phases| && s.phases[i].Running? && r in cfg.names[i];
    assert users <= Holders(cfg, s, r);
    SubsetSize(users, Holders(cfg, s, r));
  }

  /** In the requests' own flags: the browser and tour tests running at a time fit the browser
      slots, and so do those on a production clone the clones. */
  lemma FlagsAreRespected(requests: seq<Request>, workers: seq<nat>, slots: map<Resource, nat>, run: seq<State>, k: nat)
    requires WellFormed(ConfigOf(requests, workers, slots)) && IsRun(ConfigOf(requests, workers, slots), run)
    requires k < |run|
    ensures |run[k].phases| == |requests|
    ensures
      var browsing := set i: nat | i < |requests| && run[k].phases[i].Running? &&
        (requests[i].isJsTest || requests[i].isTourTest);
      |browsing| <= slots[Browser]
    ensures
      var cloning := set i: nat | i < |requests| && run[k].phases[i].Running? && requests[i].useProductionClone;
      |cloning| <= slots[ProductionClone]
  {
    var cfg, s := ConfigOf(requests, workers, slots), run[k];
    RequestsAreOrdered(requests, workers, slots);
    RunningIsExclusive(cfg, run, k, Browser);
    RunningIsExclusive(cfg, run, k, ProductionClone);
    assert (set i: nat | i < |requests| && s.phases[i].Running? && (requests[i].isJsTest || requests[i].isTourTest)) ==
      (set i: nat | i < |s.phases| && s.phases[i].Running? && Browser in cfg.names[i]);
    assert (set i: nat | i < |requests| && s.phases[i].Running? && requests[i].useProductionClone) ==
      (set i: nat | i < |s.phases| && s.phases[i].Running? && ProductionClone in cfg.names[i]);
  }

  /** A request waits, once it has a worker, only for a resource its flags ask for; one without
      flags never does. */
  lemma WaitsForItsFlags(requests: seq<Request>, workers: seq<nat>, slots: map<Resource, nat>, run: seq<State>,
      k: nat, i: nat)
    requires WellFormed(ConfigOf(requests, workers, slots)) && IsRun(ConfigOf(requests, workers, slots), run)
    requires k < |run| && i < |requests|
    ensures Fits(ConfigOf(requests, workers, slots), run[k])
    ensures Active(run[k].phases[i]) && !Enabled(ConfigOf(requests, workers, slots), run[k], i) ==>
      || (requests[i].useProductionClone && run[k].permits[ProductionClone] == 0)
      || ((requests[i].isJsTest || requests[i].isTourTest) && run[k].permits[Browser] == 0)
  {
    RequestsAreOrdered(requests, workers, slots);
    InvHolds(ConfigOf(requests, workers, slots), run, k);
  }

  function MixedOrder(): Config {
    var requests := [[ProductionClone, Browser], [Browser, ProductionClone]];
    Config(requests, [0, 0], [2], map[ProductionClone := 1, Browser := 1])
  }

  /** Each of two requests takes the semaphore the other one needs next. */
  function MixedState(k: nat): State
    requires k <= 4
  {
    if k == 0 then State([Pending, Pending], map[ProductionClone := 1, Browser := 1])
    else if k == 1 then State([Acquiring(0), Pending], map[ProductionClone := 1, Browser := 1])
    else if k == 2 then State([Acquiring(0), Acquiring(0)], map[ProductionClone := 1, Browser := 1])
    else if k == 3 then State([Acquiring(1), Acquiring(0)], map[ProductionClone := 0, Browser := 1])
    else State([Acquiring(1), Acquiring(1)], map[ProductionClone := 0, Browser := 0])
  }

  lemma MixedWellFormed()
    ensures WellFormed(MixedOrder())
    ensures forall k: nat :: k <= 4 ==> Fits(MixedOrder(), MixedState(k))
  {
    forall r: Resource ensures r in MixedOrder().slots && MixedOrder().slots[r] >= 1 {
      match r case ProductionClone => case Browser =>
    }
    forall k: nat, r: Resource | k <= 4 ensures r in MixedState(k).permits {
      match r case ProductionClone => case Browser =>
    }
  }

  lemma MixedStep(k: nat)
    requires k < 4
    ensures WellFormed(MixedOrder()) && Next(MixedOrder(), MixedState(k), MixedState(k + 1))
  {
    MixedWellFormed();
    var cfg, s := MixedOrder(), MixedState(k);
    var i := if k == 0 || k == 2 then 0 else 1;
    if k == 0 {
      assert Busy(cfg, s, 0) == {};
    } else if k == 1 {
      assert Busy(cfg, s, 0) == {0};
    }
    assert StepBy(cfg, s, MixedState(k + 1), i);
  }

  /** With the two orders mixed there is a run that ends in a deadlock. */
  lemma MixedOrderDeadlocks() returns (run: seq<State>)
    ensures WellFormed(MixedOrder()) && IsRun(MixedOrder(), run)
    ensures
      var last := run[|run| - 1];
      Stuck(MixedOrder(), last) && last.phases == [Acquiring(1), Acquiring(1)]
  {
    MixedWellFormed();
    run := seq(5, k requires 0 <= k < 5 => MixedState(k));
    assert run[0] == Init(MixedOrder());
    forall k | 0 <= k < |run| - 1 ensures Next(MixedOrder(), run[k], run[k + 1]) {
      MixedStep(k);
    }
  }
}
