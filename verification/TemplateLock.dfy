/** The double-checked template locks of tools/testkit/session.py.

    `_ensure_template_db` (one slot) and `_ensure_phase_template_db` (a slot per phase)
    read two flags, take the slot's lock, read the flags again and only then build. Every
    read, lock operation, build and write is a step of its own, interleaved in any way. */
module TemplateLock {

  /** `Production` is `_template_db`; the others are entries of `_phase_templates`. */
  datatype Slot = Production | Unit | Js

  datatype Shared = Shared(template: string, failed: bool, owner: int, builds: nat)

  /** What a caller got: a template name, `None`, or an exception raised before building. */
  datatype Answer = Template(name: string) | NoTemplate | Raised

  /** Fast reads outside the lock, slow reads inside, then the build and the write. */
  datatype Step =
    | Guard | Fast1 | Fast2 | WantLock | Slow1 | Slow2 | Decide | Building | Built(name: string) | BuildFailed
    | Leaving(answer: Answer) | Returned(answer: Answer)

  datatype Caller = Caller(slot: Slot, hasModules: bool)

  /** A phase caller without modules is answered before any flag is read. */
  predicate Served(caller: Caller) {
    caller.slot.Production? || caller.hasModules
  }

  datatype State = State(slots: map<Slot, Shared>, steps: seq<Step>)

  const NOBODY := -1

  /** Outside the lock both variants read `failed` first; inside, the phase variant reads
      the template first. */
  predicate ReadsFailed(slot: Slot, step: Step) {
    step.Fast1? || (if slot.Production? then step.Slow1? else step.Slow2?)
  }

  function AfterRead(slot: Slot, step: Step, shared: Shared): Step
    requires step.Fast1? || step.Fast2? || step.Slow1? || step.Slow2?
  {
    var isFast := step.Fast1? || step.Fast2?;
    if ReadsFailed(slot, step) && shared.failed then (if isFast then Returned(NoTemplate) else Leaving(NoTemplate))
    else if !ReadsFailed(slot, step) && shared.template != "" then
      (if isFast then Returned(Template(shared.template)) else Leaving(Template(shared.template)))
    else match step
      case Fast1 => Fast2
      case Fast2 => WantLock
      case Slow1 => Slow2
      case _ => Decide
  }

  /** One step of caller `i` on its slot; `shared'`, `step'` are what it leaves behind. */
  ghost predicate CallerStep(caller: Caller, i: nat, shared: Shared, step: Step, shared': Shared, step': Step) {
    var slot := caller.slot;
    match step
    case Guard => shared' == shared && step' == if Served(caller) then Fast1 else Returned(NoTemplate)
    case Fast1 => shared' == shared && step' == AfterRead(slot, step, shared)
    case Fast2 => shared' == shared && step' == AfterRead(slot, step, shared)
    case WantLock => shared.owner == NOBODY && shared' == shared.(owner := i) && step' == Slow1
    case Slow1 => shared' == shared && step' == AfterRead(slot, step, shared)
    case Slow2 => shared' == shared && step' == AfterRead(slot, step, shared)
    case Decide =>
      || (shared' == shared && step' in {Building, Leaving(Raised)})
      || (slot.Production? && exists reused: string ::
            && reused != ""
            && shared' == shared.(template := reused)
            && step' == Leaving(Template(reused)))
    case Building =>
      && shared' == shared.(builds := shared.builds + 1)
      && (step' == BuildFailed || exists name: string :: name != "" && step' == Built(name))
    case Built(name) => shared' == shared.(template := name) && step' == Leaving(Template(name))
    case BuildFailed => shared' == shared.(failed := true) && step' == Leaving(NoTemplate)
    case Leaving(answer) => shared' == shared.(owner := NOBODY) && step' == Returned(answer)
    case Returned(_) => false
  }

  ghost predicate StepBy(callers: seq<Caller>, s: State, s': State, i: nat) {
    && i < |callers| == |s.steps| == |s'.steps|
    && callers[i].slot in s.slots && callers[i].slot in s'.slots
    && s'.slots == s.slots[callers[i].slot := s'.slots[callers[i].slot]]
    && s'.steps == s.steps[i := s'.steps[i]]
    && CallerStep(callers[i], i, s.slots[callers[i].slot], s.steps[i], s'.slots[callers[i].slot], s'.steps[i])
  }

  ghost predicate Next(callers: seq<Caller>, s: State, s': State) {
    exists i: nat :: StepBy(callers, s, s', i)
  }

  function Init(callers: seq<Caller>): State {
    var unset := Shared("", false, NOBODY, 0);
    State(map[Production := unset, Unit := unset, Js := unset], seq(|callers|, _ => Guard))
  }

  ghost predicate IsRun(callers: seq<Caller>, run: seq<State>) {
    run != [] && run[0] == Init(callers) && forall k :: 0 <= k < |run| - 1 ==> Next(callers, run[k], run[k + 1])
  }

  // ------------------------------------------------------------ the invariant

  predicate Inside(step: Step) {
    step.Slow1? || step.Slow2? || step.Decide? || step.Building? || step.Built? || step.BuildFailed? || step.Leaving?
  }

  predicate Undecided(shared: Shared) {
    shared.template == "" && !shared.failed
  }

  ghost predicate SharedOk(shared: Shared) {
    && !(shared.template != "" && shared.failed)
    && shared.builds <= 1
  }

  /** What a caller's position says about its slot. */
  ghost predicate CallerOk(caller: Caller, i: nat, shared: Shared, step: Step) {
    && (Inside(step) <==> shared.owner == i)
    && (!Served(caller) ==> step in {Guard, Returned(NoTemplate)})
    && (match step
        case Slow2 => (if caller.slot.Production? then !shared.failed else shared.template == "")
        case Decide => Undecided(shared) && shared.builds == 0
        case Building => Undecided(shared) && shared.builds == 0
        case Built(name) => Undecided(shared) && name != ""
        case BuildFailed => Undecided(shared)
        case Leaving(answer) => AnswerOk(shared, answer)
        case Returned(answer) => Served(caller) ==> AnswerOk(shared, answer)
        case _ => true)
  }

  ghost predicate AnswerOk(shared: Shared, answer: Answer) {
    match answer
    case Template(name) => name != "" && shared.template == name
    case NoTemplate => shared.failed
    case Raised => true
  }

  /** Nothing was built yet, unless it is decided or its builder is about to decide it. */
  ghost predicate BuildAccounted(shared: Shared, callers: seq<Caller>, slot: Slot, steps: seq<Step>) {
    Undecided(shared) && shared.builds > 0 ==>
      && 0 <= shared.owner < |steps| == |callers| && callers[shared.owner].slot == slot
      && (steps[shared.owner].Built? || steps[shared.owner].BuildFailed?)
  }

  ghost predicate OwnerOk(shared: Shared, callers: seq<Caller>, slot: Slot) {
    shared.owner == NOBODY || (0 <= shared.owner < |callers| && callers[shared.owner].slot == slot)
  }

  ghost predicate Inv(callers: seq<Caller>, s: State) {
    && |s.steps| == |callers|
    && (forall slot: Slot :: slot in s.slots)
    && (forall slot: Slot :: SharedOk(s.slots[slot]) && BuildAccounted(s.slots[slot], callers, slot, s.steps))
    && (forall slot: Slot :: OwnerOk(s.slots[slot], callers, slot))
    && (forall i :: 0 <= i < |callers| ==> CallerOk(callers[i], i, s.slots[callers[i].slot], s.steps[i]))
  }

  lemma InvInit(callers: seq<Caller>)
    ensures Inv(callers, Init(callers))
  {
    forall slot: Slot ensures slot in Init(callers).slots {
      match slot case Production => case Unit => case Js =>
    }
  }

  /** The mover keeps its own promises. */
  lemma MoverOk(callers: seq<Caller>, s: State, s': State, i: nat)
    requires Inv(callers, s) && StepBy(callers, s, s', i)
    ensures SharedOk(s'.slots[callers[i].slot])
    ensures CallerOk(callers[i], i, s'.slots[callers[i].slot], s'.steps[i])
    ensures BuildAccounted(s'.slots[callers[i].slot], callers, callers[i].slot, s'.steps)
    ensures OwnerOk(s'.slots[callers[i].slot], callers, callers[i].slot)
  {}

  /** Everybody else's promises survive: decisions are final and the lock is exclusive. */
  lemma OthersOk(callers: seq<Caller>, s: State, s': State, i: nat, j: nat)
    requires Inv(callers, s) && StepBy(callers, s, s', i) && j < |callers| && j != i
    ensures callers[j].slot in s'.slots && CallerOk(callers[j], j, s'.slots[callers[j].slot], s'.steps[j])
  {
    if callers[j].slot == callers[i].slot {
      assert CallerOk(callers[i], i, s.slots[callers[i].slot], s.steps[i]);
    }
  }

  lemma InvStep(callers: seq<Caller>, s: State, s': State, i: nat)
    requires Inv(callers, s) && StepBy(callers, s, s', i)
    ensures Inv(callers, s')
  {
    MoverOk(callers, s, s', i);
    forall j | 0 <= j < |callers| && j != i
      ensures CallerOk(callers[j], j, s'.slots[callers[j].slot], s'.steps[j])
    {
      OthersOk(callers, s, s', i, j);
    }
  }

  lemma Mover(callers: seq<Caller>, run: seq<State>, k: nat) returns (i: nat)
    requires IsRun(callers, run) && k < |run| - 1
    ensures StepBy(callers, run[k], run[k + 1], i)
  {
    assert Next(callers, run[k], run[k + 1]);
    i :| StepBy(callers, run[k], run[k + 1], i);
  }

  lemma {:induction false} InvHolds(callers: seq<Caller>, run: seq<State>, k: nat)
    requires IsRun(callers, run) && k < |run|
    ensures Inv(callers, run[k])
  {
    if k == 0 {
      InvInit(callers);
    } else {
      InvHolds(callers, run, k - 1);
      var i := Mover(callers, run, k - 1);
      InvStep(callers, run[k - 1], run[k], i);
    }
  }

  // ------------------------------------------------------------ the theorems

  /** At most one build per slot and never both a template and a failure, in every
      state of every interleaving. */
  lemma BuiltAtMostOnce(callers: seq<Caller>, run: seq<State>, k: nat, slot: Slot)
    requires IsRun(callers, run) && k < |run|
    ensures slot in run[k].slots
    ensures run[k].slots[slot].builds <= 1
    ensures !(run[k].slots[slot].template != "" && run[k].slots[slot].failed)
  {
    InvHolds(callers, run, k);
  }

  /** All served callers of a slot that return get the same answer. */
  lemma SameAnswer(callers: seq<Caller>, run: seq<State>, k: nat, i: nat, j: nat)
    requires IsRun(callers, run) && k < |run| && i < |callers| && j < |callers|
    requires callers[i].slot == callers[j].slot && Served(callers[i]) && Served(callers[j])
    requires |run[k].steps| == |callers|
    requires run[k].steps[i].Returned? && run[k].steps[j].Returned?
    requires !run[k].steps[i].answer.Raised? && !run[k].steps[j].answer.Raised?
    ensures run[k].steps[i].answer == run[k].steps[j].answer
  {
    InvHolds(callers, run, k);
    assert CallerOk(callers[i], i, run[k].slots[callers[i].slot], run[k].steps[i]);
    assert CallerOk(callers[j], j, run[k].slots[callers[j].slot], run[k].steps[j]);
  }

  /** A caller that may be served, a production caller or one of a phase with modules, gets what
      its slot holds: the template there, or nothing because the slot has failed. */
  lemma AnswerIsTheSlots(callers: seq<Caller>, run: seq<State>, k: nat, i: nat)
    requires IsRun(callers, run) && k < |run| && i < |callers|
    requires callers[i].slot.Production? || callers[i].hasModules
    ensures |run[k].steps| == |callers| && callers[i].slot in run[k].slots
    ensures
      var shared, step := run[k].slots[callers[i].slot], run[k].steps[i];
      && (step == Returned(NoTemplate) ==> shared.failed)
      && (step.Returned? && step.answer.Template? ==> step.answer.name != "" && shared.template == step.answer.name)
  {
    InvHolds(callers, run, k);
    assert CallerOk(callers[i], i, run[k].slots[callers[i].slot], run[k].steps[i]);
  }

  /** A phase caller without modules gets nothing, and touches no slot on the way. */
  lemma WithoutModules(callers: seq<Caller>, run: seq<State>, k: nat, i: nat)
    requires IsRun(callers, run) && k < |run| && i < |callers|
    requires !callers[i].slot.Production? && !callers[i].hasModules
    ensures |run[k].steps| == |callers| && run[k].steps[i] in {Guard, Returned(NoTemplate)}
    ensures k < |run| - 1 && StepBy(callers, run[k], run[k + 1], i) ==> run[k + 1].slots == run[k].slots
  {
    InvHolds(callers, run, k);
    assert CallerOk(callers[i], i, run[k].slots[callers[i].slot], run[k].steps[i]);
  }

  predicate SameDecision(a: Shared, b: Shared) {
    a.template == b.template && a.failed == b.failed && a.builds == b.builds
  }

  /** Once a slot is decided it stays as it is. */
  lemma {:induction false} DecisionIsFinal(callers: seq<Caller>, run: seq<State>, k: nat, l: nat, slot: Slot)
    requires IsRun(callers, run) && k <= l < |run|
    ensures slot in run[k].slots && slot in run[l].slots
    ensures !Undecided(run[k].slots[slot]) ==> SameDecision(run[k].slots[slot], run[l].slots[slot])
  {
    if k == l {
      BuiltAtMostOnce(callers, run, k, slot);
    } else {
      DecisionIsFinal(callers, run, k, l - 1, slot);
      StepKeepsDecision(callers, run, l - 1, slot);
    }
  }

  lemma StepKeepsDecision(callers: seq<Caller>, run: seq<State>, k: nat, slot: Slot)
    requires IsRun(callers, run) && k < |run| - 1
    ensures slot in run[k].slots && slot in run[k + 1].slots
    ensures !Undecided(run[k].slots[slot]) ==> SameDecision(run[k].slots[slot], run[k + 1].slots[slot])
  {
    InvHolds(callers, run, k);
    var i := Mover(callers, run, k);
    assert CallerOk(callers[i], i, run[k].slots[callers[i].slot], run[k].steps[i]);
  }

  // ------------------------------------------------------------ progress

  ghost predicate CanMove(callers: seq<Caller>, s: State, i: nat) {
    exists s' :: StepBy(callers, s, s', i)
  }

  /** The lock never deadlocks: if a caller has not returned, some caller can move. */
  lemma SomebodyMoves(callers: seq<Caller>, s: State, i: nat) returns (m: nat)
    requires Inv(callers, s) && i < |callers| && !s.steps[i].Returned?
    ensures CanMove(callers, s, m)
  {
    assert CallerOk(callers[i], i, s.slots[callers[i].slot], s.steps[i]);
    var shared := s.slots[callers[i].slot];
    if !s.steps[i].WantLock? || shared.owner == NOBODY {
      m := i;
    } else {
      m := shared.owner;
      assert OwnerOk(shared, callers, callers[i].slot);
      assert CallerOk(callers[m], m, s.slots[callers[m].slot], s.steps[m]);
    }
    var after := AfterMove(callers[m], m, s.slots[callers[m].slot], s.steps[m]);
    assert StepBy(callers, s, State(s.slots[callers[m].slot := after.0], s.steps[m := after.1]), m);
  }

  function AfterMove(caller: Caller, i: nat, shared: Shared, step: Step): (Shared, Step)
    requires !step.Returned?
  {
    match step
    case Guard => (shared, if Served(caller) then Fast1 else Returned(NoTemplate))
    case WantLock => (shared.(owner := i), Slow1)
    case Decide => (shared, Building)
    case Building => (shared.(builds := shared.builds + 1), BuildFailed)
    case Built(name) => (shared.(template := name), Leaving(Template(name)))
    case BuildFailed => (shared.(failed := true), Leaving(NoTemplate))
    case Leaving(answer) => (shared.(owner := NOBODY), Returned(answer))
    case Fast1 => (shared, AfterRead(caller.slot, step, shared))
    case Fast2 => (shared, AfterRead(caller.slot, step, shared))
    case Slow1 => (shared, AfterRead(caller.slot, step, shared))
    case Slow2 => (shared, AfterRead(caller.slot, step, shared))
  }

  /** A step bounds how many more its caller can make. */
  function StepsLeft(step: Step): nat {
    match step
    case Guard => 10
    case Fast1 => 9
    case Fast2 => 8
    case WantLock => 7
    case Slow1 => 6
    case Slow2 => 5
    case Decide => 4
    case Building => 3
    case Built(_) => 2
    case BuildFailed => 2
    case Leaving(_) => 1
    case Returned(_) => 0
  }

  function AllStepsLeft(steps: seq<Step>): nat {
    if steps == [] then 0 else AllStepsLeft(steps[..|steps| - 1]) + StepsLeft(steps[|steps| - 1])
  }

  lemma {:induction false} LessLeft(steps: seq<Step>, i: nat, step: Step)
    requires i < |steps| && StepsLeft(step) < StepsLeft(steps[i])
    ensures AllStepsLeft(steps[i := step]) < AllStepsLeft(steps)
  {
    var last := |steps| - 1;
    if i < last {
      LessLeft(steps[..last], i, step);
      assert steps[i := step][..last] == steps[..last][i := step];
    } else {
      assert steps[i := step][..last] == steps[..last];
    }
  }

  lemma {:induction false} AllAtStart(steps: seq<Step>)
    requires forall i :: 0 <= i < |steps| ==> steps[i] == Guard
    ensures AllStepsLeft(steps) == 10 * |steps|
  {
    if steps != [] {
      AllAtStart(steps[..|steps| - 1]);
    }
  }

  lemma StepShortens(callers: seq<Caller>, s: State, s': State, i: nat)
    requires StepBy(callers, s, s', i)
    ensures AllStepsLeft(s'.steps) < AllStepsLeft(s.steps)
  {
    LessLeft(s.steps, i, s'.steps[i]);
  }

  lemma {:induction false} StepsTaken(callers: seq<Caller>, run: seq<State>, k: nat)
    requires IsRun(callers, run) && k < |run|
    ensures AllStepsLeft(run[k].steps) + k <= 10 * |callers|
  {
    if k == 0 {
      AllAtStart(run[0].steps);
    } else {
      StepsTaken(callers, run, k - 1);
      var i := Mover(callers, run, k - 1);
      StepShortens(callers, run[k - 1], run[k], i);
    }
  }

  /** Every run ends, and when nobody can move everybody has returned. */
  lemma RunsComplete(callers: seq<Caller>, run: seq<State>)
    requires IsRun(callers, run)
    ensures |run| - 1 <= 10 * |callers|
    ensures
      var last := run[|run| - 1];
      && |last.steps| == |callers|
      && ((forall i :: !CanMove(callers, last, i)) ==> forall i :: 0 <= i < |callers| ==> last.steps[i].Returned?)
  {
    StepsTaken(callers, run, |run| - 1);
    InvHolds(callers, run, |run| - 1);
    var last := run[|run| - 1];
    if forall i :: !CanMove(callers, last, i) {
      forall i | 0 <= i < |callers| ensures last.steps[i].Returned? {
        if !last.steps[i].Returned? {
          var m := SomebodyMoves(callers, last, i);
        }
      }
    }
  }
}
