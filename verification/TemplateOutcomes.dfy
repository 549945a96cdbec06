/** What can come of asking for a template: each outcome has a run that ends in it. */
module TemplateOutcomes {
  import opened TemplateLock

  /** A production caller, or one of a phase with modules. */
  predicate MayAsk(caller: Caller) {
    caller.slot.Production? || caller.hasModules
  }

  function Unset(): map<Slot, Shared> {
    var unset := Shared("", false, NOBODY, 0);
    map[Production := unset, Unit := unset, Js := unset]
  }

  /** The state of a single caller: its slot and where it is. */
  function At(caller: Caller, shared: Shared, step: Step): State {
    State(Unset()[caller.slot := shared], [step])
  }

  /** A state that some run of the one caller reaches. */
  ghost predicate Reached(caller: Caller, shared: Shared, step: Step) {
    exists run :: IsRun([caller], run) && run[|run| - 1] == At(caller, shared, step)
  }

  lemma Begin(caller: Caller)
    ensures Reached(caller, Shared("", false, NOBODY, 0), Guard)
  {
    var unset := Shared("", false, NOBODY, 0);
    assert caller.slot in Unset() && Unset()[caller.slot] == unset by {
      match caller.slot case Production => case Unit => case Js =>
    }
    assert Unset()[caller.slot := unset] == Unset();
    var run := [Init([caller])];
    assert run[0] == At(caller, unset, Guard) && IsRun([caller], run);
  }

  lemma Go(caller: Caller, shared: Shared, step: Step, shared': Shared, step': Step)
    requires Reached(caller, shared, step) && CallerStep(caller, 0, shared, step, shared', step')
    ensures Reached(caller, shared', step')
  {
    var run :| IsRun([caller], run) && run[|run| - 1] == At(caller, shared, step);
    var s, s' := At(caller, shared, step), At(caller, shared', step');
    assert StepBy([caller], s, s', 0) by {
      assert s'.slots == s.slots[caller.slot := shared'];
    }
    var longer := run + [s'];
    forall k | 0 <= k < |longer| - 1 ensures Next([caller], longer[k], longer[k + 1]) {
      assert k < |run| - 1 ==> Next([caller], run[k], run[k + 1]);
    }
    assert IsRun([caller], longer) && longer[|longer| - 1] == s';
  }

  /** The caller reads both flags twice and comes to decide, holding the lock. */
  lemma ToDecide(caller: Caller)
    requires MayAsk(caller)
    ensures Reached(caller, Shared("", false, 0, 0), Decide)
  {
    var free, held := Shared("", false, NOBODY, 0), Shared("", false, 0, 0);
    Begin(caller);
    Go(caller, free, Guard, free, Fast1);
    Go(caller, free, Fast1, free, Fast2);
    Go(caller, free, Fast2, free, WantLock);
    Go(caller, free, WantLock, held, Slow1);
    Go(caller, held, Slow1, held, Slow2);
    Go(caller, held, Slow2, held, Decide);
  }

  /** A template of any name can get built, and is what the caller gets. */
  lemma CanBeBuilt(caller: Caller, name: string)
    requires MayAsk(caller) && name != ""
    ensures Reached(caller, Shared(name, false, NOBODY, 1), Returned(Template(name)))
  {
    ToDecide(caller);
    Go(caller, Shared("", false, 0, 0), Decide, Shared("", false, 0, 0), Building);
    Go(caller, Shared("", false, 0, 0), Building, Shared("", false, 0, 1), Built(name));
    Go(caller, Shared("", false, 0, 1), Built(name), Shared(name, false, 0, 1), Leaving(Template(name)));
    Go(caller, Shared(name, false, 0, 1), Leaving(Template(name)), Shared(name, false, NOBODY, 1),
       Returned(Template(name)));
  }

  /** The build can fail, and the caller gets nothing. */
  lemma CanFail(caller: Caller)
    requires MayAsk(caller)
    ensures Reached(caller, Shared("", true, NOBODY, 1), Returned(NoTemplate))
  {
    ToDecide(caller);
    Go(caller, Shared("", false, 0, 0), Decide, Shared("", false, 0, 0), Building);
    Go(caller, Shared("", false, 0, 0), Building, Shared("", false, 0, 1), BuildFailed);
    Go(caller, Shared("", false, 0, 1), BuildFailed, Shared("", true, 0, 1), Leaving(NoTemplate));
    Go(caller, Shared("", true, 0, 1), Leaving(NoTemplate), Shared("", true, NOBODY, 1), Returned(NoTemplate));
  }

  /** What comes before the build can raise, and leaves the slot as it was. */
  lemma CanRaise(caller: Caller)
    requires MayAsk(caller)
    ensures Reached(caller, Shared("", false, NOBODY, 0), Returned(Raised))
  {
    ToDecide(caller);
    Go(caller, Shared("", false, 0, 0), Decide, Shared("", false, 0, 0), Leaving(Raised));
    Go(caller, Shared("", false, 0, 0), Leaving(Raised), Shared("", false, NOBODY, 0), Returned(Raised));
  }

  /** Which flag each read looks at: outside the lock the failure first; inside it the production
      lock's failure first, a phase's template first. What is found set there is the answer. */
  lemma ReadOrder(caller: Caller, i: nat, shared: Shared, step: Step, step': Step)
    requires CallerStep(caller, i, shared, step, shared, step')
    ensures step == Fast1 ==> step' == if shared.failed then Returned(NoTemplate) else Fast2
    ensures step == Fast2 ==> step' == if shared.template != "" then Returned(Template(shared.template)) else WantLock
    ensures step == Slow1 && caller.slot.Production? ==> step' == if shared.failed then Leaving(NoTemplate) else Slow2
    ensures step == Slow2 && caller.slot.Production? ==>
      step' == if shared.template != "" then Leaving(Template(shared.template)) else Decide
    ensures step == Slow1 && !caller.slot.Production? ==>
      step' == if shared.template != "" then Leaving(Template(shared.template)) else Slow2
    ensures step == Slow2 && !caller.slot.Production? ==> step' == if shared.failed then Leaving(NoTemplate) else Decide
  {}

  /** A slot gets a template that was never built if and only if it is the production one, where
      one from an earlier session may be reused. */
  lemma ReuseIff(caller: Caller, name: string)
    requires MayAsk(caller) && name != ""
    ensures Reached(caller, Shared(name, false, NOBODY, 0), Returned(Template(name))) <==> caller.slot.Production?
  {
    if caller.slot.Production? {
      ToDecide(caller);
      Go(caller, Shared("", false, 0, 0), Decide, Shared(name, false, 0, 0), Leaving(Template(name)));
      Go(caller, Shared(name, false, 0, 0), Leaving(Template(name)), Shared(name, false, NOBODY, 0),
         Returned(Template(name)));
    }
    if !caller.slot.Production? && Reached(caller, Shared(name, false, NOBODY, 0), Returned(Template(name))) {
      var run :| IsRun([caller], run) && run[|run| - 1] == At(caller, Shared(name, false, NOBODY, 0),
                                                                Returned(Template(name)));
      PhaseTemplatesAreBuilt([caller], run, |run| - 1, caller.slot);
    }
  }

  /** A template that is set, or on its way to be, was built. */
  ghost predicate WasBuilt(shared: Shared, step: Step) {
    shared.template != "" || step.Built? ==> shared.builds == 1
  }

  ghost predicate AllBuilt(callers: seq<Caller>, s: State, slot: Slot) {
    && slot in s.slots && |s.steps| == |callers|
    && (s.slots[slot].template != "" ==> s.slots[slot].builds == 1)
    && forall i :: 0 <= i < |callers| && callers[i].slot == slot ==> WasBuilt(s.slots[slot], s.steps[i])
  }

  lemma MoverBuilt(caller: Caller, i: nat, shared: Shared, step: Step, shared': Shared, step': Step)
    requires CallerStep(caller, i, shared, step, shared', step') && CallerOk(caller, i, shared, step)
    requires SharedOk(shared) && !caller.slot.Production? && WasBuilt(shared, step)
    ensures WasBuilt(shared', step') && shared'.builds >= shared.builds
    ensures shared'.template != "" ==> shared'.builds == 1
  {}

  lemma StepBuilt(callers: seq<Caller>, s: State, s': State, i: nat, slot: Slot)
    requires Inv(callers, s) && Inv(callers, s') && StepBy(callers, s, s', i) && AllBuilt(callers, s, slot)
    requires !slot.Production?
    ensures AllBuilt(callers, s', slot)
  {
    if callers[i].slot == slot {
      MoverBuilt(callers[i], i, s.slots[slot], s.steps[i], s'.slots[slot], s'.steps[i]);
      assert SharedOk(s'.slots[slot]);
    }
  }

  /** A phase's template is one that was built. */
  lemma {:induction false} PhaseTemplatesAreBuilt(callers: seq<Caller>, run: seq<State>, k: nat, slot: Slot)
    requires IsRun(callers, run) && k < |run| && !slot.Production?
    ensures AllBuilt(callers, run[k], slot)
  {
    if k == 0 {
      InvInit(callers);
    } else {
      PhaseTemplatesAreBuilt(callers, run, k - 1, slot);
      InvHolds(callers, run, k - 1);
      var i := Mover(callers, run, k - 1);
      InvStep(callers, run[k - 1], run[k], i);
      StepBuilt(callers, run[k - 1], run[k], i, slot);
    }
  }
}
