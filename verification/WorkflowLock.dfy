/** The exclusive-create lock file of the data workflows, with the deployments that take it:
    acquire and release in docker/scripts/run_odoo_data_workflows.py, the launcher's look at
    the deployment list and the clearing script in tools/stack_data_workflow.py.

    Everything interleaves in any way. A launcher looks at the list, stores a script that clears
    the lock or not, and starts a deployment, which runs the script stored at that moment.
    Creating the file is atomic (O_CREAT with O_EXCL); releasing removes whatever file is at the
    path. A process may vanish at any time. A deployment may be cancelled, or shown as failed, at
    any time, whether its process is gone or not; it is shown as succeeded only by its own end. */
module WorkflowLock {
  import opened StaleLock

  /** Where the process of a deployment is. */
  datatype Phase = MustClear | Waiting | Created | Working | Finished | Refused | Vanished

  /** `listed` unless the workflow was started by hand, past the scheduler. */
  datatype Job = Job(listed: bool, status: Deployment, phase: Phase)

  datatype Launcher = Idle | Looked(clear: bool) | Stored | Done

  /** `file` is the deployment whose process wrote the lock file, or NOBODY without a file;
      `script` says whether the stored script clears; the latest deployment comes last. */
  datatype State = State(file: int, script: bool, jobs: seq<Job>, launchers: seq<Launcher>)

  const NOBODY := -1

  datatype Event =
    | Look(l: nat) | Store(l: nat) | Trigger(l: nat) | ByHand
    | Clear(i: nat) | Create(i: nat) | Collide(i: nat) | Record(i: nat) | Release(i: nat) | Vanish(i: nat)
    | End(i: nat, status: Deployment) | Cancel(i: nat)

  /** Between `acquire` and `release`. */
  predicate Holding(phase: Phase) {
    phase.Created? || phase.Working?
  }

  predicate Ended(phase: Phase) {
    phase.Finished? || phase.Refused? || phase.Vanished?
  }

  predicate Launching(launcher: Launcher) {
    launcher.Looked? || launcher.Stored?
  }

  /** The deployment list the scheduler shows, newest first. */
  function Shown(jobs: seq<Job>): seq<Deployment> {
    if jobs == [] then []
    else
      var last, before := jobs[|jobs| - 1], Shown(jobs[..|jobs| - 1]);
      if last.listed then [last.status] + before else before
  }

  /** What a launcher makes of the list: nothing while a deployment runs. */
  function AfterLook(shown: seq<Deployment>): Launcher {
    if Running in shown then Done else Looked(ShouldClear(shown))
  }

  // ------------------------------------------------------------ steps

  predicate Allowed(s: State, e: Event) {
    match e
    case Look(l) => l < |s.launchers| && s.launchers[l].Idle?
    case Store(l) => l < |s.launchers| && s.launchers[l].Looked?
    case Trigger(l) => l < |s.launchers| && s.launchers[l].Stored?
    case ByHand => true
    case Clear(i) => i < |s.jobs| && s.jobs[i].phase.MustClear?
    case Create(i) => i < |s.jobs| && s.jobs[i].phase.Waiting? && s.file == NOBODY
    case Collide(i) => i < |s.jobs| && s.jobs[i].phase.Waiting? && s.file != NOBODY
    case Record(i) => i < |s.jobs| && s.jobs[i].phase.Created?
    case Release(i) => i < |s.jobs| && s.jobs[i].phase.Working?
    case Vanish(i) => i < |s.jobs| && !Ended(s.jobs[i].phase)
    case End(i, status) =>
      && i < |s.jobs| && s.jobs[i].status.Running?
      && (status.OtherStatus? || (status.Succeeded? && s.jobs[i].phase.Finished?))
    case Cancel(i) => i < |s.jobs| && s.jobs[i].status.Running?
  }

  function Move(s: State, i: nat, phase: Phase): State
    requires i < |s.jobs|
  {
    s.(jobs := s.jobs[i := s.jobs[i].(phase := phase)])
  }

  function Mark(s: State, i: nat, status: Deployment): State
    requires i < |s.jobs|
  {
    s.(jobs := s.jobs[i := s.jobs[i].(status := status)])
  }

  function Apply(s: State, e: Event): State
    requires Allowed(s, e)
  {
    match e
    case Look(l) => s.(launchers := s.launchers[l := AfterLook(Shown(s.jobs))])
    case Store(l) => s.(script := s.launchers[l].clear, launchers := s.launchers[l := Stored])
    case Trigger(l) =>
      var job := Job(true, Running, if s.script then MustClear else Waiting);
      s.(jobs := s.jobs + [job], launchers := s.launchers[l := Done])
    case ByHand => s.(jobs := s.jobs + [Job(false, Running, Waiting)])
    case Clear(i) => Move(s, i, Waiting).(file := NOBODY)
    case Create(i) => Move(s, i, Created).(file := i)
    case Collide(i) => Move(s, i, Refused)
    case Record(i) => Move(s, i, Working)
    case Release(i) => Move(s, i, Finished).(file := NOBODY)
    case Vanish(i) => Move(s, i, Vanished)
    case End(i, status) => Mark(s, i, status)
    case Cancel(i) => Mark(s, i, Cancelled)
  }

  function Init(n: nat): State {
    State(NOBODY, false, [], seq(n, _ => Idle))
  }

  ghost predicate IsRun(n: nat, run: seq<State>, events: seq<Event>) {
    && |run| == |events| + 1 && run[0] == Init(n)
    && forall k :: 0 <= k < |events| ==> Allowed(run[k], events[k]) && run[k + 1] == Apply(run[k], events[k])
  }

  // ------------------------------------------------------------ exclusion, when clearing finds nobody

  ghost predicate NobodyHolds(s: State) {
    forall i :: 0 <= i < |s.jobs| ==> !Holding(s.jobs[i].phase)
  }

  ghost predicate MutualExclusion(s: State) {
    forall i, j :: 0 <= i < |s.jobs| && 0 <= j < |s.jobs| ==>
      Holding(s.jobs[i].phase) && Holding(s.jobs[j].phase) ==> i == j
  }

  /** Clearing takes the lock from nobody. */
  ghost predicate SafeClear(s: State, e: Event) {
    e.Clear? ==> NobodyHolds(s)
  }

  ghost predicate SafeClears(run: seq<State>, events: seq<Event>, n: nat)
    requires n <= |events| < |run|
  {
    forall k :: 0 <= k < n ==> SafeClear(run[k], events[k])
  }

  /** Whoever holds the lock is the one whose file is there, and a file belongs to a process
      that holds the lock or vanished with it. */
  ghost predicate Inv(s: State) {
    && (forall i :: 0 <= i < |s.jobs| && Holding(s.jobs[i].phase) ==> s.file == i)
    && (s.file != NOBODY ==>
        0 <= s.file < |s.jobs| && (Holding(s.jobs[s.file].phase) || s.jobs[s.file].phase.Vanished?))
  }

  lemma InvStep(s: State, e: Event)
    requires Inv(s) && Allowed(s, e) && SafeClear(s, e)
    ensures Inv(Apply(s, e))
  {
    if e.Create? {
      forall i | 0 <= i < |s.jobs| && i != e.i ensures !Holding(s.jobs[i].phase) {}
    }
  }

  lemma {:induction false} InvHolds(n: nat, run: seq<State>, events: seq<Event>, k: nat)
    requires IsRun(n, run, events) && k < |run| && SafeClears(run, events, k)
    ensures Inv(run[k])
  {
    if k > 0 {
      InvHolds(n, run, events, k - 1);
      assert Allowed(run[k - 1], events[k - 1]) && run[k - 1 + 1] == Apply(run[k - 1], events[k - 1]);
      assert SafeClear(run[k - 1], events[k - 1]);
      InvStep(run[k - 1], events[k - 1]);
    }
  }

  // ------------------------------------------------------------ when clearing finds nobody

  /** The processes of all cancelled deployments have ended. */
  ghost predicate CancelledAreGone(s: State) {
    forall i :: 0 <= i < |s.jobs| && s.jobs[i].status.Cancelled? ==> Ended(s.jobs[i].phase)
  }

  /** The processes of all deployments shown as failed, or with any status of no meaning to the
      launcher, have ended. */
  ghost predicate FailedAreGone(s: State) {
    forall i :: 0 <= i < |s.jobs| && s.jobs[i].status.OtherStatus? ==> Ended(s.jobs[i].phase)
  }

  ghost predicate NobodyLaunches(s: State) {
    forall l :: 0 <= l < |s.launchers| ==> !Launching(s.launchers[l])
  }

  /** Every process belongs to a listed deployment. */
  predicate Scheduled(e: Event) {
    !e.ByHand?
  }

  /** No launcher looks while another one is between its look and its start. */
  ghost predicate InTurn(s: State, e: Event) {
    e.Look? ==> NobodyLaunches(s)
  }

  /** A look at the list that says to clear. */
  predicate SaysClear(s: State, e: Event) {
    e.Look? && Running !in Shown(s.jobs) && ShouldClear(Shown(s.jobs))
  }

  /** When a look says to clear, the cancelled processes are gone. */
  ghost predicate CancelledGone(s: State, e: Event) {
    SaysClear(s, e) ==> CancelledAreGone(s)
  }

  /** And so are those of failed deployments, which the launcher looks past. */
  ghost predicate FailedGone(s: State, e: Event) {
    SaysClear(s, e) ==> FailedAreGone(s)
  }

  /** What the deployment list itself cannot show. */
  ghost predicate Orderly(s: State, e: Event) {
    Scheduled(e) && InTurn(s, e) && CancelledGone(s, e) && FailedGone(s, e)
  }

  ghost predicate OrderlyRun(run: seq<State>, events: seq<Event>)
    requires |run| == |events| + 1
  {
    forall k :: 0 <= k < |events| ==> Orderly(run[k], events[k])
  }

  /** A deployment is listed, and shown to have succeeded only when its process ended. */
  ghost predicate Honest(job: Job) {
    job.listed && (job.status.Succeeded? ==> Ended(job.phase))
  }

  ghost predicate AllHonest(s: State) {
    forall i :: 0 <= i < |s.jobs| ==> Honest(s.jobs[i])
  }

  ghost predicate AllEnded(s: State) {
    forall i :: 0 <= i < |s.jobs| ==> Ended(s.jobs[i].phase)
  }

  /** No deployment runs and none is about to clear. */
  ghost predicate Quiet(s: State) {
    forall i :: 0 <= i < |s.jobs| ==> !s.jobs[i].status.Running? && !s.jobs[i].phase.MustClear?
  }

  ghost predicate OneLauncher(s: State) {
    forall l, m :: 0 <= l < |s.launchers| && 0 <= m < |s.launchers| ==>
      Launching(s.launchers[l]) && Launching(s.launchers[m]) ==> l == m
  }

  /** The launcher is about to start a deployment that clears. */
  predicate WillClear(s: State, l: nat)
    requires l < |s.launchers|
  {
    s.launchers[l] == Looked(true) || (s.launchers[l].Stored? && s.script)
  }

  /** From the look on nothing runs; when the look said to clear, the list still says so and
      nothing is left to run. */
  ghost predicate LaunchIsSafe(s: State, l: nat)
    requires l < |s.launchers|
  {
    && (Launching(s.launchers[l]) ==> Quiet(s))
    && (WillClear(s, l) ==> AllEnded(s) && ShouldClear(Shown(s.jobs)))
  }

  ghost predicate LaunchesAreSafe(s: State) {
    forall l :: 0 <= l < |s.launchers| ==> LaunchIsSafe(s, l)
  }

  /** Nothing about the job changes any more. */
  predicate Past(job: Job) {
    Ended(job.phase) && !job.status.Running?
  }

  /** Only the latest deployment may be about to clear; then all others are past, and their list
      says to clear. */
  ghost predicate ClearIsSafe(s: State, i: nat)
    requires i < |s.jobs|
  {
    s.jobs[i].phase.MustClear? ==>
      && i == |s.jobs| - 1 && (forall j :: 0 <= j < i ==> Past(s.jobs[j]))
      && ShouldClear(Shown(s.jobs[..i]))
  }

  ghost predicate ClearsAreSafe(s: State) {
    forall i :: 0 <= i < |s.jobs| ==> ClearIsSafe(s, i)
  }

  ghost predicate Disciplined(s: State) {
    AllHonest(s) && OneLauncher(s) && LaunchesAreSafe(s) && ClearsAreSafe(s)
  }

  /** Every listed status is on the list. */
  lemma {:induction false} ShowsAll(jobs: seq<Job>, i: nat)
    requires i < |jobs| && jobs[i].listed
    ensures jobs[i].status in Shown(jobs)
  {
    if i < |jobs| - 1 {
      ShowsAll(jobs[..|jobs| - 1], i);
    }
  }

  /** A cancelled latest deployment asks for clearing when nothing runs. */
  lemma {:induction false} LatestCancelled(jobs: seq<Job>)
    requires jobs != [] && jobs[|jobs| - 1].listed && jobs[|jobs| - 1].status.Cancelled?
    requires Running !in Shown(jobs)
    ensures ShouldClear(Shown(jobs))
  {
    var shown := Shown(jobs);
    assert shown[0] == Cancelled && Succeeded !in shown[..0];
  }

  /** And so does a failed one when the list before it did. */
  lemma {:induction false} LatestFailed(jobs: seq<Job>)
    requires jobs != [] && jobs[|jobs| - 1].listed && jobs[|jobs| - 1].status.OtherStatus?
    requires Running !in Shown(jobs) && ShouldClear(Shown(jobs[..|jobs| - 1]))
    ensures ShouldClear(Shown(jobs))
  {
    var shown, before := Shown(jobs), Shown(jobs[..|jobs| - 1]);
    assert shown == [OtherStatus] + before;
    var k :| 0 <= k < |before| && before[k] == Cancelled && Succeeded !in before[..k];
    assert shown[k + 1] == Cancelled && shown[..k + 1] == [OtherStatus] + before[..k];
  }

  /** The list depends on the statuses only. */
  lemma {:induction false} SameShown(jobs: seq<Job>, others: seq<Job>)
    requires |jobs| == |others|
    requires forall i :: 0 <= i < |jobs| ==> jobs[i].listed == others[i].listed && jobs[i].status == others[i].status
    ensures Shown(jobs) == Shown(others)
  {
    if jobs != [] {
      SameShown(jobs[..|jobs| - 1], others[..|others| - 1]);
    }
  }

  lemma LookStep(s: State, l: nat)
    requires Disciplined(s) && Allowed(s, Look(l)) && Orderly(s, Look(l))
    ensures Disciplined(Apply(s, Look(l)))
  {
    var shown, s' := Shown(s.jobs), Apply(s, Look(l));
    if Running !in shown {
      LookFindsQuiet(s);
      if ShouldClear(shown) {
        LookFindsEnded(s);
      }
    }
    forall m | 0 <= m < |s'.launchers| ensures LaunchIsSafe(s', m) {
      assert LaunchIsSafe(s, m);
    }
    forall i | 0 <= i < |s.jobs| ensures ClearIsSafe(s', i) {
      assert ClearIsSafe(s, i);
    }
  }

  lemma LookFindsQuiet(s: State)
    requires AllHonest(s) && ClearsAreSafe(s) && Running !in Shown(s.jobs)
    requires ShouldClear(Shown(s.jobs)) ==> CancelledAreGone(s) && FailedAreGone(s)
    ensures Quiet(s)
  {
    forall i | 0 <= i < |s.jobs| ensures !s.jobs[i].status.Running? && !s.jobs[i].phase.MustClear? {
      assert Honest(s.jobs[i]) && ClearIsSafe(s, i);
      ShowsAll(s.jobs, i);
      if s.jobs[i].phase.MustClear? {
        if s.jobs[i].status.Cancelled? {
          LatestCancelled(s.jobs);
        } else {
          LatestFailed(s.jobs);
        }
        assert false;
      }
    }
  }

  lemma LookFindsEnded(s: State)
    requires AllHonest(s) && Quiet(s) && CancelledAreGone(s) && FailedAreGone(s)
    ensures AllEnded(s)
  {
    forall i | 0 <= i < |s.jobs| ensures Ended(s.jobs[i].phase) {
      assert Honest(s.jobs[i]);
    }
  }

  lemma StoreStep(s: State, l: nat)
    requires Disciplined(s) && Allowed(s, Store(l))
    ensures Disciplined(Apply(s, Store(l)))
  {
    var s' := Apply(s, Store(l));
    forall m | 0 <= m < |s'.launchers| ensures LaunchIsSafe(s', m) {
      assert LaunchIsSafe(s, m) && LaunchIsSafe(s, l);
    }
    forall i | 0 <= i < |s.jobs| ensures ClearIsSafe(s', i) {
      assert ClearIsSafe(s, i);
    }
  }

  lemma TriggerStep(s: State, l: nat)
    requires Disciplined(s) && Allowed(s, Trigger(l))
    ensures Disciplined(Apply(s, Trigger(l)))
  {
    var s' := Apply(s, Trigger(l));
    assert LaunchIsSafe(s, l);
    forall m | 0 <= m < |s'.launchers| ensures LaunchIsSafe(s', m) {
      assert !Launching(s'.launchers[m]);
    }
    assert s'.jobs[..|s.jobs|] == s.jobs;
    forall i | 0 <= i < |s'.jobs| ensures ClearIsSafe(s', i) && Honest(s'.jobs[i]) {
      assert i < |s.jobs| ==> s'.jobs[i] == s.jobs[i] && Honest(s.jobs[i]) && !s.jobs[i].phase.MustClear?;
      assert forall j :: 0 <= j < |s.jobs| ==> s'.jobs[j] == s.jobs[j];
    }
  }

  /** A step of a deployment's own process, or of its status: nothing ended goes on, nothing
      begins to run or to clear. */
  ghost predicate Forward(before: Job, after: Job) {
    && Honest(after)
    && (Ended(before.phase) ==> Ended(after.phase))
    && (after.listed == before.listed && (after.status != before.status ==> before.status.Running?))
    && (after.phase.MustClear? ==> before.phase.MustClear?)
  }

  lemma ForwardStep(s: State, s': State, i: nat)
    requires Disciplined(s) && i < |s.jobs| && |s'.jobs| == |s.jobs|
    requires s'.jobs == s.jobs[i := s'.jobs[i]] && Forward(s.jobs[i], s'.jobs[i])
    requires s'.launchers == s.launchers && s'.script == s.script
    ensures Disciplined(s')
  {
    forall j | 0 <= j < |s.jobs| ensures Forward(s.jobs[j], s'.jobs[j]) {
      assert Honest(s.jobs[j]);
    }
    forall m | 0 <= m < |s'.launchers| ensures LaunchIsSafe(s', m) {
      assert LaunchIsSafe(s, m);
      if Launching(s.launchers[m]) {
        SameShown(s.jobs, s'.jobs);
      }
    }
    forall j | 0 <= j < |s'.jobs| ensures ClearIsSafe(s', j) && Honest(s'.jobs[j]) {
      ClearForward(s, s', j);
    }
  }

  lemma ClearForward(s: State, s': State, j: nat)
    requires ClearsAreSafe(s) && |s'.jobs| == |s.jobs| && j < |s.jobs|
    requires forall i :: 0 <= i < |s.jobs| ==> Forward(s.jobs[i], s'.jobs[i])
    ensures ClearIsSafe(s', j)
  {
    assert ClearIsSafe(s, j) && Forward(s.jobs[j], s'.jobs[j]);
    if s'.jobs[j].phase.MustClear? {
      forall i | 0 <= i < j ensures Past(s'.jobs[i]) && s'.jobs[i].status == s.jobs[i].status {
        assert Past(s.jobs[i]) && Forward(s.jobs[i], s'.jobs[i]);
      }
      SameShown(s.jobs[..j], s'.jobs[..j]);
    }
  }

  lemma DisciplinedStep(s: State, e: Event)
    requires Disciplined(s) && Allowed(s, e) && Orderly(s, e)
    ensures Disciplined(Apply(s, e))
  {
    match e {
      case Look(l) => LookStep(s, l);
      case Store(l) => StoreStep(s, l);
      case Trigger(l) => TriggerStep(s, l);
      case ByHand => assert false;
      case _ =>
        assert Honest(s.jobs[e.i]);
        ForwardStep(s, Apply(s, e), e.i);
    }
  }

  lemma DisciplinedClears(s: State, e: Event)
    requires Disciplined(s) && Allowed(s, e)
    ensures SafeClear(s, e)
  {
    if e.Clear? {
      assert ClearIsSafe(s, e.i);
    }
  }

  lemma {:induction false} RunIsDisciplined(n: nat, run: seq<State>, events: seq<Event>, k: nat)
    requires IsRun(n, run, events) && OrderlyRun(run, events) && k < |run|
    ensures Disciplined(run[k]) && SafeClears(run, events, k)
  {
    if k > 0 {
      RunIsDisciplined(n, run, events, k - 1);
      assert Allowed(run[k - 1], events[k - 1]) && run[k - 1 + 1] == Apply(run[k - 1], events[k - 1]);
      assert Orderly(run[k - 1], events[k - 1]);
      DisciplinedClears(run[k - 1], events[k - 1]);
      DisciplinedStep(run[k - 1], events[k - 1]);
    }
  }

  // ------------------------------------------------------------ the lock

  /** A clearing decided on the deployment list takes the lock from nobody. */
  lemma ClearingFindsNobody(n: nat, run: seq<State>, events: seq<Event>, k: nat)
    requires IsRun(n, run, events) && OrderlyRun(run, events) && k < |events|
    ensures events[k].Clear? ==> NobodyHolds(run[k])
  {
    RunIsDisciplined(n, run, events, k);
    assert Allowed(run[k], events[k]);
    DisciplinedClears(run[k], events[k]);
  }

  /** At most one process is between acquire and release, and the file is its own: a release
      never removes another one's lock, a refused process removes nothing. */
  lemma LockIsExclusive(n: nat, run: seq<State>, events: seq<Event>, k: nat)
    requires IsRun(n, run, events) && OrderlyRun(run, events) && k < |run|
    ensures forall i, j :: 0 <= i < j < |run[k].jobs| ==>
      !(Holding(run[k].jobs[i].phase) && Holding(run[k].jobs[j].phase))
    ensures k < |events| && events[k].Release? ==> run[k].file == events[k].i
    ensures k < |events| && events[k].Collide? ==> run[k].file != NOBODY && run[k + 1].file == run[k].file
  {
    RunIsDisciplined(n, run, events, k);
    InvHolds(n, run, events, k);
    if k < |events| {
      assert Allowed(run[k], events[k]) && run[k + 1] == Apply(run[k], events[k]);
    }
  }

  /** Without a vanished process the file is there exactly while somebody holds the lock. */
  lemma LockIsReturned(n: nat, run: seq<State>, events: seq<Event>, k: nat)
    requires IsRun(n, run, events) && OrderlyRun(run, events) && k < |run|
    requires forall i :: 0 <= i < |run[k].jobs| ==> !run[k].jobs[i].phase.Vanished?
    ensures run[k].file == NOBODY <==> NobodyHolds(run[k])
  {
    RunIsDisciplined(n, run, events, k);
    InvHolds(n, run, events, k);
  }

  // ------------------------------------------------------------ what clearing may not do

  /** A deployment that clears and then takes the lock keeps it exclusive if and only if
      nobody held it. */
  lemma ClearingIsSafeIff(s: State, i: nat)
    requires Inv(s) && Allowed(s, Clear(i))
    ensures Allowed(Apply(s, Clear(i)), Create(i))
    ensures MutualExclusion(Apply(Apply(s, Clear(i)), Create(i))) <==> NobodyHolds(s)
  {
    var broken := Apply(Apply(s, Clear(i)), Create(i));
    assert Holding(broken.jobs[i].phase);
    forall j | 0 <= j < |s.jobs| && j != i ensures broken.jobs[j] == s.jobs[j] {}
  }

  // ------------------------------------------------------------ and when it does

  datatype Assumption = EveryScheduled | EveryInTurn | EveryCancelledGone | EveryFailedGone

  ghost predicate Meets(s: State, e: Event, a: Assumption) {
    match a
    case EveryScheduled => Scheduled(e)
    case EveryInTurn => InTurn(s, e)
    case EveryCancelledGone => CancelledGone(s, e)
    case EveryFailedGone => FailedGone(s, e)
  }

  /** A run in which each step meets the assumptions, but for `broken`. */
  ghost predicate RunBut(n: nat, run: seq<State>, events: seq<Event>, broken: Assumption) {
    && IsRun(n, run, events)
    && forall k, a :: 0 <= k < |events| && a != broken ==> Meets(run[k], events[k], a)
  }

  /** A state that such a run reaches. */
  ghost predicate ReachedBut(n: nat, s: State, broken: Assumption) {
    exists run: seq<State>, events: seq<Event> :: RunBut(n, run, events, broken) && run[|events|] == s
  }

  lemma StartBut(n: nat, broken: Assumption)
    ensures ReachedBut(n, Init(n), broken)
  {
    assert RunBut(n, [Init(n)], [], broken);
  }

  lemma StepBut(n: nat, s: State, e: Event, broken: Assumption, s': State)
    requires ReachedBut(n, s, broken) && Allowed(s, e) && s' == Apply(s, e)
    requires forall a :: a != broken ==> Meets(s, e, a)
    ensures ReachedBut(n, s', broken)
  {
    var run: seq<State>, events: seq<Event> :| RunBut(n, run, events, broken) && run[|events|] == s;
    var longer, more := run + [s'], events + [e];
    forall k, a | 0 <= k < |more| && a != broken ensures Meets(longer[k], more[k], a) {
      assert k < |events| ==> Meets(run[k], events[k], a);
    }
    forall k | 0 <= k < |more| ensures Allowed(longer[k], more[k]) && longer[k + 1] == Apply(longer[k], more[k]) {
      assert k < |events| ==> Allowed(run[k], events[k]) && run[k + 1] == Apply(run[k], events[k]);
    }
    assert RunBut(n, longer, more, broken) && longer[|more|] == s';
  }

  /** A step that the assumptions do not speak of. */
  lemma Go(n: nat, s: State, e: Event, broken: Assumption, s': State)
    requires ReachedBut(n, s, broken) && Allowed(s, e) && s' == Apply(s, e) && !e.Look? && !e.ByHand?
    ensures ReachedBut(n, s', broken)
  {
    StepBut(n, s, e, broken, s');
  }

  /** A look that says to clear. */
  lemma LookToClear(n: nat, s: State, l: nat, broken: Assumption, s': State)
    requires ReachedBut(n, s, broken) && Allowed(s, Look(l)) && s' == s.(launchers := s.launchers[l := Looked(true)])
    requires Running !in Shown(s.jobs) && ShouldClear(Shown(s.jobs))
    requires broken.EveryInTurn? || NobodyLaunches(s)
    requires broken.EveryCancelledGone? || CancelledAreGone(s)
    requires broken.EveryFailedGone? || FailedAreGone(s)
    ensures ReachedBut(n, s', broken)
  {
    StepBut(n, s, Look(l), broken, s');
  }

  /** The launcher that looked starts its deployment, which clears and takes the lock. */
  lemma TakeOver(n: nat, s: State, l: nat, broken: Assumption) returns (s': State)
    requires ReachedBut(n, s, broken) && l < |s.launchers| && s.launchers[l] == Looked(true)
    ensures s' == State(|s.jobs|, true, s.jobs + [Job(true, Running, Created)], s.launchers[l := Done])
    ensures ReachedBut(n, s', broken)
  {
    var i := |s.jobs|;
    var s1 := s.(script := true, launchers := s.launchers[l := Stored]);
    Go(n, s, Store(l), broken, s1);
    var s2 := s1.(jobs := s.jobs + [Job(true, Running, MustClear)], launchers := s.launchers[l := Done]);
    Go(n, s1, Trigger(l), broken, s2);
    var s3 := s2.(file := NOBODY, jobs := s.jobs + [Job(true, Running, Waiting)]);
    Go(n, s2, Clear(i), broken, s3);
    s' := s3.(file := i, jobs := s.jobs + [Job(true, Running, Created)]);
    Go(n, s3, Create(i), broken, s');
  }

  /** The first launcher, on an empty list, starts a deployment that does not clear. */
  lemma FirstStart(broken: Assumption) returns (s: State)
    ensures s == State(NOBODY, false, [Job(true, Running, Waiting)], [Done, Idle, Idle]) && ReachedBut(3, s, broken)
  {
    StartBut(3, broken);
    var s1 := State(NOBODY, false, [], [Looked(false), Idle, Idle]);
    StepBut(3, Init(3), Look(0), broken, s1);
    var s2 := State(NOBODY, false, [], [Stored, Idle, Idle]);
    Go(3, s1, Store(0), broken, s2);
    s := State(NOBODY, false, [Job(true, Running, Waiting)], [Done, Idle, Idle]);
    Go(3, s2, Trigger(0), broken, s);
  }

  /** It is cancelled and its process is gone before it takes the lock. */
  lemma FirstGone(broken: Assumption) returns (s: State)
    ensures s == State(NOBODY, false, [Job(true, Cancelled, Vanished)], [Done, Idle, Idle]) && ReachedBut(3, s, broken)
  {
    var s0 := FirstStart(broken);
    var s1 := State(NOBODY, false, [Job(true, Cancelled, Waiting)], [Done, Idle, Idle]);
    Go(3, s0, Cancel(0), broken, s1);
    s := State(NOBODY, false, [Job(true, Cancelled, Vanished)], [Done, Idle, Idle]);
    Go(3, s1, Vanish(0), broken, s);
  }

  lemma CancelledIsShown(job: Job)
    requires job.listed && job.status.Cancelled?
    ensures Shown([job]) == [Cancelled] && ShouldClear(Shown([job])) && Running !in Shown([job])
  {
    assert [job][..0] == [];
    LatestCancelled([job]);
  }

  /** A deployment is cancelled and shown so while its process still works. */
  lemma CancelledAtWork() returns (s: State)
    ensures s == State(0, false, [Job(true, Cancelled, Working)], [Done, Idle, Idle])
    ensures ReachedBut(3, s, EveryCancelledGone)
  {
    var s0 := FirstStart(EveryCancelledGone);
    var s1 := State(0, false, [Job(true, Running, Created)], [Done, Idle, Idle]);
    Go(3, s0, Create(0), EveryCancelledGone, s1);
    var s2 := State(0, false, [Job(true, Running, Working)], [Done, Idle, Idle]);
    Go(3, s1, Record(0), EveryCancelledGone, s2);
    s := State(0, false, [Job(true, Cancelled, Working)], [Done, Idle, Idle]);
    Go(3, s2, Cancel(0), EveryCancelledGone, s);
  }

  /** The next launcher is told to clear, and two processes hold the lock. */
  lemma CancelledButAlive() returns (s: State)
    ensures s == State(1, true, [Job(true, Cancelled, Working), Job(true, Running, Created)], [Done, Done, Idle])
    ensures ReachedBut(3, s, EveryCancelledGone)
  {
    var s0 := CancelledAtWork();
    CancelledIsShown(s0.jobs[0]);
    var s1 := s0.(launchers := [Done, Looked(true), Idle]);
    LookToClear(3, s0, 1, EveryCancelledGone, s1);
    s := TakeOver(3, s1, 1, EveryCancelledGone);
  }

  /** When the cancelled process ends after all, it removes the lock of the other one. */
  lemma LockIsLost() returns (s: State)
    ensures ReachedBut(3, s, EveryCancelledGone)
    ensures |s.jobs| == 2 && Holding(s.jobs[1].phase) && s.file == NOBODY
  {
    var s0 := CancelledButAlive();
    s := State(NOBODY, true, [Job(true, Cancelled, Finished), Job(true, Running, Created)], [Done, Done, Idle]);
    Go(3, s0, Release(0), EveryCancelledGone, s);
  }

  /** Two launchers look at the same list before either starts its deployment. */
  lemma TwoLookAtOnce() returns (s: State)
    ensures s == State(NOBODY, false, [Job(true, Cancelled, Vanished)], [Done, Looked(true), Looked(true)])
    ensures ReachedBut(3, s, EveryInTurn)
  {
    var s0 := FirstGone(EveryInTurn);
    CancelledIsShown(s0.jobs[0]);
    var s1 := s0.(launchers := [Done, Looked(true), Idle]);
    LookToClear(3, s0, 1, EveryInTurn, s1);
    s := s0.(launchers := [Done, Looked(true), Looked(true)]);
    LookToClear(3, s1, 2, EveryInTurn, s);
  }

  /** Each of the two deployments clears and takes the lock. */
  lemma BothTakeOver() returns (s: State)
    ensures ReachedBut(3, s, EveryInTurn) && !MutualExclusion(s)
  {
    var s0 := TwoLookAtOnce();
    var s1 := TakeOver(3, s0, 1, EveryInTurn);
    s := TakeOver(3, s1, 2, EveryInTurn);
    assert Holding(s.jobs[1].phase) && Holding(s.jobs[2].phase);
  }

  /** A workflow started by hand is not on the list. */
  lemma ByHandAtWork() returns (s: State)
    ensures s == State(1, false, [Job(true, Cancelled, Vanished), Job(false, Running, Created)], [Done, Idle, Idle])
    ensures ReachedBut(3, s, EveryScheduled)
    ensures Shown(s.jobs) == [Cancelled]
  {
    var gone := Job(true, Cancelled, Vanished);
    var s0 := FirstGone(EveryScheduled);
    var s1 := State(NOBODY, false, [gone, Job(false, Running, Waiting)], [Done, Idle, Idle]);
    StepBut(3, s0, ByHand, EveryScheduled, s1);
    s := State(1, false, [gone, Job(false, Running, Created)], [Done, Idle, Idle]);
    Go(3, s1, Create(1), EveryScheduled, s);
    CancelledIsShown(gone);
    assert s.jobs[..1] == [gone];
  }

  lemma ClearedUnderHand() returns (s: State)
    ensures ReachedBut(3, s, EveryScheduled) && !MutualExclusion(s)
  {
    var s0 := ByHandAtWork();
    CancelledIsShown(s0.jobs[0]);
    var s1 := s0.(launchers := [Done, Looked(true), Idle]);
    LookToClear(3, s0, 1, EveryScheduled, s1);
    s := TakeOver(3, s1, 1, EveryScheduled);
    assert Holding(s.jobs[1].phase) && Holding(s.jobs[2].phase);
  }

  /** A deployment that took over after a cancelled one is shown as failed while its process works. */
  lemma FailedAtWork() returns (s: State)
    ensures s == State(1, true, [Job(true, Cancelled, Vanished), Job(true, OtherStatus, Created)], [Done, Done, Idle])
    ensures ReachedBut(3, s, EveryFailedGone)
  {
    var s0 := FirstGone(EveryFailedGone);
    CancelledIsShown(s0.jobs[0]);
    var s1 := s0.(launchers := [Done, Looked(true), Idle]);
    LookToClear(3, s0, 1, EveryFailedGone, s1);
    var s2 := TakeOver(3, s1, 1, EveryFailedGone);
    s := s2.(jobs := [Job(true, Cancelled, Vanished), Job(true, OtherStatus, Created)]);
    Go(3, s2, End(1, OtherStatus), EveryFailedGone, s);
  }

  lemma FailedIsLookedPast(gone: Job, failed: Job)
    requires gone.listed && gone.status.Cancelled? && failed.listed && failed.status.OtherStatus?
    ensures Shown([gone, failed]) == [OtherStatus, Cancelled]
    ensures ShouldClear(Shown([gone, failed])) && Running !in Shown([gone, failed])
  {
    CancelledIsShown(gone);
    assert [gone, failed][..1] == [gone];
    LatestFailed([gone, failed]);
  }

  /** The launcher looks past it to the cancelled one, and two processes hold the lock. */
  lemma FailedButAlive() returns (s: State)
    ensures ReachedBut(3, s, EveryFailedGone) && !MutualExclusion(s)
  {
    var s0 := FailedAtWork();
    FailedIsLookedPast(s0.jobs[0], s0.jobs[1]);
    var s1 := s0.(launchers := [Done, Done, Looked(true)]);
    LookToClear(3, s0, 2, EveryFailedGone, s1);
    s := TakeOver(3, s1, 2, EveryFailedGone);
    assert Holding(s.jobs[1].phase) && Holding(s.jobs[2].phase);
  }

  /** None of the assumptions can be dropped: a run that breaks only one of them, every
      launcher deciding on the deployment list it sees, lets two processes in. */
  lemma EachAssumptionIsNeeded(a: Assumption) returns (s: State)
    ensures ReachedBut(3, s, a) && !MutualExclusion(s)
  {
    match a {
      case EveryScheduled => s := ClearedUnderHand();
      case EveryInTurn => s := BothTakeOver();
      case EveryCancelledGone =>
        s := CancelledButAlive();
        assert Holding(s.jobs[0].phase) && Holding(s.jobs[1].phase);
      case EveryFailedGone => s := FailedButAlive();
    }
  }
}
