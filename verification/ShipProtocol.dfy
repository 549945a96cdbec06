/** Shipping and promoting: tools/platform/commands_release.py and release_workflows.py.

    One ship (or promote) runs step by step while other actors push to the target branch and
    to the testing branch at any moment. The log records what happened, in order. */
module ShipProtocol {

  /** A branch tip; `Missing` is the empty string `ls-remote` leaves for an absent branch. */
  datatype Tip = Missing | At(commit: nat)

  datatype TargetType = Compose | Application

  datatype Instance = Testing | Prod | OtherInstance

  /** A commit hash resolves to itself; any other reference to whatever it points at. */
  datatype SourceRef = Commit(commit: nat) | Reference

  datatype Config = Config(
    promote: bool, target: TargetType, instance: Instance, hasGitBranch: bool, source: SourceRef,
    explicitSource: bool, hasGitMetadata: bool, dryRun: bool, skipGate: bool,
    requireTestGate: bool, requireProdGate: bool)

  datatype Event =
    | SourceRead(commit: nat)
    | BackupOk
    | Pinned(commit: nat)
    | TipRead(tip: Tip)
    | GatesOk(test: bool, prod: bool)
    | Moved(from: Tip, to: Tip)
    | UpToDate(commit: nat)
    | Deployed(tip: Tip)
    | OtherPush(from: Tip, to: Tip, testing: Tip)

  datatype Pc = ReadSource | BackupGate | Start | PinSource | ReadTarget | Gates | LatePin | LateRead | Push | Deploy
              | Done | Aborted

  /** `commit` and `seen` are the branch sync plan once it is prepared. */
  datatype State = State(pc: Pc, tip: Tip, testing: Tip, commit: nat, seen: Tip, log: seq<Event>)

  predicate ShouldSync(cfg: Config) {
    cfg.target.Compose? || cfg.hasGitBranch
  }

  /** The plan is prepared before the gates. */
  predicate PlansEarly(cfg: Config) {
    ShouldSync(cfg) && !cfg.dryRun && cfg.hasGitMetadata
  }

  predicate PolicyValid(cfg: Config) {
    && (cfg.requireTestGate ==> cfg.instance.Testing?)
    && (cfg.requireProdGate ==> cfg.instance.Prod?)
  }

  predicate NeedsTest(cfg: Config) {
    cfg.requireTestGate && !cfg.skipGate
  }

  predicate NeedsProd(cfg: Config) {
    cfg.requireProdGate && !cfg.skipGate
  }

  /** A promote ships the commit it read, and leaves the gates to its own backup gate. */
  predicate WellFormed(cfg: Config) {
    cfg.promote ==> cfg.skipGate && cfg.explicitSource && cfg.instance.Prod?
  }

  function Init(cfg: Config, tip: Tip, testing: Tip): State {
    State(if cfg.promote then ReadSource else Start, tip, testing, 0, Missing, [])
  }

  predicate Fails(s: State, s': State) {
    s' == s.(pc := Aborted)
  }

  /** What a reference resolves to; a promote passes the commit it read. */
  predicate Resolves(cfg: Config, s: State, commit: nat) {
    if cfg.promote then commit == s.commit else cfg.source.Commit? ==> commit == cfg.source.commit
  }

  /** One step of the command itself; every effect outside the model may also fail, a push even
      after the remote took it. */
  ghost predicate OwnStep(cfg: Config, s: State, s': State) {
    match s.pc
    case ReadSource =>
      || Fails(s, s')
      || (s.testing.At? && s' == ReadCommit(s, s.testing.commit))
    case BackupGate => Fails(s, s') || s' == s.(pc := Start, log := s.log + [BackupOk])
    case Start =>
      if ShouldSync(cfg) && !cfg.dryRun && cfg.explicitSource && !cfg.hasGitMetadata then Fails(s, s')
      else s' == s.(pc := if PlansEarly(cfg) then PinSource else Gates)
    case PinSource =>
      || Fails(s, s')
      || (cfg.hasGitBranch && exists c: nat :: Resolves(cfg, s, c) && s' == Pin(s, c, ReadTarget))
    case ReadTarget => Fails(s, s') || s' == Read(s, Gates)
    case Gates =>
      || Fails(s, s')
      || ((cfg.skipGate || PolicyValid(cfg)) && s' == PassGates(cfg, s))
    case LatePin =>
      || Fails(s, s')
      || (cfg.hasGitBranch && exists c: nat :: Resolves(cfg, s, c) && s' == Pin(s, c, LateRead))
    case LateRead => Fails(s, s') || s' == Read(s, Push)
    case Push => s' == ApplyPush(s) || s' == ApplyPush(s).(pc := Aborted) || Fails(s, s')
    case Deploy => Fails(s, s') || s' == s.(pc := Done, log := s.log + [Deployed(s.tip)])
    case Done => false
    case Aborted => false
  }

  function ReadCommit(s: State, c: nat): State {
    s.(pc := BackupGate, commit := c, log := s.log + [SourceRead(c)])
  }

  function Pin(s: State, c: nat, next: Pc): State {
    s.(pc := next, commit := c, log := s.log + [Pinned(c)])
  }

  function Read(s: State, next: Pc): State {
    s.(pc := next, seen := s.tip, log := s.log + [TipRead(s.tip)])
  }

  function PassGates(cfg: Config, s: State): State {
    var next :=
      if cfg.dryRun then Done
      else if !ShouldSync(cfg) then Deploy
      else if PlansEarly(cfg) then Push else LatePin;
    s.(pc := next, log := s.log + [GatesOk(NeedsTest(cfg), NeedsProd(cfg))])
  }

  /** The push with a lease on the tip seen: no push when there was nothing to change. Git
      accepts one that finds the commit already there, whatever the lease says, and otherwise
      refuses when the branch is not where it was. */
  function ApplyPush(s: State): State {
    if s.seen == At(s.commit) then s.(pc := Deploy)
    else if s.tip == At(s.commit) then s.(pc := Deploy, log := s.log + [UpToDate(s.commit)])
    else if s.tip != s.seen then s.(pc := Aborted)
    else s.(pc := Deploy, tip := At(s.commit), log := s.log + [Moved(s.tip, At(s.commit))])
  }

  /** Anybody else may move either branch anywhere at any time. */
  ghost predicate OtherStep(s: State, s': State) {
    s' == s.(tip := s'.tip, testing := s'.testing, log := s.log + [OtherPush(s.tip, s'.tip, s'.testing)])
  }

  ghost predicate IsRun(cfg: Config, run: seq<State>) {
    && run != [] && run[0] == Init(cfg, run[0].tip, run[0].testing)
    && forall k :: 0 <= k < |run| - 1 ==> OwnStep(cfg, run[k], run[k + 1]) || OtherStep(run[k], run[k + 1])
  }

  // ------------------------------------------------------------ reading the log

  /** The command's own events. */
  function Own(log: seq<Event>): seq<Event> {
    if log == [] then []
    else Own(log[..|log| - 1]) + if log[|log| - 1].OtherPush? then [] else [log[|log| - 1]]
  }

  /** Where the target branch is after the log. */
  function Replay(tip: Tip, log: seq<Event>): Tip {
    if log == [] then tip
    else match log[|log| - 1]
      case Moved(_, to) => to
      case OtherPush(_, to, _) => to
      case _ => Replay(tip, log[..|log| - 1])
  }

  /** Where the testing branch is after the log. */
  function ReplayTesting(testing: Tip, log: seq<Event>): Tip {
    if log == [] then testing
    else if log[|log| - 1].OtherPush? then log[|log| - 1].testing
    else ReplayTesting(testing, log[..|log| - 1])
  }

  /** Where the two branches were when the command began. */
  datatype Origin = Origin(tip: Tip, testing: Tip)

  /** The events of a promote before its ship. */
  function Prologue(cfg: Config, commit: nat): seq<Event> {
    if cfg.promote then [SourceRead(commit), BackupOk] else []
  }

  function GateEvent(cfg: Config): Event {
    GatesOk(NeedsTest(cfg), NeedsProd(cfg))
  }

  /** Everything up to the push, with the plan made for `commit` against the tip `seen`. */
  function BeforePush(cfg: Config, commit: nat, seen: Tip): seq<Event> {
    if !ShouldSync(cfg) then Prologue(cfg, commit) + [GateEvent(cfg)]
    else if PlansEarly(cfg) then Prologue(cfg, commit) + [Pinned(commit), TipRead(seen), GateEvent(cfg)]
    else Prologue(cfg, commit) + [GateEvent(cfg), Pinned(commit), TipRead(seen)]
  }

  /** What the push left in the log; `found` when the commit was already there. */
  function PushEvents(cfg: Config, commit: nat, seen: Tip, found: bool): seq<Event> {
    if !ShouldSync(cfg) || seen == At(commit) then []
    else if found then [UpToDate(commit)]
    else [Moved(seen, At(commit))]
  }

  function BeforeDeploy(cfg: Config, commit: nat, seen: Tip, found: bool): seq<Event> {
    BeforePush(cfg, commit, seen) + PushEvents(cfg, commit, seen, found)
  }

  ghost predicate DeployReady(cfg: Config, commit: nat, seen: Tip, own: seq<Event>) {
    exists found: bool :: own == BeforeDeploy(cfg, commit, seen, found)
  }

  predicate SourceMatches(cfg: Config, commit: nat) {
    !cfg.promote && cfg.source.Commit? ==> commit == cfg.source.commit
  }

  /** What must have happened before an event, for it to be in the log. */
  ghost predicate Justified(cfg: Config, start: Origin, before: seq<Event>, e: Event) {
    match e
    case SourceRead(commit) => ReplayTesting(start.testing, before) == At(commit) && Own(before) == []
    case TipRead(tip) => Replay(start.tip, before) == tip
    case Moved(from, to) =>
      && ShouldSync(cfg) && !cfg.dryRun && to.At? && from != to && SourceMatches(cfg, to.commit)
      && Own(before) == BeforePush(cfg, to.commit, from)
      && Replay(start.tip, before) == from
    case UpToDate(commit) =>
      && ShouldSync(cfg) && !cfg.dryRun && SourceMatches(cfg, commit)
      && Replay(start.tip, before) == At(commit)
      && exists seen: Tip :: seen != At(commit) && Own(before) == BeforePush(cfg, commit, seen)
    case Deployed(tip) =>
      && !cfg.dryRun && (cfg.skipGate || PolicyValid(cfg))
      && Replay(start.tip, before) == tip
      && exists commit: nat, seen: Tip :: SourceMatches(cfg, commit) && DeployReady(cfg, commit, seen, Own(before))
    case OtherPush(from, _, _) => Replay(start.tip, before) == from
    case _ => true
  }

  ghost predicate LogJustified(cfg: Config, start: Origin, log: seq<Event>) {
    forall k :: 0 <= k < |log| ==> Justified(cfg, start, log[..k], log[k])
  }

  // ------------------------------------------------------------ the invariant

  ghost predicate PcOk(cfg: Config, s: State) {
    var own := Own(s.log);
    match s.pc
    case ReadSource => cfg.promote && own == []
    case BackupGate => cfg.promote && own == [SourceRead(s.commit)]
    case Start => own == Prologue(cfg, s.commit)
    case PinSource => PlansEarly(cfg) && own == Prologue(cfg, s.commit)
    case ReadTarget =>
      PlansEarly(cfg) && SourceMatches(cfg, s.commit) && own == Prologue(cfg, s.commit) + [Pinned(s.commit)]
    case Gates =>
      if PlansEarly(cfg) then
        SourceMatches(cfg, s.commit) && own == Prologue(cfg, s.commit) + [Pinned(s.commit), TipRead(s.seen)]
      else own == Prologue(cfg, s.commit)
    case LatePin => IsLate(cfg) && own == Prologue(cfg, s.commit) + [GateEvent(cfg)]
    case LateRead =>
      IsLate(cfg) && SourceMatches(cfg, s.commit) && own == Prologue(cfg, s.commit) + [GateEvent(cfg), Pinned(s.commit)]
    case Push =>
      && ShouldSync(cfg) && GatesSettled(cfg) && SourceMatches(cfg, s.commit)
      && own == BeforePush(cfg, s.commit, s.seen)
    case Deploy =>
      && GatesSettled(cfg) && DeployReady(cfg, s.commit, s.seen, own)
      && (ShouldSync(cfg) ==> SourceMatches(cfg, s.commit))
    case Done => true
    case Aborted => forall k :: 0 <= k < |s.log| ==> !s.log[k].Deployed?
  }

  predicate IsLate(cfg: Config) {
    ShouldSync(cfg) && !PlansEarly(cfg) && GatesSettled(cfg)
  }

  predicate GatesSettled(cfg: Config) {
    !cfg.dryRun && (cfg.skipGate || PolicyValid(cfg))
  }

  ghost predicate NoDeployYet(s: State) {
    !s.pc.Done? ==> forall k :: 0 <= k < |s.log| ==> !s.log[k].Deployed?
  }

  ghost predicate Inv(cfg: Config, start: Origin, s: State) {
    && Replay(start.tip, s.log) == s.tip && ReplayTesting(start.testing, s.log) == s.testing
    && LogJustified(cfg, start, s.log)
    && PcOk(cfg, s)
    && NoDeployYet(s)
  }

  lemma Appended(cfg: Config, start: Origin, log: seq<Event>, e: Event)
    requires LogJustified(cfg, start, log) && Justified(cfg, start, log, e)
    ensures LogJustified(cfg, start, log + [e])
    ensures Own(log + [e]) == Own(log) + if e.OtherPush? then [] else [e]
    ensures Replay(start.tip, log + [e]) ==
      match e case Moved(_, to) => to case OtherPush(_, to, _) => to case _ => Replay(start.tip, log)
    ensures ReplayTesting(start.testing, log + [e]) ==
      if e.OtherPush? then e.testing else ReplayTesting(start.testing, log)
  {
    assert (log + [e])[..|log|] == log;
    forall k | 0 <= k < |log| ensures Justified(cfg, start, (log + [e])[..k], (log + [e])[k]) {
      assert (log + [e])[..k] == log[..k];
    }
  }

  lemma InvInit(cfg: Config, tip: Tip, testing: Tip)
    ensures Inv(cfg, Origin(tip, testing), Init(cfg, tip, testing))
  {}

  lemma OtherStepInv(cfg: Config, start: Origin, s: State, s': State)
    requires Inv(cfg, start, s) && OtherStep(s, s')
    ensures Inv(cfg, start, s')
  {
    var e := OtherPush(s.tip, s'.tip, s'.testing);
    Appended(cfg, start, s.log, e);
    OtherStepPcOk(cfg, s, s', e);
  }

  lemma OtherStepPcOk(cfg: Config, s: State, s': State, e: Event)
    requires PcOk(cfg, s) && NoDeployYet(s) && e.OtherPush?
    requires s'.log == s.log + [e] && Own(s'.log) == Own(s.log)
    requires s'.pc == s.pc && s'.commit == s.commit && s'.seen == s.seen
    ensures PcOk(cfg, s') && NoDeployYet(s')
  {}

  lemma OwnStepInv(cfg: Config, start: Origin, s: State, s': State)
    requires WellFormed(cfg) && Inv(cfg, start, s) && OwnStep(cfg, s, s')
    ensures Inv(cfg, start, s')
  {
    if s'.log == s.log {
      QuietStepInv(cfg, start, s, s');
    } else {
      var e := OneEvent(cfg, s, s');
      LoudStepInv(cfg, start, s, s', e);
    }
  }

  lemma OneEvent(cfg: Config, s: State, s': State) returns (e: Event)
    requires OwnStep(cfg, s, s') && s'.log != s.log
    ensures s'.log == s.log + [e]
  {
    e := s'.log[|s'.log| - 1];
  }

  lemma LoudStepInv(cfg: Config, start: Origin, s: State, s': State, e: Event)
    requires WellFormed(cfg) && Inv(cfg, start, s) && OwnStep(cfg, s, s') && s'.log == s.log + [e]
    ensures Inv(cfg, start, s')
  {
    EventJustified(cfg, start, s, s', e);
    Appended(cfg, start, s.log, e);
    EventStepInv(cfg, start, s, s', e);
  }

  lemma QuietStepInv(cfg: Config, start: Origin, s: State, s': State)
    requires WellFormed(cfg) && Inv(cfg, start, s) && OwnStep(cfg, s, s') && s'.log == s.log
    ensures Inv(cfg, start, s')
  {
    assert |s.log + [GateEvent(cfg)]| > |s.log|;
    if s.pc.Push? && s'.pc.Deploy? {
      assert BeforeDeploy(cfg, s.commit, s.seen, false) == BeforePush(cfg, s.commit, s.seen);
    }
  }

  lemma EventJustified(cfg: Config, start: Origin, s: State, s': State, e: Event)
    requires WellFormed(cfg) && Inv(cfg, start, s) && OwnStep(cfg, s, s') && s'.log == s.log + [e]
    ensures Justified(cfg, start, s.log, e) && !e.OtherPush?
  {
    assert s'.log[|s.log|] == e;
    if e.Deployed? {
      DeployJustified(cfg, start, s);
    }
  }

  lemma DeployJustified(cfg: Config, start: Origin, s: State)
    requires WellFormed(cfg) && Inv(cfg, start, s) && s.pc.Deploy?
    ensures Justified(cfg, start, s.log, Deployed(s.tip))
  {
    var commit := if ShouldSync(cfg) || cfg.promote || cfg.source.Reference? then s.commit else cfg.source.commit;
    var found: bool :| Own(s.log) == BeforeDeploy(cfg, s.commit, s.seen, found);
    assert BeforeDeploy(cfg, commit, s.seen, found) == BeforeDeploy(cfg, s.commit, s.seen, found);
    assert SourceMatches(cfg, commit) && DeployReady(cfg, commit, s.seen, Own(s.log));
  }

  lemma EventStepInv(cfg: Config, start: Origin, s: State, s': State, e: Event)
    requires WellFormed(cfg) && Inv(cfg, start, s) && OwnStep(cfg, s, s') && s'.log == s.log + [e]
    requires LogJustified(cfg, start, s'.log) && Own(s'.log) == Own(s.log) + [e]
    requires Replay(start.tip, s'.log) == if e.Moved? then e.to else Replay(start.tip, s.log)
    requires ReplayTesting(start.testing, s'.log) == ReplayTesting(start.testing, s.log)
    ensures Inv(cfg, start, s')
  {
    assert s'.log[|s.log|] == e;
    if s.pc.Push? {
      PushPcOk(cfg, start, s, s', e);
    } else if s.pc.Gates? || s.pc.Deploy? {
      LaterPcOk(cfg, start, s, s', e);
    } else if s.pc.ReadSource? || s.pc.BackupGate? {
      ProloguePcOk(cfg, start, s, s', e);
    } else if s.pc.PinSource? || s.pc.ReadTarget? {
      PlanPcOk(cfg, start, s, s', e);
    } else {
      LatePlanPcOk(cfg, start, s, s', e);
    }
  }

  lemma ProloguePcOk(cfg: Config, start: Origin, s: State, s': State, e: Event)
    requires WellFormed(cfg) && Inv(cfg, start, s) && OwnStep(cfg, s, s') && s'.log == s.log + [e]
    requires Own(s'.log) == Own(s.log) + [e] && s'.log[|s.log|] == e
    requires s.pc.ReadSource? || s.pc.BackupGate?
    ensures PcOk(cfg, s') && NoDeployYet(s') && !e.Moved? && s'.tip == s.tip && s'.testing == s.testing
  {}

  lemma PlanPcOk(cfg: Config, start: Origin, s: State, s': State, e: Event)
    requires WellFormed(cfg) && Inv(cfg, start, s) && OwnStep(cfg, s, s') && s'.log == s.log + [e]
    requires Own(s'.log) == Own(s.log) + [e] && s'.log[|s.log|] == e
    requires s.pc.PinSource? || s.pc.ReadTarget?
    ensures PcOk(cfg, s') && NoDeployYet(s') && !e.Moved? && s'.tip == s.tip && s'.testing == s.testing
  {}

  lemma LatePlanPcOk(cfg: Config, start: Origin, s: State, s': State, e: Event)
    requires WellFormed(cfg) && Inv(cfg, start, s) && OwnStep(cfg, s, s') && s'.log == s.log + [e]
    requires Own(s'.log) == Own(s.log) + [e] && s'.log[|s.log|] == e
    requires s.pc.LatePin? || s.pc.LateRead?
    ensures PcOk(cfg, s') && NoDeployYet(s') && !e.Moved? && s'.tip == s.tip && s'.testing == s.testing
  {}

  lemma LaterPcOk(cfg: Config, start: Origin, s: State, s': State, e: Event)
    requires WellFormed(cfg) && Inv(cfg, start, s) && OwnStep(cfg, s, s') && s'.log == s.log + [e]
    requires Own(s'.log) == Own(s.log) + [e] && s'.log[|s.log|] == e
    requires s.pc.Gates? || s.pc.Deploy?
    ensures PcOk(cfg, s') && NoDeployYet(s') && !e.Moved? && s'.tip == s.tip && s'.testing == s.testing
  {
    if s.pc.Gates? {
      UnsyncedIsReady(cfg, s.commit, s.seen);
      GatesPcOk(cfg, start, s, s', e);
    }
  }

  lemma UnsyncedIsReady(cfg: Config, commit: nat, seen: Tip)
    ensures ShouldSync(cfg) || DeployReady(cfg, commit, seen, BeforePush(cfg, commit, seen))
  {
    assert ShouldSync(cfg) || BeforeDeploy(cfg, commit, seen, false) == BeforePush(cfg, commit, seen);
  }

  lemma GatesPcOk(cfg: Config, start: Origin, s: State, s': State, e: Event)
    requires WellFormed(cfg) && Inv(cfg, start, s) && OwnStep(cfg, s, s') && s'.log == s.log + [e]
    requires Own(s'.log) == Own(s.log) + [e] && s'.log[|s.log|] == e && s.pc.Gates?
    requires ShouldSync(cfg) || DeployReady(cfg, s.commit, s.seen, BeforePush(cfg, s.commit, s.seen))
    ensures PcOk(cfg, s') && NoDeployYet(s')
  {}

  lemma PushPcOk(cfg: Config, start: Origin, s: State, s': State, e: Event)
    requires WellFormed(cfg) && Inv(cfg, start, s) && OwnStep(cfg, s, s') && s'.log == s.log + [e]
    requires Own(s'.log) == Own(s.log) + [e] && s'.log[|s.log|] == e
    requires s.pc.Push?
    ensures PcOk(cfg, s') && NoDeployYet(s') && s'.tip == (if e.Moved? then e.to else s.tip) && s'.testing == s.testing
  {
    PushedIsReady(cfg, s, e);
  }

  /** What a push step logs completes the events before a deployment. */
  lemma PushedIsReady(cfg: Config, s: State, e: Event)
    requires ShouldSync(cfg) && s.seen != At(s.commit) && (e == UpToDate(s.commit) || e == Moved(s.seen, At(s.commit)))
    ensures DeployReady(cfg, s.commit, s.seen, BeforePush(cfg, s.commit, s.seen) + [e])
  {
    assert PushEvents(cfg, s.commit, s.seen, e.UpToDate?) == [e];
    assert BeforeDeploy(cfg, s.commit, s.seen, e.UpToDate?) == BeforePush(cfg, s.commit, s.seen) + [e];
  }

  lemma {:induction false} InvHolds(cfg: Config, run: seq<State>, k: nat)
    requires WellFormed(cfg) && IsRun(cfg, run) && k < |run|
    ensures Inv(cfg, OriginOf(run), run[k])
  {
    if k == 0 {
      InvInit(cfg, run[0].tip, run[0].testing);
    } else {
      InvHolds(cfg, run, k - 1);
      assert OwnStep(cfg, run[k - 1], run[k - 1 + 1]) || OtherStep(run[k - 1], run[k - 1 + 1]);
      if OwnStep(cfg, run[k - 1], run[k]) {
        OwnStepInv(cfg, OriginOf(run), run[k - 1], run[k]);
      } else {
        OtherStepInv(cfg, OriginOf(run), run[k - 1], run[k]);
      }
    }
  }

  function OriginOf(run: seq<State>): Origin
    requires run != []
  {
    Origin(run[0].tip, run[0].testing)
  }

  /** Every event of every run has what it needs before it. */
  lemma JustifiedAt(cfg: Config, run: seq<State>, k: nat, i: nat)
    requires WellFormed(cfg) && IsRun(cfg, run) && k < |run| && i < |run[k].log|
    ensures Justified(cfg, OriginOf(run), run[k].log[..i], run[k].log[i])
  {
    InvHolds(cfg, run, k);
  }

  // ------------------------------------------------------------ the theorems

  /** With git metadata the command moves the branch from exactly the tip it saw to exactly
      the commit it pinned, both before the gates, which have passed; and the branch is still
      at that tip. */
  lemma MovesFromSeenToPinned(cfg: Config, run: seq<State>, k: nat, i: nat)
    requires WellFormed(cfg) && IsRun(cfg, run) && k < |run| && cfg.hasGitMetadata
    requires i < |run[k].log| && run[k].log[i].Moved?
    ensures
      var log, before, move := run[k].log, run[k].log[..i], run[k].log[i];
      && move.to.At? && move.from != move.to && SourceMatches(cfg, move.to.commit)
      && Replay(run[0].tip, before) == move.from
      && Own(before) == Prologue(cfg, move.to.commit) + [Pinned(move.to.commit), TipRead(move.from), GateEvent(cfg)]
  {
    JustifiedAt(cfg, run, k, i);
  }

  /** Without git metadata a command with an explicit source gets no further than its start. */
  ghost predicate Stuck(s: State) {
    && (s.pc.ReadSource? || s.pc.BackupGate? || s.pc.Start? || s.pc.Aborted?)
    && forall i :: 0 <= i < |s.log| ==> !s.log[i].Moved?
  }

  lemma {:induction false} NeedsMetadata(cfg: Config, run: seq<State>, k: nat)
    requires IsRun(cfg, run) && k < |run|
    requires ShouldSync(cfg) && !cfg.dryRun && cfg.explicitSource && !cfg.hasGitMetadata
    ensures Stuck(run[k])
  {
    if k > 0 {
      NeedsMetadata(cfg, run, k - 1);
      assert OwnStep(cfg, run[k - 1], run[k - 1 + 1]) || OtherStep(run[k - 1], run[k - 1 + 1]);
    }
  }

  /** A promote ships the commit the testing branch was at when it was read, after the backup gate. */
  lemma PromoteShipsTestedCommit(cfg: Config, run: seq<State>, k: nat, i: nat) returns (r: nat)
    requires WellFormed(cfg) && IsRun(cfg, run) && k < |run| && cfg.promote
    requires i < |run[k].log| && run[k].log[i].Moved?
    ensures run[k].log[i].to.At?
    ensures
      var log, commit := run[k].log, run[k].log[i].to.commit;
      && r < i && log[r] == SourceRead(commit) && ReplayTesting(run[0].testing, log[..r]) == At(commit)
      && Own(log[..i]) == [SourceRead(commit), BackupOk, Pinned(commit), TipRead(log[i].from), GatesOk(false, false)]
  {
    var log := run[k].log;
    JustifiedAt(cfg, run, k, i);
    if !cfg.hasGitMetadata {
      NeedsMetadata(cfg, run, k);
    }
    MovesFromSeenToPinned(cfg, run, k, i);
    assert Own(log[..i])[0] == SourceRead(log[i].to.commit);
    r := OwnAt(log[..i], SourceRead(log[i].to.commit));
    JustifiedAt(cfg, run, k, r);
  }

  lemma {:induction false} OwnAt(log: seq<Event>, e: Event) returns (j: nat)
    requires e in Own(log)
    ensures j < |log| && log[j] == e
  {
    var last := |log| - 1;
    if log[last] == e {
      j := last;
    } else {
      j := OwnAt(log[..last], e);
    }
  }

  /** Own events after an abort: none, so no move and no deployment either. */
  lemma {:induction false} StaysAborted(cfg: Config, run: seq<State>, k: nat, l: nat)
    requires IsRun(cfg, run) && k <= l < |run| && run[k].pc.Aborted?
    ensures run[l].pc.Aborted? && Own(run[l].log) == Own(run[k].log)
  {
    if k < l {
      StaysAborted(cfg, run, k, l - 1);
      var s, s' := run[l - 1], run[l - 1 + 1];
      assert OwnStep(cfg, s, s') || OtherStep(s, s');
      assert s'.log[..|s'.log| - 1] == s.log;
    }
  }

  /** A command that aborted has not deployed and never will. */
  lemma AbortedNeverDeploys(cfg: Config, run: seq<State>, k: nat, l: nat, i: nat)
    requires WellFormed(cfg) && IsRun(cfg, run) && k <= l < |run| && run[k].pc.Aborted?
    requires i < |run[l].log|
    ensures run[l].pc.Aborted? && !run[l].log[i].Deployed?
  {
    StaysAborted(cfg, run, k, l);
    InvHolds(cfg, run, l);
  }

  /** The command takes its push step, and the branch is neither where it was seen nor at the commit. */
  predicate LosesLease(s: State, s': State) {
    s.pc.Push? && !s'.pc.Push? && s.seen != At(s.commit) && s.tip != s.seen && s.tip != At(s.commit)
  }

  /** A push that meets another tip ends the command for good: however the run goes on, the
      command's own log stays what it was before the push, with no move and no deployment. */
  lemma LostLeaseNeverShips(cfg: Config, run: seq<State>, k: nat, l: nat, i: nat)
    requires WellFormed(cfg) && IsRun(cfg, run) && k < l < |run| && LosesLease(run[k], run[k + 1])
    requires i < |run[l].log|
    ensures Own(run[l].log) == BeforePush(cfg, run[k].commit, run[k].seen)
    ensures !run[l].log[i].Moved? && !run[l].log[i].Deployed?
  {
    assert OwnStep(cfg, run[k], run[k + 1]) || OtherStep(run[k], run[k + 1]);
    InvHolds(cfg, run, k);
    StaysAborted(cfg, run, k + 1, l);
    if !run[l].log[i].OtherPush? {
      OwnKeeps(run[l].log, i);
      PushComesFirst(cfg, run[k].commit, run[k].seen, false, run[l].log[i]);
    }
  }

  /** A deployment comes after every gate the policy asks for, and after the branch sync. */
  lemma DeployFollowsGatesAndSync(cfg: Config, run: seq<State>, k: nat, i: nat)
    returns (commit: nat, seen: Tip, found: bool)
    requires WellFormed(cfg) && IsRun(cfg, run) && k < |run|
    requires i < |run[k].log| && run[k].log[i].Deployed?
    ensures !cfg.dryRun && (cfg.skipGate || PolicyValid(cfg)) && SourceMatches(cfg, commit)
    ensures Own(run[k].log[..i]) == BeforeDeploy(cfg, commit, seen, found)
    ensures GatesOk(cfg.requireTestGate && !cfg.skipGate, cfg.requireProdGate && !cfg.skipGate) in run[k].log[..i]
  {
    var before := run[k].log[..i];
    JustifiedAt(cfg, run, k, i);
    commit, seen :| SourceMatches(cfg, commit) && DeployReady(cfg, commit, seen, Own(before));
    found :| Own(before) == BeforeDeploy(cfg, commit, seen, found);
    assert GateEvent(cfg) in BeforeDeploy(cfg, commit, seen, found);
    var g := OwnAt(before, GateEvent(cfg));
  }

  /** Whatever syncs the branch has pinned the commit before, and then brought the branch to it
      or found it there: this is every compose target, and every application with a branch. */
  lemma SyncedBeforeDeploy(cfg: Config, run: seq<State>, k: nat, i: nat) returns (commit: nat, p: nat, j: nat)
    requires WellFormed(cfg) && IsRun(cfg, run) && k < |run| && (cfg.target.Compose? || cfg.hasGitBranch)
    requires i < |run[k].log| && run[k].log[i].Deployed?
    ensures SourceMatches(cfg, commit) && p < i && run[k].log[p] == Pinned(commit)
    ensures j < i && IsSync(run[k].log[j], commit)
  {
    var seen, found;
    commit, seen, found := DeployFollowsGatesAndSync(cfg, run, k, i);
    SyncIsThere(cfg, commit, seen, found);
    p := OwnAt(run[k].log[..i], Pinned(commit));
    j := OwnAt(run[k].log[..i], SyncEvent(commit, seen, found));
  }

  /** An event of the branch sync. */
  predicate OfSync(e: Event) {
    e.Pinned? || e.TipRead? || e.Moved? || e.UpToDate?
  }

  /** An application without a branch is never synced. */
  lemma {:induction false} NeverSynced(cfg: Config, run: seq<State>, k: nat, i: nat)
    requires WellFormed(cfg) && IsRun(cfg, run) && k < |run| && i < |run[k].log|
    requires !cfg.target.Compose? && !cfg.hasGitBranch
    ensures
      var e := run[k].log[i];
      !e.Pinned? && !e.TipRead? && !e.Moved? && !e.UpToDate?
  {
    SyncFree(cfg, run, k);
  }

  lemma {:induction false} SyncFree(cfg: Config, run: seq<State>, k: nat)
    requires IsRun(cfg, run) && k < |run| && !cfg.target.Compose? && !cfg.hasGitBranch
    ensures !run[k].pc.PinSource? && !run[k].pc.ReadTarget? && !run[k].pc.LatePin? && !run[k].pc.LateRead?
    ensures !run[k].pc.Push? && forall i :: 0 <= i < |run[k].log| ==> !OfSync(run[k].log[i])
  {
    if k > 0 {
      SyncFree(cfg, run, k - 1);
      assert OwnStep(cfg, run[k - 1], run[k - 1 + 1]) || OtherStep(run[k - 1], run[k - 1 + 1]);
    }
  }

  /** The push step left something in the log. */
  predicate IsPush(e: Event) {
    e.Moved? || e.UpToDate?
  }

  /** One push, whatever it found, and one deployment at the most. */
  lemma AtMostOnce(cfg: Config, run: seq<State>, k: nat, i: nat, j: nat)
    requires WellFormed(cfg) && IsRun(cfg, run) && k < |run| && i < j < |run[k].log|
    ensures
      var first, second := run[k].log[i], run[k].log[j];
      && !((first.Moved? || first.UpToDate?) && (second.Moved? || second.UpToDate?))
      && !(first.Deployed? && second.Deployed?)
  {
    var before, e := run[k].log[..j], run[k].log[j];
    JustifiedAt(cfg, run, k, j);
    assert before[i] == run[k].log[i];
    if !before[i].OtherPush? {
      OwnKeeps(before, i);
      NothingTwice(cfg, OriginOf(run), before, e, before[i]);
    }
  }

  lemma NothingTwice(cfg: Config, start: Origin, before: seq<Event>, e: Event, earlier: Event)
    requires Justified(cfg, start, before, e) && earlier in Own(before)
    ensures !(IsPush(earlier) && IsPush(e)) && !(earlier.Deployed? && e.Deployed?)
  {
    if e.Moved? {
      PushComesFirst(cfg, e.to.commit, e.from, false, earlier);
    } else if e.UpToDate? {
      var seen: Tip :| seen != At(e.commit) && Own(before) == BeforePush(cfg, e.commit, seen);
      PushComesFirst(cfg, e.commit, seen, true, earlier);
    } else if e.Deployed? {
      var commit: nat, seen: Tip :| SourceMatches(cfg, commit) && DeployReady(cfg, commit, seen, Own(before));
      var found: bool :| Own(before) == BeforeDeploy(cfg, commit, seen, found);
      PushComesFirst(cfg, commit, seen, found, earlier);
    }
  }

  lemma PushComesFirst(cfg: Config, commit: nat, seen: Tip, found: bool, e: Event)
    ensures e in BeforePush(cfg, commit, seen) ==> !IsPush(e) && !e.Deployed?
    ensures e in BeforeDeploy(cfg, commit, seen, found) ==> !e.Deployed?
    ensures e in BeforeDeploy(cfg, commit, seen, found) && IsPush(e) ==> seen != At(commit)
  {}

  lemma {:induction false} OwnKeeps(log: seq<Event>, i: nat)
    requires i < |log| && !log[i].OtherPush?
    ensures log[i] in Own(log)
  {
    if i < |log| - 1 {
      OwnKeeps(log[..|log| - 1], i);
    }
  }

  // ------------------------------------------------------------ what the deployment picks up

  lemma {:induction false} ReplaySplit(tip: Tip, log: seq<Event>, j: nat)
    requires j <= |log|
    ensures Replay(tip, log) == Replay(Replay(tip, log[..j]), log[j..])
  {
    if j < |log| {
      var last := |log| - 1;
      ReplaySplit(tip, log[..last], j);
      assert log[..last][..j] == log[..j] && log[..last][j..] == log[j..][..last - j];
    } else {
      assert log[..j] == log && log[j..] == [];
    }
  }

  /** The event by which the branch is known to hold the commit. */
  predicate IsSync(e: Event, commit: nat) {
    e == TipRead(At(commit)) || e == UpToDate(commit) || (e.Moved? && e.to == At(commit))
  }

  function SyncEvent(commit: nat, seen: Tip, found: bool): Event {
    if seen == At(commit) then TipRead(seen) else if found then UpToDate(commit) else Moved(seen, At(commit))
  }

  lemma SyncIsThere(cfg: Config, commit: nat, seen: Tip, found: bool)
    requires ShouldSync(cfg)
    ensures SyncEvent(commit, seen, found) in BeforeDeploy(cfg, commit, seen, found)
    ensures Pinned(commit) in BeforeDeploy(cfg, commit, seen, found)
  {
    var own, before := BeforeDeploy(cfg, commit, seen, found), BeforePush(cfg, commit, seen);
    var plan := |Prologue(cfg, commit)|;
    assert before[if PlansEarly(cfg) then plan else plan + 1] == Pinned(commit);
    assert before[if PlansEarly(cfg) then plan + 1 else plan + 2] == TipRead(seen);
    assert own == before + PushEvents(cfg, commit, seen, found);
    assert seen != At(commit) ==> own[plan + 3] == SyncEvent(commit, seen, found);
  }

  lemma TipAtSync(cfg: Config, start: Origin, log: seq<Event>, j: nat, commit: nat)
    requires j < |log| && IsSync(log[j], commit) && Justified(cfg, start, log[..j], log[j])
    ensures Replay(start.tip, log[..j + 1]) == At(commit)
  {
    assert log[..j + 1][..j] == log[..j];
  }

  lemma TipSinceSync(tip: Tip, log: seq<Event>, j: nat, i: nat)
    requires j < i <= |log|
    ensures Replay(tip, log[..i]) == Replay(Replay(tip, log[..j + 1]), log[j + 1..i])
  {
    ReplaySplit(tip, log[..i], j + 1);
    assert log[..i][..j + 1] == log[..j + 1] && log[..i][j + 1..] == log[j + 1..i];
  }

  /** After the sync the command itself does not push again before it deploys. */
  lemma NoPushAfterSync(cfg: Config, run: seq<State>, k: nat, i: nat, j: nat, m: nat, commit: nat, seen: Tip,
      found: bool)
    requires WellFormed(cfg) && IsRun(cfg, run) && k < |run| && j < m < i < |run[k].log|
    requires Own(run[k].log[..i]) == BeforeDeploy(cfg, commit, seen, found)
    requires run[k].log[j] == SyncEvent(commit, seen, found)
    ensures !run[k].log[m].Moved?
  {
    var log := run[k].log;
    AtMostOnce(cfg, run, k, j, m);
    if log[m].Moved? {
      assert log[..i][m] == log[m];
      OwnKeeps(log[..i], m);
      PushComesFirst(cfg, commit, seen, found, log[m]);
    }
  }

  /** The deployed tip is the pinned commit as the pushes made after the sync left it. */
  lemma DeployedTip(cfg: Config, run: seq<State>, k: nat, i: nat) returns (commit: nat, j: nat)
    requires WellFormed(cfg) && IsRun(cfg, run) && k < |run| && ShouldSync(cfg)
    requires i < |run[k].log| && run[k].log[i].Deployed?
    ensures SourceMatches(cfg, commit) && Pinned(commit) in run[k].log[..i]
    ensures j < i && IsSync(run[k].log[j], commit)
    ensures run[k].log[i].tip == Replay(At(commit), run[k].log[j + 1..i])
    ensures forall m :: j < m < i ==> !run[k].log[m].Moved?
  {
    var log := run[k].log;
    var seen, found;
    commit, seen, found := DeployFollowsGatesAndSync(cfg, run, k, i);
    SyncIsThere(cfg, commit, seen, found);
    j := OwnAt(log[..i], SyncEvent(commit, seen, found));
    var p := OwnAt(log[..i], Pinned(commit));
    assert log[..i][j] == log[j];
    JustifiedAt(cfg, run, k, i);
    JustifiedAt(cfg, run, k, j);
    TipAtSync(cfg, OriginOf(run), log, j, commit);
    TipSinceSync(run[0].tip, log, j, i);
    forall m | j < m < i ensures !log[m].Moved? {
      NoPushAfterSync(cfg, run, k, i, j, m, commit, seen, found);
    }
  }

  /** The last push of somebody else, if there is one, left the branch at the commit. */
  ghost predicate LeftAt(log: seq<Event>, commit: nat) {
    forall m :: 0 <= m < |log| && log[m].OtherPush? && NoneLater(log, m) ==> log[m].to == At(commit)
  }

  ghost predicate NoneLater(log: seq<Event>, m: nat) {
    forall n :: m < n < |log| ==> !log[n].OtherPush?
  }

  lemma {:induction false} ReplayIsAtIff(log: seq<Event>, commit: nat)
    requires forall m :: 0 <= m < |log| ==> !log[m].Moved?
    ensures Replay(At(commit), log) == At(commit) <==> LeftAt(log, commit)
  {
    if log != [] {
      var last := |log| - 1;
      var before := log[..last];
      if log[last].OtherPush? {
        assert NoneLater(log, last);
      } else {
        ReplayIsAtIff(before, commit);
        LeftBefore(log, commit);
      }
    }
  }

  lemma LeftBefore(log: seq<Event>, commit: nat)
    requires log != [] && !log[|log| - 1].OtherPush?
    ensures LeftAt(log, commit) <==> LeftAt(log[..|log| - 1], commit)
  {
    var last := |log| - 1;
    var before := log[..last];
    forall m: nat | m < last ensures NoneLater(log, m) <==> NoneLater(before, m) {
      if NoneLater(log, m) {
        forall n | m < n < |before| ensures !before[n].OtherPush? {
          assert before[n] == log[n];
        }
      }
      if NoneLater(before, m) {
        forall n | m < n < |log| ensures !log[n].OtherPush? {
          assert n < last ==> before[n] == log[n];
        }
      }
    }
    if LeftAt(log, commit) {
      forall m | 0 <= m < |before| && before[m].OtherPush? && NoneLater(before, m) ensures before[m].to == At(commit) {
        assert log[m].OtherPush? && NoneLater(log, m);
      }
    }
    if LeftAt(before, commit) {
      forall m | 0 <= m < |log| && log[m].OtherPush? && NoneLater(log, m) ensures log[m].to == At(commit) {
        assert before[m].OtherPush? && NoneLater(before, m);
      }
    }
  }

  /** What is deployed is the pinned commit if and only if the last push by somebody else
      between the sync and the deployment, if any, left the branch there. */
  lemma DeployedIsPinnedIff(cfg: Config, run: seq<State>, k: nat, i: nat) returns (commit: nat, j: nat)
    requires WellFormed(cfg) && IsRun(cfg, run) && k < |run| && ShouldSync(cfg)
    requires i < |run[k].log| && run[k].log[i].Deployed?
    ensures SourceMatches(cfg, commit) && Pinned(commit) in run[k].log[..i]
    ensures j < i && IsSync(run[k].log[j], commit)
    ensures run[k].log[i].tip == At(commit) <==> LeftAt(run[k].log[j + 1..i], commit)
  {
    commit, j := DeployedTip(cfg, run, k, i);
    ReplayIsAtIff(run[k].log[j + 1..i], commit);
  }

  /** The pinned commit is not always what is deployed: a push right after the sync wins. */
  lemma DeployRace() returns (cfg: Config, run: seq<State>)
    ensures WellFormed(cfg) && IsRun(cfg, run)
    ensures
      var last := run[|run| - 1];
      last.pc.Done? && last.log == [Pinned(1), TipRead(At(0)), GatesOk(false, false), Moved(At(0), At(1)),
                                    OtherPush(At(1), At(2), Missing), Deployed(At(2))]
  {
    cfg := Config(false, Compose, Prod, true, Commit(1), true, true, false, true, false, false);
    var s0 := Init(cfg, At(0), Missing);
    var s1 := s0.(pc := PinSource);
    var s2 := State(ReadTarget, At(0), Missing, 1, Missing, [Pinned(1)]);
    var s3 := State(Gates, At(0), Missing, 1, At(0), s2.log + [TipRead(At(0))]);
    var s4 := s3.(pc := Push, log := s3.log + [GatesOk(false, false)]);
    var s5 := s4.(pc := Deploy, tip := At(1), log := s4.log + [Moved(At(0), At(1))]);
    var s6 := s5.(tip := At(2), log := s5.log + [OtherPush(At(1), At(2), Missing)]);
    var s7 := s6.(pc := Done, log := s6.log + [Deployed(At(2))]);
    assert OwnStep(cfg, s0, s1);
    assert OwnStep(cfg, s1, s2) by { assert Resolves(cfg, s1, 1) && s2 == Pin(s1, 1, ReadTarget); }
    assert OwnStep(cfg, s2, s3);
    assert OwnStep(cfg, s3, s4);
    assert OwnStep(cfg, s4, s5);
    assert OtherStep(s5, s6);
    assert OwnStep(cfg, s6, s7);
    run := [s0, s1, s2, s3, s4, s5, s6, s7];
  }
}
