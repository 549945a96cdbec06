/** Which ships can deploy at all, what a dry run leaves alone, and where a ship may fail: the
    counterpart of what `ShipProtocol` says every ship keeps. */
module ShipOutcomes {
  import opened ShipProtocol

  ghost predicate Deploys(run: seq<State>) {
    run != [] && exists e :: e in run[|run| - 1].log && e.Deployed?
  }

  /** What a command must be to deploy, in its own fields. */
  predicate CanDeploy(cfg: Config) {
    && !cfg.dryRun
    && (cfg.skipGate || !cfg.requireTestGate || cfg.instance.Testing?)
    && (cfg.skipGate || !cfg.requireProdGate || cfg.instance.Prod?)
    && (cfg.target.Compose? ==> cfg.hasGitBranch)
    && (cfg.hasGitBranch && cfg.explicitSource ==> cfg.hasGitMetadata)
  }

  // ------------------------------------------------------------ what never happens

  /** A dry run logs nothing of its own but gates and, in a promote, what comes before them. */
  ghost predicate Dry(s: State) {
    && s.pc in {ReadSource, BackupGate, Start, Gates, Done, Aborted}
    && forall i :: 0 <= i < |s.log| ==> !OfSync(s.log[i]) && !s.log[i].Deployed?
  }

  lemma {:induction false} DryStates(cfg: Config, run: seq<State>, k: nat)
    requires IsRun(cfg, run) && k < |run| && cfg.dryRun
    ensures Dry(run[k])
  {
    if k > 0 {
      DryStates(cfg, run, k - 1);
      assert OwnStep(cfg, run[k - 1], run[k - 1 + 1]) || OtherStep(run[k - 1], run[k - 1 + 1]);
    }
  }

  /** A dry run pins nothing, does not look at the branch, does not push and does not deploy. */
  lemma DryRunTouchesNothing(cfg: Config, run: seq<State>, k: nat, i: nat)
    requires IsRun(cfg, run) && k < |run| && cfg.dryRun && i < |run[k].log|
    ensures
      var e := run[k].log[i];
      !e.Pinned? && !e.TipRead? && !e.Moved? && !e.UpToDate? && !e.Deployed?
  {
    DryStates(cfg, run, k);
  }

  /** Without a branch nothing is ever pinned. */
  lemma {:induction false} PinsNeedBranch(cfg: Config, run: seq<State>, k: nat, i: nat)
    requires IsRun(cfg, run) && k < |run| && i < |run[k].log| && run[k].log[i].Pinned?
    ensures cfg.hasGitBranch
  {
    var s, s' := run[k - 1], run[k - 1 + 1];
    assert k > 0;
    assert OwnStep(cfg, s, s') || OtherStep(s, s');
    if i < |s.log| {
      assert s'.log[i] == s.log[i];
      PinsNeedBranch(cfg, run, k - 1, i);
    }
  }

  ghost predicate StuckAtStart(s: State) {
    && s.pc in {ReadSource, BackupGate, Start, Aborted}
    && forall i :: 0 <= i < |s.log| ==> !s.log[i].Deployed?
  }

  lemma {:induction false} StaysAtStart(cfg: Config, run: seq<State>, k: nat)
    requires IsRun(cfg, run) && k < |run|
    requires ShouldSync(cfg) && !cfg.dryRun && cfg.explicitSource && !cfg.hasGitMetadata
    ensures StuckAtStart(run[k])
  {
    if k > 0 {
      StaysAtStart(cfg, run, k - 1);
      assert OwnStep(cfg, run[k - 1], run[k - 1 + 1]) || OtherStep(run[k - 1], run[k - 1 + 1]);
    }
  }

  lemma OnlyThese(cfg: Config, run: seq<State>)
    requires WellFormed(cfg) && IsRun(cfg, run) && Deploys(run)
    ensures CanDeploy(cfg)
  {
    var k := |run| - 1;
    var e :| e in run[k].log && e.Deployed?;
    var i :| 0 <= i < |run[k].log| && run[k].log[i] == e;
    var commit, seen, found := DeployFollowsGatesAndSync(cfg, run, k, i);
    if cfg.target.Compose? || cfg.hasGitBranch {
      var c, p, j := SyncedBeforeDeploy(cfg, run, k, i);
      PinsNeedBranch(cfg, run, k, p);
      if cfg.explicitSource && !cfg.hasGitMetadata {
        StaysAtStart(cfg, run, k);
      }
    }
  }

  // ------------------------------------------------------------ what can happen

  /** A state that some run from these branch tips reaches. */
  ghost predicate Reached(cfg: Config, start: Origin, s: State) {
    exists run :: IsRun(cfg, run) && OriginOf(run) == start && run[|run| - 1] == s
  }

  lemma Begin(cfg: Config, start: Origin)
    ensures Reached(cfg, start, Init(cfg, start.tip, start.testing))
  {
    var run := [Init(cfg, start.tip, start.testing)];
    assert IsRun(cfg, run) && OriginOf(run) == start && run[|run| - 1] == run[0];
  }

  lemma Go(cfg: Config, start: Origin, s: State, s': State)
    requires Reached(cfg, start, s) && (OwnStep(cfg, s, s') || OtherStep(s, s'))
    ensures Reached(cfg, start, s')
  {
    var run :| IsRun(cfg, run) && OriginOf(run) == start && run[|run| - 1] == s;
    var longer := run + [s'];
    forall k | 0 <= k < |longer| - 1
      ensures OwnStep(cfg, longer[k], longer[k + 1]) || OtherStep(longer[k], longer[k + 1])
    {
      assert k < |run| - 1 ==> OwnStep(cfg, run[k], run[k + 1]) || OtherStep(run[k], run[k + 1]);
    }
    assert IsRun(cfg, longer) && OriginOf(longer) == start && longer[|longer| - 1] == s';
  }

  /** A promote gets through to its ship, once the testing branch has a commit. */
  lemma ToStart(cfg: Config, start: Origin) returns (s: State)
    ensures Reached(cfg, start, s) && s.pc == Start
  {
    Begin(cfg, start);
    s := Init(cfg, start.tip, start.testing);
    if cfg.promote {
      var s1 := s.(testing := At(0), log := s.log + [OtherPush(s.tip, s.tip, At(0))]);
      Go(cfg, start, s, s1);
      var s2 := ReadCommit(s1, 0);
      Go(cfg, start, s1, s2);
      s := s2.(pc := Start, log := s2.log + [BackupOk]);
      Go(cfg, start, s2, s);
    }
  }

  /** A commit the command may pin. */
  function Choice(cfg: Config, s: State): nat {
    if cfg.promote then s.commit else if cfg.source.Commit? then cfg.source.commit else 0
  }

  lemma PinAndRead(cfg: Config, start: Origin, s: State, middle: Pc, next: Pc) returns (s': State)
    requires Reached(cfg, start, s) && cfg.hasGitBranch
    requires (s.pc == PinSource && middle == ReadTarget && next == Gates) ||
      (s.pc == LatePin && middle == LateRead && next == Push)
    ensures Reached(cfg, start, s') && s'.pc == next && s'.seen == s'.tip
  {
    var pinned := Pin(s, Choice(cfg, s), middle);
    assert Resolves(cfg, s, Choice(cfg, s));
    assert OwnStep(cfg, s, pinned);
    Go(cfg, start, s, pinned);
    s' := Read(pinned, next);
    Go(cfg, start, pinned, s');
  }

  lemma ToGates(cfg: Config, start: Origin) returns (s: State)
    requires CanDeploy(cfg)
    ensures Reached(cfg, start, s) && s.pc == Gates && (PlansEarly(cfg) ==> s.seen == s.tip)
  {
    var s0 := ToStart(cfg, start);
    var s1 := s0.(pc := if PlansEarly(cfg) then PinSource else Gates);
    Go(cfg, start, s0, s1);
    s := s1;
    if PlansEarly(cfg) {
      s := PinAndRead(cfg, start, s1, ReadTarget, Gates);
    }
  }

  lemma ToDeploy(cfg: Config, start: Origin) returns (s: State)
    requires CanDeploy(cfg)
    ensures Reached(cfg, start, s) && s.pc == Deploy
  {
    var s0 := ToGates(cfg, start);
    s := PassGates(cfg, s0);
    Go(cfg, start, s0, s);
    if s.pc == LatePin {
      s := PinAndRead(cfg, start, s, LateRead, Push);
    }
    if s.pc == Push {
      var pushed := ApplyPush(s);
      Go(cfg, start, s, pushed);
      s := pushed;
    }
  }

  /** From any tips there is a run that deploys if and only if the command is no dry run, its
      gates fit its instance or are skipped, a compose target has a branch, and a branch to be
      synced from an explicit source comes with git metadata. */
  lemma DeployPossibleIff(cfg: Config, start: Origin)
    requires WellFormed(cfg)
    ensures (exists run :: IsRun(cfg, run) && OriginOf(run) == start && Deploys(run)) <==> CanDeploy(cfg)
  {
    if run :| IsRun(cfg, run) && OriginOf(run) == start && Deploys(run) {
      OnlyThese(cfg, run);
    }
    if CanDeploy(cfg) {
      var s := ToDeploy(cfg, start);
      var last := s.(pc := Done, log := s.log + [Deployed(s.tip)]);
      Go(cfg, start, s, last);
      var run :| IsRun(cfg, run) && OriginOf(run) == start && run[|run| - 1] == last;
      assert last.log[|s.log|] == Deployed(s.tip);
      assert Deploys(run);
    }
  }

  /** From any tips a dry run can come to its end if and only if its gates fit its instance or
      are skipped: it never asks for a branch or for git metadata. */
  lemma DryRunEndsIff(cfg: Config, start: Origin)
    requires WellFormed(cfg) && cfg.dryRun
    ensures (exists s :: Reached(cfg, start, s) && s.pc == Done) <==>
      cfg.skipGate || ((cfg.requireTestGate ==> cfg.instance.Testing?) && (cfg.requireProdGate ==> cfg.instance.Prod?))
  {
    if s :| Reached(cfg, start, s) && s.pc == Done {
      var run :| IsRun(cfg, run) && OriginOf(run) == start && run[|run| - 1] == s;
      DryPasses(cfg, run, |run| - 1);
    }
    if cfg.skipGate || PolicyValid(cfg) {
      var s0 := ToStart(cfg, start);
      var s1 := s0.(pc := Gates);
      Go(cfg, start, s0, s1);
      Go(cfg, start, s1, PassGates(cfg, s1));
    }
  }

  lemma {:induction false} DryPasses(cfg: Config, run: seq<State>, k: nat)
    requires IsRun(cfg, run) && k < |run| && cfg.dryRun
    ensures run[k].pc.Done? ==> cfg.skipGate || PolicyValid(cfg)
    ensures Dry(run[k])
  {
    DryStates(cfg, run, k);
    if k > 0 {
      DryPasses(cfg, run, k - 1);
      assert OwnStep(cfg, run[k - 1], run[k - 1 + 1]) || OtherStep(run[k - 1], run[k - 1 + 1]);
    }
  }

  // ------------------------------------------------------------ single steps

  /** A push can be accepted exactly when there is nothing to push, the branch is where it was
      seen, or it is at the commit already. */
  lemma PushAcceptedIff(cfg: Config, s: State)
    requires s.pc == Push
    ensures (exists s' :: OwnStep(cfg, s, s') && s'.pc == Deploy) <==>
      s.seen == At(s.commit) || s.tip == s.seen || s.tip == At(s.commit)
    ensures forall s' :: OwnStep(cfg, s, s') && s'.pc == Deploy && s.seen != At(s.commit) ==> s'.tip == At(s.commit)
  {
    assert OwnStep(cfg, s, ApplyPush(s));
  }

  /** What can be pinned: in a promote the commit it read, else the commit named, and whatever any
      other reference resolves to; and only with a branch. */
  lemma PinnedIff(cfg: Config, s: State, c: nat)
    requires s.pc == PinSource || s.pc == LatePin
    ensures (exists s' :: OwnStep(cfg, s, s') && s'.pc != Aborted && s'.commit == c) <==>
      && cfg.hasGitBranch
      && (if cfg.promote then c == s.commit else cfg.source == Commit(c) || cfg.source.Reference?)
  {
    var next := if s.pc == PinSource then ReadTarget else LateRead;
    if Resolves(cfg, s, c) && cfg.hasGitBranch {
      assert OwnStep(cfg, s, Pin(s, c, next));
    }
  }

  /** Every effect may fail, a push even after the remote took it. */
  lemma EffectsMayFail(cfg: Config, s: State)
    requires s.pc in {ReadSource, BackupGate, PinSource, ReadTarget, Gates, LatePin, LateRead, Push, Deploy}
    ensures OwnStep(cfg, s, s.(pc := Aborted))
    ensures s.pc == Push && s.tip == s.seen != At(s.commit) ==>
      OwnStep(cfg, s, s.(pc := Aborted, tip := At(s.commit), log := s.log + [Moved(s.tip, At(s.commit))]))
  {}
}
