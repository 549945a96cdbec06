/** From shard results to an exit code: `_classify_outcome` in tools/testkit/executor.py and
    `_aggregate_futures`, `run` and `_finish` in tools/testkit/session.py. */
module RunOutcome {
  import opened Wrappers

  /** What one shard's process left behind; a counter that is missing is zero. */
  datatype Runtime = Runtime(returncode: int, testsRun: int, failures: int, errors: int,
                             defaultDatabaseTarget: bool, processError: bool, timedOut: bool)

  datatype Shard = Shard(runtime: Runtime, expectedTests: nat)

  datatype Kind = Success | TestFailure | InfraFailure | HarnessFailure

  datatype Reason = DefaultDatabaseTarget | MissingExpectedTests | ProcessError | TimedOut
                  | ReportedTestFailures | NonzeroExitWithTests | NonzeroExitWithoutTestCounters

  datatype Verdict = Verdict(kind: Kind, reasons: seq<Reason>, success: bool, returncode: int, missingTests: nat)

  // ------------------------------------------------------------ one shard

  /** Whether a reason applies to a shard. */
  predicate Applies(r: Reason, shard: Shard) {
    var t := shard.runtime;
    match r
    case DefaultDatabaseTarget => t.defaultDatabaseTarget
    case MissingExpectedTests => shard.expectedTests > 0 && t.testsRun == 0
    case ProcessError => t.processError
    case TimedOut => t.timedOut
    case ReportedTestFailures => t.failures != 0 || t.errors != 0
    case NonzeroExitWithTests => t.failures == 0 && t.errors == 0 && t.returncode != 0 && t.testsRun > 0
    case NonzeroExitWithoutTestCounters => t.failures == 0 && t.errors == 0 && t.returncode != 0 && t.testsRun <= 0
  }

  /** The kind of failure a reason stands for. */
  function KindOf(r: Reason): Kind {
    match r
    case DefaultDatabaseTarget | MissingExpectedTests => HarnessFailure
    case ReportedTestFailures | NonzeroExitWithTests => TestFailure
    case _ => InfraFailure
  }

  ghost predicate Any(kind: Kind, shard: Shard) {
    exists r :: KindOf(r) == kind && Applies(r, shard)
  }

  function Listed(r: Reason, shard: Shard): seq<Reason> {
    if Applies(r, shard) then [r] else []
  }

  function HarnessReasons(shard: Shard): seq<Reason> {
    Listed(DefaultDatabaseTarget, shard) + Listed(MissingExpectedTests, shard)
  }

  function TestReasons(shard: Shard): seq<Reason> {
    Listed(ReportedTestFailures, shard) + Listed(NonzeroExitWithTests, shard)
  }

  function InfraReasons(shard: Shard): seq<Reason> {
    Listed(ProcessError, shard) + Listed(TimedOut, shard) + Listed(NonzeroExitWithoutTestCounters, shard)
  }

  /** Every reason that applies is listed, harness before tests before infrastructure, and the
      first of these kinds that occurs decides. */
  ghost predicate IsVerdict(v: Verdict, shard: Shard) {
    && v.reasons == HarnessReasons(shard) + TestReasons(shard) + InfraReasons(shard)
    && (v.kind.HarnessFailure? <==> Any(HarnessFailure, shard))
    && (v.kind.TestFailure? <==> Any(TestFailure, shard) && !Any(HarnessFailure, shard))
    && (v.kind.InfraFailure? <==> Any(InfraFailure, shard) && !Any(TestFailure, shard) && !Any(HarnessFailure, shard))
    && v.success == v.kind.Success?
    && v.returncode == (if !v.kind.Success? && shard.runtime.returncode == 0 then 1 else shard.runtime.returncode)
    && v.missingTests == if Applies(MissingExpectedTests, shard) then shard.expectedTests else 0
  }

  /** A shard that succeeded: it exited with 0, reported no failure, was not cut short, ran
      against its own database, and ran tests if it had any. */
  predicate Succeeds(shard: Shard) {
    var t := shard.runtime;
    && t.returncode == 0 && t.failures == 0 && t.errors == 0
    && !t.defaultDatabaseTarget && !t.processError && !t.timedOut
    && (shard.expectedTests > 0 ==> t.testsRun != 0)
  }

  /** The return code of a shard. */
  function Code(shard: Shard): int {
    if !Succeeds(shard) && shard.runtime.returncode == 0 then 1 else shard.runtime.returncode
  }

  method FindHarnessReasons(shard: Shard) returns (reasons: seq<Reason>, missing: nat)
    ensures reasons == HarnessReasons(shard)
    ensures missing == if Applies(MissingExpectedTests, shard) then shard.expectedTests else 0
  {
    reasons := [];
    missing := if shard.expectedTests > 0 && shard.runtime.testsRun == 0 then shard.expectedTests else 0;
    if shard.runtime.defaultDatabaseTarget {
      reasons := reasons + [DefaultDatabaseTarget];
    }
    if missing != 0 {
      reasons := reasons + [MissingExpectedTests];
    }
  }

  method FindOtherReasons(shard: Shard) returns (test: seq<Reason>, infra: seq<Reason>)
    ensures test == TestReasons(shard) && infra == InfraReasons(shard)
  {
    var t := shard.runtime;
    test, infra := [], [];
    if t.processError {
      infra := infra + [ProcessError];
    }
    if t.timedOut {
      infra := infra + [TimedOut];
    }
    if t.failures != 0 || t.errors != 0 {
      test := test + [ReportedTestFailures];
    } else if t.returncode != 0 && t.testsRun > 0 {
      test := test + [NonzeroExitWithTests];
    } else if t.returncode != 0 {
      infra := infra + [NonzeroExitWithoutTestCounters];
    }
  }

  /** `_classify_outcome`. */
  method Classify(shard: Shard) returns (v: Verdict)
    ensures IsVerdict(v, shard)
    ensures v.success <==> Succeeds(shard)
    ensures v.returncode == Code(shard)
  {
    var harness, missing := FindHarnessReasons(shard);
    var test, infra := FindOtherReasons(shard);
    AnyIsListed(shard);
    var kind := if harness != [] then HarnessFailure else if test != [] then TestFailure
      else if infra != [] then InfraFailure else Kind.Success;
    var code := shard.runtime.returncode;
    if !kind.Success? && code == 0 {
      code := 1;
    }
    v := Verdict(kind, harness + test + infra, kind.Success?, code, missing);
    VerdictMeansSuccess(v, shard);
  }

  lemma AnyIsListed(shard: Shard)
    ensures Any(HarnessFailure, shard) <==> HarnessReasons(shard) != []
    ensures Any(TestFailure, shard) <==> TestReasons(shard) != []
    ensures Any(InfraFailure, shard) <==> InfraReasons(shard) != []
  {
    AnyIffListed(HarnessFailure, shard, HarnessReasons(shard));
    AnyIffListed(TestFailure, shard, TestReasons(shard));
    AnyIffListed(InfraFailure, shard, InfraReasons(shard));
  }

  lemma AnyIffListed(kind: Kind, shard: Shard, reasons: seq<Reason>)
    requires forall r :: r in reasons <==> Applies(r, shard) && KindOf(r) == kind
    ensures Any(kind, shard) <==> reasons != []
  {
    if reasons != [] {
      assert reasons[0] in reasons;
    }
  }

  /** The kinds in terms of what the process left behind. */
  lemma KindIff(v: Verdict, shard: Shard)
    requires IsVerdict(v, shard)
    ensures
      var t := shard.runtime;
      var harness := t.defaultDatabaseTarget || (shard.expectedTests > 0 && t.testsRun == 0);
      var test := t.failures != 0 || t.errors != 0 || (t.returncode != 0 && t.testsRun > 0);
      var infra := t.processError || t.timedOut || t.returncode != 0;
      && (v.kind.HarnessFailure? <==> harness)
      && (v.kind.TestFailure? <==> !harness && test)
      && (v.kind.InfraFailure? <==> !harness && !test && infra)
  {
    AnyIsListed(shard);
  }

  lemma InParts(r: Reason, a: seq<Reason>, b: seq<Reason>)
    ensures r in a + b <==> r in a || r in b
  {}

  lemma ReasonListed(v: Verdict, shard: Shard, r: Reason)
    requires IsVerdict(v, shard)
    ensures r in v.reasons <==> Applies(r, shard)
  {
    InParts(r, HarnessReasons(shard) + TestReasons(shard), InfraReasons(shard));
    InParts(r, HarnessReasons(shard), TestReasons(shard));
    InParts(r, Listed(DefaultDatabaseTarget, shard), Listed(MissingExpectedTests, shard));
    InParts(r, Listed(ReportedTestFailures, shard), Listed(NonzeroExitWithTests, shard));
    InParts(r, Listed(ProcessError, shard) + Listed(TimedOut, shard), Listed(NonzeroExitWithoutTestCounters, shard));
    InParts(r, Listed(ProcessError, shard), Listed(TimedOut, shard));
  }

  /** Each reason is listed exactly when what it says is so. */
  lemma ReasonsIff(v: Verdict, shard: Shard)
    requires IsVerdict(v, shard)
    ensures
      var t := shard.runtime;
      var plain := t.failures == 0 && t.errors == 0;
      && (DefaultDatabaseTarget in v.reasons <==> t.defaultDatabaseTarget)
      && (MissingExpectedTests in v.reasons <==> shard.expectedTests > 0 && t.testsRun == 0)
      && (ReportedTestFailures in v.reasons <==> !plain)
      && (NonzeroExitWithTests in v.reasons <==> plain && t.returncode != 0 && t.testsRun > 0)
      && (ProcessError in v.reasons <==> t.processError)
      && (TimedOut in v.reasons <==> t.timedOut)
      && (NonzeroExitWithoutTestCounters in v.reasons <==> plain && t.returncode != 0 && t.testsRun <= 0)
  {
    forall r: Reason ensures r in v.reasons <==> Applies(r, shard) {
      ReasonListed(v, shard, r);
    }
  }

  /** The order the reasons are listed in. */
  function Place(r: Reason): nat {
    match r
    case DefaultDatabaseTarget => 0
    case MissingExpectedTests => 1
    case ReportedTestFailures => 2
    case NonzeroExitWithTests => 3
    case ProcessError => 4
    case TimedOut => 5
    case NonzeroExitWithoutTestCounters => 6
  }

  ghost predicate InOrder(reasons: seq<Reason>, from: nat, to: nat) {
    && (forall i :: 0 <= i < |reasons| ==> from <= Place(reasons[i]) < to)
    && forall i, j :: 0 <= i < j < |reasons| ==> Place(reasons[i]) < Place(reasons[j])
  }

  lemma OrderJoins(a: seq<Reason>, b: seq<Reason>, from: nat, middle: nat, to: nat)
    requires from <= middle <= to && InOrder(a, from, middle) && InOrder(b, middle, to)
    ensures InOrder(a + b, from, to)
  {}

  lemma HarnessInOrder(shard: Shard)
    ensures InOrder(HarnessReasons(shard), 0, 2)
  {
    OrderJoins(Listed(DefaultDatabaseTarget, shard), Listed(MissingExpectedTests, shard), 0, 1, 2);
  }

  lemma TestInOrder(shard: Shard)
    ensures InOrder(TestReasons(shard), 2, 4)
  {
    OrderJoins(Listed(ReportedTestFailures, shard), Listed(NonzeroExitWithTests, shard), 2, 3, 4);
  }

  lemma InfraInOrder(shard: Shard)
    ensures InOrder(InfraReasons(shard), 4, 7)
  {
    OrderJoins(Listed(ProcessError, shard), Listed(TimedOut, shard), 4, 5, 6);
    OrderJoins(Listed(ProcessError, shard) + Listed(TimedOut, shard), Listed(NonzeroExitWithoutTestCounters, shard),
               4, 6, 7);
  }

  /** Harness reasons are listed before test reasons and these before the infrastructure's, each
      once and in a fixed order. */
  lemma ReasonsInOrder(v: Verdict, shard: Shard)
    requires IsVerdict(v, shard)
    ensures InOrder(v.reasons, 0, 7)
  {
    HarnessInOrder(shard);
    TestInOrder(shard);
    InfraInOrder(shard);
    OrderJoins(HarnessReasons(shard), TestReasons(shard), 0, 2, 4);
    OrderJoins(HarnessReasons(shard) + TestReasons(shard), InfraReasons(shard), 0, 4, 7);
  }

  /** The code is the process's own, except that a failure never exits with 0; the tests missing
      are all that were expected when none ran. */
  lemma CodeAndMissing(v: Verdict, shard: Shard)
    requires IsVerdict(v, shard)
    ensures
      var t := shard.runtime;
      && (t.returncode != 0 ==> v.returncode == t.returncode)
      && (t.returncode == 0 ==> v.returncode == if v.success then 0 else 1)
      && (t.testsRun == 0 ==> v.missingTests == shard.expectedTests)
      && (t.testsRun != 0 ==> v.missingTests == 0)
  {}

  /** A verdict is a success, and its code zero, exactly for a shard that succeeded. */
  lemma VerdictMeansSuccess(v: Verdict, shard: Shard)
    requires IsVerdict(v, shard)
    ensures v.success <==> Succeeds(shard)
    ensures v.returncode == Code(shard) && (v.returncode == 0 <==> v.success)
  {
    SucceedsIff(shard);
    assert v.success <==> !Any(HarnessFailure, shard) && !Any(TestFailure, shard) && !Any(InfraFailure, shard);
  }

  /** No reason applies exactly to the shards that succeeded. */
  lemma SucceedsIff(shard: Shard)
    ensures Succeeds(shard) <==> !Any(HarnessFailure, shard) && !Any(TestFailure, shard) && !Any(InfraFailure, shard)
  {
    if !Succeeds(shard) {
      var t := shard.runtime;
      var r :=
        if t.defaultDatabaseTarget then DefaultDatabaseTarget
        else if shard.expectedTests > 0 && t.testsRun == 0 then MissingExpectedTests
        else if t.processError then ProcessError
        else if t.timedOut then TimedOut
        else if t.failures != 0 || t.errors != 0 then ReportedTestFailures
        else if t.testsRun > 0 then NonzeroExitWithTests else NonzeroExitWithoutTestCounters;
      assert Applies(r, shard);
      assert Any(KindOf(r), shard);
    }
  }

  // ------------------------------------------------------------ one phase

  function Codes(shards: seq<Shard>): seq<int> {
    seq(|shards|, i requires 0 <= i < |shards| => Code(shards[i]))
  }

  /** The first code that is not zero. */
  function FirstNonzero(codes: seq<int>): int {
    if codes == [] then 0
    else
      var before := FirstNonzero(codes[..|codes| - 1]);
      if before != 0 then before else codes[|codes| - 1]
  }

  /** `_aggregate_futures` over a phase's shards, in the order they complete. */
  method AggregateFutures(shards: seq<Shard>) returns (aggregate: int)
    ensures aggregate == FirstNonzero(Codes(shards))
  {
    aggregate := 0;
    var i := 0;
    while i < |shards|
      invariant i <= |shards| && aggregate == FirstNonzero(Codes(shards)[..i])
    {
      assert Codes(shards)[..i + 1][..i] == Codes(shards)[..i];
      var verdict := Classify(shards[i]);
      if verdict.returncode != 0 {
        aggregate := if aggregate != 0 then aggregate else verdict.returncode;
      }
      i := i + 1;
    }
    assert Codes(shards)[..i] == Codes(shards);
  }

  ghost predicate AllSucceed(shards: seq<Shard>) {
    forall i :: 0 <= i < |shards| ==> Succeeds(shards[i])
  }

  lemma {:induction false} FirstNonzeroIff(codes: seq<int>)
    ensures FirstNonzero(codes) == 0 <==> forall i :: 0 <= i < |codes| ==> codes[i] == 0
  {
    if codes != [] {
      var last := |codes| - 1;
      FirstNonzeroIff(codes[..last]);
      assert forall i :: 0 <= i < last ==> codes[..last][i] == codes[i];
    }
  }

  /** A phase's return code is zero if and only if all its shards succeeded. */
  lemma PhaseSucceedsIff(shards: seq<Shard>)
    ensures FirstNonzero(Codes(shards)) == 0 <==> AllSucceed(shards)
  {
    FirstNonzeroIff(Codes(shards));
    assert forall i :: 0 <= i < |shards| ==> (Codes(shards)[i] == 0 <==> Succeeds(shards[i]));
  }

  // ------------------------------------------------------------ the run

  datatype Phase = Unit | Js | Integration | Tour

  /** The shards of every phase, in the order they complete; none for an empty phase. */
  type Results = Phase -> seq<Shard>

  /** A phase's return code, `None` when it was skipped. */
  type Outcomes = map<Phase, Option<int>>

  const PHASES: seq<Phase> := [Unit, Js, Integration, Tour]

  function Groups(overlap: bool): seq<seq<Phase>> {
    if overlap then [[Unit, Js], [Integration, Tour]] else [[Unit], [Js], [Integration], [Tour]]
  }

  function PhaseCode(results: Results, p: Phase): int {
    FirstNonzero(Codes(results(p)))
  }

  function PhaseCodes(results: Results): seq<int> {
    [PhaseCode(results, Unit), PhaseCode(results, Js), PhaseCode(results, Integration), PhaseCode(results, Tour)]
  }

  /** The code a whole run ends with: 1 when preflight fails, else that of the first phase that
      failed, in the fixed order. */
  function ExitCode(preflight: bool, results: Results): int {
    if preflight then FirstNonzero(PhaseCodes(results)) else 1
  }

  predicate Failed(outcomes: Outcomes, p: Phase) {
    p in outcomes && outcomes[p].Some? && outcomes[p].value != 0
  }

  /** `_finish`: zero when nothing failed, else the first failure in the fixed order. */
  method Finish(outcomes: Outcomes) returns (code: int)
    ensures code == FirstFailure(outcomes)
  {
    if !Failed(outcomes, Unit) && !Failed(outcomes, Js) && !Failed(outcomes, Integration) && !Failed(outcomes, Tour) {
      return 0;
    }
    code := 1;
    var i := 0;
    while i < |PHASES|
      invariant i <= |PHASES| && SkippedTo(outcomes, i)
    {
      if Failed(outcomes, PHASES[i]) {
        code := outcomes[PHASES[i]].value;
        break;
      }
      i := i + 1;
    }
  }

  /** The first phases of the fixed order did not fail. */
  predicate SkippedTo(outcomes: Outcomes, i: nat) {
    && (i > 0 ==> !Failed(outcomes, Unit)) && (i > 1 ==> !Failed(outcomes, Js))
    && (i > 2 ==> !Failed(outcomes, Integration)) && (i > 3 ==> !Failed(outcomes, Tour))
  }

  function FirstFailure(outcomes: Outcomes): int {
    if Failed(outcomes, Unit) then outcomes[Unit].value
    else if Failed(outcomes, Js) then outcomes[Js].value
    else if Failed(outcomes, Integration) then outcomes[Integration].value
    else if Failed(outcomes, Tour) then outcomes[Tour].value
    else 0
  }

  // ------------------------------------------------------------ groups of phases

  function Rank(p: Phase): nat {
    match p case Unit => 0 case Js => 1 case Integration => 2 case Tour => 3
  }

  /** The phases of the groups in the order they complete; within a group any order. */
  ghost predicate IsCompletion(order: seq<seq<Phase>>, groups: seq<seq<Phase>>) {
    |order| == |groups| && forall i :: 0 <= i < |order| ==> multiset(order[i]) == multiset(groups[i])
  }

  /** How many phases the first `i` groups hold. */
  function Reached(overlap: bool, i: nat): nat {
    if overlap then 2 * i else i
  }

  /** The outcomes once the phases below a rank have run. */
  function Done(results: Results, rank: nat): Outcomes {
    map p: Phase | Rank(p) < rank :: Some(PhaseCode(results, p))
  }

  /** `_execute_phase_group`: the outcomes of one group, in completion order. */
  method ExecuteGroup(group: seq<Phase>, results: Results, before: Outcomes) returns (outcomes: Outcomes)
    ensures outcomes == before + map p | p in group :: Some(PhaseCode(results, p))
  {
    outcomes := before;
    var i := 0;
    while i < |group|
      invariant i <= |group| && outcomes == before + map p | p in group[..i] :: Some(PhaseCode(results, p))
    {
      var code := AggregateFutures(results(group[i]));
      outcomes := outcomes[group[i] := Some(code)];
      assert group[..i + 1] == group[..i] + [group[i]];
      i := i + 1;
    }
    assert group[..i] == group;
  }

  /** A group holds exactly the next phases of the fixed order. */
  lemma GroupIsNext(overlap: bool, order: seq<seq<Phase>>, i: nat, p: Phase)
    requires IsCompletion(order, Groups(overlap)) && i < |order|
    ensures p in order[i] <==> Reached(overlap, i) <= Rank(p) < Reached(overlap, i + 1)
  {
    assert p in order[i] <==> p in multiset(Groups(overlap)[i]);
  }

  /** The phases not reached when a run stops early are recorded as skipped. */
  function Skip(outcomes: Outcomes): Outcomes {
    map p: Phase | Rank(p) < 4 :: if p in outcomes then outcomes[p] else None
  }

  method AnyFailed(outcomes: Outcomes, group: seq<Phase>) returns (failed: bool)
    ensures failed <==> exists p :: p in group && Failed(outcomes, p)
  {
    failed := exists p :: p in group && Failed(outcomes, p);
  }

  /** `run`: the groups one after the other, stopping after a failing one unless told to keep going. */
  method Run(preflight: bool, overlap: bool, keepGoing: bool, order: seq<seq<Phase>>, results: Results)
    returns (code: int)
    requires IsCompletion(order, Groups(overlap))
    ensures code == ExitCode(preflight, results)
    ensures !preflight ==> code == 1
  {
    if !preflight {
      code := Finish(map[Unit := Some(1), Js := None, Integration := None, Tour := None]);
      return;
    }
    var outcomes: Outcomes := map[];
    var i := 0;
    while i < |order|
      invariant i <= |order| && outcomes == Done(results, Reached(overlap, i))
    {
      outcomes := ExecuteGroup(order[i], results, outcomes);
      GroupRuns(overlap, order, i, results);
      var failed := AnyFailed(outcomes, order[i]);
      if !keepGoing && failed {
        StopsEarly(overlap, order, i, results);
        code := Finish(Skip(outcomes));
        return;
      }
      i := i + 1;
    }
    RunsThrough(results);
    code := Finish(outcomes);
  }

  lemma GroupRuns(overlap: bool, order: seq<seq<Phase>>, i: nat, results: Results)
    requires IsCompletion(order, Groups(overlap)) && i < |order|
    ensures Done(results, Reached(overlap, i)) + (map p | p in order[i] :: Some(PhaseCode(results, p))) ==
      Done(results, Reached(overlap, i + 1))
  {
    forall p: Phase ensures p in order[i] <==> Reached(overlap, i) <= Rank(p) < Reached(overlap, i + 1) {
      GroupIsNext(overlap, order, i, p);
    }
  }

  lemma FirstOfFour(results: Results)
    ensures FirstNonzero(PhaseCodes(results)) ==
      if PhaseCode(results, Unit) != 0 then PhaseCode(results, Unit)
      else if PhaseCode(results, Js) != 0 then PhaseCode(results, Js)
      else if PhaseCode(results, Integration) != 0 then PhaseCode(results, Integration)
      else PhaseCode(results, Tour)
  {
    var codes := PhaseCodes(results);
    assert codes[..3][..2] == codes[..2] && codes[..2][..1] == codes[..1] && codes[..1][..0] == [];
    assert FirstNonzero(codes[..1]) == codes[0];
    assert FirstNonzero(codes[..2]) == if codes[0] != 0 then codes[0] else codes[1];
  }

  /** Stopping after a failing group loses nothing: the phases still to come are later in the order. */
  lemma StopsEarly(overlap: bool, order: seq<seq<Phase>>, i: nat, results: Results)
    requires IsCompletion(order, Groups(overlap)) && i < |order|
    requires exists p :: p in order[i] && Failed(Done(results, Reached(overlap, i + 1)), p)
    ensures FirstFailure(Skip(Done(results, Reached(overlap, i + 1)))) == FirstNonzero(PhaseCodes(results))
  {
    var p :| p in order[i] && Failed(Done(results, Reached(overlap, i + 1)), p);
    FailureDecides(results, Reached(overlap, i + 1), p);
  }

  /** A failed phase among those done is at or after the first failed one of all. */
  lemma FailureDecides(results: Results, rank: nat, p: Phase)
    requires Failed(Done(results, rank), p)
    ensures FirstFailure(Skip(Done(results, rank))) == FirstNonzero(PhaseCodes(results))
  {
    FirstOfFour(results);
    assert Rank(p) < rank && PhaseCode(results, p) != 0;
  }

  lemma RunsThrough(results: Results)
    ensures FirstFailure(Done(results, 4)) == FirstNonzero(PhaseCodes(results))
  {
    FirstOfFour(results);
  }

  // ------------------------------------------------------------ what the exit code means

  /** A run exits with zero if and only if preflight passed and every shard of every phase succeeded. */
  lemma ExitZeroIff(preflight: bool, results: Results)
    ensures ExitCode(preflight, results) == 0 <==> preflight && forall p :: AllSucceed(results(p))
  {
    FirstOfFour(results);
    forall p: Phase ensures PhaseCode(results, p) == 0 <==> AllSucceed(results(p)) {
      PhaseSucceedsIff(results(p));
    }
    if FirstNonzero(PhaseCodes(results)) == 0 {
      forall p: Phase ensures AllSucceed(results(p)) {
        assert p.Unit? || p.Js? || p.Integration? || p.Tour?;
        assert PhaseCode(results, p) == 0;
      }
    }
  }

  /** In whatever order the shards complete, the same runs exit with zero. */
  lemma OrderDoesNotMatter(preflight: bool, results: Results, other: Results)
    requires forall p :: multiset(results(p)) == multiset(other(p))
    ensures ExitCode(preflight, results) == 0 <==> ExitCode(preflight, other) == 0
  {
    ExitZeroIff(preflight, results);
    ExitZeroIff(preflight, other);
    forall p: Phase ensures AllSucceed(results(p)) <==> AllSucceed(other(p)) {
      if AllSucceed(results(p)) {
        SucceedInAnyOrder(results(p), other(p));
      } else if AllSucceed(other(p)) {
        SucceedInAnyOrder(other(p), results(p));
      }
    }
  }

  lemma SucceedInAnyOrder(shards: seq<Shard>, other: seq<Shard>)
    requires multiset(shards) == multiset(other) && AllSucceed(shards)
    ensures AllSucceed(other)
  {
    forall i | 0 <= i < |other| ensures Succeeds(other[i]) {
      assert other[i] in multiset(shards);
    }
  }
}
