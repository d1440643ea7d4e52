/** `run_fleet` as a transition system: the main thread submits hosts to a pool
    of at most max(1, jobs) workers, which take them first in, first out. */
module Fleet {
  import opened Prelude

  datatype ExitCode =
    | OkExit | Usage | ConfigInvalid | RuleConflict | LintFail | ToolMissing | VerifyFailExit | TransportFail | TailoringDriftExit

  datatype HostSpec = HostSpec(host: string, user: Option<string>, configPath: string, lineno: nat)

  datatype HostError = HostError(kind: string, message: string, exitCode: ExitCode)

  datatype HostReport = HostReport(isClean: bool, hasTailoringDrift: bool)

  // A report or an error; the user is the one actually used.
  datatype HostOutcome =
    | Verified(spec: HostSpec, report: HostReport, user: Option<string>)
    | Unverified(spec: HostSpec, error: HostError, user: Option<string>)

  // What one call of `verify_one` does.
  datatype Attempt = Returns(outcome: HostOutcome) | Raises(kind: string, message: string)

  type Verifier = HostSpec -> Attempt

  // `_guarded`: an exception is recorded against its own host.
  function Guarded(spec: HostSpec, verify: Verifier): HostOutcome {
    match verify(spec)
    case Returns(outcome) => outcome
    case Raises(kind, message) => Unverified(spec, HostError(kind, message, TransportFail), None)
  }

  // ----- the pool

  // Hosts are known by their index in the hosts file.
  datatype State = State(submitted: nat, queue: seq<nat>, running: set<nat>, results: map<nat, HostOutcome>)

  datatype Step = Submit | Start | Finish(index: nat)

  const INITIAL := State(0, [], {}, map[])

  function Workers(jobs: int): nat {
    Max(1, jobs)
  }

  predicate Enabled(specs: seq<HostSpec>, jobs: int, s: State, step: Step) {
    match step
    case Submit => s.submitted < |specs|
    case Start => s.queue != [] && |s.running| < Workers(jobs)
    case Finish(i) => i in s.running
  }

  function Next(specs: seq<HostSpec>, verify: Verifier, s: State, step: Step): State
    requires step.Start? ==> s.queue != []
  {
    match step
    case Submit => s.(submitted := s.submitted + 1, queue := s.queue + [s.submitted])
    case Start => s.(queue := s.queue[1..], running := s.running + {s.queue[0]})
    case Finish(i) =>
      if i < |specs| then s.(running := s.running - {i}, results := s.results[i := Guarded(specs[i], verify)]) else s
  }

  // The state a schedule reaches, or None when it takes a step that is not enabled.
  function Exec(specs: seq<HostSpec>, jobs: int, verify: Verifier, steps: seq<Step>): Option<State> {
    if steps == [] then Some(INITIAL)
    else
      match Exec(specs, jobs, verify, steps[..|steps| - 1])
      case None => None
      case Some(s) =>
        var step := steps[|steps| - 1];
        if Enabled(specs, jobs, s, step) then Some(Next(specs, verify, s, step)) else None
  }

  // Everything submitted, nothing waiting or running: the pool's block exits.
  predicate Complete(specs: seq<HostSpec>, s: State) {
    s.submitted == |specs| && s.queue == [] && s.running == {}
  }

  function Report(specs: seq<HostSpec>, s: State): seq<HostOutcome>
    requires forall i :: 0 <= i < |specs| ==> i in s.results
  {
    seq(|specs|, i requires 0 <= i < |specs| => s.results[i])
  }

  // ----- what every step keeps

  function Started(s: State): int {
    s.submitted - |s.queue|
  }

  // The started hosts are running or finished, the next ones wait in input
  // order, the rest are not submitted yet.
  ghost predicate Inv(specs: seq<HostSpec>, jobs: int, verify: Verifier, s: State) {
    && |s.queue| <= s.submitted <= |specs|
    && (forall k :: 0 <= k < |s.queue| ==> s.queue[k] == Started(s) + k)
    && (forall i :: i in s.running ==> i < Started(s) && i !in s.results)
    && (forall i :: i in s.results ==> i < Started(s))
    && (forall i: nat :: i < Started(s) ==> i in s.running || i in s.results)
    && |s.running| <= Workers(jobs)
    && (forall i :: i in s.results ==> i < |specs| && s.results[i] == Guarded(specs[i], verify))
  }

  lemma SubmitKeepsInv(specs: seq<HostSpec>, jobs: int, verify: Verifier, s: State)
    requires Inv(specs, jobs, verify, s) && Enabled(specs, jobs, s, Submit)
    ensures Inv(specs, jobs, verify, Next(specs, verify, s, Submit))
  {
  }

  lemma StartKeepsInv(specs: seq<HostSpec>, jobs: int, verify: Verifier, s: State)
    requires Inv(specs, jobs, verify, s) && Enabled(specs, jobs, s, Start)
    ensures Inv(specs, jobs, verify, Next(specs, verify, s, Start))
    ensures s.queue[0] !in s.running
  {
    assert s.queue[0] == Started(s);
  }

  lemma FinishKeepsInv(specs: seq<HostSpec>, jobs: int, verify: Verifier, s: State, i: nat)
    requires Inv(specs, jobs, verify, s) && Enabled(specs, jobs, s, Finish(i))
    ensures Inv(specs, jobs, verify, Next(specs, verify, s, Finish(i))) && i < |specs|
  {
  }

  lemma StepKeepsInv(specs: seq<HostSpec>, jobs: int, verify: Verifier, s: State, step: Step)
    requires Inv(specs, jobs, verify, s) && Enabled(specs, jobs, s, step)
    ensures Inv(specs, jobs, verify, Next(specs, verify, s, step))
  {
    match step
    case Submit => SubmitKeepsInv(specs, jobs, verify, s);
    case Start => StartKeepsInv(specs, jobs, verify, s);
    case Finish(i) => FinishKeepsInv(specs, jobs, verify, s, i);
  }

  lemma {:induction false} ReachableInv(specs: seq<HostSpec>, jobs: int, verify: Verifier, steps: seq<Step>)
    requires Exec(specs, jobs, verify, steps).Some?
    ensures Inv(specs, jobs, verify, Exec(specs, jobs, verify, steps).value)
  {
    if steps != [] {
      var init, last := steps[..|steps| - 1], steps[|steps| - 1];
      ReachableInv(specs, jobs, verify, init);
      StepKeepsInv(specs, jobs, verify, Exec(specs, jobs, verify, init).value, last);
    }
  }

  // In every reachable state each host is in exactly one of: not submitted,
  // queued, running, finished; and the pool is never over its size.
  lemma HostsArePartitioned(specs: seq<HostSpec>, jobs: int, verify: Verifier, steps: seq<Step>, i: nat)
    requires Exec(specs, jobs, verify, steps).Some? && i < |specs|
    ensures var s := Exec(specs, jobs, verify, steps).value;
            && (i in s.queue ==> i < s.submitted && i !in s.running && i !in s.results)
            && (i in s.running ==> i < s.submitted && i !in s.results)
            && (i in s.results ==> i < s.submitted)
            && (i < s.submitted ==> i in s.queue || i in s.running || i in s.results)
            && |s.running| <= (if jobs >= 1 then jobs else 1)
            && (Enabled(specs, jobs, s, Start) <==> s.queue != [] && |s.running| < if jobs >= 1 then jobs else 1)
  {
    var s := Exec(specs, jobs, verify, steps).value;
    ReachableInv(specs, jobs, verify, steps);
    if Started(s) <= i < s.submitted {
      assert s.queue[i - Started(s)] == i;
    }
  }

  // ----- every schedule ends, and in the same report

  // Steps still to come.
  function Remaining(specs: seq<HostSpec>, s: State): int {
    3 * (|specs| - s.submitted) + 2 * |s.queue| + |s.running|
  }

  lemma {:induction false} StepsCount(specs: seq<HostSpec>, jobs: int, verify: Verifier, steps: seq<Step>)
    requires Exec(specs, jobs, verify, steps).Some?
    ensures |steps| + Remaining(specs, Exec(specs, jobs, verify, steps).value) == 3 * |specs|
  {
    if steps != [] {
      var init, last := steps[..|steps| - 1], steps[|steps| - 1];
      StepsCount(specs, jobs, verify, init);
      ReachableInv(specs, jobs, verify, init);
      var s := Exec(specs, jobs, verify, init).value;
      var t := Next(specs, verify, s, last);
      match last
      case Submit =>
      case Start =>
        StartKeepsInv(specs, jobs, verify, s);
        assert |t.running| == |s.running| + 1;
      case Finish(i) =>
        FinishKeepsInv(specs, jobs, verify, s, i);
        assert |t.running| == |s.running| - 1;
    }
  }

  lemma CanGoOn(specs: seq<HostSpec>, jobs: int, s: State)
    requires !Complete(specs, s) && s.submitted <= |specs|
    ensures exists step :: Enabled(specs, jobs, s, step)
  {
    if s.submitted < |specs| {
      assert Enabled(specs, jobs, s, Submit);
    } else if s.running != {} {
      var i :| i in s.running;
      assert Enabled(specs, jobs, s, Finish(i));
    } else {
      assert Enabled(specs, jobs, s, Start);
    }
  }

  // A schedule can always go on until it is complete, which is after exactly
  // three steps a host; no schedule is longer.
  lemma SchedulesEnd(specs: seq<HostSpec>, jobs: int, verify: Verifier, steps: seq<Step>)
    requires Exec(specs, jobs, verify, steps).Some?
    ensures |steps| <= 3 * |specs|
    ensures |steps| == 3 * |specs| <==> Complete(specs, Exec(specs, jobs, verify, steps).value)
    ensures |steps| < 3 * |specs| ==> exists step :: Exec(specs, jobs, verify, steps + [step]).Some?
  {
    var s := Exec(specs, jobs, verify, steps).value;
    ReachableInv(specs, jobs, verify, steps);
    StepsCount(specs, jobs, verify, steps);
    if !Complete(specs, s) {
      CanGoOn(specs, jobs, s);
      var step :| Enabled(specs, jobs, s, step);
      assert (steps + [step])[..|steps|] == steps;
      assert Exec(specs, jobs, verify, steps + [step]).Some?;
    }
  }

  // Every complete run, whatever its schedule and whatever the number of jobs,
  // reports each host's own outcome in input order.
  lemma EveryRunReportsTheSame(specs: seq<HostSpec>, jobs: int, verify: Verifier, steps: seq<Step>)
    requires Exec(specs, jobs, verify, steps).Some? && Complete(specs, Exec(specs, jobs, verify, steps).value)
    ensures var s := Exec(specs, jobs, verify, steps).value;
            && (forall i :: 0 <= i < |specs| ==> i in s.results)
            && Report(specs, s) == Map(specs, spec => Guarded(spec, verify))
            && forall i :: 0 <= i < |specs| ==>
                 match verify(specs[i])
                 case Returns(outcome) => Report(specs, s)[i] == outcome
                 case Raises(kind, message) =>
                   Report(specs, s)[i] == Unverified(specs[i], HostError(kind, message, TransportFail), None)
  {
    var s := Exec(specs, jobs, verify, steps).value;
    ReachableInv(specs, jobs, verify, steps);
  }

  // ----- the verdict

  datatype Status = CleanHost | VerifyFail | Drift | Transport

  function StatusOf(o: HostOutcome): Status {
    match o
    case Unverified(_, error, _) => if error.exitCode == VerifyFailExit then VerifyFail else Transport
    case Verified(_, report, _) =>
      if !report.isClean then VerifyFail else if report.hasTailoringDrift then Drift else CleanHost
  }

  function Statuses(outcomes: seq<HostOutcome>): set<Status> {
    set o | o in outcomes :: StatusOf(o)
  }

  function AggregateExitCode(outcomes: seq<HostOutcome>): ExitCode {
    var statuses := Statuses(outcomes);
    if VerifyFail in statuses then VerifyFailExit
    else if Transport in statuses then TransportFail
    else if Drift in statuses then TailoringDriftExit
    else OkExit
  }

  // A scan found failures, or a host's error says so.
  ghost predicate SomeFail(outcomes: seq<HostOutcome>) {
    || (exists spec, r, user :: Verified(spec, r, user) in outcomes && !r.isClean)
    || (exists spec, e, user :: Unverified(spec, e, user) in outcomes && e.exitCode == VerifyFailExit)
  }

  ghost predicate SomeError(outcomes: seq<HostOutcome>) {
    exists spec, e, user :: Unverified(spec, e, user) in outcomes && e.exitCode != VerifyFailExit
  }

  ghost predicate SomeDrift(outcomes: seq<HostOutcome>) {
    exists spec, r, user :: Verified(spec, r, user) in outcomes && r.isClean && r.hasTailoringDrift
  }

  // The exit code: success exactly when every host was verified, clean and without
  // drift; else failures come before errors, and errors before drift.
  lemma ExitCodeIff(outcomes: seq<HostOutcome>)
    ensures AggregateExitCode(outcomes) == OkExit <==>
      forall o :: o in outcomes ==> o.Verified? && o.report.isClean && !o.report.hasTailoringDrift
    ensures AggregateExitCode(outcomes) == VerifyFailExit <==> SomeFail(outcomes)
    ensures AggregateExitCode(outcomes) == TransportFail <==> !SomeFail(outcomes) && SomeError(outcomes)
    ensures AggregateExitCode(outcomes) == TailoringDriftExit <==>
      !SomeFail(outcomes) && !SomeError(outcomes) && SomeDrift(outcomes)
  {
    forall o | o in outcomes
      ensures StatusOf(o) in Statuses(outcomes)
      ensures StatusOf(o) == VerifyFail ==> SomeFail(outcomes)
      ensures StatusOf(o) == Transport ==> SomeError(outcomes)
      ensures StatusOf(o) == Drift ==> SomeDrift(outcomes)
    {
      match o
      case Verified(spec, r, user) => assert Verified(spec, r, user) in outcomes;
      case Unverified(spec, e, user) => assert Unverified(spec, e, user) in outcomes;
    }
  }

  function Severity(s: Status): nat {
    match s case CleanHost => 0 case Drift => 1 case Transport => 2 case VerifyFail => 3
  }

  function CodeOf(s: Status): ExitCode {
    match s
    case CleanHost => OkExit
    case Drift => TailoringDriftExit
    case Transport => TransportFail
    case VerifyFail => VerifyFailExit
  }

  function Worst(outcomes: seq<HostOutcome>): Status {
    if outcomes == [] then CleanHost
    else
      var rest := Worst(outcomes[1..]);
      if Severity(StatusOf(outcomes[0])) > Severity(rest) then StatusOf(outcomes[0]) else rest
  }

  // The fleet exits with the code of its worst host.
  lemma {:induction false} AggregateIsWorst(outcomes: seq<HostOutcome>)
    ensures AggregateExitCode(outcomes) == CodeOf(Worst(outcomes))
  {
    if outcomes != [] {
      AggregateIsWorst(outcomes[1..]);
      assert outcomes == [outcomes[0]] + outcomes[1..];
      assert Statuses(outcomes) == {StatusOf(outcomes[0])} + Statuses(outcomes[1..]);
    }
  }

  // The order of the hosts does not matter.
  lemma AggregateIgnoresOrder(a: seq<HostOutcome>, b: seq<HostOutcome>)
    requires multiset(a) == multiset(b)
    ensures AggregateExitCode(a) == AggregateExitCode(b)
  {
    SameElements(a, b);
    assert Statuses(a) == Statuses(b);
  }

  function CountOf(outcomes: seq<HostOutcome>, status: Status): nat {
    if outcomes == [] then 0
    else CountOf(outcomes[..|outcomes| - 1], status) + (if StatusOf(outcomes[|outcomes| - 1]) == status then 1 else 0)
  }

  const STATUSES := {CleanHost, VerifyFail, Drift, Transport}

  // One counter a status, and together they count every host.
  method StatusCounts(outcomes: seq<HostOutcome>) returns (counts: map<Status, nat>)
    ensures counts.Keys == STATUSES
    ensures forall status :: status in STATUSES ==> counts[status] == CountOf(outcomes, status)
    ensures counts[CleanHost] + counts[VerifyFail] + counts[Drift] + counts[Transport] == |outcomes|
  {
    counts := map[CleanHost := 0, VerifyFail := 0, Drift := 0, Transport := 0];
    var i := 0;
    while i < |outcomes|
      invariant 0 <= i <= |outcomes|
      invariant counts.Keys == STATUSES
      invariant forall status :: status in STATUSES ==> counts[status] == CountOf(outcomes[..i], status)
      invariant counts[CleanHost] + counts[VerifyFail] + counts[Drift] + counts[Transport] == i
    {
      assert outcomes[..i + 1][..i] == outcomes[..i];
      var status := StatusOf(outcomes[i]);
      counts := counts[status := counts[status] + 1];
      i := i + 1;
    }
    assert outcomes[..i] == outcomes;
  }
}
