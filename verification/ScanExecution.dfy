/** The bounded grid scan: one report entry per planned point on every way out. */
module ScanExecution {
  import opened Results

  datatype StopReason = Completed | Interrupted | TotalBudget | PreparationBudget
  datatype Status = Analyzed | Unavailable | Failed | Invalid | Timeout | NotRun
  datatype Reason = NotStarted | Stopped(stop: StopReason) | View(code: string) | Raised(code: string)
                  | InvariantFailure | PointDeadline | WorkerTerminated | InvalidPoint | PointIoFailure

  datatype Point = Point(index: nat, id: nat, status: Status, reason: Reason, attempted: bool, resumed: bool,
                         result: Option<nat>)

  /** An accepted projection of a point: available or not, with its bound result. */
  datatype Accepted = Accepted(available: bool, reason: string, result: nat)

  datatype Exception = Deadline | ToolchainUnavailable(code: string) | ValueError(solarCode: Option<string>) | OSError
                     | SystemExit | Other

  /** How the timed block of one attempt ends. `late` is the projection that was already
      assigned when an asynchronous exception arrived. */
  datatype Outcome = Returned(accepted: Accepted) | Threw(exception: Exception, late: Option<Accepted>)

  datatype Preparation = Ready(cached: map<nat, Point>) | OutOfTime | Broken

  /** Everything outside the executor's control: clock readings as seconds left, terminations between points and
      after the last one, what each attempt meets, and whether its record and the report can be written. */
  datatype Script = Script(startLeft: real, preparation: Preparation, killed: nat -> bool, loopLeft: nat -> real,
                           attemptLeft: nat -> real, outcome: nat -> Outcome, recorded: nat -> bool,
                           killedAfter: bool, published: bool)

  datatype Report = Report(points: seq<Point>, stop: StopReason)

  ghost predicate IsPlan(planned: seq<Point>) {
    && planned != []
    && (forall i :: 0 <= i < |planned| ==>
        planned[i] == Point(i, planned[i].id, NotRun, NotStarted, false, false, None))
    && (forall i, j :: 0 <= i < j < |planned| ==> planned[i].id != planned[j].id)
  }

  /** What resuming hands over: accepted earlier points of this plan, at their own places. */
  ghost predicate IsResumed(planned: seq<Point>, cached: map<nat, Point>) {
    forall i :: 0 <= i < |planned| && planned[i].id in cached ==>
      var p := cached[planned[i].id];
      && p.index == i && p.id == planned[i].id && p.resumed
      && p.status in {Analyzed, Unavailable} && p.result.Some? && p.reason.View?
  }

  function Projected(point: Point, a: Accepted): Point {
    point.(attempted := true, status := if a.available then Analyzed else Unavailable, reason := View(a.reason),
           result := Some(a.result))
  }

  /** The entry an attempt leaves. */
  function Attempted(point: Point, outcome: Outcome): Point {
    match outcome
    case Returned(a) => Projected(point, a)
    case Threw(e, late) =>
      var current := if late.Some? then Projected(point, late.value)
                     else point.(attempted := true, status := Failed, reason := InvariantFailure);
      match e
      case Deadline => current.(status := Timeout, reason := PointDeadline)
      case ToolchainUnavailable(code) => current.(status := Failed, reason := Raised(code))
      case ValueError(code) =>
        current.(status := Invalid, reason := if code.Some? then Raised(code.value) else InvalidPoint)
      case OSError => current.(status := Failed, reason := PointIoFailure)
      case SystemExit => current.(status := Timeout, reason := WorkerTerminated)
      case Other => current
  }

  predicate Escapes(outcome: Outcome) {
    outcome.Threw? && (outcome.exception == SystemExit || outcome.exception == Other)
  }

  function CachedPoints(script: Script): map<nat, Point> {
    if script.preparation.Ready? then script.preparation.cached else map[]
  }

  /** What the report says of a point the run got to. */
  function Handled(point: Point, script: Script): Point {
    if point.id in CachedPoints(script) then CachedPoints(script)[point.id]
    else Attempted(point, script.outcome(point.index))
  }

  /** The points before `cut` were handled and the rest were not. */
  ghost predicate HandledTo(planned: seq<Point>, script: Script, points: seq<Point>, cut: nat) {
    && |points| == |planned| && cut <= |planned|
    && (forall i :: 0 <= i < cut ==> points[i] == Handled(planned[i], script))
    && (forall i :: cut <= i < |planned| ==> points[i] == planned[i])
  }

  // ----- where a run ends, from the script alone

  predicate InTime(script: Script, i: nat) {
    script.loopLeft(i) > 0.0 && script.attemptLeft(i) > 0.0
  }

  predicate IsCached(planned: seq<Point>, script: Script, i: nat)
    requires i < |planned|
  {
    planned[i].id in CachedPoints(script)
  }

  /** The loop gets past point `i`: it is resumed, or begun in time, survived and recorded. */
  predicate Continues(planned: seq<Point>, script: Script, i: nat)
    requires i < |planned|
  {
    && !script.killed(i)
    && (IsCached(planned, script, i) || (InTime(script, i) && !Escapes(script.outcome(i)) && script.recorded(i)))
  }

  /** The first point that the loop does not get past. */
  ghost function FirstStop(planned: seq<Point>, script: Script, from: nat): (r: nat)
    requires from <= |planned|
    ensures from <= r <= |planned| && (r < |planned| ==> !Continues(planned, script, r))
    ensures forall j :: from <= j < r ==> Continues(planned, script, j)
    decreases |planned| - from
  {
    if from == |planned| || !Continues(planned, script, from) then from else FirstStop(planned, script, from + 1)
  }

  lemma {:induction false} FirstStopFrom(planned: seq<Point>, script: Script, from: nat, r: nat)
    requires from <= r <= |planned| && forall j :: from <= j < r ==> Continues(planned, script, j)
    requires r < |planned| ==> !Continues(planned, script, r)
    ensures FirstStop(planned, script, from) == r
    decreases r - from
  {
    if from < r { FirstStopFrom(planned, script, from + 1, r); }
  }

  lemma FirstStopIs(planned: seq<Point>, script: Script, r: nat)
    requires r <= |planned| && forall j :: 0 <= j < r ==> Continues(planned, script, j)
    requires r < |planned| ==> !Continues(planned, script, r)
    ensures FirstStop(planned, script, 0) == r
  {
    FirstStopFrom(planned, script, 0, r);
  }

  /** Points before `cut` were handled; `raised` tells whether an exception leaves the run. */
  datatype Ending = Ending(raised: bool, stop: StopReason, cut: nat)

  ghost function LoopEnding(planned: seq<Point>, script: Script): Ending {
    var r := FirstStop(planned, script, 0);
    if r == |planned| then Ending(false, Completed, r)
    else if script.killed(r) then Ending(true, Interrupted, r)
    else if !InTime(script, r) then Ending(false, TotalBudget, r)
    else Ending(true, Interrupted, r + 1)
  }

  ghost function PreparedEnding(planned: seq<Point>, script: Script): Ending {
    match script.preparation
    case OutOfTime => Ending(false, PreparationBudget, 0)
    case Broken => Ending(true, Interrupted, 0)
    case Ready(_) => LoopEnding(planned, script)
  }

  ghost function EndingOf(planned: seq<Point>, script: Script): (e: Ending)
    ensures e.cut <= |planned|
  {
    var e := if script.startLeft <= 0.0 then Ending(false, TotalBudget, 0) else PreparedEnding(planned, script);
    e.(raised := e.raised || script.killedAfter)
  }

  /** The points of the report. */
  ghost function FinalPoints(planned: seq<Point>, script: Script): (points: seq<Point>)
    ensures |points| == |planned|
  {
    var e := EndingOf(planned, script);
    seq(|planned|, i requires 0 <= i < |planned| =>
      if i < e.cut then Handled(planned[i], script) else planned[i].(reason := Stopped(e.stop)))
  }

  class ScanExecutor {
    const planned: seq<Point>
    var points: seq<Point>
    var stop: StopReason
    var report: Option<Report>

    constructor (planned: seq<Point>)
      ensures this.planned == planned && points == planned && stop == Interrupted && report == None
    {
      this.planned, points, stop, report := planned, planned, Interrupted, None;
    }

    /** The whole run. The points are labelled on every way out, also when an exception escapes. */
    method Run(script: Script) returns (raised: bool)
      requires IsPlan(planned) && points == planned && stop == Interrupted && report == None
      requires IsResumed(planned, CachedPoints(script))
      modifies this
      ensures points == FinalPoints(planned, script) && stop == EndingOf(planned, script).stop
      ensures report == if script.published then Some(Report(points, stop)) else None
      ensures raised <==> EndingOf(planned, script).raised || !script.published
    {
      ghost var cut := 0;
      if script.startLeft <= 0.0 {
        stop, raised := TotalBudget, false;
      } else {
        raised, cut := RunPrepared(script);
      }
      raised := raised || script.killedAfter;
      points := seq(|points|, i requires 0 <= i < |points| reads this =>
        if points[i].reason == NotStarted then points[i].(reason := Stopped(stop)) else points[i]);
      if script.published { report := Some(Report(points, stop)); } else { raised := true; }
    }

    method RunPrepared(script: Script) returns (raised: bool, ghost cut: nat)
      requires IsPlan(planned) && points == planned && stop == Interrupted && script.startLeft > 0.0
      requires IsResumed(planned, CachedPoints(script))
      modifies this`points, this`stop
      ensures Ending(raised, stop, cut) == PreparedEnding(planned, script)
      ensures HandledTo(planned, script, points, cut)
    {
      match script.preparation
      case OutOfTime =>
        stop := PreparationBudget;
        return false, 0;
      case Broken =>
        return true, 0;
      case Ready(cached) =>
        for i := 0 to |planned|
          invariant HandledTo(planned, script, points, i) && stop == Interrupted
          invariant forall j :: 0 <= j < i ==> Continues(planned, script, j)
        {
          var point := planned[i];
          if !Continues(planned, script, i) { FirstStopIs(planned, script, i); }
          if script.killed(i) {
            return true, i;
          }
          if point.id in cached {
            points := points[cached[point.id].index := cached[point.id]];
            continue;
          }
          if script.loopLeft(i) <= 0.0 {
            stop := TotalBudget;
            return false, i;
          }
          var escaped := Attempt(script, point);
          if escaped {
            return true, i + 1;
          }
          if stop == TotalBudget {
            return false, i;
          }
        }
        stop := Completed;
        FirstStopIs(planned, script, |planned|);
        return false, |planned|;
    }

    method Attempt(script: Script, point: Point) returns (escaped: bool)
      requires point.index < |points|
      modifies this`points, this`stop
      ensures script.attemptLeft(point.index) <= 0.0 ==> points == old(points) && stop == TotalBudget && !escaped
      ensures script.attemptLeft(point.index) > 0.0 ==>
        && points == old(points)[point.index := Attempted(point, script.outcome(point.index))] && stop == old(stop)
        && (escaped <==> Escapes(script.outcome(point.index)) || !script.recorded(point.index))
    {
      if script.attemptLeft(point.index) <= 0.0 {
        stop := TotalBudget;
        return false;
      }
      var current := point.(attempted := true, status := Failed, reason := InvariantFailure);
      points := points[point.index := current];
      escaped := false;
      match script.outcome(point.index) {
        case Returned(a) => current := Projected(point, a);
        case Threw(e, late) =>
          if late.Some? { current := Projected(point, late.value); }
          match e {
            case Deadline => current := current.(status := Timeout, reason := PointDeadline);
            case ToolchainUnavailable(code) => current := current.(status := Failed, reason := Raised(code));
            case ValueError(code) =>
              current := current.(status := Invalid, reason := if code.Some? then Raised(code.value) else InvalidPoint);
            case OSError => current := current.(status := Failed, reason := PointIoFailure);
            case SystemExit =>
              current := current.(status := Timeout, reason := WorkerTerminated);
              escaped := true;
            case Other => escaped := true;
          }
      }
      points := points[point.index := current];
      if !script.recorded(point.index) { escaped := true; }
    }
  }

  // ----- what a run can be trusted for

  /** No point is begun after time ran out, after a termination, or after an attempt that escaped or left no record:
      of the points handled, only the last may have done so. */
  lemma BudgetObeyed(planned: seq<Point>, script: Script, i: nat)
    requires i < EndingOf(planned, script).cut
    ensures script.startLeft > 0.0 && script.preparation.Ready? && !script.killed(i)
    ensures !IsCached(planned, script, i) ==> InTime(script, i)
    ensures i + 1 < EndingOf(planned, script).cut && !IsCached(planned, script, i) ==>
              !Escapes(script.outcome(i)) && script.recorded(i)
    ensures i + 1 == EndingOf(planned, script).cut && !Continues(planned, script, i) ==>
              EndingOf(planned, script).raised
  {
    var r := FirstStop(planned, script, 0);
    if i < r { assert Continues(planned, script, i); }
  }

  /** The loop ends without an exception: every point is passed, or the first that is not had no time left. */
  ghost predicate Settles(planned: seq<Point>, script: Script) {
    exists r :: SettlesAt(planned, script, r)
  }

  ghost predicate SettlesAt(planned: seq<Point>, script: Script, r: nat) {
    && r <= |planned| && (forall j :: 0 <= j < r ==> Continues(planned, script, j))
    && (r < |planned| ==> !script.killed(r) && !IsCached(planned, script, r) && !InTime(script, r))
  }

  ghost predicate Prepares(script: Script) {
    script.startLeft > 0.0 && script.preparation.Ready?
  }

  lemma SettlesAtFirstStop(planned: seq<Point>, script: Script)
    ensures Settles(planned, script) <==> !LoopEnding(planned, script).raised
  {
    var r := FirstStop(planned, script, 0);
    if Settles(planned, script) {
      var k :| SettlesAt(planned, script, k);
      FirstStopIs(planned, script, k);
    }
    if !LoopEnding(planned, script).raised {
      assert SettlesAt(planned, script, r);
    }
  }

  /** Time was gone before the preparation, or at the first point that the loop does not get past. */
  ghost predicate TimeGone(planned: seq<Point>, script: Script) {
    script.startLeft <= 0.0
    || (script.preparation.Ready? && exists r: nat :: r < |planned| && SettlesAt(planned, script, r))
  }

  lemma TimeGoneAtFirstStop(planned: seq<Point>, script: Script)
    ensures (exists r: nat :: r < |planned| && SettlesAt(planned, script, r)) <==>
              LoopEnding(planned, script).stop == TotalBudget
  {
    if exists r: nat :: r < |planned| && SettlesAt(planned, script, r) {
      var k: nat :| k < |planned| && SettlesAt(planned, script, k);
      FirstStopIs(planned, script, k);
    }
    if LoopEnding(planned, script).stop == TotalBudget {
      assert SettlesAt(planned, script, FirstStop(planned, script, 0));
    }
  }

  /** Completion means that the loop got past every point; an interruption, that the preparation broke or the loop
      ended in an exception; and an exception leaves the run after an interruption or a late termination. */
  lemma WhyStopped(planned: seq<Point>, script: Script)
    ensures EndingOf(planned, script).stop == Completed <==>
              Prepares(script) && forall i :: 0 <= i < |planned| ==> Continues(planned, script, i)
    ensures EndingOf(planned, script).stop == Interrupted <==>
              script.startLeft > 0.0
                  && (script.preparation.Broken? || (script.preparation.Ready? && !Settles(planned, script)))
    ensures EndingOf(planned, script).stop == PreparationBudget <==>
              script.startLeft > 0.0 && script.preparation.OutOfTime?
    ensures EndingOf(planned, script).stop == TotalBudget <==> TimeGone(planned, script)
    ensures EndingOf(planned, script).raised <==> EndingOf(planned, script).stop == Interrupted || script.killedAfter
  {
    SettlesAtFirstStop(planned, script);
    TimeGoneAtFirstStop(planned, script);
    if forall i :: 0 <= i < |planned| ==> Continues(planned, script, i) {
      FirstStopIs(planned, script, |planned|);
    }
  }

  /** A run that an exception leaves reports another reason than an interruption exactly when a termination arrives
      after it had settled on that reason. */
  lemma RaisesSettled(planned: seq<Point>, script: Script)
    ensures EndingOf(planned, script).raised && EndingOf(planned, script).stop != Interrupted <==>
              && script.killedAfter
              && (script.startLeft <= 0.0 || script.preparation.OutOfTime?
                  || (script.preparation.Ready? && Settles(planned, script)))
  {
    SettlesAtFirstStop(planned, script);
  }

  /** One point, resumed; then a termination: the run raises and reports completion. */
  lemma RaisedYetCompleted() returns (planned: seq<Point>, script: Script)
    ensures IsPlan(planned) && IsResumed(planned, CachedPoints(script)) && script.published
    ensures EndingOf(planned, script) == Ending(true, Completed, 1)
  {
    planned := [Point(0, 7, NotRun, NotStarted, false, false, None)];
    var cached := map[7 := Point(0, 7, Analyzed, View("ok"), true, true, Some(1))];
    script := Script(1.0, Ready(cached), i => false, i => 1.0, i => 1.0, i => Threw(Other, None), i => true,
                     true, true);
    assert Continues(planned, script, 0);
    FirstStopIs(planned, script, 1);
  }

  /** One entry per planned point in order, none left not started; the entries neither resumed nor attempted are
      exactly those from `cut` on, and carry the stop reason. */
  lemma ReportIsTruthful(planned: seq<Point>, script: Script, i: nat)
    requires IsPlan(planned) && IsResumed(planned, CachedPoints(script)) && i < |planned|
    ensures var p, e := FinalPoints(planned, script)[i], EndingOf(planned, script);
            && p.index == i && p.id == planned[i].id && p.reason != NotStarted
            && (i < e.cut <==> p.resumed || p.attempted)
            && (p.status == NotRun <==> e.cut <= i)
            && (p.status == NotRun ==> p.reason == Stopped(e.stop) && e.stop != Completed)
  {
    assert planned[i] == Point(i, planned[i].id, NotRun, NotStarted, false, false, None);
    if EndingOf(planned, script).stop == Completed { WhyStopped(planned, script); }
  }

  // ----- the report, read off the plan and the script

  /** Point `j` gets an entry when the loop comes to it: it is handed over by the resumption, or is begun in time. */
  ghost predicate GetsEntry(planned: seq<Point>, script: Script, j: nat)
    requires j < |planned| && script.preparation.Ready?
  {
    && !script.killed(j)
    && (planned[j].id in script.preparation.cached || (script.loopLeft(j) > 0.0 && script.attemptLeft(j) > 0.0))
  }

  /** An exception that nothing handles, an exit request or an unwritten record ends the scan at point `j`. */
  ghost predicate Breaks(planned: seq<Point>, script: Script, j: nat)
    requires j < |planned| && script.preparation.Ready?
  {
    && planned[j].id !in script.preparation.cached
    && (!script.recorded(j) || (script.outcome(j).Threw? && script.outcome(j).exception in {SystemExit, Other}))
  }

  /** Which points are handled: the preparation was ready in time, each point up to this one gets its entry, and none
      before it ends the scan. */
  lemma HandledExactly(planned: seq<Point>, script: Script, i: nat)
    requires i < |planned|
    ensures i < EndingOf(planned, script).cut <==>
              && script.startLeft > 0.0 && script.preparation.Ready?
              && (forall j :: 0 <= j <= i ==> GetsEntry(planned, script, j))
              && (forall j :: 0 <= j < i ==> !Breaks(planned, script, j))
  {
    if script.preparation.Ready? {
      var r := FirstStop(planned, script, 0);
      forall j | 0 <= j < |planned|
        ensures Continues(planned, script, j) <==> GetsEntry(planned, script, j) && !Breaks(planned, script, j)
      {
      }
      if r < |planned| {
        assert LoopEnding(planned, script).cut == if GetsEntry(planned, script, r) then r + 1 else r;
      }
    }
  }

  /** What the report says of a point that was neither resumed nor left unrun. A block that returned leaves its
      projection: analyzed if that was available and unavailable if not. One that raised leaves the status, reason and
      result of its exception, whatever it had assigned before. */
  lemma EntryExactly(planned: seq<Point>, script: Script, i: nat)
    requires IsPlan(planned) && i < EndingOf(planned, script).cut
    requires script.preparation.Ready? ==> planned[i].id !in script.preparation.cached
    ensures var p := FinalPoints(planned, script)[i];
            && p.index == i && p.id == planned[i].id && p.attempted && !p.resumed
            && match script.outcome(i)
               case Returned(Accepted(available, reason, result)) =>
                 && (p.status == Analyzed <==> available) && (p.status == Unavailable <==> !available)
                 && p.reason == View(reason) && p.result == Some(result)
               case Threw(e, late) =>
                 && p.result == (if late.Some? then Some(late.value.result) else None)
                 && match e
                    case Deadline => p.status == Timeout && p.reason == PointDeadline
                    case ToolchainUnavailable(code) => p.status == Failed && p.reason == Raised(code)
                    case ValueError(Some(code)) => p.status == Invalid && p.reason == Raised(code)
                    case ValueError(None) => p.status == Invalid && p.reason == InvalidPoint
                    case OSError => p.status == Failed && p.reason == PointIoFailure
                    case SystemExit => p.status == Timeout && p.reason == WorkerTerminated
                    case Other =>
                      match late
                      case None => p.status == Failed && p.reason == InvariantFailure
                      case Some(Accepted(available, reason, _)) =>
                        && (p.status == Analyzed <==> available) && (p.status == Unavailable <==> !available)
                        && p.reason == View(reason)
  {
    hide EndingOf;
    assert planned[i] == Point(i, planned[i].id, NotRun, NotStarted, false, false, None);
  }

  /** Every other point: handed over as resumed, or left as planned with the stop reason. */
  lemma OtherEntries(planned: seq<Point>, script: Script, i: nat)
    requires i < |planned|
    ensures var p, e := FinalPoints(planned, script)[i], EndingOf(planned, script);
            && (e.cut <= i ==> p == planned[i].(reason := Stopped(e.stop)))
            && (i < e.cut && script.preparation.Ready? && planned[i].id in script.preparation.cached ==>
                  p == script.preparation.cached[planned[i].id])
  {
    hide EndingOf;
  }

  /** A point ends analyzed exactly when it was handed over so, or its projection was accepted as available and no
      exception that is handled came after. */
  lemma AnalyzedExactly(planned: seq<Point>, script: Script, i: nat)
    requires IsPlan(planned) && IsResumed(planned, CachedPoints(script)) && i < |planned|
    ensures FinalPoints(planned, script)[i].status == Analyzed <==>
              && i < EndingOf(planned, script).cut
              && if IsCached(planned, script, i) then CachedPoints(script)[planned[i].id].status == Analyzed
                 else match script.outcome(i)
                   case Returned(a) => a.available
                   case Threw(e, late) => e == Other && late.Some? && late.value.available
  {
    hide EndingOf;
    assert planned[i] == Point(i, planned[i].id, NotRun, NotStarted, false, false, None);
    OtherEntries(planned, script, i);
    if i < EndingOf(planned, script).cut && !IsCached(planned, script, i) { EntryExactly(planned, script, i); }
  }

  /** Only completed points carry a result, as the point record demands when the report is read back. */
  ghost predicate Consistent(p: Point) {
    p.status in {Analyzed, Unavailable} <==> p.result.Some?
  }

  predicate KeepsResult(outcome: Outcome) {
    outcome.Threw? && outcome.late.Some? && outcome.exception != Other
  }

  /** An attempted entry is consistent unless an exception that the attempt handles arrives after the
      projection was assigned: that entry says it failed, yet carries the result. */
  lemma LateExceptionKeepsResult(point: Point, outcome: Outcome)
    requires point.result == None
    ensures Consistent(Attempted(point, outcome)) <==> !KeepsResult(outcome)
  {
  }

  /** A report can be read back exactly when no attempt met such an exception. */
  lemma ReportReadable(planned: seq<Point>, script: Script)
    requires IsPlan(planned) && IsResumed(planned, CachedPoints(script))
    ensures (forall p :: p in FinalPoints(planned, script) ==> Consistent(p)) <==>
              forall i :: 0 <= i < EndingOf(planned, script).cut && !IsCached(planned, script, i) ==>
                  !KeepsResult(script.outcome(i))
  {
    var points, cut := FinalPoints(planned, script), EndingOf(planned, script).cut;
    forall i | 0 <= i < |planned|
      ensures Consistent(points[i]) <==> (i < cut && !IsCached(planned, script, i) ==> !KeepsResult(script.outcome(i)))
    {
      assert planned[i] == Point(i, planned[i].id, NotRun, NotStarted, false, false, None);
      LateExceptionKeepsResult(planned[i], script.outcome(i));
    }
    forall i | 0 <= i < |planned| ensures points[i] in points { }
  }

  /** One point whose deadline fires after its projection was accepted: a timeout that carries a result. */
  lemma LateDeadline() returns (planned: seq<Point>, script: Script)
    ensures IsPlan(planned) && IsResumed(planned, CachedPoints(script))
            && EndingOf(planned, script) == Ending(false, Completed, 1)
    ensures FinalPoints(planned, script)[0].status == Timeout && FinalPoints(planned, script)[0].result == Some(1)
  {
    planned := [Point(0, 7, NotRun, NotStarted, false, false, None)];
    script := Script(1.0, Ready(map[]), i => false, i => 1.0, i => 1.0,
                     i => Threw(Deadline, Some(Accepted(true, "ok", 1))), i => true, false, true);
    assert Continues(planned, script, 0);
    FirstStopIs(planned, script, 1);
  }
}
