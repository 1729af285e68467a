/** The budgeted search over associations: candidate states, stop reasons, and the selection. */
module OrderSearch {
  import opened Results
  import opened OrderTrees
  import opened OrderPlan

  datatype StopReason = Completed | CandidateBudget | TotalBudget | Interrupted | IdentityChanged
  datatype Status = Analyzed | Unavailable | VerificationFailed | Failed | WorkBudget | Timeout | NotRun
  datatype Reason = NotStarted | Stopped(stop: StopReason) | View(code: string) | Raised(error: string)
                  | InvariantFailure | CandidateWorkBudget | CandidateDeadline | CandidateIoFailure

  /** The selected view of a finished candidate: its seconds when available. */
  datatype Candidate = Candidate(tree: OrderTree, cost: OrderCost, status: Status, reason: Reason,
                                 attempted: bool, resumed: bool, view: Option<Option<real>>)

  datatype Exception = Deadline | VerificationError(code: string) | SolarError(message: string) | OSError | Other
  datatype Accepted = Accepted(seconds: Option<real>, reason: string)
  datatype Outcome = Returned(accepted: Accepted) | Threw(exception: Exception, late: Option<Accepted>)
  datatype Preparation = Ready(resumed: map<OrderTree, Candidate>) | OutOfTime | Broken

  /** How the rules check after the loop ends. `Unread` is an exception there: a rule file cannot be read, or a
      termination arrives before the run has left the guarded block. */
  datatype RulesCheck = Same | Changed | Unread

  datatype Script = Script(startLeft: real, prepareLeft: real, preparation: Preparation, killed: nat -> bool,
                           loopLeft: nat -> real, directoryMade: nat -> bool, outcome: nat -> Outcome,
                           isSealed: nat -> bool, rules: RulesCheck, published: bool)
  datatype Budget = Budget(maxMacs: int, maxElements: int)

  datatype SelectionReason = NoneVerified | Minimum | BestAvailable
  datatype Selection = Selection(candidate: Option<OrderTree>, reason: SelectionReason, exhaustive: bool,
                                 unexplored: int)
  datatype Report = Report(candidates: seq<Candidate>, stop: StopReason, selection: Selection)

  ghost function Trees(candidates: seq<Candidate>): seq<OrderTree> {
    seq(|candidates|, i requires 0 <= i < |candidates| => candidates[i].tree)
  }

  ghost predicate IsFresh(planned: seq<Candidate>) {
    forall i :: 0 <= i < |planned| ==>
      planned[i] == Candidate(planned[i].tree, planned[i].cost, NotRun, NotStarted, false, false, None)
  }

  /** The view fits the status, as the selection demands. */
  predicate Consistent(c: Candidate) {
    match c.status
    case Analyzed => c.view.Some? && c.view.value.Some?
    case Unavailable => c.view.Some? && c.view.value.None?
    case _ => true
  }

  /** Only completed candidates carry views, as the candidate record demands when a report is read back. */
  predicate CompleteViews(c: Candidate) {
    c.status in {Analyzed, Unavailable} <==> c.view.Some?
  }

  /** What resuming hands over: terminal candidates of the same plan, read back from an earlier report. */
  ghost predicate IsResumed(planned: seq<Candidate>, resumed: map<OrderTree, Candidate>) {
    forall i :: 0 <= i < |planned| && planned[i].tree in resumed ==>
      var c := resumed[planned[i].tree];
      && c.tree == planned[i].tree && c.cost == planned[i].cost && c.resumed && Consistent(c) && CompleteViews(c)
      && c.status in {Analyzed, Unavailable, VerificationFailed, WorkBudget}
  }

  predicate OverBudget(c: Candidate, budget: Budget) {
    c.cost.macs > budget.maxMacs || c.cost.allocatedElements > budget.maxElements
  }

  function Evaluated(c: Candidate, a: Accepted): Candidate {
    c.(status := if a.seconds.Some? then Analyzed else Unavailable, reason := View(a.reason), view := Some(a.seconds))
  }

  /** The entry an attempt seals. */
  function Attempted(candidate: Candidate, budget: Budget, outcome: Outcome): Candidate {
    var current := candidate.(status := Failed, reason := InvariantFailure);
    if OverBudget(candidate, budget) then current.(status := WorkBudget, reason := CandidateWorkBudget) else
      var begun := current.(attempted := true);
      match outcome
      case Returned(a) => Evaluated(begun, a)
      case Threw(e, late) =>
        var c := if late.Some? then Evaluated(begun, late.value) else begun;
        match e
        case Deadline => c.(status := Timeout, reason := CandidateDeadline)
        case VerificationError(code) => c.(status := VerificationFailed, reason := Raised(code))
        case SolarError(message) => c.(reason := Raised(message))
        case OSError => c.(reason := CandidateIoFailure)
        case Other => c
  }

  predicate Escapes(candidate: Candidate, budget: Budget, outcome: Outcome) {
    !OverBudget(candidate, budget) && outcome.Threw? && outcome.exception == Other
  }

  function ResumedCandidates(script: Script): map<OrderTree, Candidate> {
    if script.preparation.Ready? then script.preparation.resumed else map[]
  }

  function Handled(planned: seq<Candidate>, budget: Budget, script: Script, i: nat): Candidate
    requires i < |planned|
  {
    var c := planned[i];
    if c.tree in ResumedCandidates(script) then ResumedCandidates(script)[c.tree]
    else Attempted(c, budget, script.outcome(i))
  }

  ghost predicate HandledTo(planned: seq<Candidate>, budget: Budget, script: Script, candidates: seq<Candidate>,
                            cut: nat) {
    && |candidates| == |planned| && cut <= |planned|
    && (forall i :: 0 <= i < cut ==> candidates[i] == Handled(planned, budget, script, i))
    && (forall i :: cut <= i < |planned| ==> candidates[i] == planned[i])
  }

  // ----- where a run ends, from the script alone

  predicate WasResumed(planned: seq<Candidate>, script: Script, i: nat)
    requires i < |planned|
  {
    planned[i].tree in ResumedCandidates(script)
  }

  /** The loop gets past candidate `i`: it is resumed, or begun in time, sealed and survived. */
  predicate Continues(planned: seq<Candidate>, budget: Budget, script: Script, i: nat)
    requires i < |planned|
  {
    && !script.killed(i)
    && (WasResumed(planned, script, i)
        || (script.loopLeft(i) > 0.0 && script.directoryMade(i) && script.isSealed(i)
            && !Escapes(planned[i], budget, script.outcome(i))))
  }

  /** The first candidate that the loop does not get past. */
  ghost function FirstStop(planned: seq<Candidate>, budget: Budget, script: Script, from: nat): (r: nat)
    requires from <= |planned|
    ensures from <= r <= |planned| && (r < |planned| ==> !Continues(planned, budget, script, r))
    ensures forall j :: from <= j < r ==> Continues(planned, budget, script, j)
    decreases |planned| - from
  {
    if from == |planned| || !Continues(planned, budget, script, from) then from
    else FirstStop(planned, budget, script, from + 1)
  }

  lemma {:induction false} FirstStopFrom(planned: seq<Candidate>, budget: Budget, script: Script, from: nat, r: nat)
    requires from <= r <= |planned| && forall j :: from <= j < r ==> Continues(planned, budget, script, j)
    requires r < |planned| ==> !Continues(planned, budget, script, r)
    ensures FirstStop(planned, budget, script, from) == r
    decreases r - from
  {
    if from < r { FirstStopFrom(planned, budget, script, from + 1, r); }
  }

  /** Candidates before `cut` were handled; `raised` tells whether an exception leaves the run. */
  datatype Ending = Ending(raised: bool, stop: StopReason, cut: nat)

  ghost function LoopEnding(planned: seq<Candidate>, budget: Budget, script: Script, total: nat): Ending {
    var r := FirstStop(planned, budget, script, 0);
    if r == |planned| then Ending(false, if r == total then Completed else StopReason.CandidateBudget, r)
    else if script.killed(r) then Ending(true, Interrupted, r)
    else if script.loopLeft(r) <= 0.0 then Ending(false, TotalBudget, r)
    else Ending(true, Interrupted, if script.directoryMade(r) && script.isSealed(r) then r + 1 else r)
  }

  predicate EntersLoop(script: Script) {
    script.startLeft > 0.0 && script.prepareLeft > 0.0 && script.preparation.Ready?
  }

  ghost function PreparedEnding(planned: seq<Candidate>, budget: Budget, script: Script, total: nat): Ending {
    if EntersLoop(script) then LoopEnding(planned, budget, script, total)
    else if script.startLeft <= 0.0 || (script.prepareLeft > 0.0 && script.preparation.OutOfTime?)
    then Ending(false, TotalBudget, 0)
    else Ending(true, Interrupted, 0)
  }

  ghost function EndingOf(planned: seq<Candidate>, budget: Budget, script: Script, total: nat): (e: Ending)
    ensures e.cut <= |planned|
  {
    var e := PreparedEnding(planned, budget, script, total);
    if e.raised then e else
      match script.rules
      case Same => e
      case Changed => Ending(true, IdentityChanged, e.cut)
      case Unread => Ending(true, e.stop, e.cut)
  }

  /** The candidates of the report. */
  ghost function FinalCandidates(planned: seq<Candidate>, budget: Budget, script: Script, total: nat)
    : (r: seq<Candidate>)
    ensures |r| == |planned|
  {
    var e := EndingOf(planned, budget, script, total);
    seq(|planned|, i requires 0 <= i < |planned| =>
      if i < e.cut then Handled(planned, budget, script, i) else planned[i].(reason := Stopped(e.stop)))
  }

  /** Candidate `i` is not resumed and within the work budget, so it is evaluated once it is begun. */
  ghost predicate NeedsWork(planned: seq<Candidate>, budget: Budget, script: Script, i: nat)
    requires i < |planned|
  {
    !WasResumed(planned, script, i) && !OverBudget(planned[i], budget)
  }

  /** The loop reaches candidate `i` and evaluates it, and then its record cannot be sealed. */
  ghost predicate Lost(planned: seq<Candidate>, budget: Budget, script: Script, i: nat) {
    && EntersLoop(script) && i < |planned| && (forall j :: 0 <= j < i ==> Continues(planned, budget, script, j))
    && !script.killed(i) && script.loopLeft(i) > 0.0 && NeedsWork(planned, budget, script, i)
    && script.directoryMade(i) && !script.isSealed(i)
  }

  /** The candidates that a run evaluates. */
  ghost predicate IsEvaluated(planned: seq<Candidate>, budget: Budget, script: Script, cut: nat, i: nat) {
    i < |planned| && NeedsWork(planned, budget, script, i) && (i < cut || Lost(planned, budget, script, i))
  }

  lemma LostAtCut(planned: seq<Candidate>, budget: Budget, script: Script, total: nat, i: nat)
    requires Lost(planned, budget, script, i)
    ensures EndingOf(planned, budget, script, total) == Ending(true, Interrupted, i)
  {
    FirstStopFrom(planned, budget, script, 0, i);
  }

  class OrderExecutor {
    const planned: seq<Candidate>
    const budget: Budget
    const leaves: nat
    var candidates: seq<Candidate>
    var stop: StopReason
    var report: Option<Report>
    ghost var evaluated: set<nat>

    ghost predicate Planned()
    {
      && 2 <= leaves <= MAX_ORDER_LEAVES && IsFresh(planned)
      && exists original, maximum :: IsPlan(Trees(planned), original, leaves, maximum)
    }

    /** The whole run. The candidates are labelled on every way out, also when an exception escapes. */
    method Run(script: Script) returns (raised: bool)
      requires Planned() && candidates == planned && stop == Interrupted && evaluated == {} && report == None
      requires IsResumed(planned, ResumedCandidates(script))
      modifies this
      ensures var e := EndingOf(planned, budget, script, Associations(leaves));
              && candidates == FinalCandidates(planned, budget, script, Associations(leaves))
              && stop == e.stop && (raised <==> e.raised || !script.published)
              && forall i :: i in evaluated <==> IsEvaluated(planned, budget, script, e.cut, i)
      ensures report.Some? <==> script.published
      ensures report.Some? ==> report.value.candidates == candidates && report.value.stop == stop
                               && IsSelection(candidates, Associations(leaves), stop == Completed,
                                              report.value.selection)
    {
      hide IsPlan, IsSelection, Associations, IsEvaluated, PreparedEnding, Handled;
      ghost var cut: nat;
      raised, cut := RunPrepared(script);
      if !raised {
        match script.rules {
          case Same =>
          case Changed => stop, raised := IdentityChanged, true;
          case Unread => raised := true;
        }
      }
      Relabelled(planned, budget, script, Associations(leaves), candidates, stop, cut);
      candidates := seq(|candidates|, i requires 0 <= i < |candidates| reads this =>
        if candidates[i].status == NotRun then candidates[i].(reason := Stopped(stop)) else candidates[i]);
      assert candidates == FinalCandidates(planned, budget, script, Associations(leaves));
      FinalConsistent(planned, budget, script, Associations(leaves));
      PlanWithinTotal(planned, leaves);
      var selection := SelectOrder(candidates, AssociationCount(leaves).value, stop == Completed);
      if script.published {
        report := Some(Report(candidates, stop, selection.value));
      } else {
        raised := true;
      }
    }

    method RunPrepared(script: Script) returns (raised: bool, ghost cut: nat)
      requires Planned() && candidates == planned && stop == Interrupted && evaluated == {}
      requires IsResumed(planned, ResumedCandidates(script))
      modifies this`candidates, this`stop, this`evaluated
      ensures Ending(raised, stop, cut) == PreparedEnding(planned, budget, script, Associations(leaves))
      ensures HandledTo(planned, budget, script, candidates, cut)
      ensures forall i :: i in evaluated <==> IsEvaluated(planned, budget, script, cut, i)
    {
      hide IsPlan, IsFresh, IsResumed, Attempted, OverBudget, Associations, Escapes, AssociationCount,
           HandledTo, Handled, IsEvaluated, Lost, NeedsWork, ResumedCandidates, Continues, FirstStop, WasResumed;
      CountIsExact(leaves);
      NothingHandled(planned, budget, script);
      cut := 0;
      if script.startLeft <= 0.0 {
        stop := TotalBudget;
        return false, 0;
      }
      if script.prepareLeft <= 0.0 {
        return true, 0;
      }
      match script.preparation
      case OutOfTime =>
        stop := TotalBudget;
        return false, 0;
      case Broken =>
        return true, 0;
      case Ready(resumed) =>
        for i := 0 to |planned|
          invariant |candidates| == |planned| && stop == Interrupted
          invariant HandledTo(planned, budget, script, candidates, i)
          invariant Passed(planned, budget, script, i, evaluated)
        {
          var candidate := planned[i];
          StopsHere(planned, budget, script, i, evaluated);
          if script.killed(i) {
            return true, i;
          }
          if candidate.tree in resumed {
            ResumedStep(planned, budget, script, candidates, i, evaluated);
            candidates := candidates[i := resumed[candidate.tree]];
            continue;
          }
          if script.loopLeft(i) <= 0.0 {
            stop := TotalBudget;
            return false, i;
          }
          AttemptedStep(planned, budget, script, candidates, i, evaluated);
          var escaped := Attempt(script, i, candidate);
          if escaped {
            return true, if script.directoryMade(i) && script.isSealed(i) then i + 1 else i;
          }
        }
        AllPassed(planned, budget, script, evaluated);
        stop := if |planned| == AssociationCount(leaves).value then Completed else StopReason.CandidateBudget;
        return false, |planned|;
    }

    method Attempt(script: Script, index: nat, candidate: Candidate) returns (escaped: bool)
      requires index < |candidates|
      modifies this`candidates, this`evaluated
      ensures evaluated == old(evaluated)
                           + if script.directoryMade(index) && !OverBudget(candidate, budget) then {index} else {}
      ensures candidates == if script.directoryMade(index) && script.isSealed(index)
                            then old(candidates)[index := Attempted(candidate, budget, script.outcome(index))]
                            else old(candidates)
      ensures escaped <==>
                || !script.directoryMade(index) || !script.isSealed(index)
                || Escapes(candidate, budget, script.outcome(index))
    {
      if !script.directoryMade(index) {
        return true;
      }
      escaped := false;
      var current := candidate.(status := Failed, reason := InvariantFailure);
      if candidate.cost.macs > budget.maxMacs || candidate.cost.allocatedElements > budget.maxElements {
        current := current.(status := WorkBudget, reason := CandidateWorkBudget);
      } else {
        current := current.(attempted := true);
        evaluated := evaluated + {index};
        match script.outcome(index) {
          case Returned(a) => current := Evaluated(current, a);
          case Threw(e, late) =>
            if late.Some? { current := Evaluated(current, late.value); }
            match e {
              case Deadline => current := current.(status := Timeout, reason := CandidateDeadline);
              case VerificationError(code) => current := current.(status := VerificationFailed, reason := Raised(code));
              case SolarError(message) => current := current.(reason := Raised(message));
              case OSError => current := current.(reason := CandidateIoFailure);
              case Other => escaped := true;
            }
        }
      }
      if !script.isSealed(index) {
        return true;
      }
      candidates := candidates[index := current];
    }
  }

  // ----- one candidate at a time

  lemma NothingHandled(planned: seq<Candidate>, budget: Budget, script: Script)
    ensures HandledTo(planned, budget, script, planned, 0) && Passed(planned, budget, script, 0, {})
    ensures !EntersLoop(script) ==> forall i :: !IsEvaluated(planned, budget, script, 0, i)
  {
  }

  /** The loop got past the candidates before `i` and evaluated those of them that need work. */
  ghost predicate Passed(planned: seq<Candidate>, budget: Budget, script: Script, i: nat, evaluated: set<nat>) {
    && i <= |planned| && (forall j :: 0 <= j < i ==> Continues(planned, budget, script, j))
    && (forall j: nat :: j in evaluated <==> j < i && NeedsWork(planned, budget, script, j))
  }

  /** When the loop stops at `i` without beginning it, the evaluated candidates are those before it. */
  lemma StopsHere(planned: seq<Candidate>, budget: Budget, script: Script, i: nat, evaluated: set<nat>)
    requires Passed(planned, budget, script, i, evaluated) && i < |planned| && script.preparation.Ready?
    ensures WasResumed(planned, script, i) <==> planned[i].tree in script.preparation.resumed
    ensures script.killed(i) || (!WasResumed(planned, script, i) && script.loopLeft(i) <= 0.0) ==>
              && FirstStop(planned, budget, script, 0) == i
              && forall j :: j in evaluated <==> IsEvaluated(planned, budget, script, i, j)
  {
    if script.killed(i) || (!WasResumed(planned, script, i) && script.loopLeft(i) <= 0.0) {
      FirstStopFrom(planned, budget, script, 0, i);
      forall j ensures !Lost(planned, budget, script, j) {
        if Lost(planned, budget, script, j) { LostAtCut(planned, budget, script, 0, j); }
      }
    }
  }

  lemma AllPassed(planned: seq<Candidate>, budget: Budget, script: Script, evaluated: set<nat>)
    requires Passed(planned, budget, script, |planned|, evaluated)
    ensures FirstStop(planned, budget, script, 0) == |planned|
    ensures forall j :: j in evaluated <==> IsEvaluated(planned, budget, script, |planned|, j)
  {
    FirstStopFrom(planned, budget, script, 0, |planned|);
  }

  lemma ResumedStep(planned: seq<Candidate>, budget: Budget, script: Script, candidates: seq<Candidate>, i: nat,
                    evaluated: set<nat>)
    requires i < |planned| == |candidates| && script.preparation.Ready? && !script.killed(i)
    requires HandledTo(planned, budget, script, candidates, i) && Passed(planned, budget, script, i, evaluated)
    requires planned[i].tree in script.preparation.resumed
    ensures HandledTo(planned, budget, script, candidates[i := script.preparation.resumed[planned[i].tree]], i + 1)
    ensures Passed(planned, budget, script, i + 1, evaluated)
  {
  }

  lemma AttemptedStep(planned: seq<Candidate>, budget: Budget, script: Script, candidates: seq<Candidate>, i: nat,
                      evaluated: set<nat>)
    requires i < |planned| == |candidates| && EntersLoop(script) && !script.killed(i) && script.loopLeft(i) > 0.0
    requires HandledTo(planned, budget, script, candidates, i) && Passed(planned, budget, script, i, evaluated)
    requires planned[i].tree !in script.preparation.resumed
    ensures var begun := evaluated + if script.directoryMade(i) && !OverBudget(planned[i], budget) then {i} else {};
            var kept := script.directoryMade(i) && script.isSealed(i);
            var next := if kept then i + 1 else i;
            var after := if kept then candidates[i := Attempted(planned[i], budget, script.outcome(i))] else candidates;
            && HandledTo(planned, budget, script, after, next)
            && (kept && !Escapes(planned[i], budget, script.outcome(i)) ==>
                Passed(planned, budget, script, i + 1, begun))
            && (!kept || Escapes(planned[i], budget, script.outcome(i)) ==>
                  && FirstStop(planned, budget, script, 0) == i
                  && forall j :: j in begun <==> IsEvaluated(planned, budget, script, next, j))
  {
    hide Attempted, Escapes, OverBudget;
    if !Continues(planned, budget, script, i) {
      FirstStopFrom(planned, budget, script, 0, i);
      forall j
        ensures Lost(planned, budget, script, j) <==>
                  j == i && script.directoryMade(i) && !script.isSealed(i) && !OverBudget(planned[i], budget)
      {
        if Lost(planned, budget, script, j) { LostAtCut(planned, budget, script, 0, j); }
      }
    }
  }

  /** Labelling the candidates not run gives the candidates of the report. */
  lemma Relabelled(planned: seq<Candidate>, budget: Budget, script: Script, total: nat, candidates: seq<Candidate>,
                   stop: StopReason, cut: nat)
    requires IsFresh(planned) && IsResumed(planned, ResumedCandidates(script))
    requires HandledTo(planned, budget, script, candidates, cut)
    requires EndingOf(planned, budget, script, total).cut == cut
             && EndingOf(planned, budget, script, total).stop == stop
    ensures |candidates| == |planned|
    ensures seq(|candidates|, i requires 0 <= i < |candidates| =>
              if candidates[i].status == NotRun then candidates[i].(reason := Stopped(stop)) else candidates[i])
         == FinalCandidates(planned, budget, script, total)
  {
    hide EndingOf;
    forall i | 0 <= i < cut ensures candidates[i].status != NotRun {
      HandledRan(planned, budget, script, i);
    }
  }

  lemma HandledRan(planned: seq<Candidate>, budget: Budget, script: Script, i: nat)
    requires IsFresh(planned) && IsResumed(planned, ResumedCandidates(script)) && i < |planned|
    ensures var c := Handled(planned, budget, script, i);
            && c.status != NotRun && c.tree == planned[i].tree && c.cost == planned[i].cost && Consistent(c)
            && (c.attempted && !WasResumed(planned, script, i) <==> NeedsWork(planned, budget, script, i))
            && (CompleteViews(c) <==>
                WasResumed(planned, script, i) || OverBudget(planned[i], budget) || !KeepsView(script.outcome(i)))
  {
    assert planned[i] == Candidate(planned[i].tree, planned[i].cost, NotRun, NotStarted, false, false, None);
  }

  lemma FinalConsistent(planned: seq<Candidate>, budget: Budget, script: Script, total: nat)
    requires IsFresh(planned) && IsResumed(planned, ResumedCandidates(script))
    ensures forall c :: c in FinalCandidates(planned, budget, script, total) ==> Consistent(c)
  {
    hide EndingOf, Handled;
    forall i | 0 <= i < |planned| ensures Consistent(FinalCandidates(planned, budget, script, total)[i]) {
      HandledRan(planned, budget, script, i);
    }
  }

  // ----- selection

  ghost function AttemptedCount(candidates: seq<Candidate>): nat {
    if candidates == [] then 0 else
      AttemptedCount(candidates[..|candidates| - 1]) + if candidates[|candidates| - 1].attempted then 1 else 0
  }

  function Seconds(c: Candidate): real
    requires Consistent(c) && c.status == Analyzed
  {
    c.view.value.value
  }

  /** The best analyzed candidate, the earliest among equals; and what was covered. */
  ghost predicate IsSelection(candidates: seq<Candidate>, total: nat, completed: bool, s: Selection) {
    && (forall c :: c in candidates ==> Consistent(c))
    && (s.candidate == None <==> forall c :: c in candidates ==> c.status != Analyzed)
    && (s.candidate.Some? ==>
        exists k :: 0 <= k < |candidates| && IsFirstBest(candidates, k) && candidates[k].tree == s.candidate.value)
    && (s.exhaustive <==>
          && completed && |candidates| == total
          && forall c :: c in candidates ==> c.status in {Analyzed, VerificationFailed})
    && s.reason == (if s.candidate == None then NoneVerified else if s.exhaustive then Minimum else BestAvailable)
    && s.unexplored == total - AttemptedCount(candidates)
  }

  ghost predicate IsFirstBest(candidates: seq<Candidate>, k: nat)
    requires forall c :: c in candidates ==> Consistent(c)
    requires k < |candidates|
  {
    && candidates[k].status == Analyzed
    && (forall j :: 0 <= j < |candidates| && candidates[j].status == Analyzed ==>
        Seconds(candidates[k]) <= Seconds(candidates[j]))
    && (forall j :: 0 <= j < k && candidates[j].status == Analyzed ==> Seconds(candidates[k]) < Seconds(candidates[j]))
  }

  /** The description leaves no choice: one list of candidates has one selection. */
  lemma SelectionUnique(candidates: seq<Candidate>, total: nat, completed: bool, s: Selection, t: Selection)
    requires IsSelection(candidates, total, completed, s) && IsSelection(candidates, total, completed, t)
    ensures s == t
  {
    if s.candidate.Some? {
      var k :| 0 <= k < |candidates| && IsFirstBest(candidates, k) && candidates[k].tree == s.candidate.value;
      assert candidates[k] in candidates;
      var j :| 0 <= j < |candidates| && IsFirstBest(candidates, j) && candidates[j].tree == t.candidate.value;
      assert j == k;
    }
  }

  ghost function AttemptedPlaces(candidates: seq<Candidate>): set<nat> {
    set i | 0 <= i < |candidates| && candidates[i].attempted
  }

  lemma {:induction false} AttemptedCounted(candidates: seq<Candidate>)
    ensures AttemptedCount(candidates) == |AttemptedPlaces(candidates)|
  {
    if candidates != [] {
      var n := |candidates| - 1;
      AttemptedCounted(candidates[..n]);
      assert AttemptedPlaces(candidates)
          == AttemptedPlaces(candidates[..n]) + if candidates[n].attempted then {n} else {};
    }
  }

  datatype SelectionError = TooManyCandidates | Inconsistent

  method SelectOrder(candidates: seq<Candidate>, total: nat, completed: bool)
    returns (r: Result<Selection, SelectionError>)
    ensures r.Ok? <==> |candidates| <= total && forall c :: c in candidates ==> Consistent(c)
    ensures r == Err(Inconsistent) <==>
              && |candidates| <= total
              && exists c :: c in candidates && match c.status
                   case Analyzed => c.view.None? || c.view.value.None?
                   case Unavailable => c.view.None? || c.view.value.Some?
                   case _ => false
    ensures r.Ok? ==> IsSelection(candidates, total, completed, r.value)
  {
    if |candidates| > total {
      return Err(TooManyCandidates);
    }
    var best: Option<nat>, complete, attempted := None, completed && |candidates| == total, 0;
    for i := 0 to |candidates|
      invariant forall j :: 0 <= j < i ==> Consistent(candidates[j])
      invariant best.None? ==> forall j :: 0 <= j < i ==> candidates[j].status != Analyzed
      invariant best.Some? ==> best.value < i && IsBestOf(candidates, best.value, i)
      invariant complete <==>
                  && completed && |candidates| == total
                  && forall j :: 0 <= j < i ==> candidates[j].status in {Analyzed, VerificationFailed}
      invariant attempted == AttemptedCount(candidates[..i])
    {
      var c := candidates[i];
      assert candidates[..i + 1][..i] == candidates[..i];
      if !Consistent(c) {
        return Err(Inconsistent);
      }
      if c.status == Analyzed && (best.None? || Seconds(c) < Seconds(candidates[best.value])) {
        best := Some(i);
      }
      if c.status != Analyzed && c.status != VerificationFailed { complete := false; }
      if c.attempted { attempted := attempted + 1; }
    }
    assert candidates[..|candidates|] == candidates;
    if best.Some? { assert IsFirstBest(candidates, best.value); }
    r := Ok(Selection(if best.Some? then Some(candidates[best.value].tree) else None,
                      if best.None? then NoneVerified else if complete then Minimum else BestAvailable,
                      complete, total - attempted));
  }

  ghost predicate IsBestOf(candidates: seq<Candidate>, k: nat, n: nat)
    requires k < n <= |candidates| && forall j :: 0 <= j < n ==> Consistent(candidates[j])
  {
    && candidates[k].status == Analyzed
    && (forall j :: 0 <= j < n && candidates[j].status == Analyzed ==> Seconds(candidates[k]) <= Seconds(candidates[j]))
    && (forall j :: 0 <= j < k && candidates[j].status == Analyzed ==> Seconds(candidates[k]) < Seconds(candidates[j]))
  }

  lemma PlanWithinTotal(planned: seq<Candidate>, leaves: nat)
    requires 2 <= leaves <= MAX_ORDER_LEAVES
             && exists original, maximum :: IsPlan(Trees(planned), original, leaves, maximum)
    ensures AssociationCount(leaves) == Ok(Associations(leaves)) && |planned| <= Associations(leaves)
  {
    CountIsExact(leaves);
    var original, maximum :| IsPlan(Trees(planned), original, leaves, maximum);
    assert |Trees(planned)| == |planned|;
  }

  // ----- what a run can be trusted for

  /** No candidate is begun after time ran out, after a termination, or after one whose attempt escaped or was not
      sealed: of the candidates handled, only the last may have escaped, and then the run raises. */
  lemma BudgetObeyed(planned: seq<Candidate>, budget: Budget, script: Script, total: nat, i: nat)
    requires i < EndingOf(planned, budget, script, total).cut
    ensures EntersLoop(script) && !script.killed(i)
    ensures !WasResumed(planned, script, i) ==>
              script.loopLeft(i) > 0.0 && script.directoryMade(i) && script.isSealed(i)
    ensures !WasResumed(planned, script, i) && Escapes(planned[i], budget, script.outcome(i)) ==>
              i + 1 == EndingOf(planned, budget, script, total).cut && EndingOf(planned, budget, script, total).raised
  {
    var r := FirstStop(planned, budget, script, 0);
    if i < r { assert Continues(planned, budget, script, i); }
  }

  /** The loop ends without an exception: every candidate is passed, or the first that is not had no time left. */
  ghost predicate Settles(planned: seq<Candidate>, budget: Budget, script: Script) {
    exists r :: SettlesAt(planned, budget, script, r)
  }

  ghost predicate SettlesAt(planned: seq<Candidate>, budget: Budget, script: Script, r: nat) {
    && r <= |planned| && (forall j :: 0 <= j < r ==> Continues(planned, budget, script, j))
    && (r < |planned| ==> !script.killed(r) && !WasResumed(planned, script, r) && script.loopLeft(r) <= 0.0)
  }

  lemma SettlesAtFirstStop(planned: seq<Candidate>, budget: Budget, script: Script, total: nat)
    ensures Settles(planned, budget, script) <==> !LoopEnding(planned, budget, script, total).raised
  {
    if Settles(planned, budget, script) {
      var k :| SettlesAt(planned, budget, script, k);
      FirstStopFrom(planned, budget, script, 0, k);
    }
    if !LoopEnding(planned, budget, script, total).raised {
      assert SettlesAt(planned, budget, script, FirstStop(planned, budget, script, 0));
    }
  }

  /** The search gets to its rules check. */
  ghost predicate ReachesCheck(planned: seq<Candidate>, budget: Budget, script: Script) {
    if EntersLoop(script) then Settles(planned, budget, script)
    else script.startLeft <= 0.0 || (script.prepareLeft > 0.0 && script.preparation.OutOfTime?)
  }

  ghost predicate AllContinue(planned: seq<Candidate>, budget: Budget, script: Script) {
    EntersLoop(script) && forall i :: 0 <= i < |planned| ==> Continues(planned, budget, script, i)
  }

  /** Time was gone before the loop, or at the first candidate that it does not get past. */
  ghost predicate TimeGone(planned: seq<Candidate>, budget: Budget, script: Script) {
    if EntersLoop(script) then exists r: nat :: r < |planned| && SettlesAt(planned, budget, script, r)
    else script.startLeft <= 0.0 || (script.prepareLeft > 0.0 && script.preparation.OutOfTime?)
  }

  lemma TimeGoneAtFirstStop(planned: seq<Candidate>, budget: Budget, script: Script, total: nat)
    requires EntersLoop(script)
    ensures TimeGone(planned, budget, script) <==> LoopEnding(planned, budget, script, total).stop == TotalBudget
  {
    if TimeGone(planned, budget, script) {
      var k: nat :| k < |planned| && SettlesAt(planned, budget, script, k);
      FirstStopFrom(planned, budget, script, 0, k);
    }
    if LoopEnding(planned, budget, script, total).stop == TotalBudget {
      assert SettlesAt(planned, budget, script, FirstStop(planned, budget, script, 0));
    }
  }

  /** Completion means that every planned candidate was passed, the plan has every association and the rules were not
      seen to change; an interruption, that an exception ended the search before its rules check. */
  lemma WhyStopped(planned: seq<Candidate>, budget: Budget, script: Script, total: nat)
    ensures var e := EndingOf(planned, budget, script, total);
            && (e.stop == Completed <==>
                AllContinue(planned, budget, script) && |planned| == total && script.rules != Changed)
            && (e.stop == Interrupted <==> !ReachesCheck(planned, budget, script))
            && (e.stop == StopReason.CandidateBudget <==>
                  AllContinue(planned, budget, script) && |planned| != total && script.rules != Changed)
            && (e.stop == TotalBudget <==> TimeGone(planned, budget, script) && script.rules != Changed)
            && (e.stop == IdentityChanged <==> ReachesCheck(planned, budget, script) && script.rules == Changed)
            && (e.raised <==> !ReachesCheck(planned, budget, script) || script.rules != Same)
  {
    SettlesAtFirstStop(planned, budget, script, total);
    if EntersLoop(script) { TimeGoneAtFirstStop(planned, budget, script, total); }
    if forall i :: 0 <= i < |planned| ==> Continues(planned, budget, script, i) {
      FirstStopFrom(planned, budget, script, 0, |planned|);
    }
  }

  /** A run that an exception leaves reports another reason than an interruption or changed rules exactly when the
      search reached its rules check and the rules could not be read. */
  lemma RaisesSettled(planned: seq<Candidate>, budget: Budget, script: Script, total: nat)
    ensures var e := EndingOf(planned, budget, script, total);
            e.raised && e.stop != Interrupted && e.stop != IdentityChanged <==>
              ReachesCheck(planned, budget, script) && script.rules == Unread
  {
    WhyStopped(planned, budget, script, total);
  }

  lemma BothAttempted(candidates: seq<Candidate>)
    requires |candidates| == 2 && candidates[0].attempted && candidates[1].attempted
    ensures AttemptedCount(candidates) == 2
  {
    var first := candidates[..1];
    assert first[..0] == [] && first[0] == candidates[0];
    assert AttemptedCount(first) == 1;
  }

  /** A finished search of both associations of three operands whose rule files then cannot be read: it raises, and
      its report claims a minimum over the whole domain. */
  lemma RaisedYetMinimum(cost: OrderCost)
    returns (planned: seq<Candidate>, budget: Budget, script: Script, s: Selection)
    ensures IsFresh(planned) && IsResumed(planned, ResumedCandidates(script)) && script.published
    ensures EndingOf(planned, budget, script, 2) == Ending(true, Completed, 2)
    ensures IsSelection(FinalCandidates(planned, budget, script, 2), 2, true, s) && s.reason == Minimum
  {
    planned := [Candidate([0, 1, -1, 2, -1], cost, NotRun, NotStarted, false, false, None),
                Candidate([0, 1, 2, -1, -1], cost, NotRun, NotStarted, false, false, None)];
    budget := Budget(cost.macs, cost.allocatedElements);
    script := Script(1.0, 1.0, Ready(map[]), i => false, i => 1.0, i => true,
                     i => Returned(Accepted(Some(1.0), "ok")), i => true, Unread, true);
    assert Continues(planned, budget, script, 0) && Continues(planned, budget, script, 1);
    FirstStopFrom(planned, budget, script, 0, 2);
    var done := FinalCandidates(planned, budget, script, 2);
    s := Selection(Some(planned[0].tree), Minimum, true, 0);
    BothAttempted(done);
    assert IsFirstBest(done, 0);
  }

  /** Candidates keep plan order and identity; those not run are a suffix labelled with the stop reason;
      one over the budget is never evaluated. */
  lemma ReportKeepsPlan(planned: seq<Candidate>, budget: Budget, script: Script, total: nat, i: nat)
    requires IsFresh(planned) && IsResumed(planned, ResumedCandidates(script)) && i < |planned|
    ensures var c, e := FinalCandidates(planned, budget, script, total)[i], EndingOf(planned, budget, script, total);
            && c.tree == planned[i].tree && c.cost == planned[i].cost
            && (c.status == NotRun <==> e.cut <= i)
            && (c.status == NotRun ==> c.reason == Stopped(e.stop))
            && (OverBudget(planned[i], budget) ==> !IsEvaluated(planned, budget, script, e.cut, i))
            && (OverBudget(planned[i], budget) && i < e.cut && !WasResumed(planned, script, i) ==>
                  c.status == WorkBudget && !c.attempted)
  {
    hide EndingOf;
    assert planned[i] == Candidate(planned[i].tree, planned[i].cost, NotRun, NotStarted, false, false, None);
    HandledRan(planned, budget, script, i);
  }

  // ----- the report, read off the plan, the budget and the script

  predicate ExceedsLimits(c: Candidate, budget: Budget) {
    budget.maxMacs < c.cost.macs || budget.maxElements < c.cost.allocatedElements
  }

  /** A time was assigned and no exception that discards it came after. */
  predicate KeepsTime(outcome: Outcome) {
    match outcome
    case Returned(a) => a.seconds.Some?
    case Threw(e, late) => late.Some? && late.value.seconds.Some? && !e.Deadline? && !e.VerificationError?
  }

  /** Candidate `j` gets an entry when the loop comes to it: it is handed over by the resumption, or is begun in time
      and sealed. */
  ghost predicate GetsEntry(planned: seq<Candidate>, script: Script, j: nat)
    requires j < |planned| && script.preparation.Ready?
  {
    && !script.killed(j)
    && (planned[j].tree in script.preparation.resumed
        || (script.loopLeft(j) > 0.0 && script.directoryMade(j) && script.isSealed(j)))
  }

  /** An unexpected exception ends the search at candidate `j`. */
  ghost predicate Breaks(planned: seq<Candidate>, budget: Budget, script: Script, j: nat)
    requires j < |planned| && script.preparation.Ready?
  {
    && planned[j].tree !in script.preparation.resumed && !ExceedsLimits(planned[j], budget)
    && script.outcome(j).Threw? && script.outcome(j).exception == Other
  }

  /** Which candidates are handled: the preparation was ready in time, each candidate up to this one gets its entry, and
      none before it ends the search. */
  lemma HandledExactly(planned: seq<Candidate>, budget: Budget, script: Script, total: nat, i: nat)
    requires i < |planned|
    ensures i < EndingOf(planned, budget, script, total).cut <==>
              && script.startLeft > 0.0 && script.prepareLeft > 0.0 && script.preparation.Ready?
              && (forall j :: 0 <= j <= i ==> GetsEntry(planned, script, j))
              && (forall j :: 0 <= j < i ==> !Breaks(planned, budget, script, j))
  {
    if EntersLoop(script) {
      var r := FirstStop(planned, budget, script, 0);
      forall j | 0 <= j < |planned|
        ensures Continues(planned, budget, script, j) <==>
                  GetsEntry(planned, script, j) && !Breaks(planned, budget, script, j)
      {
      }
      if r < |planned| {
        assert LoopEnding(planned, budget, script, total).cut == if GetsEntry(planned, script, r) then r + 1 else r;
      }
    }
  }

  /** What the report says of a candidate that was neither resumed nor left unrun: its status, and with it the reason
      and the view, follow from its cost, the limits and how its evaluation ended. */
  lemma EntryExactly(planned: seq<Candidate>, budget: Budget, script: Script, total: nat, i: nat)
    requires IsFresh(planned) && i < EndingOf(planned, budget, script, total).cut
    requires script.preparation.Ready? ==> planned[i].tree !in script.preparation.resumed
    ensures var c, o := FinalCandidates(planned, budget, script, total)[i], script.outcome(i);
            && (c.status == WorkBudget <==> ExceedsLimits(planned[i], budget))
            && (c.status == VerificationFailed <==>
                  !ExceedsLimits(planned[i], budget) && o.Threw? && o.exception.VerificationError?)
            && (c.status == Timeout <==> !ExceedsLimits(planned[i], budget) && o.Threw? && o.exception.Deadline?)
            && (c.status == Analyzed <==> !ExceedsLimits(planned[i], budget) && KeepsTime(o))
            && (c.status == Failed <==>
                  && !ExceedsLimits(planned[i], budget) && o.Threw? && o.late == None
                  && (o.exception.SolarError? || o.exception.OSError? || o.exception.Other?))
            && c.status != NotRun && !c.resumed && (c.attempted <==> c.status != WorkBudget)
    ensures var c := FinalCandidates(planned, budget, script, total)[i];
            if c.status == WorkBudget then c.reason == CandidateWorkBudget && c.view == None else
              match script.outcome(i)
              case Returned(a) => c.reason == View(a.reason) && c.view == Some(a.seconds)
              case Threw(e, late) =>
                && c.view == (if late.Some? then Some(late.value.seconds) else None)
                && match e
                   case Deadline => c.reason == CandidateDeadline
                   case VerificationError(code) => c.reason == Raised(code)
                   case SolarError(message) => c.reason == Raised(message)
                   case OSError => c.reason == CandidateIoFailure
                   case Other => c.reason == if late.Some? then View(late.value.reason) else InvariantFailure
  {
    hide EndingOf;
    assert planned[i] == Candidate(planned[i].tree, planned[i].cost, NotRun, NotStarted, false, false, None);
  }

  /** Every other candidate: handed over as resumed, or left as planned with the stop reason. */
  lemma OtherEntries(planned: seq<Candidate>, budget: Budget, script: Script, total: nat, i: nat)
    requires i < |planned|
    ensures var c, e := FinalCandidates(planned, budget, script, total)[i], EndingOf(planned, budget, script, total);
            && (e.cut <= i ==> c == planned[i].(reason := Stopped(e.stop)))
            && (i < e.cut && script.preparation.Ready? && planned[i].tree in script.preparation.resumed ==>
                  c == script.preparation.resumed[planned[i].tree])
  {
    hide EndingOf;
  }

  /** The candidate ends analyzed or refuted. */
  ghost predicate Decided(planned: seq<Candidate>, budget: Budget, script: Script, i: nat)
    requires i < |planned| && script.preparation.Ready?
  {
    && GetsEntry(planned, script, i)
    && if planned[i].tree in script.preparation.resumed then
         script.preparation.resumed[planned[i].tree].status in {Analyzed, VerificationFailed}
       else
         && !ExceedsLimits(planned[i], budget) && !Breaks(planned, budget, script, i)
         && (KeepsTime(script.outcome(i))
             || (script.outcome(i).Threw? && script.outcome(i).exception.VerificationError?))
  }

  /** When the report may claim the whole domain: the plan has every association, the rules were not seen to change, the
      preparation was ready in time, and every candidate was analyzed or refuted. */
  lemma ExhaustiveExactly(planned: seq<Candidate>, budget: Budget, script: Script, total: nat, s: Selection)
    requires IsFresh(planned)
    requires IsSelection(FinalCandidates(planned, budget, script, total), total,
                         EndingOf(planned, budget, script, total).stop == Completed, s)
    ensures s.exhaustive <==>
              && |planned| == total && script.rules != Changed
              && script.startLeft > 0.0 && script.prepareLeft > 0.0 && script.preparation.Ready?
              && forall i :: 0 <= i < |planned| ==> Decided(planned, budget, script, i)
  {
    hide EndingOf, IsFresh, ReachesCheck, TimeGone, Handled;
    var candidates, e := FinalCandidates(planned, budget, script, total), EndingOf(planned, budget, script, total);
    WhyStopped(planned, budget, script, total);
    if EntersLoop(script) {
      forall i | 0 <= i < |planned|
        ensures candidates[i] in candidates
        ensures e.cut == |planned| ==>
                  (candidates[i].status in {Analyzed, VerificationFailed} && !Breaks(planned, budget, script, i) <==>
                   Decided(planned, budget, script, i))
        ensures Decided(planned, budget, script, i) ==> Continues(planned, budget, script, i)
        ensures Continues(planned, budget, script, i) ==> !Breaks(planned, budget, script, i)
      {
        OtherEntries(planned, budget, script, total, i);
        HandledExactly(planned, budget, script, total, i);
        if i < e.cut && planned[i].tree !in script.preparation.resumed {
          EntryExactly(planned, budget, script, total, i);
        }
      }
      if e.stop == Completed { CompletedCut(planned, budget, script, total); }
      if AllContinue(planned, budget, script) { AllPassedCut(planned, budget, script, total); }
    }
  }

  lemma AllPassedCut(planned: seq<Candidate>, budget: Budget, script: Script, total: nat)
    requires AllContinue(planned, budget, script)
    ensures EndingOf(planned, budget, script, total).cut == |planned|
  {
    FirstStopFrom(planned, budget, script, 0, |planned|);
  }

  /** One association refuted, the other analyzed: the search is exhaustive and its minimum holds. */
  lemma RefutedYetExhaustive(cost: OrderCost, code: string)
    returns (planned: seq<Candidate>, budget: Budget, script: Script, s: Selection)
    ensures IsFresh(planned) && EndingOf(planned, budget, script, 2) == Ending(false, Completed, 2)
    ensures FinalCandidates(planned, budget, script, 2)[1].status == VerificationFailed
    ensures IsSelection(FinalCandidates(planned, budget, script, 2), 2, true, s)
    ensures s == Selection(Some(planned[0].tree), Minimum, true, 0)
  {
    planned := [Candidate([0, 1, -1, 2, -1], cost, NotRun, NotStarted, false, false, None),
                Candidate([0, 1, 2, -1, -1], cost, NotRun, NotStarted, false, false, None)];
    budget := Budget(cost.macs, cost.allocatedElements);
    var outcome := (i: nat) => if i == 0 then Returned(Accepted(Some(1.0), "ok"))
                               else Threw(VerificationError(code), None);
    script := Script(1.0, 1.0, Ready(map[]), i => false, i => 1.0, i => true, outcome, i => true, Same, true);
    assert Continues(planned, budget, script, 0) && Continues(planned, budget, script, 1);
    FirstStopFrom(planned, budget, script, 0, 2);
    s := Selection(Some(planned[0].tree), Minimum, true, 0);
    BothAttempted(FinalCandidates(planned, budget, script, 2));
    assert IsFirstBest(FinalCandidates(planned, budget, script, 2), 0);
  }

  /** Candidate `i` was evaluated in this run, as the report shows it. */
  ghost predicate ShownEvaluated(planned: seq<Candidate>, script: Script, candidates: seq<Candidate>, i: nat) {
    i < |planned| == |candidates| && candidates[i].attempted && !WasResumed(planned, script, i)
  }

  /** The report shows an evaluation for exactly the candidates that were evaluated, unless the loop reaches a
      candidate whose record cannot be sealed after its evaluation: that one is reported as not run. */
  lemma EvaluationsReported(planned: seq<Candidate>, budget: Budget, script: Script, total: nat)
    requires IsFresh(planned) && IsResumed(planned, ResumedCandidates(script))
    ensures var candidates := FinalCandidates(planned, budget, script, total);
            var cut := EndingOf(planned, budget, script, total).cut;
            (forall i: nat :: IsEvaluated(planned, budget, script, cut, i) <==>
             ShownEvaluated(planned, script, candidates, i))
            <==> !exists i :: Lost(planned, budget, script, i)
  {
    hide EndingOf, Handled;
    var candidates := FinalCandidates(planned, budget, script, total);
    var cut := EndingOf(planned, budget, script, total).cut;
    forall i: nat
      ensures (IsEvaluated(planned, budget, script, cut, i) <==> ShownEvaluated(planned, script, candidates, i))
         <==> !Lost(planned, budget, script, i)
    {
      if Lost(planned, budget, script, i) { LostAtCut(planned, budget, script, total, i); }
      if i < |planned| {
        HandledRan(planned, budget, script, i);
        assert planned[i] == Candidate(planned[i].tree, planned[i].cost, NotRun, NotStarted, false, false, None);
      }
    }
  }

  /** One candidate, evaluated and then not sealed: it is reported as not run. */
  lemma EvaluatedYetNotRun(cost: OrderCost) returns (planned: seq<Candidate>, budget: Budget, script: Script)
    ensures IsFresh(planned) && IsResumed(planned, ResumedCandidates(script)) && Lost(planned, budget, script, 0)
    ensures IsEvaluated(planned, budget, script, EndingOf(planned, budget, script, 2).cut, 0)
    ensures FinalCandidates(planned, budget, script, 2)[0].status == NotRun
  {
    planned := [Candidate([0, 1, -1, 2, -1], cost, NotRun, NotStarted, false, false, None)];
    budget := Budget(cost.macs, cost.allocatedElements);
    script := Script(1.0, 1.0, Ready(map[]), i => false, i => 1.0, i => true,
                     i => Returned(Accepted(Some(1.0), "ok")), i => false, Same, true);
    assert Lost(planned, budget, script, 0);
    LostAtCut(planned, budget, script, 2, 0);
  }

  /** An exception that changes the status arrives after the views were assigned. */
  predicate KeepsView(outcome: Outcome) {
    outcome.Threw? && outcome.late.Some? && (outcome.exception.Deadline? || outcome.exception.VerificationError?)
  }

  /** A report can be read back exactly when no evaluated candidate met such an exception. */
  lemma ReportReadable(planned: seq<Candidate>, budget: Budget, script: Script, total: nat)
    requires IsFresh(planned) && IsResumed(planned, ResumedCandidates(script))
    ensures (forall c :: c in FinalCandidates(planned, budget, script, total) ==> CompleteViews(c)) <==>
              forall i :: 0 <= i < EndingOf(planned, budget, script, total).cut && NeedsWork(planned, budget, script, i)
                          ==> !KeepsView(script.outcome(i))
  {
    hide EndingOf, Handled;
    var candidates := FinalCandidates(planned, budget, script, total);
    var cut := EndingOf(planned, budget, script, total).cut;
    forall i: nat | i < |planned|
      ensures candidates[i] in candidates
      ensures CompleteViews(candidates[i]) <==>
                (i < cut && NeedsWork(planned, budget, script, i) ==> !KeepsView(script.outcome(i)))
    {
      HandledRan(planned, budget, script, i);
      assert planned[i] == Candidate(planned[i].tree, planned[i].cost, NotRun, NotStarted, false, false, None);
    }
  }

  /** One candidate whose deadline fires after its views were assigned: a timeout that carries an estimate. */
  lemma LateDeadline(cost: OrderCost) returns (planned: seq<Candidate>, budget: Budget, script: Script)
    ensures IsFresh(planned) && IsResumed(planned, ResumedCandidates(script))
    ensures EndingOf(planned, budget, script, 2) == Ending(false, StopReason.CandidateBudget, 1)
    ensures var c := FinalCandidates(planned, budget, script, 2)[0]; c.status == Timeout && !CompleteViews(c)
  {
    planned := [Candidate([0, 1, -1, 2, -1], cost, NotRun, NotStarted, false, false, None)];
    budget := Budget(cost.macs, cost.allocatedElements);
    script := Script(1.0, 1.0, Ready(map[]), i => false, i => 1.0, i => true,
                     i => Threw(Deadline, Some(Accepted(Some(1.0), "ok"))), i => true, Same, true);
    assert Continues(planned, budget, script, 0);
    FirstStopFrom(planned, budget, script, 0, 1);
  }

  /** A search that reports completion handled every association of the chain. */
  lemma CompletedCoversAll(planned: seq<Candidate>, budget: Budget, script: Script, leaves: nat, original: OrderTree,
                           maximum: nat, tree: OrderTree) returns (i: nat)
    requires 2 <= leaves <= MAX_ORDER_LEAVES && IsFresh(planned) && IsResumed(planned, ResumedCandidates(script))
    requires IsPlan(Trees(planned), original, leaves, maximum) && HasOrder(tree, leaves)
    requires EndingOf(planned, budget, script, Associations(leaves)).stop == Completed
    ensures var candidates := FinalCandidates(planned, budget, script, Associations(leaves));
            && i < |candidates| && candidates[i].tree == tree && candidates[i].status != NotRun
            && candidates[i] == Handled(planned, budget, script, i)
  {
    hide IsPlan, HasOrder, Associations, Handled, EndingOf, AllContinue, ReachesCheck;
    var total := Associations(leaves);
    WhyStopped(planned, budget, script, total);
    CompletedCut(planned, budget, script, total);
    CountIsExact(leaves);
    FullPlanCoversAll(Trees(planned), original, leaves, maximum);
    assert tree in Trees(planned);
    i :| 0 <= i < |Trees(planned)| && Trees(planned)[i] == tree;
    HandledRan(planned, budget, script, i);
  }

  lemma CompletedCut(planned: seq<Candidate>, budget: Budget, script: Script, total: nat)
    requires EndingOf(planned, budget, script, total).stop == Completed
    ensures EndingOf(planned, budget, script, total).cut == |planned| == total
  {
  }

  /** A minimum over the exhaustive domain: every association of the chain was analyzed or refuted
      by verification, and the selected one is as fast as any analyzed one. */
  lemma ExhaustiveMinimum(planned: seq<Candidate>, budget: Budget, script: Script, leaves: nat, original: OrderTree,
                          maximum: nat, s: Selection, tree: OrderTree) returns (i: nat, k: nat)
    requires 2 <= leaves <= MAX_ORDER_LEAVES && IsFresh(planned) && IsResumed(planned, ResumedCandidates(script))
    requires IsPlan(Trees(planned), original, leaves, maximum) && HasOrder(tree, leaves)
    requires var total := Associations(leaves);
             IsSelection(FinalCandidates(planned, budget, script, total), total,
                         EndingOf(planned, budget, script, total).stop == Completed, s)
    requires s.reason == Minimum
    ensures var candidates := FinalCandidates(planned, budget, script, Associations(leaves));
            && i < |candidates| && candidates[i].tree == tree && candidates[i].status in {Analyzed, VerificationFailed}
            && k < |candidates| && s.candidate == Some(candidates[k].tree) && candidates[k].status == Analyzed
            && Consistent(candidates[i]) && Consistent(candidates[k])
            && (candidates[i].status == Analyzed ==> Seconds(candidates[k]) <= Seconds(candidates[i]))
  {
    hide IsPlan, HasOrder, Associations, Handled, EndingOf, FinalCandidates, IsFresh, IsResumed;
    var candidates := FinalCandidates(planned, budget, script, Associations(leaves));
    i := CompletedCoversAll(planned, budget, script, leaves, original, maximum, tree);
    assert candidates[i] in candidates;
    k :| 0 <= k < |candidates| && IsFirstBest(candidates, k) && candidates[k].tree == s.candidate.value;
  }
}
