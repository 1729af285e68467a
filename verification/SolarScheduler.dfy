/** The bounded parallel scheduler for SOLAR cases, as a trace of what it does. */
module SolarScheduler {
  import opened Sets

  /** Cases are numbered 1, 2, ... in selection order. `Wait` is one return of the wait call
      with the futures that are done. */
  datatype Event = Submit(position: nat) | Wait(done: set<nat>) | Finish(position: nat) | Fail(position: nat)

  ghost function Submitted(trace: seq<Event>): seq<nat> {
    if trace == [] then [] else
      var e := trace[|trace| - 1];
      Submitted(trace[..|trace| - 1]) + if e.Submit? then [e.position] else []
  }

  ghost function Active(trace: seq<Event>): set<nat> {
    if trace == [] then {} else
      After(Active(trace[..|trace| - 1]), trace[|trace| - 1])
  }

  ghost function After(active: set<nat>, e: Event): set<nat> {
    match e
    case Submit(p) => active + {p}
    case Wait(_) => active
    case Finish(p) => active - {p}
    case Fail(p) => active - {p}
  }

  ghost function Finished(trace: seq<Event>): set<nat> {
    if trace == [] then {} else
      var e := trace[|trace| - 1];
      Finished(trace[..|trace| - 1]) + if e.Finish? then {e.position} else {}
  }

  ghost predicate Failed(trace: seq<Event>) {
    exists i :: 0 <= i < |trace| && trace[i].Fail?
  }

  ghost function Smaller(a: int, b: int): int {
    if a < b then a else b
  }

  /** What may happen next after `before`. */
  ghost predicate Allowed(before: seq<Event>, e: Event, total: nat, jobs: nat, fails: nat -> bool) {
    && !Failed(before)
    && match e
       case Submit(p) => p == |Submitted(before)| + 1 && p <= total && |Active(before)| < jobs
       case Wait(done) =>
         && done != {} && done <= Active(before)
         && |Active(before)| == Smaller(jobs, total - |Finished(before)|)
       case Finish(p) => p in Active(before) && !fails(p)
       case Fail(p) => p in Active(before) && fails(p)
  }

  ghost predicate Run(trace: seq<Event>, total: nat, jobs: nat, fails: nat -> bool) {
    forall i :: 0 <= i < |trace| ==> Allowed(trace[..i], trace[i], total, jobs, fails)
  }

  ghost predicate InOrder(s: seq<nat>) {
    forall i :: 0 <= i < |s| ==> s[i] == i + 1
  }

  lemma Extend(trace: seq<Event>, e: Event, total: nat, jobs: nat, fails: nat -> bool)
    requires Run(trace, total, jobs, fails) && Allowed(trace, e, total, jobs, fails)
    ensures Run(trace + [e], total, jobs, fails)
    ensures Submitted(trace + [e]) == if e.Submit? then Submitted(trace) + [e.position] else Submitted(trace)
    ensures Finished(trace + [e]) == if e.Finish? then Finished(trace) + {e.position} else Finished(trace)
    ensures Active(trace + [e]) == After(Active(trace), e)
    ensures Failed(trace + [e]) <==> e.Fail?
  {
    var next := trace + [e];
    assert next[..|trace|] == trace;
    forall i | 0 <= i < |next| ensures Allowed(next[..i], next[i], total, jobs, fails) {
      if i < |trace| { assert next[..i] == trace[..i]; }
    }
    if e.Fail? { assert next[|trace|].Fail?; }
  }

  ghost predicate Counts(active: set<nat>, finished: set<nat>, n: nat, total: nat, jobs: nat) {
    && n <= total && |active| <= jobs && active !! finished
    && forall p :: p in active || p in finished ==> 1 <= p <= n
  }

  ghost predicate Bounded(trace: seq<Event>, total: nat, jobs: nat, fails: nat -> bool) {
    && InOrder(Submitted(trace))
    && Counts(Active(trace), Finished(trace), |Submitted(trace)|, total, jobs)
    && (!Failed(trace) ==> |Active(trace)| + |Finished(trace)| == |Submitted(trace)|)
    && (forall p :: p in Finished(trace) ==> !fails(p))
  }

  lemma NextInOrder(s: seq<nat>)
    requires InOrder(s)
    ensures InOrder(s + [|s| + 1])
  {
  }

  lemma CountsStep(active: set<nat>, finished: set<nat>, n: nat, total: nat, jobs: nat, p: nat)
    requires Counts(active, finished, n, total, jobs)
    ensures n < total && |active| < jobs && p == n + 1 ==>
              Counts(active + {p}, finished, p, total, jobs) && |active + {p}| == |active| + 1
    ensures p in active ==>
              && Counts(active - {p}, finished + {p}, n, total, jobs) && Counts(active - {p}, finished, n, total, jobs)
              && |active - {p}| == |active| - 1 && |finished + {p}| == |finished| + 1
  {
    if p == n + 1 { assert p !in active; }
  }

  lemma BoundedStep(trace: seq<Event>, e: Event, total: nat, jobs: nat, fails: nat -> bool)
    requires Run(trace, total, jobs, fails) && Allowed(trace, e, total, jobs, fails)
    requires Bounded(trace, total, jobs, fails)
    ensures Bounded(trace + [e], total, jobs, fails)
  {
    Extend(trace, e, total, jobs, fails);
    hide Submitted, Active, Finished, Run, Counts, Failed, InOrder;
    NextInOrder(Submitted(trace));
    if !e.Wait? { CountsStep(Active(trace), Finished(trace), |Submitted(trace)|, total, jobs, e.position); }
  }

  /** In any run the cases are submitted in order, each at most once, and every case that was
      submitted is active, finished, or failed; the limit holds throughout. */
  lemma {:induction false} RunBounds(trace: seq<Event>, total: nat, jobs: nat, fails: nat -> bool)
    requires Run(trace, total, jobs, fails)
    ensures Bounded(trace, total, jobs, fails)
  {
    hide Bounded, Run, Allowed;
    if trace == [] {
      EmptyBounded(total, jobs, fails);
    } else {
      var before, e := trace[..|trace| - 1], trace[|trace| - 1];
      RunPrefix(trace, total, jobs, fails);
      RunBounds(before, total, jobs, fails);
      BoundedStep(before, e, total, jobs, fails);
      assert trace == before + [e];
    }
  }

  lemma EmptyBounded(total: nat, jobs: nat, fails: nat -> bool)
    ensures Bounded([], total, jobs, fails)
  {
  }

  lemma RunPrefix(trace: seq<Event>, total: nat, jobs: nat, fails: nat -> bool)
    requires Run(trace, total, jobs, fails) && trace != []
    ensures Run(trace[..|trace| - 1], total, jobs, fails)
    ensures Allowed(trace[..|trace| - 1], trace[|trace| - 1], total, jobs, fails)
  {
    hide Allowed;
    var before := trace[..|trace| - 1];
    forall i | 0 <= i < |before| ensures Allowed(before[..i], before[i], total, jobs, fails) {
      assert before[..i] == trace[..i] && before[i] == trace[i];
    }
  }

  /** After a failure nothing more is done: a failure is the last event. */
  lemma NothingAfterFailure(trace: seq<Event>, total: nat, jobs: nat, fails: nat -> bool, i: nat, j: nat)
    requires Run(trace, total, jobs, fails) && i < j < |trace|
    ensures !trace[i].Fail?
  {
    assert trace[..j][i] == trace[i];
    assert Allowed(trace[..j], trace[j], total, jobs, fails);
  }

  /** Each event of a run, in terms of the cases submitted and finished before it: the next case is submitted while
      fewer than `jobs` are out; a wait comes only when as many are out as the limit and the unfinished cases allow, and
      returns some of them; a case finishes or fails after it was submitted, as it does or does not fail. */
  lemma EachEvent(trace: seq<Event>, total: nat, jobs: nat, fails: nat -> bool, i: nat)
    requires Run(trace, total, jobs, fails) && i < |trace|
    ensures var submitted, finished := |Submitted(trace[..i])|, Finished(trace[..i]);
            match trace[i]
            case Submit(p) => p == submitted + 1 <= total && submitted - |finished| < jobs
            case Wait(done) =>
              && done != {} && (forall p :: p in done ==> 1 <= p <= submitted && p !in finished)
              && (submitted - |finished| == jobs || (submitted == total && submitted - |finished| < jobs))
            case Finish(p) => 1 <= p <= submitted && p !in finished && !fails(p)
            case Fail(p) => 1 <= p <= submitted && p !in finished && fails(p)
  {
    RunUpTo(trace, total, jobs, fails, i);
    RunBounds(trace[..i], total, jobs, fails);
    assert Allowed(trace[..i], trace[i], total, jobs, fails);
  }

  lemma RunUpTo(trace: seq<Event>, total: nat, jobs: nat, fails: nat -> bool, i: nat)
    requires Run(trace, total, jobs, fails) && i <= |trace|
    ensures Run(trace[..i], total, jobs, fails)
  {
    hide Allowed;
    forall k | 0 <= k < i ensures Allowed(trace[..i][..k], trace[..i][k], total, jobs, fails) {
      assert trace[..i][..k] == trace[..k];
    }
  }

  /** A run that has not failed, with what is active and finished and `n` cases submitted. */
  ghost predicate At(trace: seq<Event>, total: nat, jobs: nat, fails: nat -> bool, active: set<nat>, finished: set<nat>,
                     n: nat) {
    && Run(trace, total, jobs, fails) && !Failed(trace)
    && Active(trace) == active && Finished(trace) == finished && |Submitted(trace)| == n
  }

  lemma AtBounds(trace: seq<Event>, total: nat, jobs: nat, fails: nat -> bool, active: set<nat>, finished: set<nat>,
                 n: nat)
    requires At(trace, total, jobs, fails, active, finished, n)
    ensures |active| + |finished| == n <= total && |active| <= jobs && active !! finished
    ensures active + finished == Numbers(n)
    ensures forall p :: p in finished ==> !fails(p)
  {
    RunBounds(trace, total, jobs, fails);
    assert |active + finished| == n;
    SameSize(active + finished, Numbers(n));
  }

  lemma SubmitStep(trace: seq<Event>, total: nat, jobs: nat, fails: nat -> bool, active: set<nat>, finished: set<nat>,
                   n: nat)
    requires At(trace, total, jobs, fails, active, finished, n) && n < total && |active| < jobs
    ensures At(trace + [Submit(n + 1)], total, jobs, fails, active + {n + 1}, finished, n + 1)
    ensures |active + {n + 1}| == |active| + 1
  {
    AtBounds(trace, total, jobs, fails, active, finished, n);
    Extend(trace, Submit(n + 1), total, jobs, fails);
    assert n + 1 !in active + finished;
  }

  lemma WaitStep(trace: seq<Event>, total: nat, jobs: nat, fails: nat -> bool, active: set<nat>, finished: set<nat>,
                 n: nat, done: set<nat>)
    requires At(trace, total, jobs, fails, active, finished, n) && done != {} && done <= active
    requires |active| == Smaller(jobs, total - |finished|)
    ensures At(trace + [Wait(done)], total, jobs, fails, active, finished, n)
  {
    Extend(trace, Wait(done), total, jobs, fails);
  }

  lemma FinishStep(trace: seq<Event>, total: nat, jobs: nat, fails: nat -> bool, active: set<nat>, finished: set<nat>,
                   n: nat, p: nat)
    requires At(trace, total, jobs, fails, active, finished, n) && p in active && !fails(p)
    ensures At(trace + [Finish(p)], total, jobs, fails, active - {p}, finished + {p}, n)
  {
    Extend(trace, Finish(p), total, jobs, fails);
  }

  lemma FailStep(trace: seq<Event>, total: nat, jobs: nat, fails: nat -> bool, active: set<nat>, finished: set<nat>,
                 n: nat, p: nat)
    requires At(trace, total, jobs, fails, active, finished, n) && p in active && fails(p)
    ensures Run(trace + [Fail(p)], total, jobs, fails) && Failed(trace + [Fail(p)])
    ensures 1 <= p <= total
  {
    AtBounds(trace, total, jobs, fails, active, finished, n);
    assert p in active + finished;
    Extend(trace, Fail(p), total, jobs, fails);
  }

  /** One worker pool run over `total` cases. `fails` says which cases raise; which futures a
      wait returns is left open. */
  method RunParallel(total: nat, jobs: nat, fails: nat -> bool) returns (trace: seq<Event>, raised: bool)
    requires jobs >= 1
    ensures Run(trace, total, jobs, fails)
    ensures raised <==> Failed(trace)
    ensures raised <==> exists p :: 1 <= p <= total && fails(p)
    ensures !raised ==> |Submitted(trace)| == total && Active(trace) == {} && Finished(trace) == Numbers(total)
  {
    hide Run, Failed, Active, Finished, Submitted, At, Numbers, Smaller;
    trace, raised := [], false;
    var n: nat, active: set<nat> := 0, {};
    ghost var finished: set<nat> := {};
    EmptyRun(total, jobs, fails);
    var first := if jobs < total then jobs else total;
    while n < first
      invariant n <= first && At(trace, total, jobs, fails, active, finished, n) && |active| == n
    {
      SubmitStep(trace, total, jobs, fails, active, finished, n);
      trace, active, n := trace + [Submit(n + 1)], active + {n + 1}, n + 1;
    }
    AtBounds(trace, total, jobs, fails, active, finished, n);
    assert |active| == Smaller(jobs, total - |finished|) by { FirstRefill(active, finished, jobs, total, n); }
    while active != {}
      invariant !raised && At(trace, total, jobs, fails, active, finished, n)
      invariant |active| == Smaller(jobs, total - |finished|) && |finished| <= total
      decreases total - |finished|
    {
      trace, active, n, raised, finished := Round(trace, active, n, total, jobs, fails, finished);
      if raised {
        return;
      }
    }
    AtBounds(trace, total, jobs, fails, active, finished, n);
    NoneLeft(finished, jobs, total);
    AtEnd(trace, total, jobs, fails, finished);
    forall p | 1 <= p <= total ensures !fails(p) {
      assert p in Numbers(total);
    }
  }

  /** One wait: take the results that are done, then refill. */
  method Round(trace: seq<Event>, active: set<nat>, n: nat, total: nat, ghost jobs: nat, fails: nat -> bool,
               ghost finished: set<nat>)
    returns (trace': seq<Event>, active': set<nat>, n': nat, raised: bool, ghost finished': set<nat>)
    requires At(trace, total, jobs, fails, active, finished, n)
    requires active != {} && |active| == Smaller(jobs, total - |finished|)
    ensures raised ==> Run(trace', total, jobs, fails) && Failed(trace') && exists p :: 1 <= p <= total && fails(p)
    ensures !raised ==> At(trace', total, jobs, fails, active', finished', n')
    ensures !raised ==> |active'| == Smaller(jobs, total - |finished'|) && |finished| < |finished'| <= total
  {
    hide Run, Failed, Active, Finished, Submitted, At, Numbers, Smaller;
    n', active', finished' := n, active, finished;
    var done :| done != {} && done <= active;
    AtBounds(trace, total, jobs, fails, active, finished, n);
    WaitStep(trace, total, jobs, fails, active, finished, n, done);
    ghost var left;
    trace', raised, left := Collect(trace + [Wait(done)], active, done, total, jobs, fails, finished, n);
    if raised {
      return;
    }
    SplitSizes(active, finished, done);
    AtBounds(trace', total, jobs, fails, active - done, finished + done, n);
    finished' := finished + done;
    trace', active', n' := Refill(trace', active - done, n, |done|, total, jobs, fails, finished');
  }

  lemma FirstRefill(active: set<nat>, finished: set<nat>, jobs: nat, total: nat, n: nat)
    requires |active| == n && finished == {} && n == if jobs < total then jobs else total
    ensures |active| == Smaller(jobs, total - |finished|)
  {
  }

  lemma NoneLeft(finished: set<nat>, jobs: nat, total: nat)
    requires jobs >= 1 && 0 == Smaller(jobs, total - |finished|)
    ensures |finished| == total
  {
  }

  lemma SplitSizes(active: set<nat>, finished: set<nat>, done: set<nat>)
    requires done <= active && active !! finished
    ensures |active| == |active - done| + |done| && |finished + done| == |finished| + |done|
  {
  }

  lemma AtEnd(trace: seq<Event>, total: nat, jobs: nat, fails: nat -> bool, finished: set<nat>)
    requires At(trace, total, jobs, fails, {}, finished, total)
    ensures Run(trace, total, jobs, fails) && !Failed(trace)
    ensures |Submitted(trace)| == total && Active(trace) == {} && Finished(trace) == Numbers(total) == finished
  {
    AtBounds(trace, total, jobs, fails, {}, finished, total);
    assert {} + finished == finished;
  }

  lemma EmptyRun(total: nat, jobs: nat, fails: nat -> bool)
    ensures At([], total, jobs, fails, {}, {}, 0)
  {
  }

  /** The case whose result an event is. */
  ghost predicate IsResult(e: Event) {
    e.Finish? || e.Fail?
  }

  ghost predicate Ascending(events: seq<Event>) {
    && (forall i :: 0 <= i < |events| ==> IsResult(events[i]))
    && forall i, j :: 0 <= i < j < |events| ==> events[i].position < events[j].position
  }

  ghost predicate HasResult(events: seq<Event>, p: nat) {
    exists i :: 0 <= i < |events| && IsResult(events[i]) && events[i].position == p
  }

  /** The results of `done` that come before `rest`, ascending; everything left is higher. */
  ghost predicate TakenFrom(events: seq<Event>, done: set<nat>, rest: set<nat>) {
    && Ascending(events) && rest <= done
    && (forall p :: HasResult(events, p) <==> p in done - rest)
    && forall i, q :: 0 <= i < |events| && q in rest ==> events[i].position < q
  }

  lemma TakeLowest(events: seq<Event>, done: set<nat>, rest: set<nat>, e: Event)
    requires TakenFrom(events, done, rest) && IsResult(e) && e.position in rest
    requires forall q :: q in rest ==> e.position <= q
    ensures TakenFrom(events + [e], done, rest - {e.position})
  {
    forall p ensures HasResult(events + [e], p) <==> HasResult(events, p) || p == e.position {
      if HasResult(events, p) {
        var i :| 0 <= i < |events| && IsResult(events[i]) && events[i].position == p;
        assert (events + [e])[i] == events[i];
      }
      if p == e.position { assert (events + [e])[|events|] == e; }
    }
  }

  /** Take the results of the done futures, lowest position first, up to the first failure. */
  method Collect(trace: seq<Event>, active: set<nat>, done: set<nat>, total: nat, ghost jobs: nat, fails: nat -> bool,
                 ghost finished: set<nat>, ghost n: nat)
    returns (trace': seq<Event>, raised: bool, ghost left: set<nat>)
    requires At(trace, total, jobs, fails, active, finished, n) && done <= active
    ensures raised ==> Run(trace', total, jobs, fails) && Failed(trace') && exists p :: 1 <= p <= total && fails(p)
    ensures !raised ==> At(trace', total, jobs, fails, active - done, finished + done, n)
    ensures trace <= trace' && TakenFrom(trace'[|trace|..], done, left)
    ensures !raised ==> left == {}
    ensures raised ==> |trace| < |trace'| && trace'[|trace'| - 1].Fail?
    ensures forall i :: |trace| <= i < |trace'| && trace'[i].Fail? ==> raised && i == |trace'| - 1
  {
    hide Run, Failed, Active, Finished, Submitted, At, TakenFrom;
    var rest := done;
    trace', raised := trace, false;
    ghost var results: seq<Event> := [];
    NothingTaken(done);
    assert active - (done - rest) == active && finished + (done - rest) == finished;
    while rest != {}
      invariant rest <= done && At(trace', total, jobs, fails, active - (done - rest), finished + (done - rest), n)
      invariant trace' == trace + results && TakenFrom(results, done, rest)
      invariant forall i :: 0 <= i < |results| ==> !results[i].Fail?
      decreases rest
    {
      var p := Lowest(rest);
      if fails(p) {
        FailStep(trace', total, jobs, fails, active - (done - rest), finished + (done - rest), n, p);
        TakeLowest(results, done, rest, Fail(p));
        results := results + [Fail(p)];
        trace', raised, left := trace' + [Fail(p)], true, rest - {p};
        assert trace' == trace + results && trace'[|trace|..] == results;
        return;
      }
      FinishStep(trace', total, jobs, fails, active - (done - rest), finished + (done - rest), n, p);
      assert active - (done - (rest - {p})) == active - (done - rest) - {p};
      assert finished + (done - (rest - {p})) == finished + (done - rest) + {p};
      TakeLowest(results, done, rest, Finish(p));
      results := results + [Finish(p)];
      trace', rest := trace' + [Finish(p)], rest - {p};
    }
    left := {};
    assert done - rest == done && trace'[|trace|..] == results;
  }

  lemma NothingTaken(done: set<nat>)
    ensures TakenFrom([], done, done)
  {
  }

  method Lowest(s: set<nat>) returns (p: nat)
    requires s != {}
    ensures p in s && forall q :: q in s ==> p <= q
  {
    p :| p in s;
    var rest := s;
    while rest != {}
      invariant rest <= s && p in s && forall q :: q in s ==> q in rest || p <= q
      decreases rest
    {
      var q :| q in rest;
      if q < p { p := q; }
      rest := rest - {q};
    }
  }

  /** Submit one pending case for each completed one, while any are left. */
  method Refill(trace: seq<Event>, active: set<nat>, n: nat, completed: nat, total: nat, ghost jobs: nat,
                ghost fails: nat -> bool,
                ghost finished: set<nat>)
    returns (trace': seq<Event>, active': set<nat>, n': nat)
    requires At(trace, total, jobs, fails, active, finished, n)
    requires |active| + |finished| == n <= total && |finished| >= completed
    requires |active| + completed == Smaller(jobs, total - (|finished| - completed))
    ensures At(trace', total, jobs, fails, active', finished, n')
    ensures |active'| == Smaller(jobs, total - |finished|)
  {
    hide Run, Failed, Active, Finished, Submitted, At;
    trace', active', n' := trace, active, n;
    var i := 0;
    while i < completed && n' < total
      invariant i <= completed && n' == n + i && n' <= total
      invariant At(trace', total, jobs, fails, active', finished, n') && |active'| == |active| + i
    {
      SubmitStep(trace', total, jobs, fails, active', finished, n');
      trace', active', n' := trace' + [Submit(n' + 1)], active' + {n' + 1}, n' + 1;
      i := i + 1;
    }
  }
}
