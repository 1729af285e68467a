/** Committing staged case directories: renames that are undone when a later step fails. */
module SourceTransition {

  datatype Path = Path(name: string)
  /** A directory tree, compared through its inventory. */
  type Tree = nat
  type Dirs = map<Path, Tree>

  /** One case: its staged copy, its place in the target root with the directory above it, and its recorded
      inventory. */
  datatype Prepared = Prepared(staged: Path, target: Path, parent: Path, inventory: Tree)

  /** How one rename ends. `Interrupted` is an exception raised after the directory moved but
      before the move was noted. */
  datatype Rename = Done | Refused | Interrupted
  /** How writing the receipt ends. `Published` is an exception raised after the file was put in place. */
  datatype Write = Written | Lost | Published

  datatype Script = Script(parentMade: nat -> bool, rename: nat -> Rename, evidenceHolds: nat -> bool,
                           solarHolds: nat -> bool, write: Write)
  datatype Plan = Plan(prepared: seq<Prepared>, receiptPath: Path, receipt: nat, verifySolar: bool)

  ghost predicate Distinct(plan: Plan) {
    && (forall i, j :: 0 <= i < j < |plan.prepared| ==>
      plan.prepared[i].target != plan.prepared[j].target && plan.prepared[i].staged != plan.prepared[j].staged)
    && (forall i, j :: 0 <= i < |plan.prepared| && 0 <= j < |plan.prepared| ==>
        plan.prepared[i].staged != plan.prepared[j].target)
  }

  function Move(dirs: Dirs, source: Path, target: Path): Dirs
    requires source in dirs
  {
    (dirs - {source})[target := dirs[source]]
  }

  /** The next rename finds what it needs. */
  predicate CanMove(dirs: Dirs, plan: Plan, k: nat)
    requires k < |plan.prepared|
  {
    plan.prepared[k].staged in dirs && plan.prepared[k].target !in dirs
  }

  predicate Reports(dirs: Dirs, plan: Plan, script: Script, k: nat)
    requires k < |plan.prepared|
  {
    && plan.prepared[k].target in dirs
    && dirs[plan.prepared[k].target] == plan.prepared[k].inventory
    && script.evidenceHolds(k)
    && (plan.verifySolar ==> script.solarHolds(k))
  }

  predicate TargetsFree(dirs: Dirs, plan: Plan) {
    forall k :: 0 <= k < |plan.prepared| ==> plan.prepared[k].target !in dirs
  }

  class Workspace {
    /** The case directories, and the directories made above targets. */
    var dirs: Dirs
    var parents: set<Path>
    var receipts: map<Path, nat>

    method Commit(plan: Plan, script: Script) returns (raised: bool)
      requires Distinct(plan)
      modifies this
      ensures (dirs, receipts, raised) == Committed(old(dirs), old(receipts), plan, script)
      ensures parents == old(parents) + ParentsMade(old(dirs), plan, script)
    {
      if !TargetsFree(dirs, plan) {
        return true;
      }
      var n;
      n, raised := MoveAll(plan, script);
      if !raised {
        raised := VerifyAll(plan, script);
        if !raised {
          if script.write != Lost {
            receipts := receipts[plan.receiptPath := plan.receipt];
          }
          raised := script.write != Written;
        }
      }
      if raised {
        RollBack(plan, n);
      }
    }

    /** Rename each staged directory to its target and note the move; `n` moves are noted. */
    method MoveAll(plan: Plan, script: Script) returns (n: nat, raised: bool)
      modifies this`dirs, this`parents
      ensures Moves(dirs, n, raised) == Moved(old(dirs), plan, script, 0)
      ensures parents == old(parents) + ParentsOf(plan, Begun(plan, script, n))
    {
      n, raised := 0, false;
      while n < |plan.prepared|
        invariant n <= |plan.prepared|
        invariant Moved(old(dirs), plan, script, 0) == Moved(dirs, plan, script, n)
        invariant parents == old(parents) + ParentsOf(plan, n)
      {
        if !script.parentMade(n) {
          return n, true;
        }
        OneMoreParent(plan, n);
        parents := parents + {plan.prepared[n].parent};
        if !CanMove(dirs, plan, n) || script.rename(n) == Refused {
          return n, true;
        }
        var step := plan.prepared[n];
        dirs := Move(dirs, step.staged, step.target);
        if script.rename(n) == Interrupted {
          return n, true;
        }
        n := n + 1;
      }
    }

    method VerifyAll(plan: Plan, script: Script) returns (raised: bool)
      ensures raised <==> !AllReport(dirs, plan, script)
    {
      for k := 0 to |plan.prepared|
        invariant forall j :: 0 <= j < k ==> Reports(dirs, plan, script, j)
      {
        if !Reports(dirs, plan, script, k) {
          return true;
        }
      }
      return false;
    }

    /** Undo the noted moves, latest first. */
    method RollBack(plan: Plan, n: nat)
      requires n <= |plan.prepared|
      modifies this`dirs
      ensures dirs == Undone(old(dirs), plan, n)
    {
      var k: nat := n;
      while k > 0
        invariant 0 <= k <= n && Undone(dirs, plan, k) == Undone(old(dirs), plan, n)
      {
        k := k - 1;
        var step := plan.prepared[k];
        if step.target in dirs && step.staged !in dirs {
          dirs := Move(dirs, step.target, step.staged);
        }
      }
    }
  }

  // ----- the specification

  datatype Moves = Moves(dirs: Dirs, noted: nat, raised: bool)

  ghost predicate AllReport(dirs: Dirs, plan: Plan, script: Script) {
    forall k :: 0 <= k < |plan.prepared| ==> Reports(dirs, plan, script, k)
  }

  ghost function Moved(dirs: Dirs, plan: Plan, script: Script, k: nat): (m: Moves)
    requires k <= |plan.prepared|
    ensures k <= m.noted <= |plan.prepared|
    decreases |plan.prepared| - k
  {
    if k == |plan.prepared| then Moves(dirs, k, false)
    else if !script.parentMade(k) || !CanMove(dirs, plan, k) || script.rename(k) == Refused then Moves(dirs, k, true)
    else
      var next := Move(dirs, plan.prepared[k].staged, plan.prepared[k].target);
      if script.rename(k) == Interrupted then Moves(next, k, true) else Moved(next, plan, script, k + 1)
  }

  /** How many cases had the directory above their target made, when `noted` moves are noted. */
  ghost function Begun(plan: Plan, script: Script, noted: nat): (n: nat)
    requires noted <= |plan.prepared|
    ensures n <= |plan.prepared|
  {
    if noted < |plan.prepared| && script.parentMade(noted) then noted + 1 else noted
  }

  ghost function ParentsOf(plan: Plan, n: nat): set<Path>
    requires n <= |plan.prepared|
  {
    set k | 0 <= k < n :: plan.prepared[k].parent
  }

  lemma OneMoreParent(plan: Plan, n: nat)
    requires n < |plan.prepared|
    ensures ParentsOf(plan, n + 1) == ParentsOf(plan, n) + {plan.prepared[n].parent}
  {
  }

  ghost function ParentsMade(dirs: Dirs, plan: Plan, script: Script): set<Path> {
    if !TargetsFree(dirs, plan) then {} else ParentsOf(plan, Begun(plan, script, Moved(dirs, plan, script, 0).noted))
  }

  ghost function Undone(dirs: Dirs, plan: Plan, n: nat): Dirs
    requires n <= |plan.prepared|
    decreases n
  {
    if n == 0 then dirs else
      var target, staged := plan.prepared[n - 1].target, plan.prepared[n - 1].staged;
      Undone(if target in dirs && staged !in dirs then Move(dirs, target, staged) else dirs, plan, n - 1)
  }

  ghost function Committed(dirs: Dirs, receipts: map<Path, nat>, plan: Plan, script: Script)
    : (Dirs, map<Path, nat>, bool)
  {
    if !TargetsFree(dirs, plan) then (dirs, receipts, true) else
      var m := Moved(dirs, plan, script, 0);
      if m.raised || !AllReport(m.dirs, plan, script) then (Undone(m.dirs, plan, m.noted), receipts, true)
      else
        var receipts' := if script.write == Lost then receipts else receipts[plan.receiptPath := plan.receipt];
        if script.write == Written then (m.dirs, receipts', false) else (Undone(m.dirs, plan, m.noted), receipts', true)
  }

  ghost predicate Relocated(start: Dirs, dirs: Dirs, step: Prepared) {
    && step.staged in start && step.staged !in dirs
    && step.target in dirs && dirs[step.target] == start[step.staged]
  }

  ghost predicate SameAt(start: Dirs, dirs: Dirs, p: Path) {
    (p in start <==> p in dirs) && (p in start ==> start[p] == dirs[p])
  }

  /** `p` is neither end of the first `n` moves. */
  ghost predicate Outside(p: Path, plan: Plan, n: nat)
    requires n <= |plan.prepared|
  {
    forall k :: 0 <= k < n ==> p != plan.prepared[k].target && p != plan.prepared[k].staged
  }

  /** `dirs` is `start` with the first `n` staged directories at their targets. */
  ghost predicate FirstMoved(start: Dirs, dirs: Dirs, plan: Plan, n: nat)
    requires n <= |plan.prepared|
  {
    && (forall k :: 0 <= k < n ==> Relocated(start, dirs, plan.prepared[k]))
    && (forall p :: Outside(p, plan, n) ==> SameAt(start, dirs, p))
  }

  lemma OneMoreMoved(start: Dirs, dirs: Dirs, plan: Plan, n: nat)
    requires Distinct(plan) && TargetsFree(start, plan) && n < |plan.prepared|
    requires FirstMoved(start, dirs, plan, n) && CanMove(dirs, plan, n)
    ensures FirstMoved(start, Move(dirs, plan.prepared[n].staged, plan.prepared[n].target), plan, n + 1)
  {
    var source, target := plan.prepared[n].staged, plan.prepared[n].target;
    var next := Move(dirs, source, target);
    assert Outside(source, plan, n) && Outside(target, plan, n);
    forall k | 0 <= k < n + 1 ensures Relocated(start, next, plan.prepared[k]) {
      if k < n { assert Relocated(start, dirs, plan.prepared[k]); }
    }
    forall p | Outside(p, plan, n + 1) ensures SameAt(start, next, p) {
      assert Outside(p, plan, n);
      assert p != plan.prepared[n].target && p != plan.prepared[n].staged;
    }
  }

  lemma OneFewerMoved(start: Dirs, dirs: Dirs, plan: Plan, n: nat)
    requires Distinct(plan) && TargetsFree(start, plan) && n < |plan.prepared| && FirstMoved(start, dirs, plan, n + 1)
    ensures FirstMoved(start, Move(dirs, plan.prepared[n].target, plan.prepared[n].staged), plan, n)
  {
    var source, target := plan.prepared[n].staged, plan.prepared[n].target;
    var next := Move(dirs, target, source);
    assert Relocated(start, dirs, plan.prepared[n]);
    forall k | 0 <= k < n ensures Relocated(start, next, plan.prepared[k]) {
      assert Relocated(start, dirs, plan.prepared[k]);
    }
    forall p | Outside(p, plan, n) ensures SameAt(start, next, p) {
      if p != source && p != target {
        assert Outside(p, plan, n + 1);
      }
    }
  }

  /** Undoing exactly the moves that were made restores every directory. */
  lemma {:induction false} UndoRestores(start: Dirs, dirs: Dirs, plan: Plan, n: nat)
    requires Distinct(plan) && TargetsFree(start, plan) && n <= |plan.prepared| && FirstMoved(start, dirs, plan, n)
    ensures Undone(dirs, plan, n) == start
    decreases n
  {
    if n == 0 {
      forall p ensures (p in start <==> p in dirs) && (p in start ==> start[p] == dirs[p]) {
        assert Outside(p, plan, 0);
        assert SameAt(start, dirs, p);
      }
      assert dirs.Keys == start.Keys;
      assert dirs == start;
    } else {
      var source, target := plan.prepared[n - 1].staged, plan.prepared[n - 1].target;
      assert Relocated(start, dirs, plan.prepared[n - 1]);
      OneFewerMoved(start, dirs, plan, n - 1);
      UndoRestores(start, Move(dirs, target, source), plan, n - 1);
    }
  }

  lemma NoneMoved(start: Dirs, plan: Plan)
    ensures FirstMoved(start, start, plan, 0)
  {
  }

  /** The moves stop right after a rename that was made but not noted. */
  ghost predicate Stray(start: Dirs, plan: Plan, script: Script) {
    TargetsFree(start, plan) && StrayFrom(start, plan, script, 0)
  }

  ghost predicate StrayFrom(dirs: Dirs, plan: Plan, script: Script, k: nat)
    requires k <= |plan.prepared|
    decreases |plan.prepared| - k
  {
    && k < |plan.prepared| && script.parentMade(k) && CanMove(dirs, plan, k) && script.rename(k) != Refused
    && (script.rename(k) == Interrupted
        || StrayFrom(Move(dirs, plan.prepared[k].staged, plan.prepared[k].target), plan, script, k + 1))
  }

  lemma {:induction false} StrayMoves(start: Dirs, dirs: Dirs, plan: Plan, script: Script, k: nat)
    requires Distinct(plan) && TargetsFree(start, plan) && k <= |plan.prepared| && FirstMoved(start, dirs, plan, k)
    ensures var m := Moved(dirs, plan, script, k);
            && (StrayFrom(dirs, plan, script, k) ==>
                  m.raised && m.noted < |plan.prepared| && FirstMoved(start, m.dirs, plan, m.noted + 1))
            && (!StrayFrom(dirs, plan, script, k) ==>
                  FirstMoved(start, m.dirs, plan, m.noted) && (!m.raised ==> m.noted == |plan.prepared|))
    decreases |plan.prepared| - k
  {
    hide FirstMoved, Distinct, TargetsFree;
    if k < |plan.prepared| && script.parentMade(k) && CanMove(dirs, plan, k) && script.rename(k) != Refused {
      OneMoreMoved(start, dirs, plan, k);
      if script.rename(k) == Done {
        StrayMoves(start, Move(dirs, plan.prepared[k].staged, plan.prepared[k].target), plan, script, k + 1);
      }
    }
  }

  /** After undoing all noted moves but not the last, stray one, that case stays at its target. */
  lemma {:induction false} UndoLeavesStray(start: Dirs, dirs: Dirs, plan: Plan, n: nat, k: nat)
    requires Distinct(plan) && TargetsFree(start, plan) && n <= k < |plan.prepared|
    requires plan.prepared[k].target in dirs
    ensures plan.prepared[k].target in Undone(dirs, plan, n)
    decreases n
  {
    if n > 0 {
      var target, staged := plan.prepared[n - 1].target, plan.prepared[n - 1].staged;
      var next := if target in dirs && staged !in dirs then Move(dirs, target, staged) else dirs;
      UndoLeavesStray(start, next, plan, n - 1, k);
    }
  }

  /** A failed commit puts every case directory back where it was, unless an exception falls between
      a rename and the note of it, and then it does not. */
  lemma FailureRollsBack(dirs: Dirs, receipts: map<Path, nat>, plan: Plan, script: Script)
    requires Distinct(plan) && Committed(dirs, receipts, plan, script).2
    ensures Committed(dirs, receipts, plan, script).0 == dirs <==> !Stray(dirs, plan, script)
  {
    if TargetsFree(dirs, plan) {
      var m := Moved(dirs, plan, script, 0);
      NoneMoved(dirs, plan);
      StrayMoves(dirs, dirs, plan, script, 0);
      if StrayFrom(dirs, plan, script, 0) {
        assert Relocated(dirs, m.dirs, plan.prepared[m.noted]);
        UndoLeavesStray(dirs, m.dirs, plan, m.noted, m.noted);
      } else {
        UndoRestores(dirs, m.dirs, plan, m.noted);
      }
    }
  }

  /** The directory above the target of case `k` is made, and its staged copy is there and renamed. */
  ghost predicate Goes(start: Dirs, plan: Plan, script: Script, k: nat)
    requires k < |plan.prepared|
  {
    script.parentMade(k) && plan.prepared[k].staged in start && script.rename(k) == Done
  }

  /** The moves are noted up to the first case that does not go through. */
  lemma {:induction false} NotedExactly(start: Dirs, dirs: Dirs, plan: Plan, script: Script, k: nat)
    requires Distinct(plan) && TargetsFree(start, plan) && k <= |plan.prepared| && FirstMoved(start, dirs, plan, k)
    ensures var m := Moved(dirs, plan, script, k);
            && (forall j :: k <= j < m.noted ==> Goes(start, plan, script, j))
            && (m.noted < |plan.prepared| ==> !Goes(start, plan, script, m.noted))
            && (m.raised <==> m.noted < |plan.prepared|)
    decreases |plan.prepared| - k
  {
    if k < |plan.prepared| {
      var step := plan.prepared[k];
      assert Outside(step.staged, plan, k) && Outside(step.target, plan, k);
      assert SameAt(start, dirs, step.staged) && SameAt(start, dirs, step.target);
      if script.parentMade(k) && CanMove(dirs, plan, k) && script.rename(k) == Done {
        OneMoreMoved(start, dirs, plan, k);
        NotedExactly(start, Move(dirs, step.staged, step.target), plan, script, k + 1);
      }
    }
  }

  /** The commit gets as far as making the directory above the target of case `k`. */
  ghost predicate MakesParent(dirs: Dirs, plan: Plan, script: Script, k: nat)
    requires k < |plan.prepared|
  {
    TargetsFree(dirs, plan) && script.parentMade(k) && forall j :: 0 <= j < k ==> Goes(dirs, plan, script, j)
  }

  lemma ParentsMadeExactly(dirs: Dirs, plan: Plan, script: Script)
    requires Distinct(plan)
    ensures TargetsFree(dirs, plan) ==>
              forall k :: 0 <= k < |plan.prepared| ==>
                (k < Begun(plan, script, Moved(dirs, plan, script, 0).noted) <==> MakesParent(dirs, plan, script, k))
  {
    if TargetsFree(dirs, plan) {
      NoneMoved(dirs, plan);
      NotedExactly(dirs, dirs, plan, script, 0);
      var noted := Moved(dirs, plan, script, 0).noted;
      forall k | 0 <= k < |plan.prepared|
        ensures k < Begun(plan, script, noted) <==> MakesParent(dirs, plan, script, k)
      {
        if k > noted { assert !Goes(dirs, plan, script, noted); }
        if k < noted { assert Goes(dirs, plan, script, k); }
      }
    }
  }

  /** No rollback removes the directories made above targets: a failed commit leaves the whole tree as it was exactly
      when it also found each of them there, from the first case up to the one that failed. */
  lemma FailureRestoresTree(dirs: Dirs, parents: set<Path>, receipts: map<Path, nat>, plan: Plan, script: Script)
    requires Distinct(plan) && Committed(dirs, receipts, plan, script).2
    ensures (Committed(dirs, receipts, plan, script).0 == dirs
             && parents + ParentsMade(dirs, plan, script) == parents) <==>
              && !Stray(dirs, plan, script)
              && forall k :: 0 <= k < |plan.prepared| && MakesParent(dirs, plan, script, k) ==>
                   plan.prepared[k].parent in parents
  {
    hide Committed, Stray, Moved, Goes;
    FailureRollsBack(dirs, receipts, plan, script);
    ParentsMadeExactly(dirs, plan, script);
    if TargetsFree(dirs, plan) {
      SubsetOfParents(parents, plan, Begun(plan, script, Moved(dirs, plan, script, 0).noted));
    }
  }

  lemma SubsetOfParents(parents: set<Path>, plan: Plan, n: nat)
    requires n <= |plan.prepared|
    ensures parents + ParentsOf(plan, n) == parents <==> forall k :: 0 <= k < n ==> plan.prepared[k].parent in parents
  {
    forall k | 0 <= k < n ensures plan.prepared[k].parent in ParentsOf(plan, n) {
    }
  }

  /** Nothing stands in the way of case `k`, in the directories the commit starts with: its target is free, the
      directory above it is made, its staged copy is there, as recorded, and is renamed, and every check asked for
      holds. */
  ghost predicate CasePasses(dirs: Dirs, plan: Plan, script: Script, k: nat)
    requires k < |plan.prepared|
  {
    var step := plan.prepared[k];
    && step.target !in dirs && Goes(dirs, plan, script, k) && dirs[step.staged] == step.inventory
    && script.evidenceHolds(k) && (!plan.verifySolar || script.solarHolds(k))
  }

  /** A commit returns exactly when nothing stands in the way of any case and the receipt is written. */
  lemma ReturnsExactly(dirs: Dirs, receipts: map<Path, nat>, plan: Plan, script: Script)
    requires Distinct(plan)
    ensures !Committed(dirs, receipts, plan, script).2 <==>
              script.write == Written && forall k :: 0 <= k < |plan.prepared| ==> CasePasses(dirs, plan, script, k)
  {
    GetsToWrite(dirs, plan, script);
  }

  lemma GetsToWrite(dirs: Dirs, plan: Plan, script: Script)
    requires Distinct(plan)
    ensures var m := Moved(dirs, plan, script, 0);
            TargetsFree(dirs, plan) && !m.raised && AllReport(m.dirs, plan, script) <==>
              forall k :: 0 <= k < |plan.prepared| ==> CasePasses(dirs, plan, script, k)
  {
    hide FirstMoved;
    if TargetsFree(dirs, plan) {
      var m := Moved(dirs, plan, script, 0);
      NoneMoved(dirs, plan);
      StrayMoves(dirs, dirs, plan, script, 0);
      NotedExactly(dirs, dirs, plan, script, 0);
      if !m.raised {
        AllRelocated(dirs, m.dirs, plan);
        forall k | 0 <= k < |plan.prepared|
          ensures Reports(m.dirs, plan, script, k) <==> CasePasses(dirs, plan, script, k)
        {
          assert Relocated(dirs, m.dirs, plan.prepared[k]);
        }
      } else {
        assert !Goes(dirs, plan, script, m.noted) && !CasePasses(dirs, plan, script, m.noted);
      }
    } else {
      var k :| 0 <= k < |plan.prepared| && plan.prepared[k].target in dirs;
      assert !CasePasses(dirs, plan, script, k);
    }
  }

  lemma AllRelocated(start: Dirs, dirs: Dirs, plan: Plan)
    requires FirstMoved(start, dirs, plan, |plan.prepared|)
    ensures forall k :: 0 <= k < |plan.prepared| ==> Relocated(start, dirs, plan.prepared[k])
  {
  }

  /** After a failure the receipt exists only if it did before, or the exception came after the
      receipt was put in place: then it testifies to cases that were rolled back. */
  lemma FailureLeavesNoReceipt(dirs: Dirs, receipts: map<Path, nat>, plan: Plan, script: Script)
    requires Distinct(plan) && plan.receiptPath !in receipts && Committed(dirs, receipts, plan, script).2
    ensures var (dirs', receipts', _) := Committed(dirs, receipts, plan, script);
            && (plan.receiptPath in receipts' <==>
                  && script.write == Published
                  && forall k :: 0 <= k < |plan.prepared| ==> CasePasses(dirs, plan, script, k))
            && (plan.receiptPath !in receipts' ==> receipts' == receipts)
            && (plan.receiptPath in receipts' ==> dirs' == dirs)
  {
    var m := Moved(dirs, plan, script, 0);
    GetsToWrite(dirs, plan, script);
    if TargetsFree(dirs, plan) && !m.raised && AllReport(m.dirs, plan, script) && script.write == Published {
      NoneMoved(dirs, plan);
      StrayMoves(dirs, dirs, plan, script, 0);
      UndoRestores(dirs, m.dirs, plan, m.noted);
    }
  }

  /** One staged case and its plan. */
  ghost function OneCase(): (Dirs, Plan) {
    var staged, target := Path("staged"), Path("target");
    (map[staged := 5], Plan([Prepared(staged, target, Path("cases"), 5)], Path("receipt"), 1, true))
  }

  /** Interrupted right after its rename, the only case is stranded at its target. */
  lemma StrandedCase() returns (script: Script)
    ensures var (dirs, plan) := OneCase();
            && Distinct(plan) && Stray(dirs, plan, script)
            && Committed(dirs, map[], plan, script) == (map[Path("target") := 5], map[], true)
  {
    script := Script(k => true, k => Interrupted, k => true, k => true, Written);
    var (dirs, plan) := OneCase();
    assert Move(dirs, plan.prepared[0].staged, plan.prepared[0].target) == map[Path("target") := 5];
  }

  /** Refused its rename, the only case stays staged and the directory made above its target stays too. */
  lemma ParentLeftBehind() returns (script: Script)
    ensures var (dirs, plan) := OneCase();
            && Distinct(plan) && Committed(dirs, map[], plan, script) == (dirs, map[], true)
            && ParentsMade(dirs, plan, script) == {Path("cases")}
  {
    script := Script(k => true, k => Refused, k => true, k => true, Written);
    var (dirs, plan) := OneCase();
    OneMoreParent(plan, 0);
    assert Moved(dirs, plan, script, 0) == Moves(dirs, 0, true);
  }

  /** Interrupted right after its receipt was put in place, the commit is rolled back and the receipt stays. */
  lemma ReceiptWithoutCase() returns (script: Script)
    ensures var (dirs, plan) := OneCase();
            && Distinct(plan) && Committed(dirs, map[], plan, script) == (dirs, map[Path("receipt") := 1], true)
  {
    script := Script(k => true, k => Done, k => true, k => true, Published);
    var (dirs, plan) := OneCase();
    var moved := map[Path("target") := 5];
    assert Move(dirs, plan.prepared[0].staged, plan.prepared[0].target) == moved;
    assert Moved(dirs, plan, script, 0) == Moves(moved, 1, false);
    assert Move(moved, plan.prepared[0].target, plan.prepared[0].staged) == dirs;
    assert Undone(moved, plan, 1) == dirs;
  }

  /** A commit that returns moved every case: no target existed, each now holds its recorded
      inventory, which is what was staged, everything else is as before, and the receipt is there. */
  lemma SuccessMovesAll(dirs: Dirs, receipts: map<Path, nat>, plan: Plan, script: Script)
    requires Distinct(plan) && !Committed(dirs, receipts, plan, script).2
    ensures var (dirs', receipts', _) := Committed(dirs, receipts, plan, script);
            && receipts' == receipts[plan.receiptPath := plan.receipt]
            && (forall k :: 0 <= k < |plan.prepared| ==>
                 && plan.prepared[k].target !in dirs && plan.prepared[k].staged in dirs
                 && plan.prepared[k].staged !in dirs' && plan.prepared[k].target in dirs'
                 && dirs'[plan.prepared[k].target] == plan.prepared[k].inventory == dirs[plan.prepared[k].staged]
                 && script.evidenceHolds(k) && (plan.verifySolar ==> script.solarHolds(k)))
            && (forall p :: Outside(p, plan, |plan.prepared|) ==> SameAt(dirs, dirs', p))
  {
    NoneMoved(dirs, plan);
    StrayMoves(dirs, dirs, plan, script, 0);
    var m := Moved(dirs, plan, script, 0);
    forall k | 0 <= k < |plan.prepared|
      ensures Reports(m.dirs, plan, script, k) && Relocated(dirs, m.dirs, plan.prepared[k])
    {
    }
  }
}
