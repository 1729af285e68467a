/** The preregistered case universe: the three-way rotating split and the workload shapes. */
module CorpusDesign {
  import opened Results

  datatype Phase = PointFit | Conformal | HeldOut
  datatype Role = Development | HeldOutRole
  datatype Family = Elementwise | Transpose | Reduction | Matmul | Softmax | CrossEntropy | IndexedRead | IndexedUpdate
                  | Composite | Transformer | Concurrent
  datatype DesignError = OutsideUniverse

  const FAMILIES: seq<Family> := [Elementwise, Transpose, Reduction, Matmul, Softmax, CrossEntropy, IndexedRead,
                                  IndexedUpdate, Composite, Transformer, Concurrent]
  const CASES_PER_PHASE := 20
  const UNIVERSE_CASES_PER_FAMILY := 60
  const PHASE_ROTATIONS: seq<seq<Phase>> := [[PointFit, Conformal, HeldOut], [Conformal, HeldOut, PointFit],
                                             [HeldOut, PointFit, Conformal]]

  function RoleOf(phase: Phase): Role {
    if phase == HeldOut then HeldOutRole else Development
  }

  function PhaseOf(globalIndex: int, universeStart: int): Result<Phase, DesignError> {
    var offset := globalIndex - universeStart;
    if !(0 <= offset < UNIVERSE_CASES_PER_FAMILY) then Err(OutsideUniverse) else
      Ok(PHASE_ROTATIONS[(offset / 3 / 2) % 3][offset % 3])
  }

  /** Where in its block of three a phase comes. */
  ghost function PositionIn(block: nat, phase: Phase): nat {
    var rotation := (block / 2) % 3;
    match phase
    case PointFit => if rotation == 0 then 0 else if rotation == 1 then 2 else 1
    case Conformal => if rotation == 0 then 1 else if rotation == 1 then 0 else 2
    case HeldOut => if rotation == 0 then 2 else if rotation == 1 then 1 else 0
  }

  /** Each block of three indices takes each phase exactly once, for every universe start. */
  lemma BlockTakesEachPhaseOnce(universeStart: int, block: nat, position: nat, phase: Phase)
    requires block < CASES_PER_PHASE && position < 3
    ensures PositionIn(block, phase) < 3
    ensures PhaseOf(universeStart + 3 * block + position, universeStart) == Ok(phase) <==>
              position == PositionIn(block, phase)
  {
    var offset := 3 * block + position;
    assert offset / 3 == block && offset % 3 == position;
    assert (block / 2) % 3 == 0 || (block / 2) % 3 == 1 || (block / 2) % 3 == 2;
  }

  /** The rotation: the first three indices take the phases in turn, the two blocks of a pair agree, and the next pair
      has every phase one place earlier. */
  lemma RotationStep(universeStart: int, pair: nat, position: nat)
    requires pair < 10 && position < 3
    ensures PhaseOf(universeStart, universeStart) == Ok(PointFit)
    ensures PhaseOf(universeStart + 1, universeStart) == Ok(Conformal)
    ensures PhaseOf(universeStart + 2, universeStart) == Ok(HeldOut)
    ensures PhaseOf(universeStart + 6 * pair + 3 + position, universeStart)
         == PhaseOf(universeStart + 6 * pair + position, universeStart)
    ensures pair > 0 ==>
              PhaseOf(universeStart + 6 * pair + position, universeStart)
              == PhaseOf(universeStart + 6 * (pair - 1) + (position + 1) % 3, universeStart)
  {
    hide PhaseOf;
    PhaseIn(universeStart, 0, 0);
    PhaseIn(universeStart, 0, 1);
    PhaseIn(universeStart, 0, 2);
    PhaseIn(universeStart, pair, position);
    PhaseIn(universeStart, pair, 3 + position);
    if pair > 0 {
      PhaseIn(universeStart, pair - 1, (position + 1) % 3);
      assert (pair - 1) % 3 == if pair % 3 == 0 then 2 else pair % 3 - 1;
    }
  }

  lemma PhaseIn(universeStart: int, pair: nat, rest: nat)
    requires pair < 10 && rest < 6
    ensures PhaseOf(universeStart + 6 * pair + rest, universeStart) == Ok(PHASE_ROTATIONS[pair % 3][rest % 3])
  {
    PairOf(pair, rest);
  }

  lemma PairOf(pair: nat, rest: nat)
    requires rest < 6
    ensures (6 * pair + rest) / 3 / 2 == pair && (6 * pair + rest) % 3 == rest % 3
  {
  }

  /** The indices below `stop` that belong to `phase`, ascending. */
  ghost function Selected(phase: Phase, universeStart: int, stop: nat): seq<int> {
    if stop == 0 then [] else
      Selected(phase, universeStart, stop - 1)
      + if PhaseOf(universeStart + stop - 1, universeStart) == Ok(phase) then [universeStart + stop - 1] else []
  }

  /** The `k`-th case of a phase lies in block `k`; so every phase has exactly 20 of the 60. */
  lemma {:induction false} SelectedByBlock(phase: Phase, universeStart: int, blocks: nat)
    requires blocks <= CASES_PER_PHASE
    ensures |Selected(phase, universeStart, 3 * blocks)| == blocks
    ensures forall k :: 0 <= k < blocks ==>
      Selected(phase, universeStart, 3 * blocks)[k] == universeStart + 3 * k + PositionIn(k, phase)
  {
    hide PhaseOf, PositionIn;
    if blocks > 0 {
      var b := blocks - 1;
      SelectedByBlock(phase, universeStart, b);
      SelectThree(phase, universeStart, b);
    }
  }

  lemma SelectThree(phase: Phase, universeStart: int, b: nat)
    requires b < CASES_PER_PHASE
    ensures Selected(phase, universeStart, 3 * b + 3) == Selected(phase, universeStart, 3 * b)
            + [universeStart + 3 * b + PositionIn(b, phase)]
  {
    hide PhaseOf, PositionIn;
    BlockTakesEachPhaseOnce(universeStart, b, 0, phase);
    BlockTakesEachPhaseOnce(universeStart, b, 1, phase);
    BlockTakesEachPhaseOnce(universeStart, b, 2, phase);
    var s := Selected(phase, universeStart, 3 * b);
    var at, g := PositionIn(b, phase), universeStart + 3 * b;
    assert Selected(phase, universeStart, 3 * b + 1) == s + if at == 0 then [g] else [];
    assert Selected(phase, universeStart, 3 * b + 2)
        == Selected(phase, universeStart, 3 * b + 1) + if at == 1 then [g + 1] else [];
    assert Selected(phase, universeStart, 3 * b + 3)
        == Selected(phase, universeStart, 3 * b + 2) + if at == 2 then [g + 2] else [];
  }

  /** Development and held-out indices partition the universe. */
  lemma RolesPartition(universeStart: int, globalIndex: int)
    ensures universeStart <= globalIndex < universeStart + UNIVERSE_CASES_PER_FAMILY
       <==> exists phase :: PhaseOf(globalIndex, universeStart) == Ok(phase)
    ensures forall p, q :: PhaseOf(globalIndex, universeStart) == Ok(p) && PhaseOf(globalIndex, universeStart) == Ok(q)
              ==> p == q
  {
    var r := PhaseOf(globalIndex, universeStart);
    if r.Ok? { assert PhaseOf(globalIndex, universeStart) == Ok(r.value); }
  }

  // ----- cases

  datatype CaseId = CaseId(phase: Phase, family: Family, index: nat)
  datatype CaseSpec = CaseSpec(id: CaseId, globalIndex: int)

  function PhasesOf(role: Role): seq<Phase> {
    if role == Development then [PointFit, Conformal] else [HeldOut]
  }

  ghost function PhaseCases(family: Family, phase: Phase, universeStart: int): (r: seq<CaseSpec>)
    ensures |r| == CASES_PER_PHASE
  {
    SelectedByBlock(phase, universeStart, CASES_PER_PHASE);
    var selected := Selected(phase, universeStart, UNIVERSE_CASES_PER_FAMILY);
    seq(CASES_PER_PHASE, k requires 0 <= k < CASES_PER_PHASE => CaseSpec(CaseId(phase, family, k), selected[k]))
  }

  ghost function PhasesCases(family: Family, phases: seq<Phase>, universeStart: int): seq<CaseSpec> {
    if phases == [] then [] else
      PhasesCases(family, phases[..|phases| - 1], universeStart)
          + PhaseCases(family, phases[|phases| - 1], universeStart)
  }

  ghost function FamilyCases(families: seq<Family>, role: Role, universeStart: int): seq<CaseSpec> {
    if families == [] then [] else
      FamilyCases(families[..|families| - 1], role, universeStart)
          + PhasesCases(families[|families| - 1], PhasesOf(role), universeStart)
  }

  method Cases(role: Role, universeStart: int) returns (cases: seq<CaseSpec>)
    ensures cases == FamilyCases(FAMILIES, role, universeStart)
  {
    hide PhaseOf, PositionIn, Selected;
    cases := [];
    for i := 0 to |FAMILIES|
      invariant cases == FamilyCases(FAMILIES[..i], role, universeStart)
    {
      var phases, family := PhasesOf(role), FAMILIES[i];
      assert FAMILIES[..i + 1][..i] == FAMILIES[..i];
      ghost var before := cases;
      for j := 0 to |phases|
        invariant cases == before + PhasesCases(family, phases[..j], universeStart)
      {
        assert phases[..j + 1][..j] == phases[..j];
        var selected := SelectIndices(phases[j], universeStart);
        SelectedByBlock(phases[j], universeStart, CASES_PER_PHASE);
        var here := seq(|selected|, k requires 0 <= k < |selected| =>
          CaseSpec(CaseId(phases[j], family, k), selected[k]));
        assert here == PhaseCases(family, phases[j], universeStart);
        cases := cases + here;
      }
      assert phases[..|phases|] == phases;
    }
    assert FAMILIES[..|FAMILIES|] == FAMILIES;
  }

  method SelectIndices(phase: Phase, universeStart: int) returns (selected: seq<int>)
    ensures selected == Selected(phase, universeStart, UNIVERSE_CASES_PER_FAMILY)
  {
    selected := [];
    for offset := 0 to UNIVERSE_CASES_PER_FAMILY
      invariant selected == Selected(phase, universeStart, offset)
    {
      if PhaseOf(universeStart + offset, universeStart) == Ok(phase) {
        selected := selected + [universeStart + offset];
      }
    }
  }

  ghost predicate InRole(id: CaseId, role: Role) {
    RoleOf(id.phase) == role && id.index < CASES_PER_PHASE
  }

  ghost predicate Lists(cases: seq<CaseSpec>, id: CaseId) {
    exists k :: 0 <= k < |cases| && cases[k].id == id
  }

  lemma ListsAppend(a: seq<CaseSpec>, b: seq<CaseSpec>, id: CaseId)
    ensures Lists(a + b, id) <==> Lists(a, id) || Lists(b, id)
  {
    if Lists(a, id) {
      var k :| 0 <= k < |a| && a[k].id == id;
      assert (a + b)[k].id == id;
    }
    if Lists(b, id) {
      var k :| 0 <= k < |b| && b[k].id == id;
      assert (a + b)[|a| + k].id == id;
    }
  }

  lemma {:induction false} FamilyCasesList(families: seq<Family>, role: Role, universeStart: int, id: CaseId)
    ensures Lists(FamilyCases(families, role, universeStart), id) <==> id.family in families && InRole(id, role)
  {
    if families != [] {
      var n := |families| - 1;
      FamilyCasesList(families[..n], role, universeStart, id);
      PhasesCasesList(families[n], PhasesOf(role), universeStart, id);
      ListsAppend(FamilyCases(families[..n], role, universeStart),
                  PhasesCases(families[n], PhasesOf(role), universeStart), id);
      assert families == families[..n] + [families[n]];
    }
  }

  lemma {:induction false} PhasesCasesList(family: Family, phases: seq<Phase>, universeStart: int, id: CaseId)
    ensures Lists(PhasesCases(family, phases, universeStart), id)
       <==> id.family == family && id.phase in phases && id.index < CASES_PER_PHASE
  {
    if phases != [] {
      var n := |phases| - 1;
      var last := PhaseCases(family, phases[n], universeStart);
      PhasesCasesList(family, phases[..n], universeStart, id);
      ListsAppend(PhasesCases(family, phases[..n], universeStart), last, id);
      assert phases == phases[..n] + [phases[n]];
      if id.phase == phases[n] && id.family == family && id.index < CASES_PER_PHASE {
        assert last[id.index].id == id;
      }
    }
  }

  /** A role's case list names exactly the role's case identifiers, whatever the universe start:
      the case directories of a root never move with its design. */
  lemma CasesOfRole(role: Role, universeStart: int, id: CaseId)
    ensures Lists(FamilyCases(FAMILIES, role, universeStart), id) <==> InRole(id, role)
  {
    FamilyCasesList(FAMILIES, role, universeStart, id);
    InFamilies(id.family);
  }

  // ----- the workload of one family

  function ForFamily(cases: seq<CaseSpec>, family: Family): seq<CaseSpec> {
    if cases == [] then [] else
      var last := cases[|cases| - 1];
      ForFamily(cases[..|cases| - 1], family) + if last.id.family == family then [last] else []
  }

  lemma {:induction false} ForFamilyAppend(a: seq<CaseSpec>, b: seq<CaseSpec>, family: Family)
    ensures ForFamily(a + b, family) == ForFamily(a, family) + ForFamily(b, family)
  {
    if b == [] {
      assert a + b == a;
    } else {
      ForFamilyAppend(a, b[..|b| - 1], family);
      assert (a + b)[..|a + b| - 1] == a + b[..|b| - 1];
    }
  }

  lemma {:induction false} ForFamilyOf(cases: seq<CaseSpec>, owner: Family, family: Family)
    requires forall k :: 0 <= k < |cases| ==> cases[k].id.family == owner
    ensures ForFamily(cases, family) == if owner == family then cases else []
  {
    if cases != [] {
      ForFamilyOf(cases[..|cases| - 1], owner, family);
      assert cases == cases[..|cases| - 1] + [cases[|cases| - 1]];
    }
  }

  lemma {:induction false} PhasesCasesOwned(family: Family, phases: seq<Phase>, universeStart: int)
    ensures forall k :: 0 <= k < |PhasesCases(family, phases, universeStart)| ==>
              PhasesCases(family, phases, universeStart)[k].id.family == family
  {
    if phases != [] { PhasesCasesOwned(family, phases[..|phases| - 1], universeStart); }
  }

  /** Appending one owner's cases adds all of them or none. */
  lemma OneMoreOwner(earlier: seq<CaseSpec>, own: seq<CaseSpec>, owner: Family, family: Family)
    requires forall k :: 0 <= k < |own| ==> own[k].id.family == owner
    ensures owner != family ==> ForFamily(earlier + own, family) == ForFamily(earlier, family)
    ensures owner == family && ForFamily(earlier, family) == [] ==> ForFamily(earlier + own, family) == own
  {
    hide ForFamily;
    ForFamilyAppend(earlier, own, family);
    ForFamilyOf(own, owner, family);
  }

  lemma LastFamily(families: seq<Family>, role: Role, universeStart: int, family: Family)
    requires families != [] && forall i, j :: 0 <= i < j < |families| ==> families[i] != families[j]
    ensures var n := |families| - 1;
            && FamilyCases(families, role, universeStart)
            == FamilyCases(families[..n], role, universeStart) + PhasesCases(families[n], PhasesOf(role), universeStart)
            && (family in families <==> family in families[..n] || family == families[n])
            && (family == families[n] ==> family !in families[..n])
  {
    hide PhasesCases, PhasesOf;
    assert families == families[..|families| - 1] + [families[|families| - 1]];
  }

  lemma {:induction false} ForFamilyCases(families: seq<Family>, role: Role, universeStart: int, family: Family)
    requires forall i, j :: 0 <= i < j < |families| ==> families[i] != families[j]
    ensures ForFamily(FamilyCases(families, role, universeStart), family)
         == if family in families then PhasesCases(family, PhasesOf(role), universeStart) else []
  {
    hide PhaseCases, PhasesCases, PhasesOf, ForFamily, FamilyCases;
    if families == [] {
      NoFamily(role, universeStart, family);
    } else {
      var n := |families| - 1;
      LastFamily(families, role, universeStart, family);
      ForFamilyCases(families[..n], role, universeStart, family);
      PhasesCasesOwned(families[n], PhasesOf(role), universeStart);
      OneMoreOwner(FamilyCases(families[..n], role, universeStart),
                   PhasesCases(families[n], PhasesOf(role), universeStart), families[n], family);
    }
  }

  lemma NoFamily(role: Role, universeStart: int, family: Family)
    ensures ForFamily(FamilyCases([], role, universeStart), family) == []
  {
  }

  /** A family's workload: the development cases, then the held-out ones. */
  ghost function WorkloadOf(family: Family, universeStart: int): (w: seq<CaseSpec>)
    ensures |w| == UNIVERSE_CASES_PER_FAMILY
  {
    PhaseCases(family, PointFit, universeStart) + PhaseCases(family, Conformal, universeStart)
    + PhaseCases(family, HeldOut, universeStart)
  }

  lemma InFamilies(family: Family)
    ensures family in FAMILIES
  {
    match family
    case Elementwise => assert FAMILIES[0] == family;
    case Transpose => assert FAMILIES[1] == family;
    case Reduction => assert FAMILIES[2] == family;
    case Matmul => assert FAMILIES[3] == family;
    case Softmax => assert FAMILIES[4] == family;
    case CrossEntropy => assert FAMILIES[5] == family;
    case IndexedRead => assert FAMILIES[6] == family;
    case IndexedUpdate => assert FAMILIES[7] == family;
    case Composite => assert FAMILIES[8] == family;
    case Transformer => assert FAMILIES[9] == family;
    case Concurrent => assert FAMILIES[10] == family;
  }

  lemma FamiliesDistinct()
    ensures forall i, j :: 0 <= i < j < |FAMILIES| ==> FAMILIES[i] != FAMILIES[j]
  {
  }

  lemma TwoPhases(family: Family, universeStart: int)
    ensures PhasesCases(family, PhasesOf(Development), universeStart)
         == PhaseCases(family, PointFit, universeStart) + PhaseCases(family, Conformal, universeStart)
    ensures PhasesCases(family, PhasesOf(HeldOutRole), universeStart) == PhaseCases(family, HeldOut, universeStart)
  {
    hide PhaseCases;
    var both: seq<Phase> := [PointFit, Conformal];
    assert both[..1] == [PointFit] && [PointFit][..0] == [] && [HeldOut][..0] == [];
    assert PhasesCases(family, [PointFit], universeStart) == PhaseCases(family, PointFit, universeStart);
  }

  /** Filtering both roles' lists by family gives that family's workload. */
  lemma BothRolesForFamily(family: Family, universeStart: int)
    ensures ForFamily(FamilyCases(FAMILIES, Development, universeStart)
                      + FamilyCases(FAMILIES, HeldOutRole, universeStart), family)
         == WorkloadOf(family, universeStart)
  {
    hide PhaseCases, PhasesCases, FamilyCases, ForFamily;
    InFamilies(family);
    FamiliesDistinct();
    TwoPhases(family, universeStart);
    ForFamilyAppend(FamilyCases(FAMILIES, Development, universeStart),
                    FamilyCases(FAMILIES, HeldOutRole, universeStart), family);
    ForFamilyCases(FAMILIES, Development, universeStart, family);
    ForFamilyCases(FAMILIES, HeldOutRole, universeStart, family);
  }

  /** Where in a family's workload the case of one universe index stands. */
  ghost function PlaceOf(universeStart: int, globalIndex: int): (k: nat)
    requires PhaseOf(globalIndex, universeStart).Ok?
    ensures k < UNIVERSE_CASES_PER_FAMILY
  {
    var block := (globalIndex - universeStart) / 3;
    match PhaseOf(globalIndex, universeStart).value
    case PointFit => block
    case Conformal => CASES_PER_PHASE + block
    case HeldOut => 2 * CASES_PER_PHASE + block
  }

  lemma PhaseCaseAt(family: Family, phase: Phase, universeStart: int, block: nat)
    requires block < CASES_PER_PHASE
    ensures var g := universeStart + 3 * block + PositionIn(block, phase);
            && PhaseCases(family, phase, universeStart)[block] == CaseSpec(CaseId(phase, family, block), g)
            && PhaseOf(g, universeStart) == Ok(phase) && (g - universeStart) / 3 == block
  {
    hide PhaseOf;
    SelectedByBlock(phase, universeStart, CASES_PER_PHASE);
    BlockTakesEachPhaseOnce(universeStart, block, 0, phase);
    BlockTakesEachPhaseOnce(universeStart, block, PositionIn(block, phase), phase);
  }

  function PhaseAt(k: nat): Phase {
    if k < CASES_PER_PHASE then PointFit else if k < 2 * CASES_PER_PHASE then Conformal else HeldOut
  }

  lemma WorkloadAt(family: Family, universeStart: int, k: nat)
    requires k < UNIVERSE_CASES_PER_FAMILY
    ensures WorkloadOf(family, universeStart)[k] == PhaseCases(family, PhaseAt(k), universeStart)[k % CASES_PER_PHASE]
  {
    hide PhaseCases;
  }

  /** An index of the universe is the one position of its block that its phase takes. */
  lemma IndexIs(universeStart: int, globalIndex: int)
    requires PhaseOf(globalIndex, universeStart).Ok?
    ensures var block := (globalIndex - universeStart) / 3;
            && 0 <= block < CASES_PER_PHASE
            && globalIndex == universeStart + 3 * block + PositionIn(block, PhaseOf(globalIndex, universeStart).value)
  {
    hide PositionIn;
    var block, position := (globalIndex - universeStart) / 3, (globalIndex - universeStart) % 3;
    BlockTakesEachPhaseOnce(universeStart, block, position, PhaseOf(globalIndex, universeStart).value);
  }

  /** Each index of the universe has exactly one case in a family's workload, and nothing else is in it: the
      workloads prepared for collection and the split agree, whatever the universe start. */
  lemma WorkloadCoversUniverse(family: Family, universeStart: int, globalIndex: int, k: nat)
    requires k < UNIVERSE_CASES_PER_FAMILY
    ensures var entry := WorkloadOf(family, universeStart)[k];
            && entry.id.family == family && PhaseOf(entry.globalIndex, universeStart) == Ok(entry.id.phase)
            && (entry.globalIndex == globalIndex <==>
                  PhaseOf(globalIndex, universeStart).Ok? && k == PlaceOf(universeStart, globalIndex))
  {
    hide PositionIn, PhaseCases, PhaseOf, WorkloadOf;
    WorkloadAt(family, universeStart, k);
    PhaseCaseAt(family, PhaseAt(k), universeStart, k % CASES_PER_PHASE);
    if PhaseOf(globalIndex, universeStart).Ok? { IndexIs(universeStart, globalIndex); }
  }
}
