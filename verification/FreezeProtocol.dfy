/** One corpus root: solving and collecting cases, and freezing a role's corpus. */
module FreezeProtocol {
  import opened Results
  import opened Sorting
  import opened CorpusDesign

  /** File contents, compared only for equality. */
  type Blob = nat

  datatype SolarTree = SolarTree(manifest: Option<Blob>, files: Blob)
  datatype CaseDir = CaseDir(evidence: Option<Blob>, partial: set<Blob>, solarTree: Option<SolarTree>)
  datatype Recorded = Recorded(evidence: Blob, manifest: Blob)
  datatype CorpusFile = Frozen(cases: map<CaseId, Recorded>) | Promoted(combined: seq<PromotedCase>)
                      | Rebuilt(content: Blob)

  /** A promoted case keeps its identifier behind the number of its source. */
  datatype PromotedCase = PromotedCase(source: nat, caseId: nat)

  /** The design file: a registered plan with the policy it was frozen under, or something else put in its place. */
  datatype Design = Registered(universeStart: int, policy: Option<Blob>) | Foreign(content: Blob)
  datatype Problem = Problem(definition: Option<Blob>, solution: Option<Blob>, workload: Option<seq<CaseSpec>>)
  datatype Root = Root(design: Option<Design>, policy: Option<Blob>, problems: map<Family, Problem>,
                       dirs: map<CaseId, CaseDir>, corpora: map<Role, CorpusFile>)

  const CAPACITY_GOVERNED_SUCCESSOR_START := 400

  datatype Stage = Solar | Collect
  datatype Selection = Selection(role: Role, family: Option<Family>, limit: Option<nat>, caseId: Option<CaseId>)

  /** Where an output directory lies, seen from the root. */
  datatype Place = Outside | AtRoot | InSolarTree(id: CaseId) | ElsewhereInside

  /** The file a promotion writes: one of the root's own, another one directly under it, or one elsewhere. */
  datatype Output = CorpusOutput(role: Role) | DesignOutput | PolicyOutput | OtherOutput(taken: bool) | NotUnderRoot

  /** A source corpus, with the snapshots whose registered hash and role it has. */
  datatype PromotionSource = PromotionSource(underRoot: bool, snapshots: set<nat>, caseIds: seq<nat>)
  datatype Promotion = Promotion(sources: seq<PromotionSource>, snapshots: seq<nat>, output: Output)

  datatype Command =
    | Preregister(universeStart: int, policySource: Option<Blob>)
    | Prepare(family: Option<Family>)
    | Qualify(place: Place)
    | Execute(stage: Stage, selection: Selection, force: bool)
    | Freeze(role: Role)
    | Adopt(place: Place)
    | Promote(request: Promotion)

  /** Everything one command cannot decide for itself: whether its other checks pass, how many of its file writes
      succeed, which selected cases it gets to before stopping, what the tools leave behind for each case, whether
      evidence validates, the packaged templates, and newly written content. */
  datatype Oracle = Oracle(admitted: bool, writes: nat, runs: CaseId -> bool, solved: CaseId -> Option<SolarTree>,
                           evidence: CaseId -> Option<Blob>, partial: CaseId -> set<Blob>, valid: CaseId -> bool,
                           templates: Family -> (Blob, Blob), content: Blob)

  /** The design is a registered plan and its policy file, when it needs one, is the one it was frozen under. */
  predicate Ready(design: Option<Design>, policy: Option<Blob>) {
    && design.Some? && design.value.Registered?
    && (design.value.universeStart >= CAPACITY_GOVERNED_SUCCESSOR_START ==>
          design.value.policy.Some? && policy == design.value.policy)
  }

  function Dir(dirs: map<CaseId, CaseDir>, id: CaseId): CaseDir {
    if id in dirs then dirs[id] else CaseDir(None, {}, None)
  }

  predicate Picks(selection: Selection, id: CaseId) {
    && RoleOf(id.phase) == selection.role && id.index < CASES_PER_PHASE
    && (selection.family.Some? ==> id.family == selection.family.value)
    && (selection.limit.Some? ==> id.index < selection.limit.value)
    && (selection.caseId.Some? ==> id == selection.caseId.value)
  }

  predicate Solved(dir: CaseDir) {
    dir.solarTree.Some? && dir.solarTree.value.manifest.Some?
  }

  function SolarEffect(dir: CaseDir, force: bool, result: Option<SolarTree>): CaseDir {
    if Solved(dir) && !force then dir else dir.(solarTree := result)
  }

  function CollectEffect(dir: CaseDir, force: bool, evidence: Option<Blob>, partial: set<Blob>): CaseDir {
    if dir.evidence.Some? && !force then dir
    else if dir.partial != {} && !force then dir
    else dir.(evidence := evidence, partial := partial)
  }

  function Effect(stage: Stage, dir: CaseDir, force: bool, id: CaseId, oracle: Oracle): CaseDir {
    match stage
    case Solar => SolarEffect(dir, force, oracle.solved(id))
    case Collect => CollectEffect(dir, force, oracle.evidence(id), oracle.partial(id))
  }

  /** The guard against forced work on a frozen held-out corpus. */
  predicate Refused(selection: Selection, force: bool, corpora: map<Role, CorpusFile>) {
    selection.role == HeldOutRole && force && HeldOutRole in corpora
  }

  predicate Freezable(dir: CaseDir) {
    dir.evidence.Some? && Solved(dir)
  }

  ghost predicate FreezeReady(s: Root, role: Role, oracle: Oracle) {
    && oracle.admitted && Ready(s.design, s.policy) && role !in s.corpora
    && forall id :: InRole(id, role) ==> Freezable(Dir(s.dirs, id)) && oracle.valid(id)
  }

  /** The corpus holds exactly the cases of the role, each with the evidence and the manifest in place. */
  ghost predicate Records(cases: map<CaseId, Recorded>, dirs: map<CaseId, CaseDir>, role: Role) {
    && (forall id :: id in cases <==> InRole(id, role))
    && forall id :: InRole(id, role) ==>
      && Freezable(Dir(dirs, id))
      && cases[id] == Recorded(Dir(dirs, id).evidence.value, Dir(dirs, id).solarTree.value.manifest.value)
  }

  // ----- registering a design

  /** Writing the design file, then its manifest in the registry; `writes` of these succeed. */
  ghost function DesignWritten(s: Root, design: Design, writes: int): (Root, bool) {
    if s.design.Some? then (s, s.design.value == design && writes >= 1)
    else if writes <= 0 then (s, false)
    else (s.(design := Some(design)), writes >= 2)
  }

  ghost function Preregistered(s: Root, start: int, source: Option<Blob>, oracle: Oracle): (Root, bool) {
    if !oracle.admitted || (start < CAPACITY_GOVERNED_SUCCESSOR_START) != (source == None) then (s, false)
    else if source == None || s.policy == source then DesignWritten(s, Registered(start, source), oracle.writes)
    else if s.policy.Some? || oracle.writes == 0 then (s, false)
    else DesignWritten(s.(policy := source), Registered(start, source), oracle.writes - 1)
  }

  // ----- preparing problems

  function FamilyIndex(family: Family): nat {
    match family
    case Elementwise => 0 case Transpose => 1 case Reduction => 2 case Matmul => 3 case Softmax => 4
    case CrossEntropy => 5 case IndexedRead => 6 case IndexedUpdate => 7 case Composite => 8 case Transformer => 9
    case Concurrent => 10
  }

  function ProblemOf(problems: map<Family, Problem>, family: Family): Problem {
    if family in problems then problems[family] else Problem(None, None, None)
  }

  /** A problem directory after the first `writes` of its three files were written. */
  function PreparedProblem(before: Problem, template: (Blob, Blob), workload: seq<CaseSpec>, writes: int): Problem {
    Problem(if writes >= 1 then Some(template.0) else before.definition,
            if writes >= 2 then Some(template.1) else before.solution,
            if writes >= 3 then Some(workload) else before.workload)
  }

  ghost function PreparedFamily(s: Root, selected: Option<Family>, family: Family, start: int,
                                oracle: Oracle): Problem {
    if selected.Some? && selected.value != family then ProblemOf(s.problems, family) else
      PreparedProblem(ProblemOf(s.problems, family), oracle.templates(family), WorkloadOf(family, start),
                      oracle.writes - if selected.Some? then 0 else 3 * FamilyIndex(family))
  }

  // ----- promotion, and the outputs that must lie elsewhere

  predicate Unique(ids: seq<nat>) {
    |set x | x in ids| == |ids|
  }

  /** Each source's cases in order, numbered by source. */
  function PromotedCases(sources: seq<PromotionSource>): seq<PromotedCase> {
    if sources == [] then [] else
      var last := |sources| - 1;
      PromotedCases(sources[..last])
      + seq(|sources[last].caseIds|, k requires 0 <= k < |sources[last].caseIds| =>
          PromotedCase(last, sources[last].caseIds[k]))
  }

  predicate SourcesHold(request: Promotion) {
    && 2 <= |request.sources| == |request.snapshots| && Unique(request.snapshots)
    && forall k :: 0 <= k < |request.sources| ==>
         request.sources[k].underRoot && request.snapshots[k] in request.sources[k].snapshots
  }

  predicate Free(design: Option<Design>, policy: Option<Blob>, corpora: map<Role, CorpusFile>, output: Output) {
    match output
    case CorpusOutput(role) => role !in corpora
    case DesignOutput => design == None
    case PolicyOutput => policy == None
    case OtherOutput(taken) => !taken
    case NotUnderRoot => false
  }

  ghost function PromotedInto(s: Root, request: Promotion, content: Blob): Root {
    match request.output
    case CorpusOutput(role) => s.(corpora := s.corpora[role := Promoted(PromotedCases(request.sources))])
    case DesignOutput => s.(design := Some(Foreign(content)))
    case PolicyOutput => s.(policy := Some(content))
    case _ => s
  }

  /** What rebuilding the frozen corpora into `place` would do to the root. */
  ghost function AdoptedInto(s: Root, place: Place, content: Blob): Root {
    match place
    case AtRoot => s.(corpora := map r | r in s.corpora :: Rebuilt(content))
    case InSolarTree(_) => QualifiedInto(s, place, content)
    case _ => s
  }

  /** What writing qualification evidence into `place` would do to the root. */
  ghost function QualifiedInto(s: Root, place: Place, content: Blob): Root {
    if place.InSolarTree? && Dir(s.dirs, place.id).solarTree.Some? then
      var dir := Dir(s.dirs, place.id);
      s.(dirs := s.dirs[place.id := dir.(solarTree := Some(dir.solarTree.value.(files := content)))])
    else s
  }

  /** What one command may do to the root. */
  ghost predicate Step(s: Root, command: Command, oracle: Oracle, s': Root) {
    match command
    case Preregister(start, source) => s' == Preregistered(s, start, source, oracle).0
    case Prepare(selected) =>
      if !Ready(s.design, s.policy) || !oracle.admitted then s' == s else
        && s' == s.(problems := s'.problems)
        && forall f :: ProblemOf(s'.problems, f) == PreparedFamily(s, selected, f, s.design.value.universeStart, oracle)
    case Qualify(place) =>
      s' == if place == Outside && oracle.admitted then QualifiedInto(s, place, oracle.content) else s
    case Execute(stage, selection, force) =>
      if !Ready(s.design, s.policy) || !oracle.admitted || Refused(selection, force, s.corpora) then s' == s else
        && s' == s.(dirs := s'.dirs)
        && forall id :: Dir(s'.dirs, id) == if Picks(selection, id) && oracle.runs(id)
                                            then Effect(stage, Dir(s.dirs, id), force, id, oracle) else Dir(s.dirs, id)
    case Freeze(role) =>
      if FreezeReady(s, role, oracle) then
        && s' == s.(corpora := s'.corpora)
        && s'.corpora.Keys == s.corpora.Keys + {role}
        && (forall r :: r in s.corpora ==> s'.corpora[r] == s.corpora[r])
        && s'.corpora[role].Frozen? && Records(s'.corpora[role].cases, s.dirs, role)
      else s' == s
    case Adopt(place) =>
      s' == if place == Outside && Ready(s.design, s.policy) && oracle.admitted
            then AdoptedInto(s, place, oracle.content) else s
    case Promote(request) =>
      s' == if oracle.admitted && oracle.writes > 0 && SourcesHold(request)
               && Free(s.design, s.policy, s.corpora, request.output)
            then PromotedInto(s, request, oracle.content) else s
  }

  // ----- the commands as they change the files

  class CorpusRoot {
    var design: Option<Design>
    var policy: Option<Blob>
    var problems: map<Family, Problem>
    var dirs: map<CaseId, CaseDir>
    var corpora: map<Role, CorpusFile>

    ghost function State(): Root
      reads this
    {
      Root(design, policy, problems, dirs, corpora)
    }

    /** Freezes the policy file first, then the design. A success means that exactly this plan is registered; a design
        or a policy that is already there is never replaced, by a success or a failure. */
    method Register(universeStart: int, policySource: Option<Blob>, oracle: Oracle) returns (ok: bool)
      modifies this`design, this`policy
      ensures (State(), ok) == Preregistered(old(State()), universeStart, policySource, oracle)
      ensures ok ==> design == Some(Registered(universeStart, policySource)) && Ready(design, policy)
      ensures old(design).Some? ==> design == old(design)
      ensures old(policy).Some? ==> policy == old(policy)
      ensures design.Some? && design != old(design) ==> Ready(design, policy)
    {
      if !oracle.admitted {
        return false;
      }
      var writes: int := oracle.writes;
      if universeStart < CAPACITY_GOVERNED_SUCCESSOR_START {
        if policySource.Some? {
          return false;
        }
      } else {
        if policySource.None? {
          return false;
        }
        if policy.Some? {
          if policy != policySource {
            return false;
          }
        } else {
          if writes == 0 {
            return false;
          }
          policy, writes := policySource, writes - 1;
        }
      }
      var plan := Registered(universeStart, policySource);
      if design.Some? {
        return design.value == plan && writes >= 1;
      }
      if writes == 0 {
        return false;
      }
      design, writes := Some(plan), writes - 1;
      return writes >= 1;
    }

    method SolarCase(id: CaseId, force: bool, oracle: Oracle)
      modifies this`dirs
      ensures dirs == old(dirs)[id := SolarEffect(Dir(old(dirs), id), force, oracle.solved(id))]
    {
      var dir := Dir(dirs, id);
      dirs := dirs[id := dir];
      if Solved(dir) && !force {
        return;
      }
      if force && dir.solarTree.Some? {
        dirs := dirs[id := dir.(solarTree := None)];
      }
      dirs := dirs[id := Dir(dirs, id).(solarTree := oracle.solved(id))];
    }

    method CollectCase(id: CaseId, force: bool, oracle: Oracle)
      modifies this`dirs
      ensures dirs == old(dirs)[id := CollectEffect(Dir(old(dirs), id), force, oracle.evidence(id), oracle.partial(id))]
    {
      var dir := Dir(dirs, id);
      dirs := dirs[id := dir];
      if dir.evidence.Some? && !force {
        return;
      }
      if dir.partial != {} && !force {
        return;
      }
      if force {
        dirs := dirs[id := dir.(evidence := None, partial := {})];
      }
      dirs := dirs[id := Dir(dirs, id).(evidence := oracle.evidence(id), partial := oracle.partial(id))];
    }

    method ExecuteCases(stage: Stage, selection: Selection, force: bool, oracle: Oracle)
      modifies this`dirs
      ensures Step(old(State()), Execute(stage, selection, force), oracle, State())
    {
      if !Ready(design, policy) || !oracle.admitted || Refused(selection, force, corpora) {
        return;
      }
      RunSelected(stage, selection, force, oracle, design.value.universeStart);
    }

    method RunSelected(stage: Stage, selection: Selection, force: bool, oracle: Oracle, universeStart: int)
      modifies this`dirs
      ensures forall id :: Dir(dirs, id) == if Picks(selection, id) && oracle.runs(id)
                                            then Effect(stage, Dir(old(dirs), id), force, id, oracle)
                                            else Dir(old(dirs), id)
    {
      hide Effect;
      var cases := Cases(selection.role, universeStart);
      ghost var done: set<CaseId> := {};
      for i := 0 to |cases|
        invariant forall id :: id in done <==> Picks(selection, id) && oracle.runs(id) && Lists(cases[..i], id)
        invariant forall id :: Dir(dirs, id) == if id in done then Effect(stage, Dir(old(dirs), id), force, id, oracle)
                                                else Dir(old(dirs), id)
      {
        var id := cases[i].id;
        ListsPush(cases, i);
        if Picks(selection, id) && oracle.runs(id) {
          EffectTwice(stage, Dir(old(dirs), id), force, id, oracle);
          done := done + {id};
          RunCase(stage, id, force, oracle);
        }
      }
      assert cases[..|cases|] == cases;
      forall id ensures Lists(cases, id) <==> InRole(id, selection.role) {
        CasesOfRole(selection.role, universeStart, id);
      }
    }

    method RunCase(stage: Stage, id: CaseId, force: bool, oracle: Oracle)
      modifies this`dirs
      ensures dirs == old(dirs)[id := Effect(stage, Dir(old(dirs), id), force, id, oracle)]
    {
      match stage
      case Solar => SolarCase(id, force, oracle);
      case Collect => CollectCase(id, force, oracle);
    }

    method FreezeCorpus(role: Role, oracle: Oracle)
      modifies this`corpora
      ensures Step(old(State()), Freeze(role), oracle, State())
    {
      if role in corpora || !Ready(design, policy) || !oracle.admitted {
        return;
      }
      var cases := Cases(role, design.value.universeStart);
      assert cases[..|cases|] == cases;
      forall id ensures Lists(cases, id) <==> InRole(id, role) {
        CasesOfRole(role, design.value.universeStart, id);
      }
      var recorded: map<CaseId, Recorded> := map[];
      for i := 0 to |cases|
        invariant corpora == old(corpora)
        invariant forall id :: id in recorded <==> Lists(cases[..i], id)
        invariant forall id :: Lists(cases[..i], id) ==>
          && Freezable(Dir(dirs, id)) && oracle.valid(id)
          && recorded[id] == Recorded(Dir(dirs, id).evidence.value, Dir(dirs, id).solarTree.value.manifest.value)
      {
        var id := cases[i].id;
        var dir := Dir(dirs, id);
        ListsPush(cases, i);
        if !Freezable(dir) || !oracle.valid(id) {
          assert Lists(cases, id);
          return;
        }
        recorded := recorded[id := Recorded(dir.evidence.value, dir.solarTree.value.manifest.value)];
      }
      corpora := corpora[role := Frozen(recorded)];
    }

    /** Combines registered source corpora into one new file directly under the root, which must not exist yet. */
    method PromoteDevelopment(request: Promotion, oracle: Oracle)
      modifies this`design, this`policy, this`corpora
      ensures Step(old(State()), Promote(request), oracle, State())
      ensures old(design).Some? ==> design == old(design)
      ensures old(policy).Some? ==> policy == old(policy)
      ensures forall r :: r in old(corpora) ==> r in corpora && corpora[r] == old(corpora)[r]
    {
      if |request.sources| < 2 || |request.sources| != |request.snapshots| || !Unique(request.snapshots) {
        return;
      }
      if !Free(design, policy, corpora, request.output) {
        return;
      }
      var cases: seq<PromotedCase> := [];
      for k := 0 to |request.sources|
        invariant cases == PromotedCases(request.sources[..k])
        invariant forall j :: 0 <= j < k ==>
                    request.sources[j].underRoot && request.snapshots[j] in request.sources[j].snapshots
      {
        var source := request.sources[k];
        if !source.underRoot || request.snapshots[k] !in source.snapshots {
          return;
        }
        assert request.sources[..k + 1][..k] == request.sources[..k];
        cases := cases
          + seq(|source.caseIds|, i requires 0 <= i < |source.caseIds| => PromotedCase(k, source.caseIds[i]));
      }
      assert request.sources[..|request.sources|] == request.sources;
      if !oracle.admitted || oracle.writes == 0 {
        return;
      }
      match request.output
      case CorpusOutput(role) => corpora := corpora[role := Promoted(cases)];
      case DesignOutput => design := Some(Foreign(oracle.content));
      case PolicyOutput => policy := Some(oracle.content);
      case _ =>
    }

    /** Writes definition, solution and workload of each selected family, up to the first write that fails. */
    method PrepareProblems(selected: Option<Family>, oracle: Oracle)
      modifies this`problems
      ensures Step(old(State()), Prepare(selected), oracle, State())
    {
      if !Ready(design, policy) || !oracle.admitted {
        return;
      }
      var start := design.value.universeStart;
      var development := Cases(Development, start);
      var heldOut := Cases(HeldOutRole, start);
      var families := if selected.Some? then [selected.value] else FAMILIES;
      var writes: int := oracle.writes;
      for i := 0 to |families|
        invariant writes == oracle.writes - 3 * i
        invariant forall f :: ProblemOf(problems, f) ==
                    if f in families[..i] then PreparedFamily(old(State()), selected, f, start, oracle)
                    else ProblemOf(old(problems), f)
      {
        var family := families[i];
        FamilyAt(selected, families, i);
        var workload := Select(development + heldOut, family);
        BothRolesForFamily(family, start);
        var prepared := PreparedProblem(ProblemOf(problems, family), oracle.templates(family), workload, writes);
        problems := problems[family := prepared];
        writes := writes - 3;
      }
      assert families[..|families|] == families;
      forall f
        ensures f in families || PreparedFamily(old(State()), selected, f, start, oracle) == ProblemOf(old(problems), f)
      {
        InFamilies(f);
      }
    }

    /** Rebuilds the frozen corpora into a directory that must not touch the root. */
    method AdoptExisting(place: Place, oracle: Oracle)
      modifies this`dirs, this`corpora
      ensures Step(old(State()), Adopt(place), oracle, State()) && State() == old(State())
    {
      if place != Outside || !Ready(design, policy) || !oracle.admitted {
        return;
      }
      RebuildInto(place, oracle.content);
    }

    method RebuildInto(place: Place, content: Blob)
      modifies this`dirs, this`corpora
      ensures State() == AdoptedInto(old(State()), place, content)
    {
      if place == AtRoot {
        corpora := map r | r in corpora :: Rebuilt(content);
      } else {
        WriteInto(place, content);
      }
    }

    /** Writes qualification evidence into a directory that must be isolated from the root. */
    method QualifyCases(place: Place, oracle: Oracle)
      modifies this`dirs
      ensures Step(old(State()), Qualify(place), oracle, State()) && State() == old(State())
    {
      if place != Outside || !oracle.admitted {
        return;
      }
      WriteInto(place, oracle.content);
    }

    method WriteInto(place: Place, content: Blob)
      modifies this`dirs
      ensures State() == QualifiedInto(old(State()), place, content)
    {
      if place.InSolarTree? && Dir(dirs, place.id).solarTree.Some? {
        var dir := Dir(dirs, place.id);
        dirs := dirs[place.id := dir.(solarTree := Some(dir.solarTree.value.(files := content)))];
      }
    }
  }

  lemma FamilyAt(selected: Option<Family>, families: seq<Family>, i: nat)
    requires families == (if selected.Some? then [selected.value] else FAMILIES) && i < |families|
    ensures families[i] !in families[..i]
    ensures forall f :: f in families[..i + 1] <==> f in families[..i] || f == families[i]
    ensures selected.Some? ==> selected.value == families[i] && i == 0
    ensures selected.None? ==> FamilyIndex(families[i]) == i
  {
    assert families[..i + 1] == families[..i] + [families[i]];
  }

  method Select(cases: seq<CaseSpec>, family: Family) returns (selected: seq<CaseSpec>)
    ensures selected == ForFamily(cases, family)
  {
    selected := [];
    for i := 0 to |cases|
      invariant selected == ForFamily(cases[..i], family)
    {
      assert cases[..i + 1][..i] == cases[..i];
      if cases[i].id.family == family { selected := selected + [cases[i]]; }
    }
    assert cases[..|cases|] == cases;
  }

  lemma EffectTwice(stage: Stage, dir: CaseDir, force: bool, id: CaseId, oracle: Oracle)
    ensures Effect(stage, Effect(stage, dir, force, id, oracle), force, id, oracle)
            == Effect(stage, dir, force, id, oracle)
  {
  }

  lemma ListsPush(cases: seq<CaseSpec>, i: nat)
    requires i < |cases|
    ensures forall id :: Lists(cases[..i + 1], id) <==> Lists(cases[..i], id) || id == cases[i].id
  {
    forall id ensures Lists(cases[..i + 1], id) <==> Lists(cases[..i], id) || id == cases[i].id {
      assert cases[..i + 1] == cases[..i] + [cases[i]];
      ListsAppend(cases[..i], [cases[i]], id);
      if id == cases[i].id { assert [cases[i]][0].id == id; }
    }
  }

  // ----- what freezing guarantees

  ghost predicate FrozenRole(s: Root, role: Role) {
    role in s.corpora && s.corpora[role].Frozen?
  }

  /** A frozen held-out corpus records the evidence and SOLAR manifests that are in place. */
  ghost predicate Bound(s: Root) {
    FrozenRole(s, HeldOutRole) ==> Records(s.corpora[HeldOutRole].cases, s.dirs, HeldOutRole)
  }

  ghost predicate SameEvidence(s: Root, s': Root, role: Role) {
    forall id :: InRole(id, role) ==> Dir(s'.dirs, id) == Dir(s.dirs, id)
  }

  /** Only solving and collecting touch a case directory: rebuilding and qualifying write outside the root. */
  lemma OnlyExecuteTouchesCases(s: Root, command: Command, oracle: Oracle, s': Root)
    requires Step(s, command, oracle, s') && !command.Execute?
    ensures s'.dirs == s.dirs
  {
    hide Records, Ready;
  }

  /** No command replaces a file that is written once: the design, its policy, a role's corpus. */
  lemma StepWritesOnce(s: Root, command: Command, oracle: Oracle, s': Root)
    requires Step(s, command, oracle, s')
    ensures s.design.Some? ==> s'.design == s.design
    ensures s.policy.Some? ==> s'.policy == s.policy
    ensures forall r :: r in s.corpora ==> r in s'.corpora && s'.corpora[r] == s.corpora[r]
  {
    hide Records, Ready, PromotedCases;
  }

  lemma ExecuteKeepsHeldOut(s: Root, command: Command, oracle: Oracle, s': Root)
    requires Step(s, command, oracle, s') && command.Execute? && Bound(s) && FrozenRole(s, HeldOutRole)
    ensures SameEvidence(s, s', HeldOutRole)
  {
    hide Ready;
    forall id | InRole(id, HeldOutRole) ensures Dir(s'.dirs, id) == Dir(s.dirs, id) {
      assert Freezable(Dir(s.dirs, id));
    }
  }

  lemma FreezeBinds(s: Root, command: Command, oracle: Oracle, s': Root)
    requires Step(s, command, oracle, s') && FrozenRole(s', HeldOutRole) && !FrozenRole(s, HeldOutRole)
    ensures Bound(s')
  {
    hide Ready, Records, PromotedCases;
  }

  /** One command: the frozen held-out corpus, its evidence and its SOLAR trees stay as they are. */
  lemma StepKeepsHeldOut(s: Root, command: Command, oracle: Oracle, s': Root)
    requires Step(s, command, oracle, s') && Bound(s)
    ensures Bound(s')
    ensures FrozenRole(s, HeldOutRole) ==>
      && FrozenRole(s', HeldOutRole) && s'.corpora[HeldOutRole] == s.corpora[HeldOutRole]
      && SameEvidence(s, s', HeldOutRole)
  {
    hide Step;
    if FrozenRole(s, HeldOutRole) {
      StepWritesOnce(s, command, oracle, s');
      if command.Execute? {
        ExecuteKeepsHeldOut(s, command, oracle, s');
      } else {
        OnlyExecuteTouchesCases(s, command, oracle, s');
      }
    } else if FrozenRole(s', HeldOutRole) {
      FreezeBinds(s, command, oracle, s');
    }
  }

  /** A history of the root: states and the commands between them. */
  ghost predicate History(states: seq<Root>, commands: seq<(Command, Oracle)>) {
    && |states| == |commands| + 1
    && states[0].corpora == map[]
    && forall i :: 0 <= i < |commands| ==> Step(states[i], commands[i].0, commands[i].1, states[i + 1])
  }

  lemma {:induction false} HistoryBound(states: seq<Root>, commands: seq<(Command, Oracle)>, i: nat)
    requires History(states, commands) && i < |states|
    ensures Bound(states[i])
  {
    if i > 0 {
      HistoryBound(states, commands, i - 1);
      StepKeepsHeldOut(states[i - 1], commands[i - 1].0, commands[i - 1].1, states[i]);
    }
  }

  /** Once frozen, always the same: over any later commands, forced or not and for either role,
      the held-out corpus file and every held-out case directory keep their contents. */
  lemma {:induction false} HeldOutImmutable(states: seq<Root>, commands: seq<(Command, Oracle)>, i: nat, j: nat)
    requires History(states, commands) && i <= j < |states| && FrozenRole(states[i], HeldOutRole)
    ensures FrozenRole(states[j], HeldOutRole) && states[j].corpora[HeldOutRole] == states[i].corpora[HeldOutRole]
    ensures SameEvidence(states[i], states[j], HeldOutRole)
    ensures Records(states[j].corpora[HeldOutRole].cases, states[j].dirs, HeldOutRole)
    decreases j
  {
    hide Step, Records;
    HistoryBound(states, commands, j);
    if i < j {
      HeldOutImmutable(states, commands, i, j - 1);
      HistoryBound(states, commands, j - 1);
      StepKeepsHeldOut(states[j - 1], commands[j - 1].0, commands[j - 1].1, states[j]);
    }
    RecordsInPlace(states[j], HeldOutRole);
  }

  lemma RecordsInPlace(s: Root, role: Role)
    ensures role == HeldOutRole && Bound(s) && FrozenRole(s, role) ==> Records(s.corpora[role].cases, s.dirs, role)
  {
  }

  // ----- files written once

  /** Over any history the design file, the policy file and each role's corpus file, once there, never change. */
  lemma {:induction false} FilesWrittenOnce(states: seq<Root>, commands: seq<(Command, Oracle)>, i: nat, j: nat)
    requires History(states, commands) && i <= j < |states|
    ensures states[i].design.Some? ==> states[j].design == states[i].design
    ensures states[i].policy.Some? ==> states[j].policy == states[i].policy
    ensures forall r :: r in states[i].corpora ==>
              r in states[j].corpora && states[j].corpora[r] == states[i].corpora[r]
    ensures Ready(states[i].design, states[i].policy) ==> Ready(states[j].design, states[j].policy)
    decreases j
  {
    hide Step;
    if i < j {
      FilesWrittenOnce(states, commands, i, j - 1);
      StepWritesOnce(states[j - 1], commands[j - 1].0, commands[j - 1].1, states[j]);
    }
  }

  /** A plan that is registered is always ready: its policy was frozen before it and stays. */
  lemma {:induction false} RegisteredIsReady(states: seq<Root>, commands: seq<(Command, Oracle)>, i: nat)
    requires History(states, commands) && states[0].design == None && i < |states|
    ensures states[i].design.Some? ==>
              (Ready(states[i].design, states[i].policy) <==> states[i].design.value.Registered?)
  {
    hide Step;
    if i > 0 {
      RegisteredIsReady(states, commands, i - 1);
      StepWritesOnce(states[i - 1], commands[i - 1].0, commands[i - 1].1, states[i]);
      if states[i - 1].design == None {
        NewDesignIsReady(states[i - 1], commands[i - 1].0, commands[i - 1].1, states[i]);
      }
    }
  }

  lemma NewDesignIsReady(s: Root, command: Command, oracle: Oracle, s': Root)
    requires Step(s, command, oracle, s') && s.design == None
    ensures s'.design.Some? && s'.design.value.Registered? ==> Ready(s'.design, s'.policy)
  {
    hide Records, PromotedCases, FreezeReady;
  }

  /** Registering the same plan again verifies it and changes nothing. */
  lemma RegistrationRepeats(s: Root, start: int, source: Option<Blob>, oracle: Oracle, again: Oracle)
    requires Preregistered(s, start, source, oracle).1 && again.admitted && again.writes >= 1
    ensures Preregistered(Preregistered(s, start, source, oracle).0, start, source, again)
         == (Preregistered(s, start, source, oracle).0, true)
  {
  }

  /** With a design in place a registration still changes the root exactly when it brings an admitted policy for a
      governed start and no policy file is there: the file stays behind even when the plan is then refused. */
  lemma RegistrationLeavesPolicy(s: Root, start: int, source: Option<Blob>, oracle: Oracle)
    requires s.design.Some?
    ensures Preregistered(s, start, source, oracle).0 != s <==>
              && oracle.admitted && oracle.writes > 0 && s.policy == None
              && start >= CAPACITY_GOVERNED_SUCCESSOR_START && source.Some?
    ensures Preregistered(s, start, source, oracle).0 == s.(policy := Preregistered(s, start, source, oracle).0.policy)
  {
  }

  /** A root registered at 100, then offered the plan of 400: the plan is refused and its policy file is there. */
  lemma PolicyOfRefusedPlan(oracle: Oracle) returns (s: Root)
    requires oracle.admitted && oracle.writes > 0
    ensures s.design == Some(Registered(100, None)) && Ready(s.design, s.policy) && s.policy == None
    ensures Preregistered(s, 400, Some(7), oracle) == (s.(policy := Some(7)), false)
  {
    s := Root(Some(Registered(100, None)), None, map[], map[], map[]);
  }

  /** The guard is what keeps rebuilding harmless: written into the root itself it would replace every frozen corpus. */
  lemma RebuildNeedsGuard(s: Root, content: Blob)
    requires FrozenRole(s, HeldOutRole)
    ensures !FrozenRole(AdoptedInto(s, AtRoot, content), HeldOutRole)
    ensures AdoptedInto(s, Outside, content) == s == QualifiedInto(s, Outside, content)
  {
  }

  // ----- promoted cases

  lemma {:induction false} PromotedFrom(sources: seq<PromotionSource>, c: PromotedCase)
    ensures c in PromotedCases(sources) <==> c.source < |sources| && c.caseId in sources[c.source].caseIds
  {
    if sources != [] {
      var last := |sources| - 1;
      PromotedFrom(sources[..last], c);
      assert c in PromotedCases(sources) <==> c in PromotedCases(sources[..last]) || c in Tagged(sources, last);
      if c.source == last && c.caseId in sources[last].caseIds {
        var k :| 0 <= k < |sources[last].caseIds| && sources[last].caseIds[k] == c.caseId;
        assert Tagged(sources, last)[k] == c;
      }
    }
  }

  ghost function Tagged(sources: seq<PromotionSource>, i: nat): seq<PromotedCase>
    requires i < |sources|
  {
    seq(|sources[i].caseIds|, k requires 0 <= k < |sources[i].caseIds| => PromotedCase(i, sources[i].caseIds[k]))
  }

  /** Sources that share case identifiers still give distinct promoted ones. */
  lemma {:induction false} PromotedDistinct(sources: seq<PromotionSource>, a: nat, b: nat)
    requires forall i :: 0 <= i < |sources| ==>
               forall j, k :: 0 <= j < k < |sources[i].caseIds| ==> sources[i].caseIds[j] != sources[i].caseIds[k]
    requires a < b < |PromotedCases(sources)|
    ensures PromotedCases(sources)[a] != PromotedCases(sources)[b]
  {
    var last := |sources| - 1;
    var earlier := PromotedCases(sources[..last]);
    assert PromotedCases(sources) == earlier + Tagged(sources, last);
    if b < |earlier| {
      PromotedDistinct(sources[..last], a, b);
    } else if a < |earlier| {
      PromotedFrom(sources[..last], earlier[a]);
    }
  }

  // ----- what each command needs and leaves, from its arguments and the files in place

  /** Registering: it succeeds exactly when the plan is admitted, has a policy exactly from the governed start on,
      agrees with the policy and the design in place, and every file still to be written is written: the policy, the
      design, the manifest. On a failure the files written before it stay. */
  lemma RegistersExactly(s: Root, start: int, source: Option<Blob>, oracle: Oracle)
    ensures var (s', ok) := Preregistered(s, start, source, oracle);
            var plan, policyDue, designDue := Registered(start, source), source.Some? && s.policy == None,
                                              s.design == None;
            var sound := && oracle.admitted && (source == None <==> start < 400)
                         && (source == None || s.policy in {None, source});
            && (ok <==> && sound && s.design in {None, Some(plan)}
                        && oracle.writes >= 1 + (if policyDue then 1 else 0) + (if designDue then 1 else 0))
            && s' == s.(policy := if sound && policyDue && oracle.writes >= 1 then source else s.policy,
                        design := if sound && designDue && oracle.writes >= (if policyDue then 2 else 1)
                                  then Some(plan) else s.design)
  {
  }

  /** Preparing: the families are taken in turn, or the named one alone, and each gets its definition, its solution and
      its own workload, as far as the writes go; every other problem stays as it is. */
  lemma PreparesExactly(s: Root, selected: Option<Family>, oracle: Oracle, s': Root, k: nat)
    requires Step(s, Prepare(selected), oracle, s') && k < |FAMILIES|
    ensures s' == s.(problems := s'.problems)
    ensures var family := FAMILIES[k];
            var before, after := ProblemOf(s.problems, family), ProblemOf(s'.problems, family);
            var earlier := if selected.Some? then 0 else 3 * k;
            if !oracle.admitted || !Ready(s.design, s.policy) || selected !in {None, Some(family)} then after == before
            else
              && after.definition == (if oracle.writes > earlier then Some(oracle.templates(family).0)
                                      else before.definition)
              && after.solution == (if oracle.writes > earlier + 1 then Some(oracle.templates(family).1)
                                    else before.solution)
              && after.workload == (if oracle.writes > earlier + 2
                                    then Some(WorkloadOf(family, s.design.value.universeStart)) else before.workload)
  {
    hide Ready, WorkloadOf;
    FamilyAt(None, FAMILIES, k);
  }

  /** Freezing: the corpus is written exactly when there is none yet, the plan is ready and every case of the role has
      evidence that validates and a SOLAR manifest; and then it holds exactly these, and nothing else changes. */
  lemma FreezesExactly(s: Root, role: Role, oracle: Oracle, s': Root)
    requires Step(s, Freeze(role), oracle, s')
    ensures s' != s <==>
              && oracle.admitted && Ready(s.design, s.policy) && role !in s.corpora
              && forall id: CaseId :: (id.phase == HeldOut <==> role == HeldOutRole) && id.index < 20 ==>
                   var dir := Dir(s.dirs, id);
                   && dir.evidence.Some? && dir.solarTree.Some? && dir.solarTree.value.manifest.Some?
                   && oracle.valid(id)
    ensures s' != s ==>
              && s'.corpora.Keys == s.corpora.Keys + {role} && s'.corpora[role].Frozen?
              && s' == s.(corpora := s.corpora[role := s'.corpora[role]])
              && forall id: CaseId ::
                   var recorded := s'.corpora[role].cases;
                   var dir := Dir(s.dirs, id);
                   if (id.phase == HeldOut <==> role == HeldOutRole) && id.index < 20 then
                     && id in recorded && dir.evidence == Some(recorded[id].evidence)
                     && dir.solarTree.Some? && dir.solarTree.value.manifest == Some(recorded[id].manifest)
                   else id !in recorded
  {
    hide Ready;
    if s' != s { assert s'.corpora == s.corpora[role := s'.corpora[role]]; }
  }

  /** Promoting into a role's corpus file: it is written exactly when at least two sources lie under the root, each
      registered under its own snapshot, no snapshot is named twice, and the file is not there yet. */
  lemma PromotesExactly(s: Root, sources: seq<PromotionSource>, snapshots: seq<nat>, role: Role, oracle: Oracle,
                        s': Root)
    requires Step(s, Promote(Promotion(sources, snapshots, CorpusOutput(role))), oracle, s')
    ensures s' != s <==>
              && oracle.admitted && oracle.writes > 0 && |sources| >= 2 && |snapshots| == |sources|
              && (forall i, j :: 0 <= i < j < |snapshots| ==> snapshots[i] != snapshots[j])
              && (forall k :: 0 <= k < |sources| && k < |snapshots| ==>
                    sources[k].underRoot && snapshots[k] in sources[k].snapshots)
              && role !in s.corpora
    ensures s' != s ==> s' == s.(corpora := s.corpora[role := Promoted(PromotedCases(sources))])
  {
    hide SourcesHold, PromotedCases, Step;
    var request := Promotion(sources, snapshots, CorpusOutput(role));
    SourcesMean(request);
    PromoteStep(s, request, oracle, s');
    var corpora := s.corpora[role := Promoted(PromotedCases(sources))];
    assert role in corpora && PromotedInto(s, request, oracle.content) == s.(corpora := corpora);
  }

  lemma PromoteStep(s: Root, request: Promotion, oracle: Oracle, s': Root)
    requires Step(s, Promote(request), oracle, s')
    ensures s' == if oracle.admitted && oracle.writes > 0 && SourcesHold(request)
                     && Free(s.design, s.policy, s.corpora, request.output)
                  then PromotedInto(s, request, oracle.content) else s
  {
  }

  lemma SourcesMean(request: Promotion)
    ensures SourcesHold(request) <==>
              && |request.sources| >= 2 && |request.snapshots| == |request.sources|
              && (forall i, j :: 0 <= i < j < |request.snapshots| ==> request.snapshots[i] != request.snapshots[j])
              && (forall k :: 0 <= k < |request.sources| && k < |request.snapshots| ==>
                    request.sources[k].underRoot && request.snapshots[k] in request.sources[k].snapshots)
  {
    hide Unique;
    UniqueMeans(request.snapshots);
  }

  /** No file but a free one under the root is ever the output of a promotion. */
  lemma PromotesOnlyIntoFree(s: Root, request: Promotion, oracle: Oracle, s': Root)
    requires Step(s, Promote(request), oracle, s') && s' != s
    ensures match request.output
            case CorpusOutput(role) => role !in s.corpora && s' == s.(corpora := s'.corpora)
            case DesignOutput => s.design == None && s' == s.(design := s'.design)
            case PolicyOutput => s.policy == None && s' == s.(policy := s'.policy)
            case _ => false
  {
    hide Ready, PromotedCases;
  }

  lemma UniqueMeans(ids: seq<nat>)
    ensures Unique(ids) <==> Distinct(ids)
  {
    DistinctBySize(ids);
    assert SetOf(ids) == set x | x in ids;
  }

  /** The promoted cases stand in the order of the sources, and in the order of each source. */
  lemma {:induction false} PromotedInOrder(sources: seq<PromotionSource>, k: nat, i: nat)
    requires k < |sources| && i < |sources[k].caseIds|
    ensures var at := |PromotedCases(sources[..k])| + i;
            at < |PromotedCases(sources)| && PromotedCases(sources)[at] == PromotedCase(k, sources[k].caseIds[i])
    decreases |sources|
  {
    var last := |sources| - 1;
    if k < last {
      assert sources[..last][..k] == sources[..k];
      PromotedInOrder(sources[..last], k, i);
    }
  }

  // ----- which cases a command works on, from the selection's own fields

  /** A solving or collecting command leaves a case alone unless the case has the selected role and every narrower
      field that is given: the family, an index below the limit, the named case. */
  lemma UnselectedUntouched(s: Root, stage: Stage, selection: Selection, force: bool, oracle: Oracle, s': Root,
                            id: CaseId)
    requires Step(s, Execute(stage, selection, force), oracle, s')
    requires || (id.phase == HeldOut) != (selection.role == HeldOutRole) || id.index >= 20
             || (selection.family.Some? && selection.family.value != id.family)
             || (selection.limit.Some? && selection.limit.value <= id.index)
             || (selection.caseId.Some? && selection.caseId.value != id)
    ensures Dir(s'.dirs, id) == Dir(s.dirs, id)
  {
    hide Ready, Effect, Refused;
  }

  /** A case that has the role and every field given, and that the command gets to, is left as the stage's tool left it
      if the work is forced or nothing stands in its way, and as it was otherwise; unless the command is refused, or
      the plan is not registered under the policy in place. */
  lemma SelectedWorkedOn(s: Root, stage: Stage, selection: Selection, force: bool, oracle: Oracle, s': Root, id: CaseId)
    requires Step(s, Execute(stage, selection, force), oracle, s')
    requires (id.phase == HeldOut <==> selection.role == HeldOutRole) && id.index < 20
    requires selection.family in {None, Some(id.family)} && selection.caseId in {None, Some(id)}
    requires selection.limit.Some? ==> id.index < selection.limit.value
    requires oracle.admitted && oracle.runs(id)
    ensures var before, after := Dir(s.dirs, id), Dir(s'.dirs, id);
            var ready := match s.design
                         case Some(Registered(start, policy)) => start >= 400 ==> policy.Some? && s.policy == policy
                         case _ => false;
            if !ready || (selection.role == HeldOutRole && force && HeldOutRole in s.corpora) then after == before
            else match stage
              case Solar =>
                && after.evidence == before.evidence && after.partial == before.partial
                && after.solarTree ==
                     if force || before.solarTree == None || before.solarTree.value.manifest == None
                     then oracle.solved(id) else before.solarTree
              case Collect =>
                && after.solarTree == before.solarTree
                && (after.evidence, after.partial) ==
                     if force || (before.evidence == None && before.partial == {})
                     then (oracle.evidence(id), oracle.partial(id)) else (before.evidence, before.partial)
  {
  }

  /** A command that deletes and redoes some case of `role` in spite of a frozen corpus. */
  ghost predicate Redoes(command: Command, role: Role) {
    && command.Execute? && command.force && command.selection.role == role == Development
    && exists id :: Picks(command.selection, id)
  }

  ghost predicate MayChange(s: Root, command: Command, role: Role) {
    exists oracle, s' :: Step(s, command, oracle, s') && !SameEvidence(s, s', role)
  }

  ghost predicate Complete(s: Root, role: Role) {
    forall id :: InRole(id, role) ==> Freezable(Dir(s.dirs, id))
  }

  /** The stage may replace something of the case: it is forced, or what it makes is not there yet. */
  predicate OpenTo(stage: Stage, dir: CaseDir, force: bool) {
    match stage
    case Solar => force || !Solved(dir)
    case Collect => force || (dir.evidence.None? && dir.partial == {})
  }

  ghost predicate TouchesCase(s: Root, command: Command, role: Role, id: CaseId)
    requires command.Execute?
  {
    InRole(id, role) && Picks(command.selection, id) && OpenTo(command.stage, Dir(s.dirs, id), command.force)
  }

  ghost predicate CanTouch(s: Root, command: Command, role: Role) {
    && command.Execute? && Ready(s.design, s.policy) && !Refused(command.selection, command.force, s.corpora)
    && exists id :: TouchesCase(s, command, role, id)
  }

  /** In any state, frozen or not, a command can change a role's evidence or SOLAR trees exactly when it solves or
      collects, is not refused, and picks a case of the role that is forced or still open to its stage. */
  lemma ChangeExactly(s: Root, command: Command, role: Role)
    ensures MayChange(s, command, role) <==> CanTouch(s, command, role)
  {
    hide Step, SameEvidence, CanTouch;
    if CanTouch(s, command, role) {
      TouchChanges(s, command, role);
    }
    if MayChange(s, command, role) {
      var oracle, s' :| Step(s, command, oracle, s') && !SameEvidence(s, s', role);
      ChangeTouches(s, command, oracle, s', role);
    }
  }

  lemma ChangeTouches(s: Root, command: Command, oracle: Oracle, s': Root, role: Role)
    requires Step(s, command, oracle, s') && !SameEvidence(s, s', role)
    ensures CanTouch(s, command, role)
  {
    if !command.Execute? { OnlyExecuteTouchesCases(s, command, oracle, s'); }
    hide Ready;
    var id :| InRole(id, role) && Dir(s'.dirs, id) != Dir(s.dirs, id);
    assert TouchesCase(s, command, role, id);
  }

  /** Some outcome of the stage differs from what is there. */
  function OtherOutcome(dir: CaseDir, id: CaseId): Oracle {
    var tree := if dir.solarTree == None then Some(SolarTree(None, 0)) else None;
    var evidence := if dir.evidence == None then Some(0) else None;
    Oracle(true, 0, i => i == id, i => tree, i => evidence, i => {}, i => true, f => (0, 0), 0)
  }

  lemma TouchChanges(s: Root, command: Command, role: Role)
    requires CanTouch(s, command, role)
    ensures MayChange(s, command, role)
  {
    hide Ready;
    var id :| TouchesCase(s, command, role, id);
    var dir := Dir(s.dirs, id);
    var oracle := OtherOutcome(dir, id);
    var s' := s.(dirs := s.dirs[id := Effect(command.stage, dir, command.force, id, oracle)]);
    assert Step(s, command, oracle, s');
    assert Dir(s'.dirs, id) != dir;
    assert !SameEvidence(s, s', role);
  }

  /** The guard names the held-out role only. With a role's corpus frozen and every case of it still complete, a
      command can change its evidence exactly when it is forced work on the development role. */
  lemma GuardCoversHeldOutOnly(s: Root, command: Command, role: Role)
    requires Ready(s.design, s.policy) && FrozenRole(s, role) && Complete(s, role)
    ensures MayChange(s, command, role) <==> Redoes(command, role)
  {
    hide MayChange, Ready;
    ChangeExactly(s, command, role);
    if Redoes(command, role) {
      var id :| Picks(command.selection, id);
      assert TouchesCase(s, command, role, id);
    }
    if CanTouch(s, command, role) {
      var id :| TouchesCase(s, command, role, id);
      assert Freezable(Dir(s.dirs, id));
    }
  }

  lemma FreezeCompletes(s: Root, command: Command, oracle: Oracle, s': Root, role: Role)
    requires Step(s, command, oracle, s') && FrozenRole(s', role) && !FrozenRole(s, role)
    ensures Complete(s', role) && Records(s'.corpora[role].cases, s'.dirs, role) && Ready(s'.design, s'.policy)
  {
    hide Ready, PromotedCases;
  }

  lemma KeptUnlessRedone(s: Root, command: Command, oracle: Oracle, s': Root, role: Role)
    requires Step(s, command, oracle, s') && Ready(s.design, s.policy) && FrozenRole(s, role) && Complete(s, role)
    requires !Redoes(command, role)
    ensures SameEvidence(s, s', role) && Complete(s', role)
    ensures FrozenRole(s', role) && s'.corpora[role] == s.corpora[role] && Ready(s'.design, s'.policy)
  {
    hide Step, Ready, Redoes, MayChange;
    StepWritesOnce(s, command, oracle, s');
    StepKeepsReady(s, command, oracle, s');
    GuardCoversHeldOutOnly(s, command, role);
    ChangeShows(s, command, oracle, s', role);
  }

  lemma ChangeShows(s: Root, command: Command, oracle: Oracle, s': Root, role: Role)
    ensures Step(s, command, oracle, s') && !SameEvidence(s, s', role) ==> MayChange(s, command, role)
  {
    hide Step, SameEvidence;
  }

  lemma StepKeepsReady(s: Root, command: Command, oracle: Oracle, s': Root)
    requires Step(s, command, oracle, s') && Ready(s.design, s.policy)
    ensures Ready(s'.design, s'.policy)
  {
    hide Step;
    StepWritesOnce(s, command, oracle, s');
  }

  /** The role is frozen by step `f` and no command before `k` redoes it. */
  ghost predicate FrozenSince(states: seq<Root>, commands: seq<(Command, Oracle)>, f: nat, k: nat, role: Role) {
    && History(states, commands) && f < k < |states|
    && !FrozenRole(states[f], role) && FrozenRole(states[f + 1], role)
    && forall m :: f < m < k ==> !Redoes(commands[m].0, role)
  }

  /** From the step that freezes a role until the first command that redoes it, its corpus file, evidence and trees
      stay as they are, every case stays complete, and the corpus records what is in place. */
  lemma {:induction false} KeptUntilRedone(states: seq<Root>, commands: seq<(Command, Oracle)>, f: nat, k: nat,
                                           role: Role)
    requires FrozenSince(states, commands, f, k, role)
    ensures SameEvidence(states[f + 1], states[k], role) && Complete(states[k], role)
    ensures FrozenRole(states[k], role) && states[k].corpora[role] == states[f + 1].corpora[role]
    ensures Records(states[k].corpora[role].cases, states[k].dirs, role) && Ready(states[k].design, states[k].policy)
    decreases k
  {
    hide Step, Redoes, Ready, Freezable;
    if k == f + 1 {
      FreezeCompletes(states[f], commands[f].0, commands[f].1, states[k], role);
    } else {
      KeptUntilRedone(states, commands, f, k - 1, role);
      KeptUnlessRedone(states[k - 1], commands[k - 1].0, commands[k - 1].1, states[k], role);
    }
  }

  /** The exact condition for the first change: after a role is frozen, as long as nothing has redone it, the next
      command can change its evidence if and only if it is forced work on the development role. */
  lemma FirstChangeIsRedo(states: seq<Root>, commands: seq<(Command, Oracle)>, f: nat, k: nat, role: Role,
                         next: Command)
    requires FrozenSince(states, commands, f, k, role)
    ensures MayChange(states[k], next, role) <==> Redoes(next, role)
  {
    hide MayChange, Redoes, Ready, Complete, Step;
    KeptUntilRedone(states, commands, f, k, role);
    GuardCoversHeldOutOnly(states[k], next, role);
  }

  /** After a forced redo whose tools fail, unforced work can change the frozen development role as well. */
  lemma RedoneThenUnforced(s: Root, id: CaseId) returns (oracle: Oracle, s': Root)
    requires Ready(s.design, s.policy) && FrozenRole(s, Development) && InRole(id, Development)
    ensures var one := Selection(Development, None, None, Some(id));
            && Step(s, Execute(Collect, one, true), oracle, s') && FrozenRole(s', Development)
            && MayChange(s', Execute(Collect, one, false), Development)
            && !Redoes(Execute(Collect, one, false), Development)
  {
    hide MayChange, Ready;
    oracle := Oracle(true, 0, i => i == id, i => None, i => None, i => {}, i => true, f => (0, 0), 0);
    var one := Selection(Development, None, None, Some(id));
    s' := s.(dirs := s.dirs[id := Effect(Collect, Dir(s.dirs, id), true, id, oracle)]);
    assert Step(s, Execute(Collect, one, true), oracle, s');
    ChangeExactly(s', Execute(Collect, one, false), Development);
    assert TouchesCase(s', Execute(Collect, one, false), Development, id);
  }
}
