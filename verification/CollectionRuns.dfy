/** The registry of collection runs: one manifest per run, one generation chain per design. */
module CollectionRuns {
  import opened Results

  /** The content identity of a run; two runs share it only when every field agrees. */
  datatype RunId = RunId(design: string, generation: nat, roles: seq<string>, frozen: Option<string>, revision: string)

  datatype Manifest = Manifest(id: RunId, design: string, generation: nat, supersedes: Option<RunId>, createdAt: string)

  datatype Request = Request(design: string, roles: seq<string>, frozen: Option<string>, revision: string,
                             createdAt: string,
                             effects: Effects)

  /** How far the file effects get: importing blobs, writing the manifest, storing the manifest's own blob. */
  datatype Effects = ImportFails | WriteFails | ManifestBlobFails | Succeed

  datatype RegisterError = MissingDesign | EffectFailed

  type Runs = map<RunId, Manifest>

  function RunsOf(runs: Runs, design: string): set<RunId> {
    set id | id in runs && runs[id].design == design
  }

  ghost predicate IsLatest(runs: Runs, design: string, latest: Option<Manifest>) {
    match latest
    case None => RunsOf(runs, design) == {}
    case Some(m) =>
      && m.id in RunsOf(runs, design) && runs[m.id] == m
      && forall id :: id in RunsOf(runs, design) ==> runs[id].generation <= m.generation
  }

  /** The manifest a registration writes after `prior`. */
  function NextRun(prior: Option<Manifest>, r: Request): Manifest {
    var generation := if prior.None? then 1 else prior.value.generation + 1;
    Manifest(RunId(r.design, generation, r.roles, r.frozen, r.revision), r.design, generation,
             if prior.None? then None else Some(prior.value.id), r.createdAt)
  }

  predicate Lands(designs: set<string>, r: Request) {
    r.design in designs && (r.effects.ManifestBlobFails? || r.effects.Succeed?)
  }

  /** One registration as a relation between registries. */
  ghost predicate Step(designs: set<string>, before: Runs, r: Request, after: Runs) {
    if Lands(designs, r) then
      exists prior :: IsLatest(before, r.design, prior) && after == before[NextRun(prior, r).id := NextRun(prior, r)]
    else
      after == before
  }

  class Registry {
    const designs: set<string>
    var runs: Runs

    constructor (designs: set<string>)
      ensures this.designs == designs && runs == map[]
    {
      this.designs := designs;
      runs := map[];
    }

    /** The run of the highest generation, the first one found when several share it. */
    method Latest(design: string) returns (latest: Option<Manifest>)
      requires Keyed(runs)
      ensures IsLatest(runs, design, latest)
    {
      latest := None;
      var rest := runs.Keys;
      while rest != {}
        invariant rest <= runs.Keys
        invariant IsLatest(map id | id in runs && id !in rest :: runs[id], design, latest)
        decreases rest
      {
        ghost var seen := map id | id in runs && id !in rest :: runs[id];
        var id :| id in rest;
        var m := runs[id];
        if m.design == design && (latest.None? || latest.value.generation < m.generation) {
          latest := Some(m);
        }
        rest := rest - {id};
        LooksAt(seen, map other | other in runs && other !in rest :: runs[other], id, design);
      }
      assert (map id | id in runs && id !in rest :: runs[id]) == runs;
    }

    method Register(r: Request) returns (result: Result<RunId, RegisterError>)
      requires Keyed(runs)
      modifies this`runs
      ensures Step(designs, old(runs), r, runs)
      ensures result.Ok? <==> r.design in designs && r.effects.Succeed?
      ensures result.Ok? ==> result.value in runs
                             && exists prior ::
                                  IsLatest(old(runs), r.design, prior) && result.value == NextRun(prior, r).id
      ensures result == Err(MissingDesign) <==> r.design !in designs
      ensures r.design !in designs || r.effects.ImportFails? || r.effects.WriteFails? ==> runs == old(runs)
      ensures r.design in designs && (r.effects.ManifestBlobFails? || r.effects.Succeed?) ==>
                exists prior ::
                  && IsLatest(old(runs), r.design, prior)
                  && runs == old(runs)[NextRun(prior, r).id := NextRun(prior, r)]
    {
      if r.design !in designs { return Err(MissingDesign); }
      var prior := Latest(r.design);
      var manifest := NextRun(prior, r);
      if r.effects.ImportFails? || r.effects.WriteFails? { return Err(EffectFailed); }
      runs := runs[manifest.id := manifest];
      if r.effects.ManifestBlobFails? { return Err(EffectFailed); }
      return Ok(manifest.id);
    }
  }

  lemma LooksAt(before: Runs, after: Runs, id: RunId, design: string)
    requires id in after && after == before[id := after[id]] && id !in before
    ensures RunsOf(after, design) == RunsOf(before, design) + (if after[id].design == design then {id} else {})
  {
  }

  // ----- what every registry built by registrations looks like

  /** A manifest is stored under its own identity, which repeats its fields. */
  predicate Keyed(runs: Runs) {
    forall id :: id in runs ==>
        runs[id].id == id && id.design == runs[id].design && id.generation == runs[id].generation
  }

  ghost predicate Within(runs: Runs, design: string, k: nat) {
    forall id :: id in RunsOf(runs, design) ==> 1 <= runs[id].generation <= k
  }

  ghost predicate Generation(runs: Runs, design: string, g: nat, id: RunId) {
    id in RunsOf(runs, design) && runs[id].generation == g
  }

  ghost predicate HasGeneration(runs: Runs, design: string, g: nat) {
    exists id :: Generation(runs, design, g, id)
  }

  ghost predicate SupersedesPrevious(runs: Runs, design: string, g: nat, id: RunId)
    requires id in runs
  {
    if g <= 1 then runs[id].supersedes == None
    else runs[id].supersedes.Some? && Generation(runs, design, g - 1, runs[id].supersedes.value)
  }

  /** The design's runs are generations 1..k, each exactly once, each superseding exactly the one before. */
  ghost predicate Chain(runs: Runs, design: string, k: nat) {
    && Within(runs, design, k)
    && (forall g: nat :: 1 <= g <= k ==> HasGeneration(runs, design, g))
    && (forall g: nat, a, b :: Generation(runs, design, g, a) && Generation(runs, design, g, b) ==> a == b)
    && (forall g: nat, id {:trigger SupersedesPrevious(runs, design, g, id)} ::
          Generation(runs, design, g, id) ==> SupersedesPrevious(runs, design, g, id))
  }

  ghost predicate HasChain(runs: Runs, design: string) {
    exists k: nat :: Chain(runs, design, k)
  }

  ghost predicate Chained(runs: Runs) {
    Keyed(runs) && forall design :: HasChain(runs, design)
  }

  /** Registering one run extends its own design's chain by one generation. */
  lemma ChainExtends(runs: Runs, r: Request, prior: Option<Manifest>, k: nat)
    requires Keyed(runs) && IsLatest(runs, r.design, prior) && Chain(runs, r.design, k)
    ensures var m := NextRun(prior, r); m.id !in runs && Chain(runs[m.id := m], r.design, k + 1)
  {
    LatestGeneration(runs, r.design, prior, k);
    var m := NextRun(prior, r);
    assert m.generation == k + 1;
    var after := runs[m.id := m];
    assert m.id in runs ==> m.id in RunsOf(runs, r.design);
    forall g: nat, id
      ensures Generation(after, r.design, g, id) <==> Generation(runs, r.design, g, id) || (id == m.id && g == k + 1)
    {
    }
    forall g: nat | 1 <= g <= k + 1 ensures HasGeneration(after, r.design, g) {
      if g <= k {
        assert HasGeneration(runs, r.design, g);
        var id :| Generation(runs, r.design, g, id);
        assert Generation(after, r.design, g, id);
      } else {
        assert Generation(after, r.design, g, m.id);
      }
    }
    forall g: nat, id | Generation(after, r.design, g, id) ensures SupersedesPrevious(after, r.design, g, id) {
      if id == m.id {
        NewestSupersedes(runs, r, prior, k);
      } else {
        assert SupersedesPrevious(runs, r.design, g, id);
      }
    }
  }

  lemma LatestGeneration(runs: Runs, design: string, prior: Option<Manifest>, k: nat)
    requires IsLatest(runs, design, prior) && Chain(runs, design, k)
    ensures k == if prior.None? then 0 else prior.value.generation
  {
    if k >= 1 {
      assert HasGeneration(runs, design, k);
      var id :| Generation(runs, design, k, id);
      assert id in RunsOf(runs, design);
    }
  }

  lemma NewestSupersedes(runs: Runs, r: Request, prior: Option<Manifest>, k: nat)
    requires Keyed(runs) && IsLatest(runs, r.design, prior) && Chain(runs, r.design, k)
    ensures var m := NextRun(prior, r);
            if k == 0 then m.supersedes == None
            else m.supersedes.Some? && Generation(runs, r.design, k, m.supersedes.value)
  {
    LatestGeneration(runs, r.design, prior, k);
  }

  /** It leaves every other design's chain alone. */
  lemma ChainUntouched(runs: Runs, m: Manifest, design: string, k: nat)
    requires m.id !in runs && m.design != design && Chain(runs, design, k)
    ensures Chain(runs[m.id := m], design, k)
  {
    var after := runs[m.id := m];
    forall g: nat, id ensures Generation(after, design, g, id) <==> Generation(runs, design, g, id) {
    }
    forall g: nat | 1 <= g <= k ensures HasGeneration(after, design, g) {
      assert HasGeneration(runs, design, g);
      var id :| Generation(runs, design, g, id);
      assert Generation(after, design, g, id);
    }
    forall g: nat, id | Generation(after, design, g, id) ensures SupersedesPrevious(after, design, g, id) {
      assert SupersedesPrevious(runs, design, g, id);
    }
  }

  lemma StepKeepsChains(designs: set<string>, before: Runs, r: Request, after: Runs)
    requires Chained(before) && Step(designs, before, r, after)
    ensures Chained(after)
    ensures forall id :: id in before ==> id in after && after[id] == before[id]
  {
    hide Chain, IsLatest;
    if Lands(designs, r) {
      var prior :| IsLatest(before, r.design, prior) && after == before[NextRun(prior, r).id := NextRun(prior, r)];
      assert HasChain(before, r.design);
      var k: nat :| Chain(before, r.design, k);
      ChainExtends(before, r, prior, k);
      forall design ensures HasChain(after, design) {
        if design != r.design {
          assert HasChain(before, design);
          var j: nat :| Chain(before, design, j);
          ChainUntouched(before, NextRun(prior, r), design, j);
        }
      }
    }
  }

  // ----- whole histories

  ghost predicate History(designs: set<string>, requests: seq<Request>, states: seq<Runs>) {
    && |states| == |requests| + 1
    && states[0] == map[]
    && forall i :: 0 <= i < |requests| ==> Step(designs, states[i], requests[i], states[i + 1])
  }

  function Landed(designs: set<string>, requests: seq<Request>, design: string): nat {
    if requests == [] then 0 else
      Landed(designs, requests[..|requests| - 1], design)
      + if Lands(designs, requests[|requests| - 1]) && requests[|requests| - 1].design == design then 1 else 0
  }

  /** After any sequence of registrations each design has exactly generations 1..k, where `k` is how many of its
      registrations wrote a manifest; a registration that fails after the write still takes a generation. */
  lemma {:induction false} HistoryIsChained(designs: set<string>, requests: seq<Request>, states: seq<Runs>,
                                            design: string)
    requires History(designs, requests, states)
    ensures Keyed(states[|requests|])
    ensures Chain(states[|requests|], design, Landed(designs, requests, design))
  {
    hide Chain, IsLatest, Step;
    var n := |requests|;
    if n == 0 {
      EmptyChain(design);
    } else {
      assert History(designs, requests[..n - 1], states[..n]);
      HistoryIsChained(designs, requests[..n - 1], states[..n], design);
      HistoryIsChained(designs, requests[..n - 1], states[..n], requests[n - 1].design);
      StepAddsGeneration(designs, states[n - 1], requests[n - 1], states[n], design,
                         Landed(designs, requests[..n - 1], design),
                         Landed(designs, requests[..n - 1], requests[n - 1].design));
    }
  }

  lemma EmptyChain(design: string)
    ensures Keyed(map[]) && Chain(map[], design, 0)
  {
  }

  lemma StepAddsGeneration(designs: set<string>, before: Runs, r: Request, after: Runs, design: string, k: nat,
                           own: nat)
    requires Keyed(before) && Chain(before, design, k) && Chain(before, r.design, own)
             && Step(designs, before, r, after)
    ensures Keyed(after)
    ensures Chain(after, design, if Lands(designs, r) && r.design == design then k + 1 else k)
  {
    hide Chain, IsLatest;
    if Lands(designs, r) {
      var prior :| IsLatest(before, r.design, prior) && after == before[NextRun(prior, r).id := NextRun(prior, r)];
      ChainExtends(before, r, prior, own);
      if r.design == design {
        ChainExtends(before, r, prior, k);
      } else {
        ChainUntouched(before, NextRun(prior, r), design, k);
      }
    }
  }

  /** No later registration changes or removes a manifest already written. */
  lemma {:induction false} ManifestsAreImmutable(designs: set<string>, requests: seq<Request>, states: seq<Runs>,
                                                 i: nat, j: nat, id: RunId)
    requires History(designs, requests, states) && i <= j < |states| && id in states[i]
    ensures id in states[j] && states[j][id] == states[i][id]
    decreases j
  {
    hide Step, Chained;
    if i < j {
      ManifestsAreImmutable(designs, requests, states, i, j - 1, id);
      ReachedIsChained(designs, requests, states, j - 1);
      StepKeepsChains(designs, states[j - 1], requests[j - 1], states[j]);
    }
  }

  lemma {:induction false} ReachedIsChained(designs: set<string>, requests: seq<Request>, states: seq<Runs>, j: nat)
    requires History(designs, requests, states) && j < |states|
    ensures Chained(states[j])
  {
    hide Step, Chain;
    if j == 0 {
      forall design ensures HasChain(states[0], design) {
        EmptyChain(design);
      }
    } else {
      ReachedIsChained(designs, requests, states, j - 1);
      StepKeepsChains(designs, states[j - 1], requests[j - 1], states[j]);
    }
  }

  // ----- following the supersedes links

  /** The run `id` and everything it supersedes, newest first. */
  ghost function Lineage(runs: Runs, design: string, k: nat, id: RunId, g: nat): seq<RunId>
    requires Chain(runs, design, k) && Generation(runs, design, g, id)
    decreases g
  {
    if g <= 1 then [id] else
      assert SupersedesPrevious(runs, design, g, id);
      [id] + Lineage(runs, design, k, runs[id].supersedes.value, g - 1)
  }

  /** From the newest run the links walk back through every run of the design, one per generation. */
  lemma {:induction false} LineageCovers(runs: Runs, design: string, k: nat, id: RunId, g: nat, other: RunId)
    requires Chain(runs, design, k) && Generation(runs, design, g, id)
    ensures g >= 1 && |Lineage(runs, design, k, id, g)| == g
    ensures other in Lineage(runs, design, k, id, g) <==> other in RunsOf(runs, design) && runs[other].generation <= g
    decreases g
  {
    if g > 1 {
      assert SupersedesPrevious(runs, design, g, id);
      LineageCovers(runs, design, k, runs[id].supersedes.value, g - 1, other);
      if other in RunsOf(runs, design) && runs[other].generation == g { assert Generation(runs, design, g, other); }
    } else if other in RunsOf(runs, design) && runs[other].generation <= g {
      assert Generation(runs, design, g, other);
    }
  }
}
