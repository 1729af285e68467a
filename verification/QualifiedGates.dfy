/** The static, canary and full qualification gates, each linked by hash to the gate before it. */
module QualifiedGates {
  import opened Results
  import opened Sorting

  datatype Stage = Static | Canary | Full

  function Parent(stage: Stage): Option<Stage> {
    match stage
    case Static => None
    case Canary => Some(Static)
    case Full => Some(Canary)
  }

  /** The stages a verification of `stage` visits, in order. */
  function Lineage(stage: Stage): seq<Stage> {
    match stage
    case Static => [Static]
    case Canary => [Static, Canary]
    case Full => [Static, Canary, Full]
  }

  /** A content hash: two digests are equal only when the contents are. */
  datatype Digest<T> = Sha256(content: T)

  datatype Identity = Identity(scope: string, subject: string, runner: string, configuration: string, revision: string)
  datatype Device = Device(gfx: string, details: string)
  datatype Input = Input(subject: string, probe: string, device: Device)

  datatype Path = StaticFile(name: string) | EvidenceFile(stage: Stage, probe: string)
  datatype Content =
    | Binary(bytes: string)
    | Preflight(subject: string, items: seq<string>)
    | Evidence(probe: string, input: Digest<Input>, device: Device, allPassed: bool)

  datatype Artifact = Artifact(path: Path, sha: Digest<Content>)
  datatype Receipt = Receipt(stage: Stage, items: seq<string>, artifacts: seq<Artifact>)
  datatype Gate = Gate(stage: Stage, identity: Identity, parent: Option<Digest<Gate>>, items: seq<string>,
                       receipts: seq<Receipt>, createdAt: string)

  type Files = map<Path, Content>
  type Gates = map<Stage, Gate>

  /** What the root directory holds: gate files and everything they refer to. */
  datatype State = State(gates: Gates, files: Files)

  /** All probes in their fixed order, and the probes of the canary stage. */
  datatype Probes = Probes(all: seq<string>, canary: seq<string>) {
    function Names(stage: Stage): seq<string> {
      if stage.Canary? then canary else all
    }

    function Selected(stage: Stage): seq<string> {
      Keep(all, Names(stage))
    }
  }

  /** The members of `s` that occur in `chosen`, in the order of `s`. */
  function Keep(s: seq<string>, chosen: seq<string>): seq<string> {
    if s == [] then [] else (if s[0] in chosen then [s[0]] else []) + Keep(s[1..], chosen)
  }

  lemma {:induction false} KeepAll(s: seq<string>, chosen: seq<string>)
    requires forall x :: x in s ==> x in chosen
    ensures Keep(s, chosen) == s
  {
    if s != [] { KeepAll(s[1..], chosen); }
  }

  lemma SelectedNames(probes: Probes, stage: Stage)
    ensures !stage.Canary? ==> probes.Selected(stage) == probes.Names(stage)
  {
    if !stage.Canary? { KeepAll(probes.all, probes.all); }
  }

  // ----- validation of a gate

  predicate Unique(s: seq<string>) {
    |set x | x in s| == |s|
  }

  function Covered(receipts: seq<Receipt>): seq<string> {
    if receipts == [] then [] else Covered(receipts[..|receipts| - 1]) + receipts[|receipts| - 1].items
  }

  predicate ValidGate(g: Gate) {
    && (g.parent.None? <==> g.stage.Static?)
    && g.items != [] && Unique(g.items)
    && g.receipts != []
    && (forall r :: r in g.receipts ==> r.stage == g.stage && r.items != [] && Unique(r.items) && r.artifacts != [])
    && (set x | x in Covered(g.receipts)) == (set x | x in g.items)
    && Unique(Covered(g.receipts))
  }

  // ----- what a verification accepts

  predicate Intact(files: Files, a: Artifact) {
    a.path in files && Sha256(files[a.path]) == a.sha
  }

  predicate AllIntact(files: Files, receipts: seq<Receipt>) {
    forall r, a :: r in receipts && a in r.artifacts ==> Intact(files, a)
  }

  function ParentHash(gates: Gates, stage: Stage): Option<Digest<Gate>> {
    match Parent(stage)
    case None => None
    case Some(p) => if p in gates then Some(Sha256(gates[p])) else None
  }

  predicate Accepted(probes: Probes, s: State, stage: Stage, identity: Identity) {
    && stage in s.gates
    && var g := s.gates[stage];
    && ValidGate(g) && g.stage == stage && g.identity == identity
    && g.parent == ParentHash(s.gates, stage)
    && g.items == probes.Names(stage)
    && AllIntact(s.files, g.receipts)
  }

  /** Every gate up to `stage` is present, unaltered and of this identity. */
  predicate Verified(probes: Probes, s: State, stage: Stage, identity: Identity) {
    forall before :: before in Lineage(stage) ==> Accepted(probes, s, before, identity)
  }

  lemma VerifiedStep(probes: Probes, s: State, stage: Stage, identity: Identity)
    ensures Verified(probes, s, stage, identity) <==>
       Accepted(probes, s, stage, identity)
           && (Parent(stage).Some? ==> Verified(probes, s, Parent(stage).value, identity))
  {
    hide Accepted;
    var parent := Parent(stage);
    assert Lineage(stage) == (if parent.Some? then Lineage(parent.value) else []) + [stage];
  }

  ghost function GatesOf(s: State, stages: seq<Stage>): seq<Gate>
    requires forall stage :: stage in stages ==> stage in s.gates
  {
    seq(|stages|, i requires 0 <= i < |stages| => s.gates[stages[i]])
  }

  lemma LineagePresent(probes: Probes, s: State, stage: Stage, identity: Identity)
    requires Verified(probes, s, stage, identity)
    ensures forall before :: before in Lineage(stage) ==> before in s.gates
    ensures var parent := Parent(stage);
            GatesOf(s, Lineage(stage)) == (if parent.Some? then GatesOf(s, Lineage(parent.value)) else [])
                + [s.gates[stage]]
  {
    hide ValidGate, AllIntact;
    assert Accepted(probes, s, stage, identity);
    var parent := Parent(stage);
    if parent.Some? {
      assert Lineage(stage) == Lineage(parent.value) + [stage];
      forall before | before in Lineage(parent.value) ensures before in s.gates {
        assert Accepted(probes, s, before, identity);
      }
    }
  }

  // ----- one run

  /** How compiling ends: a failure can leave any static files behind. */
  datatype Compile = CompileFails(written: map<string, Content>)
                   | Compiled(binaries: map<string, string>, order: seq<string>)

  datatype Gpu = Gpu(enters: bool, clocksLocked: bool, device: Device, passing: set<string>, leaves: bool)
  datatype Publish = WriteFails | WrittenThenFails | Written

  datatype Attempt = Attempt(identity: Identity, gfx: string, allowUnlocked: bool, compile: Compile, gpu: Gpu,
                             publish: Publish, createdAt: string)

  function PutStatic(files: Files, written: map<string, Content>): Files {
    files + map p | p in (set n | n in written :: StaticFile(n)) :: written[p.name]
  }

  function StaticArtifacts(files: Files, names: seq<string>): seq<Artifact>
    requires forall n :: n in names ==> StaticFile(n) in files
  {
    seq(|names|, i requires 0 <= i < |names| => Artifact(StaticFile(names[i]), Sha256(files[StaticFile(names[i])])))
  }

  const PREFLIGHT := "preflight.json"

  /** The static files after a compile attempt, and the receipt of a completed one. */
  function CompileStatic(probes: Probes, files: Files, subject: string, compile: Compile): (Files, Option<Receipt>) {
    match compile
    case CompileFails(written) => (PutStatic(files, written), None)
    case Compiled(binaries, order) =>
      var compiled := PutStatic(files, map n | n in binaries :: Binary(binaries[n]));
      var after := compiled[StaticFile(PREFLIGHT) := Preflight(subject, probes.Names(Static))];
      if exists n :: n in order && n !in binaries then (after, None)
      else (after, Some(Receipt(Static, probes.Names(Static), StaticArtifacts(after, order + [PREFLIGHT]))))
  }

  predicate Usable(payload: Content, subject: string, name: string, device: Device) {
    payload.Evidence? && payload.input == Sha256(Input(subject, name, device)) && payload.device == device
        && payload.allPassed
  }

  /** The evidence of one probe: reused when its file exists, else measured when the sample batch passes. */
  function EvidenceFor(files: Files, stage: Stage, name: string, subject: string, gpu: Gpu): Option<Content> {
    if EvidenceFile(stage, name) in files then Some(files[EvidenceFile(stage, name)])
    else if name in gpu.passing then Some(Evidence(name, Sha256(Input(subject, name, gpu.device)), gpu.device, true))
    else None
  }

  function CollectOne(files: Files, receipts: seq<Receipt>, stage: Stage, name: string, subject: string, gpu: Gpu)
    : (Files, Option<seq<Receipt>>)
  {
    var payload := EvidenceFor(files, stage, name, subject, gpu);
    if payload.None? then (files, None) else
      var path := EvidenceFile(stage, name);
      (files[path := payload.value],
       if Usable(payload.value, subject, name, gpu.device)
       then Some(receipts + [Receipt(stage, [name], [Artifact(path, Sha256(payload.value))])]) else None)
  }

  function Collect(files: Files, stage: Stage, names: seq<string>, subject: string, gpu: Gpu)
    : (Files, Option<seq<Receipt>>)
  {
    if names == [] then (files, Some([])) else
      var last := |names| - 1;
      var (earlier, receipts) := Collect(files, stage, names[..last], subject, gpu);
      if receipts.None? then (earlier, None) else CollectOne(earlier, receipts.value, stage, names[last], subject, gpu)
  }

  /** The devices recorded by the gates' own evidence all equal `device`. */
  predicate SameDevice(files: Files, gates: seq<Gate>, device: Device) {
    forall g, r :: g in gates && !g.stage.Static? && r in g.receipts ==>
      r.artifacts != [] && DeviceIs(files, r.artifacts[0].path, device)
  }

  predicate DeviceIs(files: Files, path: Path, device: Device) {
    path in files && files[path].Evidence? && files[path].device == device
  }

  predicate GpuReady(files: Files, gates: seq<Gate>, a: Attempt) {
    && a.gpu.enters
    && (a.gpu.clocksLocked || a.allowUnlocked)
    && a.gpu.device.gfx == a.gfx
    && SameDevice(files, gates, a.gpu.device)
  }

  /** The gate built from these receipts, and the root after trying to write it. */
  function NewGate(gates: Gates, stage: Stage, a: Attempt, receipts: seq<Receipt>): Gate {
    Gate(stage, a.identity, ParentHash(gates, stage), Covered(receipts), receipts, a.createdAt)
  }

  function Publishing(s: State, gate: Gate, publish: Publish): (State, Option<Gate>) {
    if !ValidGate(gate) || publish.WriteFails? then (s, None) else
      (State(s.gates[gate.stage := gate], s.files), if publish.Written? then Some(gate) else None)
  }

  /** Everything one run does to the root, and the gate it returns unless it raises. */
  ghost function RunStage(probes: Probes, s: State, stage: Stage, a: Attempt): (State, Option<Gate>) {
    if stage in s.gates then
      if Verified(probes, s, stage, a.identity)
         && (stage.Static? || (GpuReady(s.files, GatesOf(s, Lineage(stage)), a) && a.gpu.leaves))
      then (s, Some(s.gates[stage])) else (s, None)
    else if stage.Static? then
      var (files, receipt) := CompileStatic(probes, s.files, a.identity.subject, a.compile);
      var after := State(s.gates, files);
      if receipt.None? then (after, None) else Publishing(after, NewGate(s.gates, stage, a, [receipt.value]), a.publish)
    else
      var parent := Parent(stage).value;
      if !Verified(probes, s, parent, a.identity) || !GpuReady(s.files, GatesOf(s, Lineage(parent)), a) then (s, None)
      else
        var (files, receipts) := Collect(s.files, stage, probes.Selected(stage), a.identity.subject, a.gpu);
        var after := State(s.gates, files);
        if receipts.None? || !a.gpu.leaves then (after, None)
        else Publishing(after, NewGate(s.gates, stage, a, receipts.value), a.publish)
  }

  datatype Verification = Verification(gates: seq<Gate>, hashes: map<Stage, Digest<Gate>>)

  class QualificationRoot {
    const probes: Probes
    var gates: Gates
    var files: Files

    constructor (probes: Probes)
      ensures this.probes == probes && Contents() == State(map[], map[])
    {
      this.probes := probes;
      gates := map[];
      files := map[];
    }

    function Contents(): State
      reads this
    {
      State(gates, files)
    }

    /** Verifies parents first; `found` collects the gates and their hashes in that order. */
    method Verify(stage: Stage, identity: Identity, found: Verification) returns (r: Option<Verification>)
      ensures r.Some? <==> Verified(probes, Contents(), stage, identity)
      ensures r.Some? ==> r.value.gates == found.gates + GatesOf(Contents(), Lineage(stage))
                          && stage in r.value.hashes && r.value.hashes[stage] == Sha256(gates[stage])
      decreases match stage case Static => 0 case Canary => 1 case Full => 2
    {
      hide Verified, ValidGate, AllIntact;
      VerifiedStep(probes, Contents(), stage, identity);
      if Verified(probes, Contents(), stage, identity) { LineagePresent(probes, Contents(), stage, identity); }
      var seen := found;
      var parentHash := None;
      var parent := Parent(stage);
      if parent.Some? {
        var above := Verify(parent.value, identity, found);
        if above.None? { return None; }
        LineagePresent(probes, Contents(), parent.value, identity);
        assert parent.value in Lineage(parent.value);
        seen := above.value;
        parentHash := Some(seen.hashes[parent.value]);
      }
      if stage !in gates { return None; }
      var gate := gates[stage];
      if !(ValidGate(gate) && gate.stage == stage && gate.identity == identity && gate.parent == parentHash
           && gate.items == probes.Names(stage))
      {
        return None;
      }
      if !AllIntact(files, gate.receipts) { return None; }
      return Some(Verification(seen.gates + [gate], seen.hashes[stage := Sha256(gate)]));
    }

    method CollectReceipts(stage: Stage, subject: string, gpu: Gpu) returns (r: Option<seq<Receipt>>)
      modifies this`files
      ensures (files, r) == Collect(old(files), stage, probes.Selected(stage), subject, gpu)
    {
      hide Collect, EvidenceFor, Usable, Keep;
      var names := probes.Selected(stage);
      NothingCollected(files, stage, names, subject, gpu);
      var receipts: seq<Receipt> := [];
      var i := 0;
      while i < |names|
        invariant 0 <= i <= |names|
        invariant (files, Some(receipts)) == Collect(old(files), stage, names[..i], subject, gpu)
      {
        var path := EvidenceFile(stage, names[i]);
        var payload := EvidenceFor(files, stage, names[i], subject, gpu);
        CollectNext(old(files), stage, names, i, subject, gpu);
        if payload.None? {
          CollectStops(old(files), stage, names, i + 1, subject, gpu);
          return None;
        }
        files := files[path := payload.value];
        if !Usable(payload.value, subject, names[i], gpu.device) {
          CollectStops(old(files), stage, names, i + 1, subject, gpu);
          return None;
        }
        receipts := receipts + [Receipt(stage, [names[i]], [Artifact(path, Sha256(payload.value))])];
        i := i + 1;
      }
      assert names[..i] == names;
      return Some(receipts);
    }

    method WriteGate(stage: Stage, a: Attempt, receipts: seq<Receipt>, parentHash: Option<Digest<Gate>>)
      returns (r: Option<Gate>)
      modifies this`gates
      ensures parentHash == ParentHash(old(gates), stage) && (stage.Static? || Parent(stage).value in old(gates)) ==>
                (Contents(), r) == Publishing(old(Contents()), NewGate(old(gates), stage, a, receipts), a.publish)
      ensures parentHash != ParentHash(old(gates), stage) ==> r == None && gates == old(gates)
    {
      var parent := Parent(stage);
      if parent.Some? && (parent.value !in gates || Some(Sha256(gates[parent.value])) != parentHash) { return None; }
      var gate := Gate(stage, a.identity, parentHash, Covered(receipts), receipts, a.createdAt);
      if !ValidGate(gate) || a.publish.WriteFails? { return None; }
      gates := gates[stage := gate];
      if a.publish.WrittenThenFails? { return None; }
      return Some(gate);
    }

    method Run(stage: Stage, a: Attempt) returns (r: Option<Gate>)
      modifies this
      ensures (Contents(), r) == RunStage(probes, old(Contents()), stage, a)
    {
      var existing := stage in gates;
      var predecessor := if existing then Some(stage) else Parent(stage);
      var verified := Verification([], map[]);
      var parentHash := None;
      if predecessor.Some? {
        var found := Verify(predecessor.value, a.identity, verified);
        if found.None? { return None; }
        verified := found.value;
        parentHash := Some(verified.hashes[predecessor.value]);
      }
      var receipts: seq<Receipt> := [];
      if stage.Static? && !existing {
        var (after, receipt) := CompileStatic(probes, files, a.identity.subject, a.compile);
        files := after;
        if receipt.None? { return None; }
        receipts := [receipt.value];
      }
      if !stage.Static? {
        if !GpuReady(files, verified.gates, a) { return None; }
        if !existing {
          var collected := CollectReceipts(stage, a.identity.subject, a.gpu);
          if collected.None? { return None; }
          receipts := collected.value;
        }
        if !a.gpu.leaves { return None; }
      }
      if existing { return Some(verified.gates[|verified.gates| - 1]); }
      r := WriteGate(stage, a, receipts, parentHash);
    }
  }

  lemma NothingCollected(files: Files, stage: Stage, names: seq<string>, subject: string, gpu: Gpu)
    ensures Collect(files, stage, names[..0], subject, gpu) == (files, Some([]))
  {
  }

  lemma CollectNext(files: Files, stage: Stage, names: seq<string>, i: nat, subject: string, gpu: Gpu)
    requires i < |names|
    ensures var (earlier, receipts) := Collect(files, stage, names[..i], subject, gpu);
            receipts.Some? ==>
              Collect(files, stage, names[..i + 1], subject, gpu)
                  == CollectOne(earlier, receipts.value, stage, names[i], subject, gpu)
  {
    hide EvidenceFor, Usable;
    assert names[..i + 1][..i] == names[..i] && names[..i + 1][i] == names[i];
  }

  /** Once a probe fails nothing more is collected. */
  lemma {:induction false} CollectStops(files: Files, stage: Stage, names: seq<string>, i: nat, subject: string,
                                        gpu: Gpu)
    requires i <= |names| && Collect(files, stage, names[..i], subject, gpu).1.None?
    ensures Collect(files, stage, names, subject, gpu) == Collect(files, stage, names[..i], subject, gpu)
    decreases |names|
  {
    if i == |names| {
      assert names[..i] == names;
    } else {
      var shorter := names[..|names| - 1];
      assert shorter[..i] == names[..i];
      CollectStops(files, stage, shorter, i, subject, gpu);
    }
  }

  // ----- what every root built by runs looks like

  predicate BelongsTo(path: Path, stage: Stage) {
    match stage
    case Static => path.StaticFile?
    case _ => path.EvidenceFile? && path.stage == stage
  }

  predicate OwnFiles(g: Gate) {
    forall r, a :: r in g.receipts && a in r.artifacts ==> BelongsTo(a.path, g.stage)
  }

  /** A gate is linked to its parent on disk, shares its identity and still matches every file it names. */
  ghost predicate Sound(probes: Probes, s: State, stage: Stage)
    requires stage in s.gates
  {
    var g := s.gates[stage];
    && ValidGate(g) && g.stage == stage
    && LinkedToParent(s.gates, g)
    && g.items == probes.Selected(stage)
    && AllIntact(s.files, g.receipts) && OwnFiles(g)
  }

  predicate LinkedToParent(gates: Gates, g: Gate) {
    match Parent(g.stage)
    case None => g.parent == None
    case Some(p) => p in gates && g.parent == Some(Sha256(gates[p])) && gates[p].identity == g.identity
  }

  /** The evidence of one probe on disk says that it passed, for this subject and on this device. */
  ghost predicate Passed(files: Files, stage: Stage, name: string, subject: string, device: Device) {
    var path := EvidenceFile(stage, name);
    && path in files && files[path].Evidence? && files[path].allPassed
    && files[path].device == device && files[path].input.content == Input(subject, name, device)
  }

  /** Every probe of a canary or full gate passed. */
  ghost predicate ProbesPassed(files: Files, g: Gate, device: Device) {
    !g.stage.Static? ==> forall name :: name in g.items ==> Passed(files, g.stage, name, g.identity.subject, device)
  }

  /** All canary and full evidence was measured on `device`, and passed. */
  ghost predicate OnDevice(s: State, device: Device) {
    forall stage :: stage in s.gates ==>
      SameDevice(s.files, [s.gates[stage]], device) && ProbesPassed(s.files, s.gates[stage], device)
  }

  ghost predicate Sane(probes: Probes, s: State) {
    && (forall stage :: stage in s.gates ==> Sound(probes, s, stage))
    && exists device :: OnDevice(s, device)
  }

  /** Gates and evidence files are never rewritten or removed; nor is any file once the static gate exists. */
  ghost predicate Preserved(s: State, t: State) {
    && (forall stage :: stage in s.gates ==> stage in t.gates && t.gates[stage] == s.gates[stage])
    && (forall path :: path in s.files && (path.EvidenceFile? || Static in s.gates) ==>
          path in t.files && t.files[path] == s.files[path])
  }

  ghost predicate FilesKept(files: Files, after: Files) {
    forall path :: path in files ==> path in after && after[path] == files[path]
  }

  lemma StillIntact(files: Files, after: Files, receipts: seq<Receipt>)
    requires FilesKept(files, after) && AllIntact(files, receipts)
    ensures AllIntact(after, receipts)
  {
    forall r, a | r in receipts && a in r.artifacts ensures Intact(after, a) {
      assert Intact(files, a);
    }
  }

  lemma StillOnDevice(files: Files, after: Files, gates: seq<Gate>, device: Device)
    requires FilesKept(files, after) && SameDevice(files, gates, device)
    ensures SameDevice(after, gates, device)
  {
    forall g, r | g in gates && !g.stage.Static? && r in g.receipts
      ensures r.artifacts != [] && DeviceIs(after, r.artifacts[0].path, device)
    {
      assert DeviceIs(files, r.artifacts[0].path, device);
    }
  }

  lemma StillPassed(files: Files, after: Files, g: Gate, device: Device)
    requires FilesKept(files, after) && ProbesPassed(files, g, device)
    ensures ProbesPassed(after, g, device)
  {
    if !g.stage.Static? {
      forall name | name in g.items ensures Passed(after, g.stage, name, g.identity.subject, device) {
        assert Passed(files, g.stage, name, g.identity.subject, device);
      }
    }
  }

  // ----- collecting keeps earlier evidence and describes what it leaves

  ghost predicate GoodReceipts(files: Files, stage: Stage, names: seq<string>, receipts: seq<Receipt>, subject: string,
                               device: Device) {
    && Covered(receipts) == names
    && AllIntact(files, receipts)
    && (forall name :: name in names ==> Passed(files, stage, name, subject, device))
    && forall r :: r in receipts ==>
         |r.artifacts| == 1 && BelongsTo(r.artifacts[0].path, stage) && DeviceIs(files, r.artifacts[0].path, device)
  }

  lemma {:induction false} CollectKeepsFiles(files: Files, stage: Stage, names: seq<string>, subject: string, gpu: Gpu)
    ensures FilesKept(files, Collect(files, stage, names, subject, gpu).0)
  {
    if names != [] {
      CollectKeepsFiles(files, stage, names[..|names| - 1], subject, gpu);
    }
  }

  lemma {:induction false} CollectDescribes(files: Files, stage: Stage, names: seq<string>, subject: string, gpu: Gpu)
    requires !stage.Static?
    ensures var (after, receipts) := Collect(files, stage, names, subject, gpu);
            receipts.Some? ==> GoodReceipts(after, stage, names, receipts.value, subject, gpu.device)
  {
    hide FilesKept, EvidenceFor, GoodReceipts;
    if names == [] {
      NoReceipts(files, stage, subject, gpu.device);
    } else {
      var last := |names| - 1;
      CollectDescribes(files, stage, names[..last], subject, gpu);
      var (earlier, receipts) := Collect(files, stage, names[..last], subject, gpu);
      var (after, result) := Collect(files, stage, names, subject, gpu);
      if result.Some? {
        OneMoreReceipt(earlier, receipts.value, stage, names[..last], names[last], subject, gpu);
        assert names == names[..last] + [names[last]];
      }
    }
  }

  lemma NoReceipts(files: Files, stage: Stage, subject: string, device: Device)
    ensures GoodReceipts(files, stage, [], [], subject, device)
  {
  }

  lemma OneMoreReceipt(files: Files, receipts: seq<Receipt>, stage: Stage, names: seq<string>, name: string,
                       subject: string, gpu: Gpu)
    requires !stage.Static? && GoodReceipts(files, stage, names, receipts, subject, gpu.device)
    ensures var (after, result) := CollectOne(files, receipts, stage, name, subject, gpu);
            result.Some? ==> GoodReceipts(after, stage, names + [name], result.value, subject, gpu.device)
  {
    var (after, result) := CollectOne(files, receipts, stage, name, subject, gpu);
    assert FilesKept(files, after);
    StillIntact(files, after, receipts);
    if result.Some? {
      assert result.value[..|receipts|] == receipts;
      forall other | other in names + [name] ensures Passed(after, stage, other, subject, gpu.device) {
        if other in names { assert Passed(files, stage, other, subject, gpu.device); }
      }
    }
  }

  lemma PutStaticKeepsEvidence(files: Files, written: map<string, Content>)
    ensures forall path :: path in files && path.EvidenceFile? ==>
              path in PutStatic(files, written) && PutStatic(files, written)[path] == files[path]
    ensures forall n :: n in written ==> StaticFile(n) in PutStatic(files, written)
  {
  }

  lemma CompileDescribes(probes: Probes, files: Files, subject: string, compile: Compile)
    ensures var (after, receipt) := CompileStatic(probes, files, subject, compile);
            && (forall path :: path in files && path.EvidenceFile? ==> path in after && after[path] == files[path])
            && (receipt.Some? ==>
                  && receipt.value.stage.Static? && receipt.value.items == probes.all
                  && AllIntact(after, [receipt.value])
                  && forall a :: a in receipt.value.artifacts ==> a.path.StaticFile?)
  {
    hide PutStatic;
    match compile
    case CompileFails(written) => PutStaticKeepsEvidence(files, written);
    case Compiled(binaries, order) => PutStaticKeepsEvidence(files, map n | n in binaries :: Binary(binaries[n]));
  }

  // ----- one run keeps the root sound

  lemma ParentlessIsEmpty(probes: Probes, s: State, stage: Stage)
    requires Sane(probes, s) && stage !in s.gates
    ensures forall child :: Parent(child) == Some(stage) ==> child !in s.gates
    ensures stage.Static? ==> s.gates == map[]
  {
    hide ValidGate, AllIntact, OwnFiles, SameDevice;
    forall child | child in s.gates && Parent(child).Some? ensures Parent(child).value in s.gates {
      assert Sound(probes, s, child);
    }
    if stage.Static? {
      assert Parent(Canary) == Some(Static) && Parent(Full) == Some(Canary);
      assert forall other: Stage :: other !in s.gates;
    }
  }

  /** A new sound gate on top of its parent leaves the older gates sound. */
  lemma GateAdded(probes: Probes, s: State, files: Files, g: Gate, device: Device)
    requires Sane(probes, s) && g.stage !in s.gates && OnDevice(s, device)
    requires g.stage.Static? || FilesKept(s.files, files)
    requires ValidGate(g) && LinkedToParent(s.gates, g) && g.items == probes.Selected(g.stage)
    requires AllIntact(files, g.receipts) && OwnFiles(g) && SameDevice(files, [g], device)
    requires ProbesPassed(files, g, device)
    ensures Sane(probes, State(s.gates[g.stage := g], files))
  {
    hide ValidGate, AllIntact, OwnFiles, SameDevice, FilesKept, ProbesPassed;
    var t := State(s.gates[g.stage := g], files);
    ParentlessIsEmpty(probes, s, g.stage);
    forall stage | stage in t.gates
      ensures Sound(probes, t, stage) && SameDevice(files, [t.gates[stage]], device)
              && ProbesPassed(files, t.gates[stage], device)
    {
      if stage != g.stage {
        assert Sound(probes, s, stage);
        StillIntact(s.files, files, s.gates[stage].receipts);
        StillOnDevice(s.files, files, [s.gates[stage]], device);
        StillPassed(s.files, files, s.gates[stage], device);
      }
    }
    assert OnDevice(t, device);
  }

  lemma FilesAdded(probes: Probes, s: State, files: Files)
    requires Sane(probes, s) && (FilesKept(s.files, files) || s.gates == map[])
    ensures Sane(probes, State(s.gates, files))
  {
    hide ValidGate, AllIntact, OwnFiles, SameDevice, FilesKept, ProbesPassed;
    var t := State(s.gates, files);
    var device :| OnDevice(s, device);
    forall stage | stage in t.gates
      ensures Sound(probes, t, stage) && SameDevice(files, [t.gates[stage]], device)
              && ProbesPassed(files, t.gates[stage], device)
    {
      assert Sound(probes, s, stage);
      StillIntact(s.files, files, s.gates[stage].receipts);
      StillOnDevice(s.files, files, [s.gates[stage]], device);
      StillPassed(s.files, files, s.gates[stage], device);
    }
    assert OnDevice(t, device);
  }

  lemma StaticRunSafe(probes: Probes, s: State, a: Attempt)
    requires Sane(probes, s) && Static !in s.gates
    ensures var t := RunStage(probes, s, Static, a).0; Sane(probes, t) && Preserved(s, t)
  {
    hide ValidGate, Sane, OnDevice, AllIntact, SameDevice, CompileStatic;
    ParentlessIsEmpty(probes, s, Static);
    CompileDescribes(probes, s.files, a.identity.subject, a.compile);
    var (files, receipt) := CompileStatic(probes, s.files, a.identity.subject, a.compile);
    FilesAdded(probes, s, files);
    if receipt.Some? {
      StaticGateSafe(probes, s, files, receipt.value, a);
    }
  }

  lemma OnlyStatic(files: Files, g: Gate, device: Device)
    requires g.stage.Static?
    ensures SameDevice(files, [g], device) && ProbesPassed(files, g, device)
  {
  }

  lemma StaticGateSafe(probes: Probes, s: State, files: Files, receipt: Receipt, a: Attempt)
    requires Sane(probes, s) && s.gates == map[]
    requires receipt.stage.Static? && receipt.items == probes.all && AllIntact(files, [receipt])
    requires forall x :: x in receipt.artifacts ==> x.path.StaticFile?
    ensures var g := NewGate(s.gates, Static, a, [receipt]);
            ValidGate(g) ==> Sane(probes, State(s.gates[Static := g], files))
  {
    hide ValidGate, AllIntact, Sane, SameDevice, Keep;
    var device := Device("", "");
    assert OnDevice(s, device);
    var g := NewGate(s.gates, Static, a, [receipt]);
    OnlyStatic(files, g, device);
    if ValidGate(g) {
      SelectedNames(probes, Static);
      assert Covered([receipt]) == Covered([]) + receipt.items == probes.all;
      GateAdded(probes, s, files, g, device);
    }
  }

  lemma GpuRunSafe(probes: Probes, s: State, stage: Stage, a: Attempt)
    requires Sane(probes, s) && !stage.Static? && stage !in s.gates
    ensures var t := RunStage(probes, s, stage, a).0; Sane(probes, t) && Preserved(s, t)
  {
    hide ValidGate, Sane, AllIntact, SameDevice, Collect, GoodReceipts, Accepted;
    var parent := Parent(stage).value;
    if Verified(probes, s, parent, a.identity) {
      LineagePresent(probes, s, parent, a.identity);
    }
    if Verified(probes, s, parent, a.identity) && GpuReady(s.files, GatesOf(s, Lineage(parent)), a) {
      var (files, receipts) := Collect(s.files, stage, probes.Selected(stage), a.identity.subject, a.gpu);
      CollectKeepsFiles(s.files, stage, probes.Selected(stage), a.identity.subject, a.gpu);
      FilesAdded(probes, s, files);
      if receipts.Some? {
        CollectDescribes(s.files, stage, probes.Selected(stage), a.identity.subject, a.gpu);
        GpuGateSafe(probes, s, stage, files, receipts.value, a);
      }
    }
  }

  /** The device that qualified the parent stages also measured this stage. */
  lemma GpuGateSafe(probes: Probes, s: State, stage: Stage, files: Files, receipts: seq<Receipt>, a: Attempt)
    requires Sane(probes, s) && !stage.Static? && stage !in s.gates && FilesKept(s.files, files)
    requires Verified(probes, s, Parent(stage).value, a.identity)
    requires Parent(stage).value in s.gates
    requires forall before :: before in Lineage(Parent(stage).value) ==> before in s.gates
    requires SameDevice(s.files, GatesOf(s, Lineage(Parent(stage).value)), a.gpu.device)
    requires GoodReceipts(files, stage, probes.Selected(stage), receipts, a.identity.subject, a.gpu.device)
    ensures var g := NewGate(s.gates, stage, a, receipts);
            ValidGate(g) ==> Sane(probes, State(s.gates[stage := g], files))
  {
    hide ValidGate, AllIntact, Sane, Keep, FilesKept, OnDevice, Covered, GoodReceipts, OwnFiles, SameDevice;
    var parent := Parent(stage).value;
    assert parent in Lineage(parent);
    assert Accepted(probes, s, parent, a.identity);
    AncestorsOnDevice(probes, s, stage, a.gpu.device);
    var g := NewGate(s.gates, stage, a, receipts);
    GpuGateFits(files, g, probes.Selected(stage), a.gpu.device);
    if ValidGate(g) {
      GateAdded(probes, s, files, g, a.gpu.device);
    }
  }

  lemma GpuGateFits(files: Files, g: Gate, names: seq<string>, device: Device)
    requires GoodReceipts(files, g.stage, names, g.receipts, g.identity.subject, device)
    requires g.items == Covered(g.receipts)
    ensures Covered(g.receipts) == names && AllIntact(files, g.receipts) && OwnFiles(g)
            && SameDevice(files, [g], device) && ProbesPassed(files, g, device)
  {
  }

  lemma AncestorsOnDevice(probes: Probes, s: State, stage: Stage, device: Device)
    requires Sane(probes, s) && !stage.Static? && stage !in s.gates
    requires forall before :: before in Lineage(Parent(stage).value) ==> before in s.gates
    requires SameDevice(s.files, GatesOf(s, Lineage(Parent(stage).value)), device)
    ensures OnDevice(s, device)
  {
    hide ValidGate, AllIntact, OwnFiles, DeviceIs, ProbesPassed;
    ParentlessIsEmpty(probes, s, stage);
    var measured :| OnDevice(s, measured);
    if Canary in s.gates {
      assert stage.Full? && GatesOf(s, Lineage(Canary))[1] == s.gates[Canary];
      SharedDevice(probes, s, Canary, GatesOf(s, Lineage(Parent(stage).value)), measured, device);
    } else {
      forall other | other in s.gates
        ensures SameDevice(s.files, [s.gates[other]], device) && ProbesPassed(s.files, s.gates[other], device)
      {
        assert Sound(probes, s, other);
        if other.Full? { assert false; }
        OnlyStatic(s.files, s.gates[other], device);
      }
    }
  }

  /** The evidence of one gate names a single device. */
  lemma SharedDevice(probes: Probes, s: State, stage: Stage, gates: seq<Gate>, a: Device, b: Device)
    requires Sane(probes, s) && stage in s.gates && !stage.Static? && s.gates[stage] in gates
    requires SameDevice(s.files, [s.gates[stage]], a) && SameDevice(s.files, gates, b)
    ensures a == b
  {
    assert Sound(probes, s, stage);
    var g := s.gates[stage];
    assert g in [g] && g.receipts[0] in g.receipts;
  }

  /** Whatever a run does, succeed or raise, it keeps the chain sound and rewrites no gate and no evidence. */
  lemma RunSafe(probes: Probes, s: State, stage: Stage, a: Attempt)
    requires Sane(probes, s)
    ensures var t := RunStage(probes, s, stage, a).0; Sane(probes, t) && Preserved(s, t)
  {
    hide Sane, Verified, GpuReady;
    if stage in s.gates {
    } else if stage.Static? {
      StaticRunSafe(probes, s, a);
    } else {
      GpuRunSafe(probes, s, stage, a);
    }
  }

  // ----- whole histories

  datatype Call = Call(stage: Stage, attempt: Attempt)

  ghost predicate History(probes: Probes, calls: seq<Call>, states: seq<State>) {
    && |states| == |calls| + 1
    && states[0] == State(map[], map[])
    && forall i :: 0 <= i < |calls| ==> states[i + 1] == RunStage(probes, states[i], calls[i].stage, calls[i].attempt).0
  }

  lemma EmptyRootIsSane(probes: Probes)
    ensures Sane(probes, State(map[], map[]))
  {
    assert OnDevice(State(map[], map[]), Device("", ""));
  }

  /** At every point of every history each gate on disk carries the hash of its parent gate on disk, shares its
      identity and matches its files, and all GPU evidence comes from one device. */
  lemma {:induction false} ReachedIsSane(probes: Probes, calls: seq<Call>, states: seq<State>, j: nat)
    requires History(probes, calls, states) && j < |states|
    ensures Sane(probes, states[j])
  {
    hide Sane, RunStage;
    if j == 0 {
      EmptyRootIsSane(probes);
    } else {
      ReachedIsSane(probes, calls, states, j - 1);
      RunSafe(probes, states[j - 1], calls[j - 1].stage, calls[j - 1].attempt);
    }
  }

  /** No run, successful or not, ever rewrites a gate or an evidence file of an earlier one. */
  lemma {:induction false} NeverRewritten(probes: Probes, calls: seq<Call>, states: seq<State>, i: nat, j: nat)
    requires History(probes, calls, states) && i <= j < |states|
    ensures Preserved(states[i], states[j])
    decreases j
  {
    hide Sane, RunStage;
    if i < j {
      NeverRewritten(probes, calls, states, i, j - 1);
      ReachedIsSane(probes, calls, states, j - 1);
      RunSafe(probes, states[j - 1], calls[j - 1].stage, calls[j - 1].attempt);
    }
  }

  // ----- when a root verifies

  lemma SoundAccepted(probes: Probes, s: State, stage: Stage, identity: Identity)
    requires Sane(probes, s)
    ensures Accepted(probes, s, stage, identity) <==>
              stage in s.gates && s.gates[stage].identity == identity
                  && (stage.Canary? ==> probes.Selected(Canary) == probes.canary)
  {
    hide ValidGate, AllIntact, OwnFiles, Keep;
    SelectedNames(probes, stage);
    if stage in s.gates { assert Sound(probes, s, stage); }
  }

  /** A reached root verifies exactly for the one identity its gate was issued under, given the canary probes are
      listed in probe order. */
  lemma VerifiesExactly(probes: Probes, s: State, stage: Stage, identity: Identity)
    requires Sane(probes, s)
    ensures Verified(probes, s, stage, identity) <==>
              stage in s.gates && s.gates[stage].identity == identity
                  && (stage.Static? || probes.Selected(Canary) == probes.canary)
    decreases match stage case Static => 0 case Canary => 1 case Full => 2
  {
    hide ValidGate, AllIntact, OwnFiles, Keep, Accepted, Verified;
    VerifiedStep(probes, s, stage, identity);
    SoundAccepted(probes, s, stage, identity);
    if !stage.Static? { VerifiesExactly(probes, s, Parent(stage).value, identity); }
    if stage in s.gates { assert Sound(probes, s, stage); }
  }

  // ----- what a verification establishes, of any root

  /** The gate file of a stage is a gate of that stage, issued under this identity for the stage's probes; its receipts
      are of the stage and name each probe once; it holds the very gate that is its parent on disk, and every file it
      names is there with the recorded content. */
  ghost predicate Stands(probes: Probes, s: State, stage: Stage, identity: Identity) {
    && stage in s.gates
    && var g := s.gates[stage];
    && g.stage == stage && g.identity == identity
    && g.items == (if stage.Canary? then probes.canary else probes.all) && g.items != [] && Distinct(g.items)
    && multiset(Covered(g.receipts)) == multiset(g.items)
    && (forall r :: r in g.receipts ==> r.stage == stage && r.items != [] && Distinct(r.items) && r.artifacts != [])
    && (forall r, a :: r in g.receipts && a in r.artifacts ==> a.path in s.files && a.sha.content == s.files[a.path])
    && match stage
       case Static => g.parent == None
       case Canary => Static in s.gates && g.parent.Some? && g.parent.value.content == s.gates[Static]
       case Full => Canary in s.gates && g.parent.Some? && g.parent.value.content == s.gates[Canary]
  }

  lemma UniqueIsDistinct(s: seq<string>)
    ensures Unique(s) <==> Distinct(s)
  {
    DistinctBySize(s);
    assert SetOf(s) == set x | x in s;
  }

  lemma {:induction false} CountsOne(s: seq<string>, x: string)
    requires Distinct(s)
    ensures multiset(s)[x] == if x in s then 1 else 0
  {
    if s != [] {
      var n := |s| - 1;
      CountsOne(s[..n], x);
      assert s == s[..n] + [s[n]];
    }
  }

  lemma SameItems(covered: seq<string>, items: seq<string>)
    requires Distinct(items)
    ensures multiset(covered) == multiset(items) <==>
              Distinct(covered) && (set x | x in covered) == (set x | x in items)
  {
    if Distinct(covered) && (set x | x in covered) == (set x | x in items) {
      var left, right := set x | x in covered, set x | x in items;
      assert left == right;
      forall x ensures multiset(covered)[x] == multiset(items)[x] {
        CountsOne(covered, x);
        CountsOne(items, x);
        assert x in covered <==> x in left;
        assert x in items <==> x in right;
      }
    }
    if multiset(covered) == multiset(items) {
      forall x ensures x in covered <==> x in items {
        assert x in multiset(covered) <==> x in multiset(items);
      }
      assert |covered| == |multiset(covered)| == |items|;
      UniqueIsDistinct(covered);
      UniqueIsDistinct(items);
      assert (set x | x in covered) == (set x | x in items);
    }
  }

  lemma CoversNone(receipts: seq<Receipt>)
    ensures receipts == [] ==> Covered(receipts) == []
  {
  }

  /** A verification succeeds exactly when every gate up to the stage stands, whatever the root: no gate of another
      stage or identity, no gate with a changed parent, no missing or altered file gets through. */
  lemma VerifiedMeans(probes: Probes, s: State, stage: Stage, identity: Identity)
    ensures Verified(probes, s, stage, identity) <==>
              && Stands(probes, s, Static, identity)
              && (!stage.Static? ==> Stands(probes, s, Canary, identity))
              && (stage.Full? ==> Stands(probes, s, Full, identity))
  {
    hide Accepted, Stands;
    forall before ensures Accepted(probes, s, before, identity) <==> Stands(probes, s, before, identity) {
      AcceptedMeans(probes, s, before, identity);
    }
    match stage
    case Static => assert Lineage(stage)[0] == Static;
    case Canary => assert Lineage(stage)[0] == Static && Lineage(stage)[1] == Canary;
    case Full => assert Lineage(stage)[0] == Static && Lineage(stage)[1] == Canary && Lineage(stage)[2] == Full;
  }

  lemma AcceptedMeans(probes: Probes, s: State, stage: Stage, identity: Identity)
    ensures Accepted(probes, s, stage, identity) <==> Stands(probes, s, stage, identity)
  {
    hide Covered;
    if stage in s.gates {
      var g := s.gates[stage];
      UniqueIsDistinct(g.items);
      UniqueIsDistinct(Covered(g.receipts));
      forall r: Receipt ensures Unique(r.items) <==> Distinct(r.items) { UniqueIsDistinct(r.items); }
      if Distinct(g.items) { SameItems(Covered(g.receipts), g.items); }
      CoversNone(g.receipts);
      forall r, a | r in g.receipts && a in r.artifacts
        ensures Intact(s.files, a) <==> a.path in s.files && a.sha.content == s.files[a.path]
      {
      }
    }
  }

  /** Altering or removing a file that some gate up to the stage names makes the verification fail. */
  lemma TamperedFileFails(probes: Probes, s: State, files: Files, stage: Stage, before: Stage, identity: Identity,
                          r: Receipt, a: Artifact)
    requires Verified(probes, s, stage, identity) && before in Lineage(stage) && before in s.gates
    requires r in s.gates[before].receipts && a in r.artifacts
    requires a.path in files ==> a.path in s.files && files[a.path] != s.files[a.path]
    ensures !Verified(probes, State(s.gates, files), stage, identity)
  {
    hide ValidGate;
    assert Accepted(probes, s, before, identity) && Intact(s.files, a);
    assert !Intact(files, a) && !Accepted(probes, State(s.gates, files), before, identity);
  }

  /** So does replacing an earlier gate by any other one, even one that is valid by itself. */
  lemma ReplacedParentFails(probes: Probes, s: State, stage: Stage, before: Stage, identity: Identity, other: Gate)
    requires Verified(probes, s, stage, identity) && before in Lineage(stage) && before != stage && before in s.gates
    requires other != s.gates[before]
    ensures !Verified(probes, State(s.gates[before := other], s.files), stage, identity)
  {
    hide ValidGate, AllIntact;
    var child := if before.Static? then Canary else Full;
    assert child in Lineage(stage) by { assert Lineage(Full)[2] == Full && Lineage(Canary)[1] == Canary; }
    assert Accepted(probes, s, child, identity);
    assert !Accepted(probes, State(s.gates[before := other], s.files), child, identity);
  }

  /** Once the static gate exists the root is bound to its identity: a run under any other one raises and changes
      nothing. */
  lemma BoundToIdentity(probes: Probes, s: State, stage: Stage, a: Attempt)
    requires Sane(probes, s) && Static in s.gates && s.gates[Static].identity != a.identity
    ensures RunStage(probes, s, stage, a) == (s, None)
  {
    hide ValidGate, AllIntact, OwnFiles, Accepted, GpuReady, Collect, CompileStatic, Keep;
    forall other ensures !Verified(probes, s, other, a.identity) {
      assert Lineage(other)[0] == Static;
      SoundAccepted(probes, s, Static, a.identity);
    }
  }

  /** What a successful run returns is on disk and verifies together with everything before it. */
  lemma SuccessVerifies(probes: Probes, s: State, stage: Stage, a: Attempt)
    requires Sane(probes, s) && probes.Selected(Canary) == probes.canary
    ensures var (t, gate) := RunStage(probes, s, stage, a);
            gate.Some? ==> stage in t.gates && t.gates[stage] == gate.value && Verified(probes, t, stage, a.identity)
  {
    hide Sane, Accepted, GpuReady, Collect, CompileStatic, ValidGate, Keep;
    RunSafe(probes, s, stage, a);
    var t := RunStage(probes, s, stage, a).0;
    VerifiesExactly(probes, t, stage, a.identity);
    if stage in s.gates { VerifiesExactly(probes, s, stage, a.identity); }
  }

  // ----- when a run returns a gate

  /** The probes of a stage, in probe order. */
  ghost predicate StageProbe(probes: Probes, stage: Stage, name: string) {
    name in probes.all && (stage.Canary? ==> name in probes.canary)
  }

  lemma {:induction false} InKept(s: seq<string>, chosen: seq<string>, name: string)
    ensures name in Keep(s, chosen) <==> name in s && name in chosen
  {
    if s != [] { InKept(s[1..], chosen, name); }
  }

  /** The probe has passing evidence for this subject and device, or has none yet and its sample batch passes. */
  ghost predicate CanPass(files: Files, stage: Stage, name: string, subject: string, gpu: Gpu) {
    if EvidenceFile(stage, name) in files then Passed(files, stage, name, subject, gpu.device) else name in gpu.passing
  }

  /** What a complete collection adds: passing evidence of the probes that had none. */
  ghost predicate Added(files: Files, after: Files, stage: Stage, names: seq<string>, subject: string, gpu: Gpu) {
    && (forall path :: path in after <==>
          path in files || (path.EvidenceFile? && path.stage == stage && path.probe in names))
    && (forall path :: path in after ==>
          after[path] == if path in files then files[path] else
            Evidence(path.probe, Sha256(Input(subject, path.probe, gpu.device)), gpu.device, true))
  }

  /** Every receipt is collected exactly when every probe can pass. */
  lemma {:induction false} CollectsExactly(files: Files, stage: Stage, names: seq<string>, subject: string, gpu: Gpu)
    ensures var (after, receipts) := Collect(files, stage, names, subject, gpu);
            && (receipts.Some? <==> forall name :: name in names ==> CanPass(files, stage, name, subject, gpu))
            && (receipts.Some? ==> Added(files, after, stage, names, subject, gpu))
  {
    if names != [] {
      var last := |names| - 1;
      CollectsExactly(files, stage, names[..last], subject, gpu);
      assert names == names[..last] + [names[last]];
      var (earlier, receipts) := Collect(files, stage, names[..last], subject, gpu);
      if receipts.Some? {
        CollectsOne(files, earlier, receipts.value, stage, names[..last], names[last], subject, gpu);
      } else {
        var name :| name in names[..last] && !CanPass(files, stage, name, subject, gpu);
        assert name in names;
      }
    }
  }

  lemma CollectsOne(files: Files, earlier: Files, receipts: seq<Receipt>, stage: Stage, names: seq<string>,
                    name: string, subject: string, gpu: Gpu)
    requires Added(files, earlier, stage, names, subject, gpu)
    requires forall other :: other in names ==> CanPass(files, stage, other, subject, gpu)
    ensures var (after, result) := CollectOne(earlier, receipts, stage, name, subject, gpu);
            && (result.Some? <==> CanPass(files, stage, name, subject, gpu))
            && (result.Some? ==> Added(files, after, stage, names + [name], subject, gpu))
  {
  }

  /** A canary or full run that finds no gate returns one exactly when: its parent stages verify for this identity; the
      GPU is entered, with locked clocks unless unlocked work is allowed, and left again; the device is of the target
      architecture and, for the full stage, the one of the canary evidence; every probe of the stage has passing
      evidence or has none and passes; there are probes, each listed once; and the gate is written. */
  lemma GpuRunReturnsExactly(probes: Probes, s: State, stage: Stage, a: Attempt)
    requires Sane(probes, s) && !stage.Static? && stage !in s.gates
    ensures RunStage(probes, s, stage, a).1.Some? <==>
              && Verified(probes, s, if stage.Full? then Canary else Static, a.identity)
              && a.gpu.enters && (a.gpu.clocksLocked || a.allowUnlocked) && a.gpu.leaves
              && a.gpu.device.gfx == a.gfx
              && (stage.Full? ==> OnDevice(s, a.gpu.device))
              && (forall name :: StageProbe(probes, stage, name) ==>
                    CanPass(s.files, stage, name, a.identity.subject, a.gpu))
              && (exists name :: StageProbe(probes, stage, name)) && Unique(probes.Selected(stage))
              && a.publish.Written?
  {
    hide Sane, Verified, OnDevice, CanPass, Collect, ValidGate, GpuReady, SameDevice;
    var parent := if stage.Full? then Canary else Static;
    assert Parent(stage) == Some(parent);
    StageProbes(probes, stage);
    if Verified(probes, s, parent, a.identity) {
      LineagePresent(probes, s, parent, a.identity);
      ReadyExactly(probes, s, stage, a);
      if GpuReady(s.files, GatesOf(s, Lineage(parent)), a) {
        var names := probes.Selected(stage);
        CollectsExactly(s.files, stage, names, a.identity.subject, a.gpu);
        var receipts := Collect(s.files, stage, names, a.identity.subject, a.gpu).1;
        if receipts.Some? {
          CollectedGate(s.files, stage, names, a.identity.subject, a.gpu);
          GateOfReceipts(s.gates, stage, a, receipts.value, names);
        }
      }
    }
  }

  lemma StageProbes(probes: Probes, stage: Stage)
    ensures forall name :: name in probes.Selected(stage) <==> StageProbe(probes, stage, name)
    ensures probes.Selected(stage) != [] <==> exists name :: StageProbe(probes, stage, name)
  {
    forall name ensures name in probes.Selected(stage) <==> StageProbe(probes, stage, name) {
      InKept(probes.all, probes.Names(stage), name);
    }
    if probes.Selected(stage) != [] { assert StageProbe(probes, stage, probes.Selected(stage)[0]); }
  }

  lemma ReadyExactly(probes: Probes, s: State, stage: Stage, a: Attempt)
    requires Sane(probes, s) && !stage.Static? && stage !in s.gates
    requires forall before :: before in Lineage(Parent(stage).value) ==> before in s.gates
    ensures GpuReady(s.files, GatesOf(s, Lineage(Parent(stage).value)), a) <==>
              && a.gpu.enters && (a.gpu.clocksLocked || a.allowUnlocked) && a.gpu.device.gfx == a.gfx
              && (stage.Full? ==> OnDevice(s, a.gpu.device))
  {
    hide Sane, SameDevice, ProbesPassed;
    var gates := GatesOf(s, Lineage(Parent(stage).value));
    if SameDevice(s.files, gates, a.gpu.device) { AncestorsOnDevice(probes, s, stage, a.gpu.device); }
    if stage.Canary? {
      assert gates == [s.gates[Static]] && Lineage(Static)[0] == Static;
      StaticFirst(probes, s);
      OnlyStatic(s.files, s.gates[Static], a.gpu.device);
    } else if OnDevice(s, a.gpu.device) {
      assert Lineage(Canary)[0] == Static && Lineage(Canary)[1] == Canary;
      assert gates == [s.gates[Static]] + [s.gates[Canary]];
      SameDeviceBoth(s.files, s.gates[Static], s.gates[Canary], a.gpu.device);
    }
  }

  lemma StaticFirst(probes: Probes, s: State)
    requires Sane(probes, s) && Static in s.gates
    ensures s.gates[Static].stage.Static?
  {
    assert Sound(probes, s, Static);
  }

  lemma SameDeviceBoth(files: Files, g: Gate, h: Gate, device: Device)
    requires SameDevice(files, [g], device) && SameDevice(files, [h], device)
    ensures SameDevice(files, [g] + [h], device)
  {
    assert g in [g] && h in [h];
  }

  /** One receipt for each name, in order. */
  ghost predicate OnePerName(stage: Stage, names: seq<string>, receipts: seq<Receipt>) {
    && |receipts| == |names|
    && forall k :: 0 <= k < |names| ==>
         receipts[k].stage == stage && receipts[k].items == [names[k]] && receipts[k].artifacts != []
  }

  lemma {:induction false} CollectedGate(files: Files, stage: Stage, names: seq<string>, subject: string, gpu: Gpu)
    ensures var receipts := Collect(files, stage, names, subject, gpu).1;
            receipts.Some? ==> OnePerName(stage, names, receipts.value) && Covered(receipts.value) == names
  {
    hide EvidenceFor, Usable, OnePerName;
    if names == [] {
      NonePerName(stage);
    } else {
      var last := |names| - 1;
      CollectedGate(files, stage, names[..last], subject, gpu);
      var (earlier, receipts) := Collect(files, stage, names[..last], subject, gpu);
      if receipts.Some? {
        CollectedNext(earlier, receipts.value, stage, names[..last], names[last], subject, gpu);
        assert names == names[..last] + [names[last]];
      }
    }
  }

  lemma NonePerName(stage: Stage)
    ensures OnePerName(stage, [], [])
  {
  }

  lemma CollectedNext(files: Files, receipts: seq<Receipt>, stage: Stage, names: seq<string>, name: string,
                      subject: string, gpu: Gpu)
    requires OnePerName(stage, names, receipts) && Covered(receipts) == names
    ensures var result := CollectOne(files, receipts, stage, name, subject, gpu).1;
            result.Some? ==> OnePerName(stage, names + [name], result.value) && Covered(result.value) == names + [name]
  {
    hide EvidenceFor, Usable;
    var result := CollectOne(files, receipts, stage, name, subject, gpu).1;
    if result.Some? {
      assert result.value[..|receipts|] == receipts;
    }
  }

  lemma GateOfReceipts(gates: Gates, stage: Stage, a: Attempt, receipts: seq<Receipt>, names: seq<string>)
    requires !stage.Static? && Parent(stage).value in gates
    requires OnePerName(stage, names, receipts) && Covered(receipts) == names
    ensures ValidGate(NewGate(gates, stage, a, receipts)) <==> names != [] && Unique(names)
  {
    forall name: string ensures Unique([name]) {
      assert (set x | x in [name]) == {name};
    }
    if names == [] { assert receipts == []; } else { assert receipts[0] in receipts; }
  }

  /** A static run that finds no gate returns one exactly when everything compiled, there are probes, each listed once,
      and the gate is written. */
  lemma StaticRunReturnsExactly(probes: Probes, s: State, a: Attempt)
    requires Sane(probes, s) && Static !in s.gates
    ensures RunStage(probes, s, Static, a).1.Some? <==>
              && a.compile.Compiled? && (forall n :: n in a.compile.order ==> n in a.compile.binaries)
              && probes.all != [] && Unique(probes.all) && a.publish.Written?
  {
    hide Sane, PutStatic, Verified, ValidGate;
    var (files, receipt) := CompileStatic(probes, s.files, a.identity.subject, a.compile);
    if receipt.Some? {
      StaticGateValid(s.gates, receipt.value, a);
    }
  }

  lemma StaticGateValid(gates: Gates, receipt: Receipt, a: Attempt)
    requires receipt.stage.Static? && receipt.artifacts != []
    ensures ValidGate(NewGate(gates, Static, a, [receipt])) <==> receipt.items != [] && Unique(receipt.items)
  {
    assert Covered([receipt]) == Covered([]) + receipt.items == receipt.items;
    assert receipt in [receipt];
  }

  /** A run that finds its gate returns that gate and changes nothing, exactly when the gate was issued under this
      identity, with the canary list in probe order, and, past the static stage, the GPU is entered as above on the
      device of the evidence. In every other case it raises and changes nothing. */
  lemma RepeatReturnsExactly(probes: Probes, s: State, stage: Stage, a: Attempt)
    requires Sane(probes, s) && stage in s.gates
    ensures RunStage(probes, s, stage, a).0 == s
    ensures RunStage(probes, s, stage, a).1 in {None, Some(s.gates[stage])}
    ensures RunStage(probes, s, stage, a).1.Some? <==>
              && s.gates[stage].identity == a.identity
              && (stage.Static? || (probes.Selected(Canary) == probes.canary
                                    && a.gpu.enters && (a.gpu.clocksLocked || a.allowUnlocked) && a.gpu.leaves
                                    && a.gpu.device.gfx == a.gfx && OnDevice(s, a.gpu.device)))
  {
    hide Sane, Verified, OnDevice, SameDevice, Keep;
    VerifiesExactly(probes, s, stage, a.identity);
    if !stage.Static? && Verified(probes, s, stage, a.identity) {
      LineagePresent(probes, s, stage, a.identity);
      RecordedDevice(probes, s, stage, a.gpu.device);
    }
  }

  /** The gates up to a GPU stage record a device exactly when all evidence does. */
  lemma RecordedDevice(probes: Probes, s: State, stage: Stage, device: Device)
    requires Sane(probes, s) && !stage.Static? && stage in s.gates
    requires forall before :: before in Lineage(stage) ==> before in s.gates
    ensures SameDevice(s.files, GatesOf(s, Lineage(stage)), device) <==> OnDevice(s, device)
  {
    hide ProbesPassed, SameDevice, Sane;
    var gates, last := GatesOf(s, Lineage(stage)), |Lineage(stage)| - 1;
    assert Lineage(stage)[last] == stage && gates[last] == s.gates[stage];
    if SameDevice(s.files, gates, device) {
      var measured := DeviceOf(probes, s);
      SharedDevice(probes, s, stage, gates, measured, device);
    }
    if OnDevice(s, device) {
      SameDeviceAll(s, Lineage(stage), device);
    }
  }

  lemma DeviceOf(probes: Probes, s: State) returns (device: Device)
    requires Sane(probes, s)
    ensures OnDevice(s, device)
  {
    device :| OnDevice(s, device);
  }

  lemma SameDeviceAll(s: State, stages: seq<Stage>, device: Device)
    requires OnDevice(s, device) && forall stage :: stage in stages ==> stage in s.gates
    ensures SameDevice(s.files, GatesOf(s, stages), device)
  {
    forall g, r | g in GatesOf(s, stages) && !g.stage.Static? && r in g.receipts
      ensures r.artifacts != [] && DeviceIs(s.files, r.artifacts[0].path, device)
    {
      var i :| 0 <= i < |stages| && GatesOf(s, stages)[i] == g;
      assert SameDevice(s.files, [s.gates[stages[i]]], device) && g in [s.gates[stages[i]]];
    }
  }

  /** What a returned canary or full gate stands for: every probe of the stage has passing evidence on disk, for this
      subject and on this device; and evidence that was not there before is of a sample batch that passed in it. */
  lemma ReturnedGatePassed(probes: Probes, s: State, stage: Stage, a: Attempt, name: string)
    requires Sane(probes, s) && !stage.Static? && StageProbe(probes, stage, name)
    requires RunStage(probes, s, stage, a).1.Some?
    ensures Passed(RunStage(probes, s, stage, a).0.files, stage, name, a.identity.subject, a.gpu.device)
    ensures EvidenceFile(stage, name) !in s.files ==> stage !in s.gates && name in a.gpu.passing
    ensures RunStage(probes, s, stage, a).1.value.items == probes.Selected(stage)
  {
    hide Sane, Verified, OnDevice, SameDevice, Keep, Collect, ValidGate, GpuReady, Passed;
    StageProbes(probes, stage);
    if stage in s.gates {
      RepeatReturnsExactly(probes, s, stage, a);
      GatePassed(probes, s, stage, a.gpu.device, name);
    } else {
      GpuRunReturnsExactly(probes, s, stage, a);
      var names := probes.Selected(stage);
      CollectsExactly(s.files, stage, names, a.identity.subject, a.gpu);
      CollectDescribes(s.files, stage, names, a.identity.subject, a.gpu);
      NoneWithout(s.files, stage, name, a.identity.subject, a.gpu);
    }
  }

  lemma NoneWithout(files: Files, stage: Stage, name: string, subject: string, gpu: Gpu)
    requires CanPass(files, stage, name, subject, gpu)
    ensures EvidenceFile(stage, name) !in files ==> name in gpu.passing
  {
  }

  /** In every reached root, each probe of a canary or full gate has passing evidence for the gate's own subject. */
  lemma GatePassed(probes: Probes, s: State, stage: Stage, device: Device, name: string)
    requires Sane(probes, s) && stage in s.gates && !stage.Static? && OnDevice(s, device)
    requires StageProbe(probes, stage, name)
    ensures Passed(s.files, stage, name, s.gates[stage].identity.subject, device)
    ensures EvidenceFile(stage, name) in s.files && s.gates[stage].items == probes.Selected(stage)
  {
    hide ValidGate, AllIntact, OwnFiles, SameDevice, Keep;
    assert Sound(probes, s, stage);
    StageProbes(probes, stage);
  }

  /** Every piece of canary and full evidence records the same device. */
  lemma OneDevice(probes: Probes, s: State, a: Stage, b: Stage, ra: Receipt, rb: Receipt)
    requires Sane(probes, s) && !a.Static? && !b.Static? && a in s.gates && b in s.gates
    requires ra in s.gates[a].receipts && rb in s.gates[b].receipts
    ensures ra.artifacts != [] && rb.artifacts != []
    ensures exists device ::
              DeviceIs(s.files, ra.artifacts[0].path, device) && DeviceIs(s.files, rb.artifacts[0].path, device)
  {
    var device :| OnDevice(s, device);
    assert SameDevice(s.files, [s.gates[a]], device) && SameDevice(s.files, [s.gates[b]], device);
    assert Sound(probes, s, a) && Sound(probes, s, b);
    assert s.gates[a] in [s.gates[a]] && s.gates[b] in [s.gates[b]];
    assert DeviceIs(s.files, ra.artifacts[0].path, device) && DeviceIs(s.files, rb.artifacts[0].path, device);
  }

  // ----- canary lists in probe order

  function Picked(all: seq<string>, at: seq<nat>): seq<string>
    requires forall k :: 0 <= k < |at| ==> at[k] < |all|
  {
    seq(|at|, k requires 0 <= k < |at| => all[at[k]])
  }

  ghost predicate Increasing(at: seq<nat>) {
    forall j, k :: 0 <= j < k < |at| ==> at[j] < at[k]
  }

  lemma AllPassed(at: seq<nat>, i: nat, k: nat)
    requires forall m :: 0 <= m < |at| ==> at[m] < i
    ensures k < |at| ==> !forall m :: 0 <= m < |at| ==> (at[m] < i <==> m < k)
  {
    if k < |at| { assert at[k] < i; }
  }

  lemma {:induction false} KeepPicked(all: seq<string>, at: seq<nat>, i: nat, k: nat)
    requires Distinct(all) && Increasing(at) && (forall m :: 0 <= m < |at| ==> at[m] < |all|)
    requires i <= |all| && k <= |at|
    requires forall m :: 0 <= m < |at| ==> (at[m] < i <==> m < k)
    ensures Keep(all[i..], Picked(all, at)) == Picked(all, at)[k..]
    decreases |all| - i
  {
    var picked := Picked(all, at);
    if i < |all| {
      assert all[i..][1..] == all[i + 1..];
      if k < |at| && at[k] == i {
        assert picked[k] == all[i];
        KeepPicked(all, at, i + 1, k + 1);
      } else {
        forall m | 0 <= m < |at| ensures picked[m] != all[i] {
          assert at[m] != i;
          assert all[at[m]] != all[i];
        }
        KeepPicked(all, at, i + 1, k);
      }
    } else {
      AllPassed(at, i, k);
    }
  }

  /** Canary probes named in the order of the full list, as the shipped ones are, select themselves. */
  lemma CanaryInOrder(all: seq<string>, at: seq<nat>)
    requires Distinct(all) && Increasing(at) && (forall k :: 0 <= k < |at| ==> at[k] < |all|)
    ensures Probes(all, Picked(all, at)).Selected(Canary) == Picked(all, at)
  {
    KeepPicked(all, at, 0, 0);
    assert all[0..] == all;
  }
}
