/** Publication of processed material: durable staging intents bracket storage writes
    that no database transaction can undo, and two lease checks bracket the upload.

    `TaskState` is everything the protocol keeps for one task; `Action` lists its
    atomic steps. Steps of a transaction that talks to storage are separate actions,
    so a crash (`Abort`) can fall between any two of them, and any other party may
    act wherever the row lock is free. */
module Publication {
  import opened Utf8
  import opened Wrappers
  import opened Hashing
  import opened Leases
  import opened Archive
  import Manifest

  datatype Kind = CanonicalObject | PreviewObject | WorkbookObject

  /** `materials/<task>/<digest>/<file name>`; the task part is left implicit. */
  datatype Key = Key(sha: Digest, kind: Kind)

  function FileName(kind: Kind): string {
    match kind
    case CanonicalObject => "canonical.md"
    case PreviewObject => "preview.pdf"
    case WorkbookObject => "workbook.json"
  }

  /** The storage key of an object of the task whose representation id ends in `tail`. */
  function KeyPath(tail: string, k: Key): string
    requires |k.sha| >= 7
  {
    "materials/" + tail + "/" + k.sha[7..] + "/" + FileName(k.kind)
  }

  /** Keys of different tasks, digests or kinds are different storage objects. */
  lemma KeyPathIsInjective(tail: string, k: Key, tail': string, k': Key)
    requires |tail| == |tail'| == 64 && IsSha256(k.sha) && IsSha256(k'.sha)
    requires KeyPath(tail, k) == KeyPath(tail', k')
    ensures tail == tail' && k == k'
  {
    var p, p' := KeyPath(tail, k), KeyPath(tail', k');
    assert |p| == 140 + |FileName(k.kind)| && |p'| == 140 + |FileName(k'.kind)|;
    assert p[10..74] == tail && p'[10..74] == tail';
    assert p[75..139] == k.sha[7..] && p'[75..139] == k'.sha[7..];
    assert k.sha == k.sha[..7] + k.sha[7..];
    assert k'.sha == k'.sha[..7] + k'.sha[7..];
  }

  datatype Intent = Intent(size: int, sha: Digest)

  /** A published representation: the output it was published from, and the bytes
      its objects held at that moment. */
  datatype Representation = Representation(output: Output, content: map<Key, Bytes>)

  datatype Phase = Uploading | Checked(at: int) | Failing

  /** Who holds the task row lock. */
  datatype Lock =
    | Free
    | Publishing(lease: Lease, output: Output, created: set<Key>, phase: Phase)
    | Cleaning(dropped: set<Key>)

  datatype TaskState = TaskState(
    row: Row,
    intents: map<Key, Intent>,
    representation: Option<Representation>,
    registered: set<Key>,
    storage: map<Key, Bytes>,
    prepared: set<(Lease, Output)>,
    lock: Lock)

  // ---------------------------------------------------------------- keys

  function CanonicalKey(o: Output): Key {
    Key(o.canonicalSha, CanonicalObject)
  }

  /** The objects of an output and the intents `prepare_staging` records for them. */
  function Entries(o: Output): map<Key, Intent> {
    map[CanonicalKey(o) := Intent(o.canonicalSize, o.canonicalSha)]
    + (if o.previewSize != 0 && o.previewSha.Some?
       then map[Key(o.previewSha.value, PreviewObject) := Intent(o.previewSize, o.previewSha.value)] else map[])
    + (if o.workbookSize != 0 && o.workbookSha.Some?
       then map[Key(o.workbookSha.value, WorkbookObject) := Intent(o.workbookSize, o.workbookSha.value)] else map[])
  }

  function Keys(o: Output): (ks: set<Key>)
    ensures CanonicalKey(o) in ks
  {
    Entries(o).Keys
  }

  /** Stored bytes have the declared size and digest. */
  predicate Matches(content: Bytes, i: Intent) {
    |content| == i.size && Sha256(content) == i.sha
  }

  predicate Published(s: TaskState, k: Key) {
    || (s.representation.Some? && k in Keys(s.representation.value.output))
    || k in s.registered
  }

  /** `_validate_workbook_preview`, an arbitrary condition on the workbook's bytes. */
  const WorkbookValid: Bytes -> bool

  predicate WorkbookOk(storage: map<Key, Bytes>, o: Output) {
    o.workbookSize != 0 && o.workbookSha.Some? ==>
      var k := Key(o.workbookSha.value, WorkbookObject);
      k in storage && WorkbookValid(storage[k])
  }

  // ---------------------------------------------------------------- the steps

  datatype Action =
    | Claim(owner: string, seconds: int)
    | Renew(lease: Lease, seconds: int)
    | Reset(lease: Lease)
    | Prepare(lease: Lease, output: Output)
    // a publication, under the row lock
    | Begin(lease: Lease, output: Output)
    | Recover(key: Key)
    | Save(key: Key, content: Bytes)
    | Recheck
    | Commit
    | Undo(key: Key)
    // a cleanup pass, under the row lock
    | CleanBegin
    | CleanDelete(key: Key)
    | CleanDrop(key: Key)
    | CleanCommit
    // rollback, crash or failure of whoever holds the lock
    | Abort

  predicate Enabled(now: int, s: TaskState, a: Action) {
    match a
    case Claim(_, _) => s.lock.Free?
    case Renew(lease, seconds) => s.lock.Free? && Admissible(s.row, now, ByRenewal(lease, seconds))
    case Reset(lease) => s.lock.Free? && Admissible(s.row, now, ByReset(lease))
    case Prepare(lease, o) =>
      && s.lock.Free? && ValidCommit(o) && o.representationId == lease.representationId
      && Passes(s.row, now, lease, true)
      && forall k :: k in Entries(o) && k in s.intents ==> s.intents[k] == Entries(o)[k]
    case Begin(lease, o) =>
      && s.lock.Free? && (lease, o) in s.prepared && Passes(s.row, now, lease, true)
      && (s.row.status == Completed ==> s.representation.Some?)
    case Recover(k) =>
      && s.lock.Publishing? && s.lock.phase.Uploading? && s.lock.created == {}
      && k in s.intents && !Published(s, k) && k in s.storage && !Matches(s.storage[k], s.intents[k])
    case Save(k, _) =>
      s.lock.Publishing? && s.lock.phase.Uploading? && k in Keys(s.lock.output) && k !in s.storage
    case Recheck =>
      && s.lock.Publishing? && s.lock.phase.Uploading?
      && (forall k :: k in Keys(s.lock.output) ==> k in s.storage && Matches(s.storage[k], Entries(s.lock.output)[k]))
      && WorkbookOk(s.storage, s.lock.output)
      && Manifest.Valid(s.lock.output.manifest, s.storage[CanonicalKey(s.lock.output)])
      && (s.representation.Some? ==> s.representation.value.output == s.lock.output)
      && Passes(s.row, now, s.lock.lease, true)
    case Commit => s.lock.Publishing? && s.lock.phase.Checked?
    case Undo(k) => s.lock.Publishing? && k in s.lock.created && k in s.storage
    case CleanBegin =>
      && s.lock.Free? && s.row.platform && s.intents != map[]
      && !(s.row.status == Running && Unexpired(s.row, now))
    case CleanDelete(k) => s.lock.Cleaning? && k in s.intents && !Published(s, k) && k in s.storage
    case CleanDrop(k) => s.lock.Cleaning? && k in s.intents && (Published(s, k) || k !in s.storage)
    case CleanCommit => s.lock.Cleaning?
    case Abort => !s.lock.Free?
  }

  function Apply(now: int, s: TaskState, a: Action): TaskState
    requires Enabled(now, s, a)
  {
    match a
    case Claim(owner, seconds) => s.(row := Changed(s.row, now, ByClaim(owner, seconds)))
    case Renew(lease, seconds) => s.(row := Changed(s.row, now, ByRenewal(lease, seconds)))
    case Reset(lease) => s.(row := Changed(s.row, now, ByReset(lease)))
    case Prepare(lease, o) => s.(intents := s.intents + Entries(o), prepared := s.prepared + {(lease, o)})
    case Begin(lease, o) => s.(lock := Publishing(lease, o, {}, Uploading))
    case Recover(k) => s.(storage := s.storage - {k})
    case Save(k, content) =>
      s.(storage := s.storage[k := content], lock := s.lock.(created := s.lock.created + {k}))
    case Recheck => s.(lock := s.lock.(phase := Checked(now)))
    case Commit => Committed(now, s)
    case Undo(k) =>
      s.(storage := s.storage - {k}, lock := s.lock.(created := s.lock.created - {k}, phase := Failing))
    case CleanBegin => s.(lock := Cleaning({}))
    case CleanDelete(k) => s.(storage := s.storage - {k})
    case CleanDrop(k) => s.(lock := Cleaning(s.lock.dropped + {k}))
    case CleanCommit => s.(intents := s.intents - s.lock.dropped, lock := Free)
    case Abort => s.(lock := Free)
  }

  /** The publication transaction commits: representation, resources, completion and
      the removal of the intents become visible together. */
  function Committed(now: int, s: TaskState): TaskState
    requires s.lock.Publishing? && s.lock.phase.Checked?
  {
    var o := s.lock.output;
    var stored := map k | k in Keys(o) && k in s.storage :: s.storage[k];
    s.(row := Changed(s.row, now, ByCompletion(s.lock.lease, s.lock.phase.at)),
       representation := if s.representation.Some? then s.representation else Some(Representation(o, stored)),
       registered := s.registered + Keys(o),
       intents := s.intents - Keys(o) - (set k | k in s.intents && Published(s, k)),
       lock := Free)
  }

  // ---------------------------------------------------------------- invariants

  /** No storage object is forgotten: each is named by an intent or published. */
  predicate Covered(s: TaskState) {
    forall k :: k in s.storage ==> k in s.intents || Published(s, k)
  }

  predicate Staged(s: TaskState, o: Output) {
    forall k :: k in Keys(o) ==> k in s.intents || Published(s, k)
  }

  /** Every object of the published representation still holds its published bytes,
      which are what the representation declares and what its manifest describes. */
  predicate PublishedIntact(s: TaskState) {
    s.representation.Some? ==>
      var r := s.representation.value;
      && r.content.Keys == Keys(r.output)
      && (forall k :: k in Keys(r.output) ==>
            && k in s.storage && s.storage[k] == r.content[k]
            && Matches(s.storage[k], Entries(r.output)[k]))
      && Manifest.Valid(r.output.manifest, s.storage[CanonicalKey(r.output)])
  }

  /** What the holder of the row lock may rely on. */
  predicate LockInv(now: int, s: TaskState) {
    match s.lock
    case Free => true
    case Publishing(lease, o, created, phase) =>
      && s.row.platform && s.row.leaseOwner == lease.owner && s.row.leaseEpoch == lease.epoch
      && s.row.status in {Running, Completed}
      && (s.row.status == Running ==> Staged(s, o))
      && (forall k :: k in created ==> !Published(s, k) && k in Keys(o))
      && (phase.Checked? ==>
            && phase.at <= now && Passes(s.row, phase.at, lease, true)
            && (forall k :: k in Keys(o) ==> k in s.storage && Matches(s.storage[k], Entries(o)[k]))
            && Manifest.Valid(o.manifest, s.storage[CanonicalKey(o)])
            && (s.representation.Some? ==> s.representation.value.output == o))
    case Cleaning(dropped) =>
      && !(s.row.status == Running && Unexpired(s.row, now))
      && forall k :: k in dropped ==> Published(s, k) || k !in s.storage
  }

  /** Holds in every reachable state, whatever outputs are replayed. */
  predicate Inv(now: int, s: TaskState) {
    && RowInv(s.row)
    && (s.representation.Some? <==> s.row.status == Completed)
    && s.registered == (if s.representation.Some? then Keys(s.representation.value.output) else {})
    && (forall k :: k in s.intents ==> s.intents[k].sha == k.sha)
    && PublishedIntact(s)
    && (forall p :: p in s.prepared ==> p.0.epoch <= s.row.leaseEpoch)
    && (forall p :: p in s.prepared && Live(s.row, now, p.0) ==> Staged(s, p.1))
    && LockInv(now, s)
  }

  /** `Covered`, together with what keeps it so while a publication is under way. */
  predicate CoverInv(s: TaskState) {
    Covered(s) && (s.lock.Publishing? ==> Staged(s, s.lock.output))
  }

  function NewTask(): TaskState {
    TaskState(NewRow(), map[], None, {}, map[], {}, Free)
  }

  lemma NewTaskInv(now: int)
    ensures Inv(now, NewTask()) && CoverInv(NewTask())
  {
  }

  lemma EntriesNameTheirDigest(o: Output)
    ensures forall k :: k in Entries(o) ==> Entries(o)[k].sha == k.sha
  {
  }

  lemma CommitKeepsInv(now: int, s: TaskState)
    requires Inv(now, s) && Enabled(now, s, Commit)
    ensures Inv(now, Apply(now, s, Commit))
  {
    hide Manifest.Valid, Entries, Sha256, RowInv, ValidCommit;
    var s' := Apply(now, s, Commit);
    ChangeKeepsRowInv(s.row, now, ByCompletion(s.lock.lease, s.lock.phase.at));
    assert s'.row.status == Completed;
    assert forall l :: !Live(s'.row, now, l);
  }

  lemma RowStepKeepsInv(now: int, s: TaskState, a: Action)
    requires Inv(now, s) && Enabled(now, s, a) && (a.Claim? || a.Renew? || a.Reset?)
    ensures Inv(now, Apply(now, s, a))
  {
    hide Manifest.Valid, Entries, Keys;
    if a.Claim? { ChangeKeepsRowInv(s.row, now, ByClaim(a.owner, a.seconds)); }
  }

  lemma PublishStepKeepsInv(now: int, s: TaskState, a: Action)
    requires Inv(now, s) && Enabled(now, s, a)
    requires a.Begin? || a.Recover? || a.Save? || a.Recheck? || a.Undo?
    ensures Inv(now, Apply(now, s, a))
  {
    hide Inv, Enabled, Apply;
    match a {
      case Begin(_, _) => BeginKeepsInv(now, s, a);
      case Recheck => BeginKeepsInv(now, s, a);
      case _ => StorageStepKeepsInv(now, s, a);
    }
  }

  lemma BeginKeepsInv(now: int, s: TaskState, a: Action)
    requires Inv(now, s) && Enabled(now, s, a) && (a.Begin? || a.Recheck?)
    ensures Inv(now, Apply(now, s, a))
  {
    hide Manifest.Valid, Entries, Keys, RowInv, ValidCommit, PublishedIntact;
    SameStored(s, Apply(now, s, a));
  }

  lemma SameStored(s: TaskState, s': TaskState)
    requires s'.storage == s.storage && s'.representation == s.representation
    ensures PublishedIntact(s) <==> PublishedIntact(s')
  {
  }

  lemma StorageStepKeepsInv(now: int, s: TaskState, a: Action)
    requires Inv(now, s) && Enabled(now, s, a) && (a.Recover? || a.Save? || a.Undo?)
    ensures Inv(now, Apply(now, s, a))
  {
    hide Manifest.Valid, Entries, Keys, RowInv, ValidCommit;
  }

  lemma PrepareKeepsInv(now: int, s: TaskState, a: Action)
    requires Inv(now, s) && Enabled(now, s, a) && a.Prepare?
    ensures Inv(now, Apply(now, s, a))
  {
    hide Manifest.Valid, Entries, RowInv, Matches, ValidCommit;
    EntriesNameTheirDigest(a.output);
  }

  lemma CleanStepKeepsInv(now: int, s: TaskState, a: Action)
    requires Inv(now, s) && Enabled(now, s, a)
    requires a.CleanBegin? || a.CleanDelete? || a.CleanDrop? || a.CleanCommit? || a.Abort?
    ensures Inv(now, Apply(now, s, a))
  {
    hide Manifest.Valid, Entries, Keys, RowInv;
  }

  /** Every step keeps the invariant. */
  lemma StepKeepsInv(now: int, s: TaskState, a: Action)
    requires Inv(now, s) && Enabled(now, s, a)
    ensures Inv(now, Apply(now, s, a))
  {
    hide Inv, Enabled, Apply;
    match a
    case Claim(_, _) => RowStepKeepsInv(now, s, a);
    case Renew(_, _) => RowStepKeepsInv(now, s, a);
    case Reset(_) => RowStepKeepsInv(now, s, a);
    case Prepare(_, _) => PrepareKeepsInv(now, s, a);
    case Commit => CommitKeepsInv(now, s);
    case CleanBegin => CleanStepKeepsInv(now, s, a);
    case CleanDelete(_) => CleanStepKeepsInv(now, s, a);
    case CleanDrop(_) => CleanStepKeepsInv(now, s, a);
    case CleanCommit => CleanStepKeepsInv(now, s, a);
    case Abort => CleanStepKeepsInv(now, s, a);
    case _ => PublishStepKeepsInv(now, s, a);
  }

  lemma TickKeepsInv(now: int, later: int, s: TaskState)
    requires Inv(now, s) && now <= later
    ensures Inv(later, s)
  {
    hide Manifest.Valid, Entries, Keys, RowInv;
  }

  /** A publication on a completed task whose output is no longer staged is the one
      step that can lose track of an object. */
  predicate Guarded(s: TaskState, a: Action) {
    a.Begin? && s.row.status == Completed ==> Staged(s, a.output)
  }

  lemma StepKeepsCover(now: int, s: TaskState, a: Action)
    requires Inv(now, s) && CoverInv(s) && Enabled(now, s, a) && Guarded(s, a)
    ensures CoverInv(Apply(now, s, a))
  {
    hide Manifest.Valid, Entries, Keys, RowInv, Matches;
  }

  // ---------------------------------------------------------------- runs of one task

  /** One action at one moment. */
  datatype Step = Step(at: int, action: Action)

  predicate Feasible(now: int, s: TaskState, steps: seq<Step>)
    decreases |steps|
  {
    steps == [] || (
      && now <= steps[0].at && Enabled(steps[0].at, s, steps[0].action)
      && Feasible(steps[0].at, Apply(steps[0].at, s, steps[0].action), steps[1..]))
  }

  function Outcome(now: int, s: TaskState, steps: seq<Step>): TaskState
    requires Feasible(now, s, steps)
    decreases |steps|
  {
    if steps == [] then s
    else Outcome(steps[0].at, Apply(steps[0].at, s, steps[0].action), steps[1..])
  }

  lemma FirstStep(now: int, s: TaskState, step: Step, rest: seq<Step>)
    requires now <= step.at && Enabled(step.at, s, step.action)
    requires Feasible(step.at, Apply(step.at, s, step.action), rest)
    ensures Feasible(now, s, [step] + rest)
    ensures Outcome(now, s, [step] + rest) == Outcome(step.at, Apply(step.at, s, step.action), rest)
  {
    hide Enabled, Apply;
    assert ([step] + rest)[1..] == rest;
  }

  function Moment(now: int, steps: seq<Step>): int {
    if steps == [] then now else steps[|steps| - 1].at
  }

  /** The steps a publication call makes once it holds the lock. */
  predicate CallStep(a: Action) {
    a.Recover? || a.Save? || a.Recheck? || a.Commit? || a.Undo? || a.Abort?
  }

  predicate CallOnly(steps: seq<Step>) {
    forall i :: 0 <= i < |steps| ==> CallStep(steps[i].action)
  }

  lemma {:induction false} CallKeepsCover(now: int, s: TaskState, steps: seq<Step>)
    requires Inv(now, s) && CoverInv(s) && CallOnly(steps) && Feasible(now, s, steps)
    ensures Covered(Outcome(now, s, steps))
    decreases |steps|
  {
    hide Inv, CoverInv, Enabled, Apply;
    if steps == [] {
      CoverIncludesCovered(s);
    } else {
      var Step(at, a) := steps[0];
      assert CallStep(a);
      TickKeepsInv(now, at, s);
      StepKeepsInv(at, s, a);
      StepKeepsCover(at, s, a);
      CallKeepsCover(at, Apply(at, s, a), steps[1..]);
    }
  }

  lemma CoverIncludesCovered(s: TaskState)
    requires CoverInv(s)
    ensures Covered(s)
  {
  }

  /** Begin, write one object, crash. */
  lemma UnstagedSaveIsLost(now: int, s: TaskState, lease: Lease, o: Output, k: Key)
    requires Enabled(now, s, Begin(lease, o))
    requires k in Keys(o) && k !in s.intents && !Published(s, k) && k !in s.storage
    ensures var steps := [Step(now, Begin(lease, o)), Step(now, Save(k, [])), Step(now, Abort)];
            && CallOnly(steps[1..])
            && Feasible(now, s, steps) && !Covered(Outcome(now, s, steps))
  {
    hide Manifest.Valid, Entries, Keys;
    var steps := [Step(now, Begin(lease, o)), Step(now, Save(k, [])), Step(now, Abort)];
    var s1 := Apply(now, s, Begin(lease, o));
    var s2 := Apply(now, s1, Save(k, []));
    var s3 := Apply(now, s2, Abort);
    assert k in s3.storage && k !in s3.intents && !Published(s3, k);
    FirstStep(now, s2, Step(now, Abort), []);
    FirstStep(now, s1, Step(now, Save(k, [])), [Step(now, Abort)]);
    FirstStep(now, s, Step(now, Begin(lease, o)), [Step(now, Save(k, [])), Step(now, Abort)]);
    assert steps == [Step(now, Begin(lease, o))] + ([Step(now, Save(k, []))] + ([Step(now, Abort)] + []));
  }

  /** A publication call leaves no object behind, wherever it fails or crashes,
      if and only if every object of its output is staged or published when it
      takes the lock. */
  lemma CallIsCoveredIff(now: int, s: TaskState, lease: Lease, o: Output)
    requires Inv(now, s) && Covered(s) && Enabled(now, s, Begin(lease, o))
    ensures Staged(s, o) <==>
            forall steps: seq<Step> :: CallOnly(steps) && Feasible(now, s, [Step(now, Begin(lease, o))] + steps) ==>
              Covered(Outcome(now, s, [Step(now, Begin(lease, o))] + steps))
  {
    hide Inv, Manifest.Valid, Entries, Keys;
    var begin := Step(now, Begin(lease, o));
    if Staged(s, o) {
      var s1 := Apply(now, s, begin.action);
      StepKeepsInv(now, s, begin.action);
      forall steps: seq<Step> | CallOnly(steps) && Feasible(now, s, [begin] + steps)
        ensures Covered(Outcome(now, s, [begin] + steps))
      {
        assert ([begin] + steps)[1..] == steps;
        CallKeepsCover(now, s1, steps);
      }
    } else {
      var k :| k in Keys(o) && k !in s.intents && !Published(s, k);
      UnstagedSaveIsLost(now, s, lease, o, k);
      var steps := [Step(now, Save(k, [])), Step(now, Abort)];
      assert [begin] + steps == [begin, Step(now, Save(k, [])), Step(now, Abort)];
      assert ([begin] + steps)[1..] == steps;
    }
  }

  /** A call under a running lease is always staged: its lease has been live ever
      since it prepared, so no cleanup can have intervened. So is a replay of the
      output that was published. */
  lemma CallIsStaged(now: int, s: TaskState, lease: Lease, o: Output)
    requires Inv(now, s) && Enabled(now, s, Begin(lease, o))
    requires s.row.status == Running || s.representation.value.output == o
    ensures Staged(s, o)
  {
    hide Manifest.Valid, Entries, Keys;
    assert (lease, o) in s.prepared;
  }

  lemma {:induction false} ThenStep(now: int, s: TaskState, steps: seq<Step>, step: Step)
    requires Feasible(now, s, steps)
    requires Moment(now, steps) <= step.at && Enabled(step.at, Outcome(now, s, steps), step.action)
    ensures Feasible(now, s, steps + [step])
    ensures Outcome(now, s, steps + [step]) == Apply(step.at, Outcome(now, s, steps), step.action)
    ensures Moment(now, steps + [step]) == step.at
    decreases |steps|
  {
    hide Enabled, Apply;
    if steps == [] {
      FirstStep(now, s, step, []);
      assert steps + [step] == [step] + [];
    } else {
      var s1 := Apply(steps[0].at, s, steps[0].action);
      ThenStep(steps[0].at, s1, steps[1..], step);
      FirstStep(now, s, steps[0], steps[1..] + [step]);
      assert steps + [step] == [steps[0]] + (steps[1..] + [step]);
    }
  }

  lemma {:induction false} ThenSteps(now: int, s: TaskState, first: seq<Step>, more: seq<Step>)
    requires Feasible(now, s, first) && Feasible(Moment(now, first), Outcome(now, s, first), more)
    ensures Feasible(now, s, first + more)
    ensures Outcome(now, s, first + more) == Outcome(Moment(now, first), Outcome(now, s, first), more)
    decreases |more|
  {
    hide Enabled, Apply;
    if more == [] {
      assert first + more == first;
    } else {
      ThenStep(now, s, first, more[0]);
      ThenSteps(now, s, first + [more[0]], more[1..]);
      assert first + more == (first + [more[0]]) + more[1..];
    }
  }

  /** The published task of the example below. */
  function ExampleTask(id: string, o: Output, content: Bytes): TaskState {
    TaskState(Row(true, Completed, "", "w", Some(60 * SECOND), 1, 1), map[],
              Some(Representation(o, map[CanonicalKey(o) := content])), Keys(o), map[CanonicalKey(o) := content],
              {(Lease(id, "w", 1), o)}, Free)
  }

  lemma ExamplePublication(id: string, content: Bytes, m: Manifest.Manifest) returns (steps: seq<Step>)
    requires IsSha256(Sha256(content)) && 0 < |content| <= Manifest.MAX_OUTPUT_BYTES && Manifest.Valid(m, content)
    ensures Feasible(0, NewTask(), steps) && Moment(0, steps) == 0
    ensures Outcome(0, NewTask(), steps) ==
            ExampleTask(id, Output(id, |content|, Sha256(content), 0, None, 0, None, m), content)
  {
    hide Manifest.Valid, IsSha256;
    var o := Output(id, |content|, Sha256(content), 0, None, 0, None, m);
    var lease, k := Lease(id, "w", 1), CanonicalKey(o);
    assert Entries(o) == map[k := Intent(|content|, Sha256(content))];
    assert ValidArguments("w", 60) by { assert "w"[0] == 'w'; }
    steps := [];
    ThenStep(0, NewTask(), steps, Step(0, Claim("w", 60)));
    steps := steps + [Step(0, Claim("w", 60))];
    ThenStep(0, NewTask(), steps, Step(0, Prepare(lease, o)));
    steps := steps + [Step(0, Prepare(lease, o))];
    ThenStep(0, NewTask(), steps, Step(0, Begin(lease, o)));
    steps := steps + [Step(0, Begin(lease, o))];
    ThenStep(0, NewTask(), steps, Step(0, Save(k, content)));
    steps := steps + [Step(0, Save(k, content))];
    ThenStep(0, NewTask(), steps, Step(0, Recheck));
    steps := steps + [Step(0, Recheck)];
    ThenStep(0, NewTask(), steps, Step(0, Commit));
    steps := steps + [Step(0, Commit)];
    var end := Outcome(0, NewTask(), steps);
    assert end.intents == map[] && end.prepared == {(lease, o)} && end.registered == Keys(o);
    assert end.storage == map[k := content] && end.representation.value.content == map[k := content];
  }

  lemma ExampleCleanup(id: string, o: Output, content: Bytes, o2: Output, k2: Key) returns (steps: seq<Step>)
    requires ValidCommit(o2) && o2.representationId == id
    requires Keys(o) == {CanonicalKey(o)} && Keys(o2) == {CanonicalKey(o), k2} && k2 != CanonicalKey(o)
    ensures Feasible(0, ExampleTask(id, o, content), steps) && Moment(0, steps) == 0
    ensures Outcome(0, ExampleTask(id, o, content), steps) ==
            ExampleTask(id, o, content).(prepared := {(Lease(id, "w", 1), o), (Lease(id, "w", 1), o2)})
  {
    hide Entries, ValidCommit, Manifest.Valid;
    var s, lease := ExampleTask(id, o, content), Lease(id, "w", 1);
    steps := [];
    ThenStep(0, s, steps, Step(0, Prepare(lease, o2)));
    steps := steps + [Step(0, Prepare(lease, o2))];
    ThenStep(0, s, steps, Step(0, CleanBegin));
    steps := steps + [Step(0, CleanBegin)];
    ThenStep(0, s, steps, Step(0, CleanDrop(CanonicalKey(o))));
    steps := steps + [Step(0, CleanDrop(CanonicalKey(o)))];
    ThenStep(0, s, steps, Step(0, CleanDrop(k2)));
    steps := steps + [Step(0, CleanDrop(k2))];
    ThenStep(0, s, steps, Step(0, CleanCommit));
    steps := steps + [Step(0, CleanCommit)];
    assert Outcome(0, s, steps) == s.(prepared := {(lease, o), (lease, o2)});
  }

  /** The guard is needed: publish any document, replay it with a preview it did not
      have, let a cleanup pass drop the new intents before the replay takes the lock,
      and crash after the first write. The object is then known to nobody. */
  lemma MismatchedReplayLosesAnObject(id: string, content: Bytes, m: Manifest.Manifest, preview: Digest)
    returns (steps: seq<Step>)
    requires IsSha256(Sha256(content)) && IsSha256(preview) && Manifest.Valid(m, content)
    requires 0 < |content| < Manifest.MAX_OUTPUT_BYTES
    ensures Feasible(0, NewTask(), steps) && !Covered(Outcome(0, NewTask(), steps))
  {
    hide Manifest.Valid, IsSha256, Enabled, Apply;
    var o := Output(id, |content|, Sha256(content), 0, None, 0, None, m);
    var o2 := o.(previewSize := 1, previewSha := Some(preview));
    var k2 := Key(preview, PreviewObject);
    assert Keys(o) == {CanonicalKey(o)};
    assert Keys(o2) == {CanonicalKey(o), k2};
    steps := ExamplePublication(id, content, m);
    var s1 := Outcome(0, NewTask(), steps);
    var clean := ExampleCleanup(id, o, content, o2, k2);
    ThenSteps(0, NewTask(), steps, clean);
    var s2 := Outcome(0, s1, clean);
    MomentOf(steps, clean);
    var crash := ExampleCrash(s2, Lease(id, "w", 1), o2, k2);
    ThenSteps(0, NewTask(), steps + clean, crash);
    steps := steps + clean + crash;
  }

  lemma MomentOf(a: seq<Step>, b: seq<Step>)
    requires Moment(0, a) == 0 && Moment(0, b) == 0
    ensures Moment(0, a + b) == 0
  {
  }

  lemma ExampleCrash(s: TaskState, lease: Lease, o: Output, k: Key) returns (steps: seq<Step>)
    requires s.lock.Free? && (lease, o) in s.prepared && s.row.status == Completed && s.representation.Some?
    requires Passes(s.row, 0, lease, true)
    requires k in Keys(o) && k !in s.intents && !Published(s, k) && k !in s.storage
    ensures Feasible(0, s, steps) && !Covered(Outcome(0, s, steps))
  {
    hide Entries, Keys;
    UnstagedSaveIsLost(0, s, lease, o, k);
    steps := [Step(0, Begin(lease, o)), Step(0, Save(k, [])), Step(0, Abort)];
  }

  // ---------------------------------------------------------------- runs of the whole system

  /** All tasks and the database clock. */
  datatype World = World(now: int, tasks: map<string, TaskState>)

  datatype Event = Tick(later: int) | Admit(task: string) | Act(task: string, action: Action)

  predicate Possible(w: World, e: Event) {
    match e
    case Tick(later) => w.now <= later
    case Admit(id) => id !in w.tasks
    case Act(id, a) => id in w.tasks && Enabled(w.now, w.tasks[id], a)
  }

  function After(w: World, e: Event): World
    requires Possible(w, e)
  {
    match e
    case Tick(later) => w.(now := later)
    case Admit(id) => w.(tasks := w.tasks[id := NewTask()])
    case Act(id, a) => w.(tasks := w.tasks[id := Apply(w.now, w.tasks[id], a)])
  }

  predicate Run(w: World, events: seq<Event>)
    decreases |events|
  {
    events == [] || (Possible(w, events[0]) && Run(After(w, events[0]), events[1..]))
  }

  function End(w: World, events: seq<Event>): World
    requires Run(w, events)
    decreases |events|
  {
    if events == [] then w else End(After(w, events[0]), events[1..])
  }

  predicate WorldInv(w: World) {
    forall id :: id in w.tasks ==> Inv(w.now, w.tasks[id])
  }

  predicate WorldCovered(w: World) {
    forall id :: id in w.tasks ==> CoverInv(w.tasks[id])
  }

  /** Along the run, a completed task is only replayed with an output that is still
      staged or published. */
  predicate GuardedRun(w: World, events: seq<Event>)
    requires Run(w, events)
    decreases |events|
  {
    events == [] || (
      && (events[0].Act? ==> Guarded(w.tasks[events[0].task], events[0].action))
      && GuardedRun(After(w, events[0]), events[1..]))
  }

  lemma EventKeepsInv(w: World, e: Event)
    requires WorldInv(w) && Possible(w, e)
    ensures WorldInv(After(w, e))
  {
    hide Inv, Enabled, Apply;
    match e
    case Tick(later) =>
      forall id | id in w.tasks ensures Inv(later, w.tasks[id]) { TickKeepsInv(w.now, later, w.tasks[id]); }
    case Admit(_) => NewTaskInv(w.now);
    case Act(id, a) => StepKeepsInv(w.now, w.tasks[id], a);
  }

  /** In every state any run reaches, for every task: the epoch counts at most three
      attempts, and each object of a published representation holds exactly the
      bytes it was published with, which its manifest still describes. */
  lemma {:induction false} EveryRunKeepsInv(w: World, events: seq<Event>)
    requires WorldInv(w) && Run(w, events)
    ensures WorldInv(End(w, events))
    decreases |events|
  {
    hide WorldInv, Possible, After;
    if events != [] {
      EventKeepsInv(w, events[0]);
      EveryRunKeepsInv(After(w, events[0]), events[1..]);
    }
  }

  lemma EventKeepsCover(w: World, e: Event)
    requires WorldInv(w) && WorldCovered(w) && Possible(w, e)
    requires e.Act? ==> Guarded(w.tasks[e.task], e.action)
    ensures WorldCovered(After(w, e))
  {
    hide Inv, CoverInv, Enabled, Apply, Guarded;
    match e
    case Tick(later) =>
    case Admit(_) => NewTaskInv(w.now);
    case Act(id, a) => StepKeepsCover(w.now, w.tasks[id], a);
  }

  /** Crash safety: over every guarded run, however claims, uploads, crashes, lost
      replies and cleanup passes interleave, every stored object of every task is
      named by a staging intent or belongs to what is published. */
  lemma {:induction false} EveryGuardedRunIsCovered(w: World, events: seq<Event>)
    requires WorldInv(w) && WorldCovered(w) && Run(w, events) && GuardedRun(w, events)
    ensures WorldCovered(End(w, events))
    decreases |events|
  {
    hide WorldInv, WorldCovered, Possible, After, Guarded;
    if events != [] {
      EventKeepsInv(w, events[0]);
      EventKeepsCover(w, events[0]);
      EveryGuardedRunIsCovered(After(w, events[0]), events[1..]);
    }
  }

  /** Along the run, a completed task is only replayed with the output it published. */
  predicate ReplaysPublished(w: World, events: seq<Event>)
    requires Run(w, events)
    decreases |events|
  {
    events == [] || (
      && (events[0].Act? ==> ReplayIsPublished(w.tasks[events[0].task], events[0].action))
      && ReplaysPublished(After(w, events[0]), events[1..]))
  }

  predicate ReplayIsPublished(s: TaskState, a: Action) {
    a.Begin? && s.row.status == Completed ==> s.representation.Some? && s.representation.value.output == a.output
  }

  /** Such runs are guarded, and so crash safe: every stored object stays known. */
  lemma {:induction false} PublishedReplaysAreCovered(w: World, events: seq<Event>)
    requires WorldInv(w) && WorldCovered(w) && Run(w, events) && ReplaysPublished(w, events)
    ensures GuardedRun(w, events) && WorldCovered(End(w, events))
    decreases |events|
  {
    hide Inv, CoverInv, Enabled, Apply, Guarded, ReplayIsPublished;
    if events != [] {
      var e := events[0];
      if e.Act? { PublishedReplayIsGuarded(w.now, w.tasks[e.task], e.action); }
      EventKeepsInv(w, e);
      EventKeepsCover(w, e);
      PublishedReplaysAreCovered(After(w, e), events[1..]);
    }
  }

  lemma PublishedReplayIsGuarded(now: int, s: TaskState, a: Action)
    requires Inv(now, s) && Enabled(now, s, a) && ReplayIsPublished(s, a)
    ensures Guarded(s, a)
  {
    hide Inv, Staged;
    if a.Begin? && s.row.status == Completed { CallIsStaged(now, s, a.lease, a.output); }
  }

  // ---------------------------------------------------------------- fencing over runs

  lemma StepKeepsTask(w: World, e: Event, id: string)
    requires Possible(w, e) && id in w.tasks
    ensures id in After(w, e).tasks
    ensures !(e.Act? && e.task == id) ==> After(w, e).tasks[id] == w.tasks[id]
  {
    hide Enabled, Apply;
  }

  /** The change a step makes to the task's row. */
  function RowChangeOf(s: TaskState, a: Action): Option<RowChange> {
    match a
    case Claim(owner, seconds) => Some(ByClaim(owner, seconds))
    case Renew(lease, seconds) => Some(ByRenewal(lease, seconds))
    case Reset(lease) => Some(ByReset(lease))
    case Commit =>
      if s.lock.Publishing? && s.lock.phase.Checked? then Some(ByCompletion(s.lock.lease, s.lock.phase.at)) else None
    case _ => None
  }

  lemma StepChangesRow(now: int, s: TaskState, a: Action)
    requires Inv(now, s) && Enabled(now, s, a)
    ensures RowInv(s.row)
    ensures match RowChangeOf(s, a)
            case None => Apply(now, s, a).row == s.row
            case Some(c) => Admissible(s.row, now, c) && Apply(now, s, a).row == Changed(s.row, now, c)
  {
    hide Manifest.Valid, Entries, Keys, PublishedIntact, Changed, RowInv;
  }

  lemma StepKeepsTerminalRow(now: int, s: TaskState, a: Action)
    requires Inv(now, s) && Enabled(now, s, a) && s.row.status in {Completed, Failed}
    ensures Apply(now, s, a).row == s.row
  {
    hide Inv, Enabled, Apply, Changed, Admissible;
    StepChangesRow(now, s, a);
    var c := RowChangeOf(s, a);
    if c.Some? { TerminalIsAbsorbing(s.row, now, c.value); }
  }

  /** Completed and failed are absorbing: no run ever changes such a row again. */
  lemma {:induction false} TerminalRowsStay(w: World, events: seq<Event>, id: string)
    requires WorldInv(w) && Run(w, events)
    requires id in w.tasks && w.tasks[id].row.status in {Completed, Failed}
    ensures id in End(w, events).tasks && End(w, events).tasks[id].row == w.tasks[id].row
    decreases |events|
  {
    hide Inv, Enabled, Apply;
    if events != [] {
      var e := events[0];
      StepKeepsTask(w, e, id);
      if e.Act? && e.task == id { StepKeepsTerminalRow(w.now, w.tasks[id], e.action); }
      EventKeepsInv(w, e);
      TerminalRowsStay(After(w, e), events[1..], id);
    }
  }

  /** How often the task becomes completed along a run. */
  function Completions(w: World, events: seq<Event>, id: string): nat
    requires Run(w, events) && id in w.tasks
    decreases |events|
  {
    if events == [] then 0
    else
      var w' := After(w, events[0]);
      StepKeepsTask(w, events[0], id);
      (if w.tasks[id].row.status != Completed && w'.tasks[id].row.status == Completed then 1 else 0)
      + Completions(w', events[1..], id)
  }

  /** A task is completed at most once, and never after it failed. */
  lemma {:induction false} CompletedAtMostOnce(w: World, events: seq<Event>, id: string)
    requires WorldInv(w) && Run(w, events) && id in w.tasks
    ensures Completions(w, events, id) <= if w.tasks[id].row.status in {Completed, Failed} then 0 else 1
    decreases |events|
  {
    hide Inv, Enabled, Apply;
    if events != [] {
      var e := events[0];
      StepKeepsTask(w, e, id);
      if w.tasks[id].row.status in {Completed, Failed} && e.Act? && e.task == id {
        StepKeepsTerminalRow(w.now, w.tasks[id], e.action);
      }
      EventKeepsInv(w, e);
      CompletedAtMostOnce(After(w, e), events[1..], id);
    }
  }

  /** The step that completes a task is a commit whose lease is the current one and
      was unexpired at its second check, with the row locked ever since. */
  lemma CompletionIsFenced(now: int, s: TaskState, a: Action)
    requires Inv(now, s) && Enabled(now, s, a)
    requires s.row.status != Completed && Apply(now, s, a).row.status == Completed
    ensures a.Commit? && s.lock.phase.at <= now && Live(s.row, s.lock.phase.at, s.lock.lease)
  {
    hide Inv, Enabled, Apply, Changed, Live;
    StepChangesRow(now, s, a);
    var c := RowChangeOf(s, a);
    if c.Some? { OnlyLiveLeaseCompletes(s.row, now, c.value); }
  }

  lemma StepLiveWasLive(now: int, s: TaskState, a: Action, lease: Lease)
    requires Inv(now, s) && Enabled(now, s, a)
    requires lease.epoch <= s.row.leaseEpoch && Live(Apply(now, s, a).row, now, lease)
    ensures Live(s.row, now, lease) && s.row.leaseEpoch <= Apply(now, s, a).row.leaseEpoch
  {
    StepEpochGrows(now, s, a);
    hide Inv, Enabled, Apply, Changed, Live, RowInv;
    StepChangesRow(now, s, a);
    var c := RowChangeOf(s, a);
    if c.Some? { LiveWasLive(s.row, now, c.value, lease); }
  }

  lemma StepEpochGrows(now: int, s: TaskState, a: Action)
    requires Inv(now, s) && Enabled(now, s, a)
    ensures s.row.leaseEpoch <= Apply(now, s, a).row.leaseEpoch
  {
    hide Manifest.Valid, Entries, Keys, PublishedIntact;
  }

  /** A lease that is live at the end of a run was live at its start: an issued
      lease that has expired, been reset or been superseded is never live again. */
  lemma {:induction false} LiveLeaseWasLiveThroughout(w: World, events: seq<Event>, id: string, lease: Lease)
    requires WorldInv(w) && Run(w, events) && id in w.tasks
    requires lease.epoch <= w.tasks[id].row.leaseEpoch
    requires id in End(w, events).tasks && Live(End(w, events).tasks[id].row, End(w, events).now, lease)
    ensures Live(w.tasks[id].row, w.now, lease)
    decreases |events|
  {
    hide Inv, Enabled, Apply;
    if events != [] {
      var e := events[0];
      StepKeepsTask(w, e, id);
      EventKeepsInv(w, e);
      if e.Act? && e.task == id { StepEpochGrows(w.now, w.tasks[id], e.action); }
      LiveLeaseWasLiveThroughout(After(w, e), events[1..], id, lease);
      if e.Act? && e.task == id { StepLiveWasLive(w.now, w.tasks[id], e.action, lease); }
    }
  }

  /** The lease fails the publication check, and no publication that could still
      complete the row under this lease is in progress. */
  predicate Dead(now: int, s: TaskState, lease: Lease) {
    && !Passes(s.row, now, lease, true)
    && (s.lock.Publishing? ==> s.row.leaseOwner != lease.owner || s.row.leaseEpoch != lease.epoch)
  }

  lemma StepKeepsDead(now: int, s: TaskState, a: Action, lease: Lease)
    requires Inv(now, s) && Enabled(now, s, a)
    requires lease.epoch <= s.row.leaseEpoch && Dead(now, s, lease)
    ensures Dead(now, Apply(now, s, a), lease)
  {
    hide Manifest.Valid, Entries, Keys, PublishedIntact;
  }

  /** Once an issued lease fails the check on a free row, it fails it for ever,
      even the check that admits replays on a completed task. */
  lemma {:induction false} DeadLeasesStayDead(w: World, events: seq<Event>, id: string, lease: Lease)
    requires WorldInv(w) && Run(w, events) && id in w.tasks
    requires lease.epoch <= w.tasks[id].row.leaseEpoch && Dead(w.now, w.tasks[id], lease)
    ensures id in End(w, events).tasks && Dead(End(w, events).now, End(w, events).tasks[id], lease)
    decreases |events|
  {
    hide Inv, Enabled, Apply;
    if events != [] {
      var e := events[0];
      StepKeepsTask(w, e, id);
      EventKeepsInv(w, e);
      if e.Act? && e.task == id {
        StepEpochGrows(w.now, w.tasks[id], e.action);
        StepKeepsDead(w.now, w.tasks[id], e.action, lease);
      }
      DeadLeasesStayDead(After(w, e), events[1..], id, lease);
    }
  }

  // ---------------------------------------------------------------- no task is stuck

  lemma OneEvent(w: World, e: Event)
    requires Possible(w, e)
    ensures Run(w, [e]) && End(w, [e]) == After(w, e)
  {
    assert [e][1..] == [];
  }

  lemma TwoEvents(w: World, e: Event, f: Event)
    requires Possible(w, e) && Possible(After(w, e), f)
    ensures Run(w, [e, f]) && End(w, [e, f]) == After(After(w, e), f)
  {
    hide Possible, After;
    assert [e, f][1..] == [f];
    OneEvent(After(w, e), f);
  }

  /** In every state of every run, a task that is not over and that no live lease protects
      can be claimed, once whoever holds its lock has ended: the claim is granted the next
      epoch, or ends the task when its attempts are used up. */
  lemma NoTaskIsStuck(w: World, id: string, owner: string, seconds: int) returns (events: seq<Event>)
    requires WorldInv(w) && id in w.tasks && Claimable(w.tasks[id].row, w.now) && ValidArguments(owner, seconds)
    ensures Run(w, events) && |events| <= 2 && End(w, events).now == w.now && id in End(w, events).tasks
    ensures var row, row' := w.tasks[id].row, End(w, events).tasks[id].row;
            if row.attemptCount < MAX_ATTEMPTS then Live(row', w.now, Lease(id, owner, row.leaseEpoch + 1))
            else row'.status == Failed
  {
    hide Run, End, ClaimRow, RowInv, Claimable, Live, PublishedIntact, LockInv;
    var s := w.tasks[id];
    ClaimTakesOver(id, s.row, w.now, owner, seconds);
    var claim := Act(id, Claim(owner, seconds));
    if s.lock.Free? {
      events := [claim];
      OneEvent(w, claim);
    } else {
      events := [Act(id, Abort), claim];
      TwoEvents(w, Act(id, Abort), claim);
    }
  }
}
