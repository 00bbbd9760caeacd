/** The publication and cleanup code paths themselves, on one stored task. Every
    change they make to the database or to storage is recorded as a step of the
    protocol, so whatever they do, and wherever they stop, is a run of it. */
module Publisher {
  import opened Utf8
  import opened Wrappers
  import opened Hashing
  import opened Leases
  import opened Archive
  import opened Publication
  import Manifest

  /** An output's objects in the order the stream carries them. */
  function EntryList(o: Output): seq<(Key, Intent)> {
    [(CanonicalKey(o), Intent(o.canonicalSize, o.canonicalSha))]
    + (if o.previewSize != 0 && o.previewSha.Some?
       then [(Key(o.previewSha.value, PreviewObject), Intent(o.previewSize, o.previewSha.value))] else [])
    + (if o.workbookSize != 0 && o.workbookSha.Some?
       then [(Key(o.workbookSha.value, WorkbookObject), Intent(o.workbookSize, o.workbookSha.value))] else [])
  }

  lemma EntryListIsEntries(o: Output)
    ensures var l := EntryList(o);
            && (forall i :: 0 <= i < |l| ==> l[i].0 in Entries(o) && Entries(o)[l[i].0] == l[i].1)
            && (forall k :: k in Entries(o) ==> exists i :: 0 <= i < |l| && l[i].0 == k)
            && 1 <= |l| <= 3 && l[0].0 == CanonicalKey(o)
  {
    var l := EntryList(o);
    forall k | k in Entries(o) ensures exists i :: 0 <= i < |l| && l[i].0 == k {
      if k == CanonicalKey(o) {
        assert l[0].0 == k;
      } else if k.kind == PreviewObject {
        assert l[1].0 == k;
      } else {
        assert l[|l| - 1].0 == k;
      }
    }
  }

  /** The insertion loop of `prepare_staging`, on the transaction's view of the table. */
  method StageAll(intents: map<Key, Intent>, o: Output) returns (ok: bool, staged: map<Key, Intent>)
    ensures ok <==> forall k :: k in Entries(o) && k in intents ==> intents[k] == Entries(o)[k]
    ensures ok ==> staged == intents + Entries(o)
  {
    hide Entries;
    var list := EntryList(o);
    staged := intents;
    EntryListIsEntries(o);
    for i := 0 to |list|
      invariant forall k :: k in staged <==> k in intents || exists j :: 0 <= j < i && list[j].0 == k
      invariant forall k :: k in intents ==> staged[k] == intents[k]
      invariant forall j :: 0 <= j < i ==> staged[list[j].0] == list[j].1
    {
      var (k, intent) := list[i];
      if k !in staged {
        staged := staged[k := intent];
      }
      if staged[k] != intent {
        assert k in intents;
        return false, staged;
      }
    }
    ok := true;
  }

  // The steps of a cleanup pass and of a publication, one by one.

  lemma CleanBeginStep(now: int, s: TaskState)
    requires s.lock.Free? && s.row.platform && s.intents != map[] && !(s.row.status == Running && Unexpired(s.row, now))
    ensures Enabled(now, s, CleanBegin) && Apply(now, s, CleanBegin) == s.(lock := Cleaning({}))
  {
  }

  lemma CleanBeginIff(now: int, s: TaskState)
    ensures Enabled(now, s, CleanBegin) <==>
            s.lock.Free? && s.row.platform && s.intents != map[] && !(s.row.status == Running && Unexpired(s.row, now))
  {
  }

  lemma CleanDeleteStep(now: int, s: TaskState, k: Key)
    requires s.lock.Cleaning? && k in s.intents && !Published(s, k) && k in s.storage
    ensures Enabled(now, s, CleanDelete(k)) && Apply(now, s, CleanDelete(k)) == s.(storage := s.storage - {k})
  {
  }

  lemma CleanDropStep(now: int, s: TaskState, k: Key)
    requires s.lock.Cleaning? && k in s.intents && (Published(s, k) || k !in s.storage)
    ensures Enabled(now, s, CleanDrop(k))
    ensures Apply(now, s, CleanDrop(k)) == s.(lock := Cleaning(s.lock.dropped + {k}))
  {
  }

  lemma CleanCommitStep(now: int, s: TaskState)
    requires s.lock.Cleaning?
    ensures Enabled(now, s, CleanCommit)
    ensures Apply(now, s, CleanCommit) == s.(intents := s.intents - s.lock.dropped, lock := Free)
  {
  }

  lemma AbortStep(now: int, s: TaskState)
    requires !s.lock.Free?
    ensures Enabled(now, s, Abort) && Apply(now, s, Abort) == s.(lock := Free)
  {
  }

  lemma RecoverStep(now: int, s: TaskState, k: Key)
    requires s.lock.Publishing? && s.lock.phase.Uploading? && s.lock.created == {}
    requires k in s.intents && !Published(s, k) && k in s.storage && !Matches(s.storage[k], s.intents[k])
    ensures Enabled(now, s, Recover(k)) && Apply(now, s, Recover(k)) == s.(storage := s.storage - {k})
  {
  }

  lemma SaveStep(now: int, s: TaskState, k: Key, content: Bytes)
    requires s.lock.Publishing? && s.lock.phase.Uploading? && k in Keys(s.lock.output) && k !in s.storage
    ensures Enabled(now, s, Save(k, content))
    ensures Apply(now, s, Save(k, content)) ==
            s.(storage := s.storage[k := content], lock := s.lock.(created := s.lock.created + {k}))
  {
  }

  lemma UndoStep(now: int, s: TaskState, k: Key)
    requires s.lock.Publishing? && k in s.lock.created && k in s.storage
    ensures Enabled(now, s, Undo(k))
    ensures Apply(now, s, Undo(k)) ==
            s.(storage := s.storage - {k}, lock := s.lock.(created := s.lock.created - {k}, phase := Failing))
  {
  }

  lemma RecheckStep(now: int, s: TaskState)
    requires s.lock.Publishing? && s.lock.phase.Uploading?
    requires forall k :: k in Keys(s.lock.output) ==> k in s.storage && Matches(s.storage[k], Entries(s.lock.output)[k])
    requires WorkbookOk(s.storage, s.lock.output)
    requires Manifest.Valid(s.lock.output.manifest, s.storage[CanonicalKey(s.lock.output)])
    requires s.representation.Some? ==> s.representation.value.output == s.lock.output
    requires Passes(s.row, now, s.lock.lease, true)
    ensures Enabled(now, s, Recheck) && Apply(now, s, Recheck) == s.(lock := s.lock.(phase := Checked(now)))
  {
  }

  function StoredObjects(o: Output, storage: map<Key, Bytes>): map<Key, Bytes> {
    map k | k in Keys(o) && k in storage :: storage[k]
  }

  lemma CommitStep(now: int, s: TaskState, left: map<Key, Intent>)
    requires s.lock.Publishing? && s.lock.phase.Checked?
    requires left == s.intents - (s.intents.Keys - Unpublished(s))
    ensures Enabled(now, s, Commit)
    ensures Apply(now, s, Commit) ==
            s.(row := CompleteRow(s.row),
               representation := if s.representation.Some? then s.representation
                                 else Some(Representation(s.lock.output, StoredObjects(s.lock.output, s.storage))),
               registered := s.registered + Keys(s.lock.output),
               intents := left - Keys(s.lock.output),
               lock := Free)
  {
    hide Entries, Keys;
    assert left - Keys(s.lock.output) ==
           s.intents - Keys(s.lock.output) - (set k | k in s.intents && Published(s, k));
  }

  lemma BeginStep(now: int, s: TaskState, lease: Lease, o: Output)
    requires s.lock.Free? && (lease, o) in s.prepared && Passes(s.row, now, lease, true)
    requires s.row.status == Completed ==> s.representation.Some?
    ensures Enabled(now, s, Begin(lease, o))
    ensures Apply(now, s, Begin(lease, o)) == s.(lock := Publishing(lease, o, {}, Uploading))
  {
  }

  function PreviewKey(o: Output): Key
    requires ValidCommit(o) && o.previewSize != 0
  {
    Key(o.previewSha.value, PreviewObject)
  }

  function WorkbookKey(o: Output): Key
    requires ValidCommit(o) && o.workbookSize != 0
  {
    Key(o.workbookSha.value, WorkbookObject)
  }

  /** `fault` is where the storage backend breaks while saving, if it does. */
  type Fault = Option<nat>

  /** The part of the stream for object `k` arrives whole and agrees with what was
      declared, and so does what storage already holds under that key, if anything. */
  predicate PartArrives(storage: map<Key, Bytes>, k: Key, i: Intent, part: Bytes, fault: Fault) {
    && (k !in storage ==> fault.None?)
    && Matches(part, i)
    && (k in storage ==> Matches(storage[k], i))
  }

  /** The stream is exactly the declared parts, in order. */
  predicate StreamArrives(storage: map<Key, Bytes>, o: Output, body: Bytes, faults: (Fault, Fault, Fault))
    requires ValidCommit(o)
  {
    var c, p := o.canonicalSize, o.canonicalSize + o.previewSize;
    && |body| == p + o.workbookSize
    && PartArrives(storage, CanonicalKey(o), Intent(o.canonicalSize, o.canonicalSha), body[0..c], faults.0)
    && ExtrasArrive(storage, o, body, faults)
  }

  /** The preview and the workbook, if any. */
  predicate ExtrasArrive(storage: map<Key, Bytes>, o: Output, body: Bytes, faults: (Fault, Fault, Fault))
    requires ValidCommit(o) && |body| >= o.canonicalSize + o.previewSize + o.workbookSize
  {
    var c, p := o.canonicalSize, o.canonicalSize + o.previewSize;
    && (o.previewSize != 0 ==>
          PartArrives(storage, PreviewKey(o), Intent(o.previewSize, o.previewSha.value), body[c..p], faults.1))
    && (o.workbookSize != 0 ==>
          PartArrives(storage, WorkbookKey(o), Intent(o.workbookSize, o.workbookSha.value),
                      body[p..p + o.workbookSize], faults.2))
  }

  lemma ArrivedSize(storage: map<Key, Bytes>, o: Output, body: Bytes, faults: (Fault, Fault, Fault))
    requires ValidCommit(o) && StreamArrives(storage, o, body, faults)
    ensures |body| == o.canonicalSize + o.previewSize + o.workbookSize
  {
  }

  lemma KeysOf(o: Output)
    requires ValidCommit(o)
    ensures Keys(o) == {CanonicalKey(o)} + (if o.previewSize != 0 then {PreviewKey(o)} else {})
                       + (if o.workbookSize != 0 then {WorkbookKey(o)} else {})
    ensures Entries(o).Keys == Keys(o)
    ensures Entries(o)[CanonicalKey(o)] == Intent(o.canonicalSize, o.canonicalSha)
    ensures o.previewSize != 0 ==> Entries(o)[PreviewKey(o)] == Intent(o.previewSize, o.previewSha.value)
    ensures o.workbookSize != 0 ==> Entries(o)[WorkbookKey(o)] == Intent(o.workbookSize, o.workbookSha.value)
  {
    hide IsSha256;
  }

  /** The canonical text the call will find in storage. */
  function CanonicalBytes(storage: map<Key, Bytes>, o: Output, body: Bytes): Bytes
    requires 0 <= o.canonicalSize <= |body|
  {
    if CanonicalKey(o) in storage then storage[CanonicalKey(o)] else body[0..o.canonicalSize]
  }

  /** The workbook the call will find in storage, if there is one, passes its validation. */
  predicate WorkbookAccepted(storage: map<Key, Bytes>, o: Output, body: Bytes)
    requires ValidCommit(o) && |body| == o.canonicalSize + o.previewSize + o.workbookSize
  {
    o.workbookSize != 0 ==>
      WorkbookValid(if WorkbookKey(o) in storage then storage[WorkbookKey(o)]
                    else body[o.canonicalSize + o.previewSize..])
  }

  /** What is under `k` once `part` has been offered. */
  function AtKey(found: map<Key, Bytes>, k: Key, part: Bytes): Bytes {
    if k in found then found[k] else part
  }

  lemma AllStored(found: map<Key, Bytes>, storage: map<Key, Bytes>, o: Output, body: Bytes,
                    faults: (Fault, Fault, Fault))
    requires ValidCommit(o) && StreamArrives(found, o, body, faults)
    requires CanonicalKey(o) in storage
             && storage[CanonicalKey(o)] == AtKey(found, CanonicalKey(o), body[0..o.canonicalSize])
    requires o.previewSize != 0 ==>
               PreviewKey(o) in storage && storage[PreviewKey(o)] ==
                   AtKey(found, PreviewKey(o), body[o.canonicalSize..o.canonicalSize + o.previewSize])
    requires o.workbookSize != 0 ==>
               WorkbookKey(o) in storage && storage[WorkbookKey(o)] ==
                   AtKey(found, WorkbookKey(o), body[o.canonicalSize + o.previewSize..|body|])
    ensures forall k :: k in Keys(o) ==> k in storage && Matches(storage[k], Entries(o)[k])
    ensures WorkbookOk(storage, o) <==> WorkbookAccepted(found, o, body)
  {
    hide Entries, Keys, IsSha256, Matches;
    KeysOf(o);
    assert body[o.canonicalSize + o.previewSize..|body|] == body[o.canonicalSize + o.previewSize..];
  }

  /** Staged objects that nothing published refers to. */
  function Unpublished(s: TaskState): set<Key> {
    set k | k in s.intents && !Published(s, k)
  }

  lemma UnpublishedMeans(s: TaskState)
    ensures forall k :: k in Unpublished(s) <==> k in s.intents && !Published(s, k)
  {
  }

  lemma SameUnpublished(s: TaskState, s': TaskState)
    requires s'.intents == s.intents && s'.representation == s.representation && s'.registered == s.registered
    ensures Unpublished(s') == Unpublished(s)
  {
  }

  /** Those of them whose stored bytes are not what was declared. */
  function Torn(s: TaskState): set<Key> {
    set k | k in s.intents && !Published(s, k) && k in s.storage && !Matches(s.storage[k], s.intents[k])
  }

  /** Nothing stored has the digest of this part without being it. */
  predicate NoCollision(storage: map<Key, Bytes>, part: Bytes) {
    forall k :: k in storage && Sha256(storage[k]) == Sha256(part) ==> storage[k] == part
  }

  /** The call carries a whole output: it would be stored and pass validation if storage
      were empty, and no digest of its parts stands for anything else. */
  predicate WholeOutput(storage: map<Key, Bytes>, o: Output, body: Bytes)
    requires ValidCommit(o)
  {
    && StreamArrives(map[], o, body, (None, None, None)) && WorkbookAccepted(map[], o, body)
    && Manifest.Valid(o.manifest, body[0..o.canonicalSize])
    && NoCollision(storage, body[0..o.canonicalSize])
    && NoCollision(storage, body[o.canonicalSize..o.canonicalSize + o.previewSize])
    && NoCollision(storage, body[o.canonicalSize + o.previewSize..o.canonicalSize + o.previewSize + o.workbookSize])
  }

  /** The task has no result yet, or this one. */
  predicate Agrees(s: TaskState, o: Output) {
    s.representation.Some? ==> s.representation.value.output == o
  }

  /** What recovery leaves of an object under `k`: it is whole, or gone. */
  lemma PartRecovered(found: map<Key, Bytes>, k: Key, i: Intent, part: Bytes)
    requires Matches(part, i) && NoCollision(found, part) && (k in found ==> Matches(found[k], i))
    ensures PartArrives(found, k, i, part, None) && AtKey(found, k, part) == part
  {
  }

  /** Once every object of the output that is still in storage is whole, the stream of a whole
      output arrives, whatever was there before. */
  lemma OutputRecovered(found: map<Key, Bytes>, o: Output, body: Bytes)
    requires ValidCommit(o) && WholeOutput(found, o, body)
    requires forall k :: k in Keys(o) && k in found ==> Matches(found[k], Entries(o)[k])
    ensures StreamArrives(found, o, body, (None, None, None)) && WorkbookAccepted(found, o, body)
    ensures Manifest.Valid(o.manifest, CanonicalBytes(found, o, body))
  {
    hide Entries, Keys, IsSha256, Matches, NoCollision, Manifest.Valid, PartArrives;
    KeysOf(o);
    var c, p := o.canonicalSize, o.canonicalSize + o.previewSize;
    assert forall k: Key, i, part :: PartArrives(map[], k, i, part, None) ==> Matches(part, i) by {
      ArrivesMatching();
    }
    PartRecovered(found, CanonicalKey(o), Intent(o.canonicalSize, o.canonicalSha), body[0..c]);
    if o.previewSize != 0 {
      PartRecovered(found, PreviewKey(o), Intent(o.previewSize, o.previewSha.value), body[c..p]);
    }
    if o.workbookSize != 0 {
      var part := body[p..p + o.workbookSize];
      PartRecovered(found, WorkbookKey(o), Intent(o.workbookSize, o.workbookSha.value), part);
      assert part == body[p..];
    }
  }

  lemma ArrivesMatching()
    ensures forall k: Key, i, part :: PartArrives(map[], k, i, part, None) ==> Matches(part, i)
  {
  }

  datatype StoreResult = Stored(created: bool, next: nat) | StoreFailed

  class MaterialTask {
    var row: Row
    var intents: map<Key, Intent>
    var representation: Option<Representation>
    var registered: set<Key>
    var storage: map<Key, Bytes>
    ghost var prepared: set<(Lease, Output)>
    ghost var lock: Lock

    ghost const bornAt: int
    ghost var steps: seq<Step>

    ghost function View(): TaskState
      reads this
    {
      TaskState(row, intents, representation, registered, storage, prepared, lock)
    }

    ghost predicate Valid(now: int)
      reads this
    {
      && Feasible(bornAt, NewTask(), steps)
      && View() == Outcome(bornAt, NewTask(), steps)
      && bornAt <= Moment(bornAt, steps) <= now
      && Inv(now, View())
    }

    constructor (now: int)
      ensures Valid(now) && View() == NewTask()
    {
      row, intents, representation, registered, storage := NewRow(), map[], None, {}, map[];
      prepared, lock := {}, Free;
      bornAt, steps := now, [];
    }

    /** The change just made is action `a` of the protocol. */
    ghost method Record(now: int, before: TaskState, a: Action)
      requires Feasible(bornAt, NewTask(), steps) && before == Outcome(bornAt, NewTask(), steps)
      requires bornAt <= Moment(bornAt, steps) <= now && Inv(now, before)
      requires Enabled(now, before, a) && View() == Apply(now, before, a)
      modifies this`steps
      ensures Valid(now) && steps == old(steps) + [Step(now, a)]
    {
      hide Inv, Enabled, Apply;
      ThenStep(bornAt, NewTask(), steps, Step(now, a));
      StepKeepsInv(now, before, a);
      steps := steps + [Step(now, a)];
    }

    /** `prepare_staging`: one intent per object, or none at all. */
    method PrepareStaging(now: int, lease: Lease, o: Output) returns (ok: bool)
      requires Valid(now) && lock.Free?
      requires ValidCommit(o) && o.representationId == lease.representationId
      modifies this
      ensures Valid(now) && lock.Free?
      ensures ok <==> Enabled(now, old(View()), Prepare(lease, o))
      ensures View() == if ok then Apply(now, old(View()), Prepare(lease, o)) else old(View())
      ensures old(steps) <= steps
    {
      hide Inv, ValidCommit, Outcome, Feasible, Entries;
      if !Passes(row, now, lease, true) {
        return false;
      }
      ghost var before := View();
      var staged;
      ok, staged := StageAll(intents, o);
      if !ok {
        return;
      }
      intents, prepared := staged, prepared + {(lease, o)};
      Record(now, before, Prepare(lease, o));
    }

    /** `recover_staging` inside a publication: forgets intents of published objects
        (in the open transaction) and removes staged objects that are not whole. */
    method RecoverForPublication(now: int) returns (left: map<Key, Intent>)
      requires Valid(now) && lock.Publishing? && lock.phase.Uploading? && lock.created == {}
      modifies this`storage, this`steps
      ensures Valid(now) && old(steps) <= steps
      ensures left == intents - (intents.Keys - Unpublished(View()))
      ensures storage == old(storage) - Torn(old(View()))
      ensures forall k :: k in intents && !Published(View(), k) && k in storage ==> Matches(storage[k], intents[k])
      ensures forall k :: k in storage ==> k in old(storage) && storage[k] == old(storage)[k]
      ensures forall k :: k in old(storage) && (Published(View(), k) || k !in intents) ==> k in storage
      ensures forall k :: k in old(storage) && k in intents && Matches(old(storage)[k], intents[k]) ==> k in storage
    {
      hide Inv, Outcome, Feasible, Enabled, Apply, Keys, Matches, NewTask, Moment;
      ghost var torn, removed, kept := Torn(View()), {}, Unpublished(View());
      left := intents;
      var todo := intents.Keys;
      while todo != {}
        invariant todo <= intents.Keys && removed == torn - todo
        invariant Valid(now) && old(steps) <= steps
        invariant left == intents - (intents.Keys - todo - kept)
        invariant storage == old(storage) - removed
      {
        var k :| k in todo;
        todo := todo - {k};
        if (representation.Some? && k in Keys(representation.value.output)) || k in registered {
          left := left - {k};
        } else if k in storage && !Matches(storage[k], intents[k]) {
          ghost var before := View();
          RecoverStep(now, before, k);
          removed := removed + {k};
          storage := storage - {k};
          Record(now, before, Recover(k));
        }
      }
      assert kept == Unpublished(View());
    }

    /** `recover_staging(discard=True)`: storage first, then the intent. */
    method DiscardStaged(now: int)
      requires Valid(now) && lock == Cleaning({})
      modifies this`storage, this`lock, this`steps
      ensures Valid(now) && lock == Cleaning(intents.Keys) && old(steps) <= steps
      ensures storage == old(storage) - Unpublished(View())
    {
      hide Inv, Outcome, Feasible, Enabled, Apply, Keys, NewTask, Moment;
      var todo := intents.Keys;
      ghost var doomed := Unpublished(View());
      while todo != {}
        invariant todo <= intents.Keys && lock == Cleaning(intents.Keys - todo)
        invariant Valid(now) && old(steps) <= steps
        invariant storage == old(storage) - (doomed - todo)
      {
        var k :| k in todo;
        todo := todo - {k};
        DiscardOne(now, k);
        assert lock == Cleaning(intents.Keys - todo);
      }
      assert doomed == Unpublished(View());
    }

    /** One intent of a cleanup pass: the object goes first, then the intent. */
    method DiscardOne(now: int, k: Key)
      requires Valid(now) && lock.Cleaning? && k in intents
      modifies this`storage, this`lock, this`steps
      ensures Valid(now) && lock == Cleaning(old(lock.dropped) + {k}) && old(steps) <= steps
      ensures storage == if k in old(Unpublished(View())) then old(storage) - {k} else old(storage)
    {
      hide Inv, Outcome, Feasible, Enabled, Apply, Keys, NewTask, Moment;
      var isPublished := (representation.Some? && k in Keys(representation.value.output)) || k in registered;
      if !isPublished && k in storage {
        ghost var before := View();
        CleanDeleteStep(now, before, k);
        storage := storage - {k};
        Record(now, before, CleanDelete(k));
      }
      ghost var staged := View();
      CleanDropStep(now, staged, k);
      lock := Cleaning(lock.dropped + {k});
      Record(now, staged, CleanDrop(k));
    }

    /** The cleanup pass over a task that no live lease protects. When its
        transaction fails to commit, the objects are gone and the intents stay. */
    method CleanupExpired(now: int, commits: bool) returns (ran: bool)
      requires Valid(now) && lock.Free?
      modifies this
      ensures Valid(now) && lock.Free? && old(steps) <= steps
      ensures ran <==> Enabled(now, old(View()), CleanBegin)
      ensures row == old(row) && representation == old(representation) && registered == old(registered)
      ensures prepared == old(prepared)
      ensures intents == if ran && commits then map[] else old(intents)
      ensures storage == if ran then old(storage) - Unpublished(old(View())) else old(storage)
      ensures ran <==> old(row).platform && old(intents) != map[] && Unclaimed(old(row), now)
      ensures forall k :: k in storage ==> k in old(storage) && storage[k] == old(storage)[k]
      ensures forall k :: k in old(storage) && (Published(old(View()), k) || k !in old(intents)) ==> k in storage
      ensures forall k :: ran && k in old(intents) && k in storage ==> Published(old(View()), k)
    {
      hide Inv, Outcome, Feasible, Keys, Apply, Enabled, NewTask, Moment, Unpublished;
      CleanBeginIff(now, View());
      UnclaimedIff(row, now);
      UnpublishedMeans(View());
      if !(row.platform && intents != map[]) || (row.status == Running && Unexpired(row, now)) {
        return false;
      }
      ghost var before := View();
      CleanBeginStep(now, before);
      lock := Cleaning({});
      Record(now, before, CleanBegin);
      DiscardStaged(now);
      SameUnpublished(old(View()), View());
      before := View();
      CleanCommitStep(now, before);
      AbortStep(now, before);
      lock := Free;
      if commits {
        intents := map[];
        assert intents == before.intents - before.lock.dropped;
        Record(now, before, CleanCommit);
      } else {
        Record(now, before, Abort);
      }
      ran := true;
    }

    /** `store_stream`: an existing object must already be the declared one; a new one
        is kept only if the whole part arrived intact. A save that breaks off midway
        leaves what it wrote. */
    method StoreStream(now: int, k: Key, i: Intent, body: Bytes, from: nat, fault: Fault) returns (r: StoreResult)
      requires Valid(now) && lock.Publishing? && lock.phase.Uploading?
      requires k in Entries(lock.output) && Entries(lock.output)[k] == i && i.size >= 0 && from <= |body|
      modifies this`storage, this`lock, this`steps
      ensures Valid(now) && old(steps) <= steps
      ensures lock.Publishing? && lock.lease == old(lock.lease) && lock.output == old(lock.output)
      ensures r.Stored? <==>
                from + i.size <= |body| && PartArrives(old(storage), k, i, body[from..from + i.size], fault)
      ensures r.Stored? ==>
        && lock.phase.Uploading? && r.next == from + i.size
        && r.created == (k !in old(storage))
        && lock.created == old(lock.created) + (if r.created then {k} else {})
        && storage == if r.created then old(storage)[k := body[from..from + i.size]] else old(storage)
      ensures r.StoreFailed? ==>
        && storage - {k} == old(storage) - {k} && (k in old(storage) ==> storage == old(storage))
        && (fault.None? && from + i.size <= |body| ==> storage == old(storage))
        && old(lock.created) - {k} <= lock.created
    {
      hide Inv, Outcome, Feasible, Enabled, Apply, Entries, NewTask, Moment;
      ghost var before := View();
      if k in storage {
        if !Matches(storage[k], i) || |body| < from + i.size || Sha256(body[from..from + i.size]) != i.sha {
          return StoreFailed;
        }
        return Stored(false, from + i.size);
      }
      var taken := if |body| < from + i.size then body[from..] else body[from..from + i.size];
      if fault.Some? && fault.value < |taken| {
        taken := taken[..fault.value];
      }
      SaveStep(now, before, k, taken);
      storage := storage[k := taken];
      lock := lock.(created := lock.created + {k});
      Record(now, before, Save(k, taken));
      if fault.Some? || |body| < from + i.size {
        return StoreFailed;
      }
      if Sha256(taken) != i.sha {
        Withdraw(now, k);
        assert storage == old(storage);
        return StoreFailed;
      }
      r := Stored(true, from + i.size);
    }

    /** Delete an object this call has written. */
    method Withdraw(now: int, k: Key)
      requires Valid(now) && lock.Publishing? && k in lock.created && k in storage
      modifies this`storage, this`lock, this`steps
      ensures Valid(now) && old(steps) <= steps && storage == old(storage) - {k}
      ensures lock == old(lock).(created := old(lock.created) - {k}, phase := Failing)
    {
      hide Inv, Outcome, Feasible, Enabled, Apply, NewTask, Moment;
      ghost var before := View();
      UndoStep(now, before, k);
      storage := storage - {k};
      lock := lock.(created := lock.created - {k}, phase := Failing);
      Record(now, before, Undo(k));
    }

    /** `created` lists the new objects a call is answerable for: without them,
        storage is as the call found it. */
    ghost predicate Answerable(created: set<Key>, found: map<Key, Bytes>)
      reads this
    {
      lock.Publishing? && created <= lock.created && created <= storage.Keys && storage - created == found
    }

    /** Store one part and answer for it if it is new. */
    method StorePart(now: int, k: Key, i: Intent, body: Bytes, from: nat, fault: Fault,
                     created: set<Key>, ghost found: map<Key, Bytes>)
      returns (ok: bool, next: nat, created': set<Key>)
      requires Valid(now) && lock.Publishing? && lock.phase.Uploading? && Answerable(created, found)
      requires k in Entries(lock.output) && Entries(lock.output)[k] == i && i.size >= 0 && from <= |body|
      requires k !in created
      modifies this`storage, this`lock, this`steps
      ensures Valid(now) && old(steps) <= steps
      ensures lock.Publishing? && lock.lease == old(lock.lease) && lock.output == old(lock.output)
      ensures ok <==> from + i.size <= |body| && PartArrives(found, k, i, body[from..from + i.size], fault)
      ensures ok ==>
        && lock.phase.Uploading? && Answerable(created', found) && next == from + i.size <= |body|
        && k in storage && storage[k] == (if k in found then found[k] else body[from..next])
        && created' == created + (if k in found then {} else {k})
        && (forall j :: j in old(storage) ==> j in storage && storage[j] == old(storage)[j])
      ensures !ok ==>
        && created' == created && created <= lock.created && created <= storage.Keys
        && (fault.None? && from + i.size <= |body| ==> Answerable(created, found))
    {
      hide Inv, Outcome, Feasible, Enabled, Apply, NewTask, Moment, Entries, Keys, Matches;
      var r := StoreStream(now, k, i, body, from, fault);
      if r.StoreFailed? {
        assert forall j :: j in created ==> j in storage - {k};
        return false, from, created;
      }
      created' := if r.created then created + {k} else created;
      assert storage - created' == found;
      ok, next := true, r.next;
    }

    /** The uploads of the preview and the workbook. */
    method StoreExtras(now: int, o: Output, body: Bytes, faults: (Fault, Fault, Fault),
                       created: set<Key>, ghost found: map<Key, Bytes>)
      returns (ok: bool, next: nat, created': set<Key>)
      requires Valid(now) && lock.Publishing? && lock.phase.Uploading? && lock.output == o
      requires ValidCommit(o) && o.canonicalSize <= |body| && created <= {CanonicalKey(o)} && Answerable(created, found)
      modifies this`storage, this`lock, this`steps
      ensures Valid(now) && old(steps) <= steps
      ensures lock.Publishing? && lock.lease == old(lock.lease) && lock.output == o
      ensures ok <==> |body| >= o.canonicalSize + o.previewSize + o.workbookSize && ExtrasArrive(found, o, body, faults)
      ensures created' <= lock.created && created' <= storage.Keys
      ensures ok ==>
        && lock.phase.Uploading? && Answerable(created', found)
        && next == o.canonicalSize + o.previewSize + o.workbookSize
        && (forall j :: j in old(storage) ==> j in storage && storage[j] == old(storage)[j])
        && (o.previewSize != 0 ==>
              PreviewKey(o) in storage && storage[PreviewKey(o)] ==
                  AtKey(found, PreviewKey(o), body[o.canonicalSize..o.canonicalSize + o.previewSize]))
        && (o.workbookSize != 0 ==>
              WorkbookKey(o) in storage && storage[WorkbookKey(o)] ==
                  AtKey(found, WorkbookKey(o), body[o.canonicalSize + o.previewSize..next]))
      ensures !ok && faults == (None, None, None) && |body| >= o.canonicalSize + o.previewSize + o.workbookSize ==>
                Answerable(created', found)
    {
      hide Inv, Outcome, Feasible, Enabled, Apply, NewTask, Moment, IsSha256, Matches, Answerable, PartArrives, Entries,
           Keys;
      KeysOf(o);
      StillCreated(created, found);
      next, created' := o.canonicalSize, created;
      if o.previewSize != 0 {
        ok, next, created' := StorePart(now, PreviewKey(o), Intent(o.previewSize, o.previewSha.value),
                                        body, next, faults.1, created', found);
        if !ok { return; }
        StillCreated(created', found);
      }
      if o.workbookSize != 0 {
        ok, next, created' := StorePart(now, WorkbookKey(o), Intent(o.workbookSize, o.workbookSha.value),
                                        body, next, faults.2, created', found);
        if !ok { return; }
        StillCreated(created', found);
      }
      ok := true;
    }

    /** The three uploads of `commit_bound_material` and its check for trailing bytes. */
    method StoreParts(now: int, o: Output, body: Bytes, faults: (Fault, Fault, Fault))
      returns (ok: bool, created: set<Key>)
      requires Valid(now) && lock.Publishing? && lock.phase.Uploading? && lock.output == o && lock.created == {}
      requires ValidCommit(o)
      modifies this`storage, this`lock, this`steps
      ensures Valid(now) && old(steps) <= steps
      ensures lock.Publishing? && lock.lease == old(lock.lease) && lock.output == o
      ensures ok <==> StreamArrives(old(storage), o, body, faults)
      ensures created <= lock.created && created <= storage.Keys
      ensures ok ==>
        && lock.phase.Uploading? && Answerable(created, old(storage))
        && (forall k :: k in Keys(o) ==> k in storage && Matches(storage[k], Entries(o)[k]))
        && storage[CanonicalKey(o)] == CanonicalBytes(old(storage), o, body)
        && (WorkbookOk(storage, o) <==> WorkbookAccepted(old(storage), o, body))
      ensures !ok && faults == (None, None, None) && |body| >= o.canonicalSize + o.previewSize + o.workbookSize ==>
                Answerable(created, old(storage))
    {
      hide Inv, Outcome, Feasible, Enabled, Apply, NewTask, Moment, IsSha256, Matches, Answerable, PartArrives,
           Entries, Keys,
           ExtrasArrive, WorkbookOk, WorkbookAccepted;
      KeysOf(o);
      ghost var found := storage;
      NothingCreated(found);
      var next;
      ok, next, created := StorePart(now, CanonicalKey(o), Intent(o.canonicalSize, o.canonicalSha),
                                     body, 0, faults.0, {}, found);
      if !ok { return; }
      ok, next, created := StoreExtras(now, o, body, faults, created, found);
      if !ok { return; }
      ok := next == |body|;
      if ok { AllStored(found, storage, o, body, faults); }
    }

    lemma NothingCreated(found: map<Key, Bytes>)
      requires lock.Publishing? && storage == found
      ensures Answerable({}, found)
    {
    }

    lemma StillCreated(created: set<Key>, found: map<Key, Bytes>)
      requires Answerable(created, found)
      ensures lock.Publishing? && created <= lock.created && created <= storage.Keys
    {
    }

    /** The exception path: remove what this call created, then the transaction rolls
        back and the lock is free. */
    method RollBack(now: int, created: set<Key>)
      requires Valid(now) && lock.Publishing? && created <= lock.created && created <= storage.Keys
      modifies this`storage, this`lock, this`steps
      ensures Valid(now) && old(steps) <= steps && lock.Free?
      ensures storage == old(storage) - created
    {
      hide Inv, Outcome, Feasible, Enabled, Apply, NewTask, Moment;
      var todo := created;
      while todo != {}
        invariant todo <= created && lock.Publishing? && todo <= lock.created && todo <= storage.Keys
        invariant storage == old(storage) - (created - todo)
        invariant Valid(now) && old(steps) <= steps
      {
        var k :| k in todo;
        todo := todo - {k};
        Withdraw(now, k);
      }
      ghost var before := View();
      AbortStep(now, before);
      lock := Free;
      Record(now, before, Abort);
    }

    /** Everything the publication transaction writes, once the second check passed.
        `commits` says whether the database accepts the transaction. */
    method Publish(now: int, o: Output, left: map<Key, Intent>, commits: bool)
      requires Valid(now) && lock.Publishing? && lock.phase.Uploading? && lock.output == o
      requires forall k :: k in Keys(o) ==> k in storage && Matches(storage[k], Entries(o)[k])
      requires WorkbookOk(storage, o) && Manifest.Valid(o.manifest, storage[CanonicalKey(o)])
      requires representation.Some? ==> representation.value.output == o
      requires Passes(row, now, lock.lease, true)
      requires left == intents - (intents.Keys - Unpublished(View()))
      modifies this
      ensures Valid(now) && old(steps) <= steps && lock.Free?
      ensures storage == old(storage) && prepared == old(prepared)
      ensures commits ==>
        && row == CompleteRow(old(row)) && intents == left - Keys(o)
        && representation.Some? && representation.value.output == o
        && registered == old(registered) + Keys(o)
      ensures !commits ==>
        row == old(row) && intents == old(intents) && representation == old(representation)
        && registered == old(registered)
    {
      hide Inv, Outcome, Feasible, Enabled, Apply, NewTask, Moment, Entries, Matches, Manifest.Valid, Keys, Passes,
           StoredObjects;
      ghost var before := View();
      RecheckStep(now, before);
      lock := lock.(phase := Checked(now));
      Record(now, before, Recheck);
      before := View();
      assert Unpublished(before) == Unpublished(old(View()));
      if !commits {
        AbortStep(now, before);
        lock := Free;
        Record(now, before, Abort);
        return;
      }
      CommitStep(now, before, left);
      row := CompleteRow(row);
      if representation.None? {
        representation := Some(Representation(o, StoredObjects(o, storage)));
      }
      registered := registered + Keys(o);
      intents := left - Keys(o);
      lock := Free;
      Record(now, before, Commit);
    }

    /** `commit_bound_material` with its publication callback: all or nothing. */
    method CommitBoundMaterial(now: int, later: int, lease: Lease, o: Output, left: map<Key, Intent>, body: Bytes,
                               faults: (Fault, Fault, Fault), commits: bool)
      returns (ok: bool)
      requires Valid(now) && now <= later
      requires lock.Publishing? && lock.phase.Uploading? && lock.lease == lease
      requires lock.output == o && lock.created == {} && ValidCommit(o)
      requires left == intents - (intents.Keys - Unpublished(View()))
      modifies this
      ensures Valid(later) && old(steps) <= steps && lock.Free? && prepared == old(prepared)
      ensures ok <==>
        && StreamArrives(old(storage), o, body, faults)
        && WorkbookAccepted(old(storage), o, body)
        && Manifest.Valid(o.manifest, CanonicalBytes(old(storage), o, body))
        && (old(representation).Some? ==> old(representation).value.output == o)
        && Passes(old(row), later, lease, true)
        && commits
      ensures ok ==>
        && row == CompleteRow(old(row)) && intents == left - Keys(o)
        && representation.Some? && representation.value.output == o
        && registered == old(registered) + Keys(o)
      ensures !ok ==>
        row == old(row) && intents == old(intents) && representation == old(representation)
        && registered == old(registered)
      ensures !ok && commits && faults == (None, None, None)
              && |body| >= o.canonicalSize + o.previewSize + o.workbookSize ==>
                storage == old(storage)
    {
      hide Inv, Outcome, Feasible, Enabled, Apply, NewTask, Moment, Entries, Matches, Manifest.Valid, Keys,
           StreamArrives, IsSha256, WorkbookOk, WorkbookAccepted;
      var created;
      ok, created := StoreParts(now, o, body, faults);
      TickKeepsInv(now, later, View());
      if !ok {
        RollBack(later, created);
        return;
      }
      if ok { ArrivedSize(old(storage), o, body, faults); }
      if !WorkbookOk(storage, o) {
        RollBack(later, created);
        return false;
      }
      ok := Manifest.ValidateManifest(o.manifest, storage[CanonicalKey(o)]);
      if !ok || (representation.Some? && representation.value.output != o) || !Passes(row, later, lease, true) {
        RollBack(later, created);
        return false;
      }
      Publish(later, o, left, commits);
      ok := commits;
    }

    /** `commit_processing_output`. The call is accepted exactly when the lease passes
        both checks, nothing staged contradicts the output, the task's source still
        resolves, and the stream carries exactly the declared objects with a manifest
        that describes them. In particular a call with a whole output is accepted whatever
        earlier calls have left under its staged keys, on a task without a result and as a
        replay of its result. */
    method CommitProcessingOutput(now: int, later: int, lease: Lease, o: Output, body: Bytes,
                                  faults: (Fault, Fault, Fault), resolves: bool, commits: bool)
      returns (ok: bool)
      requires Valid(now) && now <= later && lock.Free?
      modifies this
      ensures Valid(later) && old(steps) <= steps && lock.Free?
      ensures ok ==>
        && row == CompleteRow(old(row)) && row.status == Completed
        && representation.Some? && representation.value.output == o
        && intents.Keys !! Keys(o)
      ensures !ok ==> row == old(row) && representation == old(representation) && registered == old(registered)
      ensures ok <==>
        && ValidCommit(o) && o.representationId == lease.representationId
        && Enabled(now, old(View()), Prepare(lease, o))
        && Passes(old(row), later, lease, true)
        && (old(representation).Some? ==> old(representation).value.output == o)
        && (var s := Apply(now, old(View()), Prepare(lease, o));
            var found := s.storage - Torn(s);
            && StreamArrives(found, o, body, faults) && WorkbookAccepted(found, o, body)
            && Manifest.Valid(o.manifest, CanonicalBytes(found, o, body)))
        && resolves && commits
      ensures Enabled(now, old(View()), Prepare(lease, o)) && resolves && commits && faults == (None, None, None) ==>
        (WholeOutput(old(storage), o, body) && Passes(old(row), later, lease, true) && Agrees(old(View()), o) ==> ok)
    {
      hide Inv, Outcome, Feasible, NewTask, Moment, Entries, Matches, Manifest.Valid, Keys, StreamArrives, IsSha256,
           Enabled, Apply, WorkbookAccepted, WholeOutput, CanonicalBytes;
      PrepareNeeds(now, View(), lease, o);
      if !ValidCommit(o) || o.representationId != lease.representationId {
        TickKeepsInv(now, later, View());
        return false;
      }
      ok := PrepareStaging(now, lease, o);
      if !ok {
        TickKeepsInv(now, later, View());
        return;
      }
      PreparedState(now, old(View()), lease, o);
      CompletedHasResult(now, View());
      ghost var before := View();
      BeginStep(now, before, lease, o);
      lock := Publishing(lease, o, {}, Uploading);
      Record(now, before, Begin(lease, o));
      if !resolves {
        ghost var begun := View();
        AbortStep(now, begun);
        lock := Free;
        Record(now, begun, Abort);
        TickKeepsInv(now, later, View());
        return false;
      }
      assert Torn(View()) == Torn(before);
      var left := RecoverForPublication(now);
      if Agrees(old(View()), o) && WholeOutput(old(storage), o, body) {
        RecoveredHere(now, old(View()), lease, o, body);
      }
      assert Unpublished(View()) == Unpublished(before);
      ok := CommitBoundMaterial(now, later, lease, o, left, body, faults, commits);
    }

    /** After recovery, whatever is left of the output's own objects is whole, and so the
        output of this call can be stored. */
    lemma RecoveredHere(now: int, s: TaskState, lease: Lease, o: Output, body: Bytes)
      requires Inv(now, s) && Agrees(s, o) && Enabled(now, s, Prepare(lease, o))
      requires forall k :: k in s.storage && Published(s, k) ==> k in storage
      requires ValidCommit(o) && WholeOutput(s.storage, o, body)
      requires var s' := Apply(now, s, Prepare(lease, o));
               && View().intents == s'.intents && View().representation == s'.representation
               && View().registered == s'.registered
      requires forall k :: k in storage ==> k in s.storage && storage[k] == s.storage[k]
      requires forall k :: k in intents && !Published(View(), k) && k in storage ==> Matches(storage[k], intents[k])
      ensures StreamArrives(storage, o, body, (None, None, None)) && WorkbookAccepted(storage, o, body)
      ensures Manifest.Valid(o.manifest, CanonicalBytes(storage, o, body))
    {
      hide Manifest.Valid, StreamArrives, WorkbookAccepted, CanonicalBytes, IsSha256, Matches, LockInv;
      assert WholeOutput(storage, o, body);
      forall k | k in Keys(o) && k in storage ensures Matches(storage[k], Entries(o)[k]) {
        assert k in intents && intents[k] == Entries(o)[k];
        if Published(View(), k) { assert k in Keys(s.representation.value.output); }
      }
      OutputRecovered(storage, o, body);
    }

    lemma PrepareNeeds(now: int, s: TaskState, lease: Lease, o: Output)
      ensures Enabled(now, s, Prepare(lease, o)) ==> ValidCommit(o) && o.representationId == lease.representationId
    {
    }

    /** Preparing is possible under a passing lease whenever nothing else is staged under the
        output's keys, and stays possible for the same output. */
    lemma PrepareAgain(now: int, s: TaskState, lease: Lease, o: Output)
      requires ValidCommit(o) && o.representationId == lease.representationId && s.lock.Free?
      requires Passes(s.row, now, lease, true)
      ensures s.intents.Keys !! Keys(o) ==> Enabled(now, s, Prepare(lease, o))
      ensures Enabled(now, s, Prepare(lease, o)) ==>
                Enabled(now, Apply(now, s, Prepare(lease, o)), Prepare(lease, o))
    {
      hide IsSha256;
    }

    lemma CompletedHasResult(now: int, s: TaskState)
      requires Inv(now, s)
      ensures s.row.status == Completed ==> s.representation.Some?
    {
    }

    lemma PreparedState(now: int, s: TaskState, lease: Lease, o: Output)
      requires Enabled(now, s, Prepare(lease, o))
      ensures Passes(s.row, now, lease, true)
      ensures var s' := Apply(now, s, Prepare(lease, o));
              && (lease, o) in s'.prepared && s'.row == s.row && s'.representation == s.representation
              && s'.storage == s.storage && s'.registered == s.registered && s'.lock == s.lock
    {
    }
  }
}
