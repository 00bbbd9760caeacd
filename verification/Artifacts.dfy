/** Publishing files of an agent run: calls that are retried, crash between their steps
    and race with other calls naming the same file. Rows change in transactions; stored
    objects do not. */
module Artifacts {
  import opened Utf8
  import opened Wrappers
  import opened Hashing

  /** NFC normalisation and case folding of a file name, an arbitrary function. */
  const NameKey: string -> string

  datatype Meta = Meta(publicationId: string, agentRun: string, authorizationDigest: Digest, toolCall: string,
                       filename: string, size: nat, sha: Digest)

  /** Artifact and library keys contain the identifier they are made for. */
  datatype Key = ArtifactKey(id: string) | LibraryKey(libraryId: string)

  datatype Artifact = Artifact(agentRun: string, displayName: string, contentType: string,
                               size: nat, sha: Digest, published: bool)

  datatype Publication = Publication(agentRun: string, authorizationDigest: Digest, toolCall: string,
                                     filename: string, size: nat, sha: Digest, published: bool, artifact: string)

  /** A provenance link and the library object it belongs to. */
  datatype Link = Link(artifact: string, libraryId: string, size: nat, sha: Digest)

  datatype Response = Response(publicationId: string, artifact: string, filename: string, contentType: string,
                               size: nat, sha: Digest)

  /** Where a call stands between its steps. */
  datatype Call =
    | Prepared(meta: Meta)
    | Stored(meta: Meta)        // the object was seen to hold the declared bytes
    | Failing(meta: Meta)       // an exception is on its way out
    | Condemned(meta: Meta)     // the object was seen to hold other bytes

  datatype World = World(artifacts: map<string, Artifact>, publications: map<string, Publication>, links: seq<Link>,
                         storage: map<Key, Bytes>, calls: map<nat, Call>, responses: seq<Response>)

  datatype Action =
    | Prepare(call: nat, request: Meta, id: string, contentType: string)
    | Store(call: nat, body: Bytes)
    | StoreFails(call: nat)
    | Judge(call: nat)
    | Delete(call: nat)
    | Copy(call: nat, libraryId: string)
    | Commit(call: nat, libraryId: string)
    | Reply(call: nat)
    | Crash(call: nat)

  // ---------------------------------------------------------------- the transactions

  predicate SameBytes(a: Artifact, m: Meta) {
    a.size == m.size && a.sha == m.sha
  }

  /** `_require_idempotent_publication` */
  predicate SameRequest(p: Publication, m: Meta) {
    && p.agentRun == m.agentRun && p.authorizationDigest == m.authorizationDigest && p.toolCall == m.toolCall
    && p.filename == m.filename && p.size == m.size && p.sha == m.sha
  }

  /** A retry is accepted exactly when it repeats the whole request that made the publication. */
  lemma SameRequestIff(p: Publication, m: Meta)
    ensures SameRequest(p, m) <==> p == NewPublication(m, p.artifact, p.published)
  {
  }

  /** The artifact a new publication of this file joins. */
  predicate Names(w: World, id: string, m: Meta) {
    id in w.artifacts && w.artifacts[id].agentRun == m.agentRun
    && NameKey(w.artifacts[id].displayName) == NameKey(m.filename)
  }

  predicate Good(content: Bytes, size: nat, sha: Digest) {
    |content| == size && Sha256(content) == sha
  }

  predicate Holds(w: World, key: Key, size: nat, sha: Digest) {
    key in w.storage && Good(w.storage[key], size, sha)
  }

  function NewArtifact(m: Meta, contentType: string): Artifact {
    Artifact(m.agentRun, m.filename, contentType, m.size, m.sha, false)
  }

  function NewPublication(m: Meta, id: string, published: bool): Publication {
    Publication(m.agentRun, m.authorizationDigest, m.toolCall, m.filename, m.size, m.sha, published, id)
  }

  function ResponseOf(id: string, p: Publication, a: Artifact): Response {
    Response(id, p.artifact, p.filename, a.contentType, p.size, p.sha)
  }

  predicate Linked(w: World, id: string) {
    exists i :: 0 <= i < |w.links| && w.links[i].artifact == id
  }

  predicate Enabled(w: World, a: Action) {
    match a
    case Prepare(call, m, id, _) =>
      && call !in w.calls
      && (if m.publicationId in w.publications then SameRequest(w.publications[m.publicationId], m)
          else if id in w.artifacts then Names(w, id, m) && SameBytes(w.artifacts[id], m)
          else (forall j :: j in w.artifacts ==> !Names(w, j, m)) && ArtifactKey(id) !in w.storage)
    case Store(call, body) => call in w.calls && w.calls[call].Prepared? && |body| == w.calls[call].meta.size
    case StoreFails(call) => call in w.calls && w.calls[call].Prepared?
    case Judge(call) => call in w.calls && w.calls[call].Failing?
    case Delete(call) => call in w.calls && w.calls[call].Condemned?
    case Copy(call, libraryId) =>
      && call in w.calls && w.calls[call].Stored? && LibraryKey(libraryId) !in w.storage
      && var m := w.calls[call].meta;
         m.publicationId in w.publications && ArtifactKey(w.publications[m.publicationId].artifact) in w.storage
    case Commit(call, libraryId) =>
      && call in w.calls && w.calls[call].Stored?
      && var m := w.calls[call].meta;
      && m.publicationId in w.publications && SameRequest(w.publications[m.publicationId], m)
      && var id := w.publications[m.publicationId].artifact;
      && id in w.artifacts && SameBytes(w.artifacts[id], m)
      && (w.publications[m.publicationId].published ==>
            Holds(w, ArtifactKey(id), w.artifacts[id].size, w.artifacts[id].sha))
      && (!w.publications[m.publicationId].published && !w.artifacts[id].published && !Linked(w, id) ==>
            ArtifactKey(id) in w.storage && LibraryKey(libraryId) !in w.storage)
    case Reply(call) =>
      && call in w.calls && w.calls[call].Prepared?
      && var m := w.calls[call].meta;
      && m.publicationId in w.publications && w.publications[m.publicationId].published
      && var p := w.publications[m.publicationId];
      && p.artifact in w.artifacts && Holds(w, ArtifactKey(p.artifact), p.size, p.sha)
    case Crash(call) => call in w.calls
  }

  function ObjectKey(w: World, m: Meta): Key
    requires m.publicationId in w.publications
  {
    ArtifactKey(w.publications[m.publicationId].artifact)
  }

  /** `_prepare_publication`, when it does not refuse. */
  function Preparing(w: World, m: Meta, id: string, contentType: string): World {
    if m.publicationId in w.publications then w
    else
      var artifacts := if id in w.artifacts then w.artifacts else w.artifacts[id := NewArtifact(m, contentType)];
      w.(artifacts := artifacts,
         publications := w.publications[m.publicationId := NewPublication(m, id, artifacts[id].published)])
  }

  /** The closing transaction. */
  function Committing(w: World, m: Meta, libraryId: string): World
    requires m.publicationId in w.publications && w.publications[m.publicationId].artifact in w.artifacts
  {
    var p := w.publications[m.publicationId];
    var a := w.artifacts[p.artifact];
    if p.published then w
    else if a.published then w.(publications := w.publications[m.publicationId := p.(published := true)])
    else
      var copied := if Linked(w, p.artifact) || ArtifactKey(p.artifact) !in w.storage then w
                    else w.(storage := w.storage[LibraryKey(libraryId) := w.storage[ArtifactKey(p.artifact)]],
                            links := w.links + [Link(p.artifact, libraryId, a.size, a.sha)]);
      copied.(artifacts := w.artifacts[p.artifact := a.(published := true)],
              publications := w.publications[m.publicationId := p.(published := true)])
  }

  function Apply(w: World, a: Action): World
    requires Enabled(w, a)
  {
    match a
    case Prepare(call, m, id, contentType) =>
      Preparing(w, m, id, contentType).(calls := w.calls[call := Prepared(m)])
    case Store(call, body) =>
      var m := w.calls[call].meta;
      if m.publicationId !in w.publications then w.(calls := w.calls - {call})
      else
        var key := ObjectKey(w, m);
        var storage := if key in w.storage then w.storage else w.storage[key := body];
        w.(storage := storage,
           calls := w.calls[call := if Good(storage[key], m.size, m.sha) then Stored(m) else Failing(m)])
    case StoreFails(call) => w.(calls := w.calls[call := Failing(w.calls[call].meta)])
    case Judge(call) =>
      var m := w.calls[call].meta;
      if m.publicationId in w.publications && ObjectKey(w, m) in w.storage
         && !Good(w.storage[ObjectKey(w, m)], m.size, m.sha)
      then w.(calls := w.calls[call := Condemned(m)]) else w.(calls := w.calls - {call})
    case Delete(call) =>
      var m := w.calls[call].meta;
      w.(storage := if m.publicationId in w.publications then w.storage - {ObjectKey(w, m)} else w.storage,
         calls := w.calls - {call})
    case Copy(call, libraryId) =>
      var m := w.calls[call].meta;
      w.(storage := w.storage[LibraryKey(libraryId) := w.storage[ObjectKey(w, m)]], calls := w.calls - {call})
    case Commit(call, libraryId) =>
      var m := w.calls[call].meta;
      var w' := Committing(w, m, libraryId);
      var p := w'.publications[m.publicationId];
      w'.(calls := w.calls - {call},
          responses := w.responses + [ResponseOf(m.publicationId, p, w'.artifacts[p.artifact])])
    case Reply(call) =>
      var m := w.calls[call].meta;
      var p := w.publications[m.publicationId];
      w.(calls := w.calls - {call},
         responses := w.responses + [ResponseOf(m.publicationId, p, w.artifacts[p.artifact])])
    case Crash(call) => w.(calls := w.calls - {call})
  }

  // ---------------------------------------------------------------- what every step keeps

  /** Every publication belongs to an artifact of its run with its bytes and, up to case,
      its name. */
  predicate Bound(w: World) {
    forall p :: p in w.publications ==>
      var r := w.publications[p];
      && r.artifact in w.artifacts
      && var a := w.artifacts[r.artifact];
      && a.agentRun == r.agentRun && a.size == r.size && a.sha == r.sha && NameKey(a.displayName) == NameKey(r.filename)
      && (r.published ==> a.published)
  }

  predicate SameName(a: Artifact, b: Artifact) {
    a.agentRun == b.agentRun && NameKey(a.displayName) == NameKey(b.displayName)
  }

  /** One artifact per run and file name. */
  predicate OnePerName(w: World) {
    forall i, j :: i in w.artifacts && j in w.artifacts && SameName(w.artifacts[i], w.artifacts[j]) ==> i == j
  }

  /** A published artifact has exactly one link, any other none. */
  predicate OneLink(w: World) {
    && (forall i :: 0 <= i < |w.links| ==>
          w.links[i].artifact in w.artifacts && w.artifacts[w.links[i].artifact].published)
    && (forall i, j :: 0 <= i < j < |w.links| ==> w.links[i].artifact != w.links[j].artifact)
    && (forall id :: id in w.artifacts && w.artifacts[id].published ==> Linked(w, id))
  }

  /** Every response repeats the rows as they still are. */
  predicate Answered(w: World) {
    forall i :: 0 <= i < |w.responses| ==>
      var r := w.responses[i];
      && r.publicationId in w.publications
      && var p := w.publications[r.publicationId];
      && p.published && p.artifact in w.artifacts && r == ResponseOf(r.publicationId, p, w.artifacts[p.artifact])
  }

  /** A call in progress still agrees with its publication. */
  predicate Current(w: World) {
    forall c :: c in w.calls ==>
      var m := w.calls[c].meta;
      m.publicationId in w.publications && SameRequest(w.publications[m.publicationId], m)
  }

  predicate Inv(w: World) {
    Bound(w) && OnePerName(w) && OneLink(w) && Answered(w) && Current(w)
  }

  /** Rows only grow, and what identifies a publication or an artifact never changes. */
  predicate Grows(w: World, w': World) {
    && (forall p :: p in w.publications ==>
          && p in w'.publications
          && w'.publications[p].(published := false) == w.publications[p].(published := false)
          && (w.publications[p].published ==> w'.publications[p].published))
    && (forall id :: id in w.artifacts ==>
          && id in w'.artifacts
          && w'.artifacts[id].(published := false) == w.artifacts[id].(published := false)
          && (w.artifacts[id].published ==> w'.artifacts[id].published))
  }

  lemma GrowthKeepsAnswers(w: World, w': World)
    requires Answered(w) && Grows(w, w') && w'.responses == w.responses
    ensures Answered(w')
  {
  }

  lemma GrowthKeepsCalls(w: World, w': World)
    requires Current(w) && Grows(w, w')
             && (forall c :: c in w'.calls ==> c in w.calls && w'.calls[c].meta == w.calls[c].meta)
    ensures Current(w')
  {
  }

  /** What lets a publication be created for artifact `id`. */
  predicate MayJoin(w: World, m: Meta, id: string) {
    if id in w.artifacts then Names(w, id, m) && SameBytes(w.artifacts[id], m)
    else forall j :: j in w.artifacts ==> !Names(w, j, m)
  }

  lemma PreparingKeepsNames(w: World, m: Meta, id: string, contentType: string)
    requires Bound(w) && OnePerName(w) && (m.publicationId in w.publications || MayJoin(w, m, id))
    ensures var w' := Preparing(w, m, id, contentType); Bound(w') && OnePerName(w') && Grows(w, w')
  {
    hide Bound, OnePerName, Grows, MayJoin, Preparing;
    PreparingGrows(w, m, id, contentType);
    if m.publicationId in w.publications {
      assert Preparing(w, m, id, contentType) == w by { PreparingAgain(w, m, id, contentType); }
    } else {
      PreparingKeepsBound(w, m, id, contentType);
      PreparingKeepsOnePerName(w, m, id, contentType);
    }
  }

  lemma PreparingAgain(w: World, m: Meta, id: string, contentType: string)
    requires m.publicationId in w.publications
    ensures Preparing(w, m, id, contentType) == w
  {
  }

  lemma PreparingGrows(w: World, m: Meta, id: string, contentType: string)
    ensures Grows(w, Preparing(w, m, id, contentType))
  {
  }

  lemma PreparingKeepsBound(w: World, m: Meta, id: string, contentType: string)
    requires Bound(w) && m.publicationId !in w.publications && MayJoin(w, m, id)
    ensures Bound(Preparing(w, m, id, contentType))
  {
  }

  lemma PreparingKeepsOnePerName(w: World, m: Meta, id: string, contentType: string)
    requires OnePerName(w) && m.publicationId !in w.publications && MayJoin(w, m, id)
    ensures OnePerName(Preparing(w, m, id, contentType))
  {
    assert forall j :: id !in w.artifacts && j in w.artifacts ==> !Names(w, j, m);
  }

  lemma PreparingKeepsLinks(w: World, m: Meta, id: string, contentType: string)
    requires OneLink(w)
    ensures OneLink(Preparing(w, m, id, contentType))
  {
    var w' := Preparing(w, m, id, contentType);
    forall j | j in w'.artifacts && w'.artifacts[j].published ensures Linked(w', j) {
      assert Linked(w, j);
    }
  }

  lemma PrepareKeepsInv(w: World, m: Meta, id: string, contentType: string, call: nat)
    requires Inv(w) && Enabled(w, Prepare(call, m, id, contentType))
    ensures var w' := Apply(w, Prepare(call, m, id, contentType)); Inv(w') && Grows(w, w')
  {
    hide Preparing, Bound, OnePerName, OneLink, Answered, Grows;
    var w1 := Preparing(w, m, id, contentType);
    PreparingKeepsNames(w, m, id, contentType);
    PreparingKeepsLinks(w, m, id, contentType);
    PreparingKeepsRest(w, m, id, contentType);
    var w' := w1.(calls := w.calls[call := Prepared(m)]);
    OnlyCalls(w1, w');
  }

  lemma PreparingKeepsRest(w: World, m: Meta, id: string, contentType: string)
    requires Answered(w) && Current(w) && Bound(w) && (m.publicationId in w.publications || MayJoin(w, m, id))
    requires m.publicationId in w.publications ==> SameRequest(w.publications[m.publicationId], m)
    ensures var w' := Preparing(w, m, id, contentType);
            && Answered(w') && Current(w') && w'.calls == w.calls
            && m.publicationId in w'.publications && SameRequest(w'.publications[m.publicationId], m)
  {
  }

  /** Changes to stored objects and calls alone. */
  lemma OnlyCalls(w: World, w': World)
    requires w' == w.(calls := w'.calls, storage := w'.storage)
    ensures Bound(w) ==> Bound(w')
    ensures OnePerName(w) ==> OnePerName(w')
    ensures OneLink(w) ==> OneLink(w')
    ensures Answered(w) ==> Answered(w')
    ensures forall v :: Grows(v, w) ==> Grows(v, w')
  {
    assert forall id :: Linked(w, id) <==> Linked(w', id);
  }

  lemma CommittingKeepsNames(w: World, m: Meta, libraryId: string)
    requires Bound(w) && OnePerName(w) && m.publicationId in w.publications
    ensures var w' := Committing(w, m, libraryId);
            && Bound(w') && OnePerName(w') && Grows(w, w')
            && m.publicationId in w'.publications && w'.publications[m.publicationId].published
  {
    hide Bound, OnePerName, Grows;
    BoundArtifact(w, m.publicationId);
    CommittingGrows(w, m, libraryId);
    SameRowsSameNames(w, Committing(w, m, libraryId));
    CommittingKeepsBound(w, m, libraryId);
  }

  lemma SameRowsSameNames(w: World, w': World)
    requires OnePerName(w) && Grows(w, w') && w'.artifacts.Keys == w.artifacts.Keys
    ensures OnePerName(w')
  {
    forall i, j | i in w'.artifacts && j in w'.artifacts && SameName(w'.artifacts[i], w'.artifacts[j]) ensures i == j {
      assert SameName(w.artifacts[i], w.artifacts[j]);
    }
  }

  lemma CommittingKeepsBound(w: World, m: Meta, libraryId: string)
    requires Bound(w) && m.publicationId in w.publications
    ensures Bound(Committing(w, m, libraryId))
  {
  }

  lemma CommittingKeepsLinks(w: World, m: Meta, libraryId: string)
    requires Bound(w) && OneLink(w) && m.publicationId in w.publications
    requires var id := w.publications[m.publicationId].artifact;
             w.artifacts[id].published || Linked(w, id) || ArtifactKey(id) in w.storage
    ensures OneLink(Committing(w, m, libraryId))
  {
    var w' := Committing(w, m, libraryId);
    var id := w.publications[m.publicationId].artifact;
    if w'.links != w.links { assert w'.links[|w.links|].artifact == id; }
    forall j | j in w'.artifacts && w'.artifacts[j].published ensures Linked(w', j) {
      if Linked(w, j) {
        var i :| 0 <= i < |w.links| && w.links[i].artifact == j;
        assert w'.links[i] == w.links[i];
      }
    }
  }

  lemma CommittingKeepsRest(w: World, m: Meta, libraryId: string)
    requires Bound(w) && Answered(w) && Current(w) && m.publicationId in w.publications
    ensures var w' := Committing(w, m, libraryId);
            Answered(w') && Current(w') && w'.calls == w.calls && w'.responses == w.responses
  {
    hide Bound, Grows, Answered, Current;
    BoundArtifact(w, m.publicationId);
    CommittingGrows(w, m, libraryId);
    GrowthKeepsAnswers(w, Committing(w, m, libraryId));
    GrowthKeepsCalls(w, Committing(w, m, libraryId));
  }

  lemma BoundArtifact(w: World, p: string)
    requires Bound(w) && p in w.publications
    ensures w.publications[p].artifact in w.artifacts
    ensures w.publications[p].published ==> w.artifacts[w.publications[p].artifact].published
    ensures w.artifacts[w.publications[p].artifact].size == w.publications[p].size
    ensures w.artifacts[w.publications[p].artifact].sha == w.publications[p].sha
  {
  }

  lemma CommittingGrows(w: World, m: Meta, libraryId: string)
    requires m.publicationId in w.publications && w.publications[m.publicationId].artifact in w.artifacts
    ensures Grows(w, Committing(w, m, libraryId))
  {
  }

  lemma OneMoreAnswer(w: World, p: string, calls: map<nat, Call>)
    requires Answered(w) && p in w.publications && w.publications[p].published
             && w.publications[p].artifact in w.artifacts
    ensures Answered(w.(calls := calls,
                        responses := w.responses +
                                     [ResponseOf(p, w.publications[p], w.artifacts[w.publications[p].artifact])]))
  {
  }

  /** Changes to calls and responses alone. */
  lemma OnlyAnswers(w: World, w': World)
    requires w' == w.(calls := w'.calls, responses := w'.responses)
    ensures Bound(w) ==> Bound(w')
    ensures OnePerName(w) ==> OnePerName(w')
    ensures OneLink(w) ==> OneLink(w')
    ensures forall v :: Grows(v, w) ==> Grows(v, w')
  {
    assert forall id :: Linked(w, id) <==> Linked(w', id);
  }

  lemma FewerCalls(w: World, w': World)
    requires Current(w) && w'.publications == w.publications
    requires forall c :: c in w'.calls ==> c in w.calls && w'.calls[c].meta == w.calls[c].meta
    ensures Current(w')
  {
  }

  lemma GrowsRefl(w: World)
    ensures Grows(w, w)
  {
  }

  lemma CommitKeepsInv(w: World, call: nat, libraryId: string)
    requires Inv(w) && Enabled(w, Commit(call, libraryId))
    ensures var w' := Apply(w, Commit(call, libraryId)); Inv(w') && Grows(w, w')
  {
    hide Bound, OnePerName, OneLink, Answered, Grows, Committing, Current;
    var m := w.calls[call].meta;
    BoundArtifact(w, m.publicationId);
    CommittingKeepsNames(w, m, libraryId);
    CommittingKeepsLinks(w, m, libraryId);
    CommittingKeepsRest(w, m, libraryId);
    var w1, w' := Committing(w, m, libraryId), Apply(w, Commit(call, libraryId));
    BoundArtifact(w1, m.publicationId);
    OneMoreAnswer(w1, m.publicationId, w.calls - {call});
    OnlyAnswers(w1, w');
    FewerCalls(w1, w');
  }

  lemma ReplyKeepsInv(w: World, call: nat)
    requires Inv(w) && Enabled(w, Reply(call))
    ensures var w' := Apply(w, Reply(call)); Inv(w') && Grows(w, w')
  {
    hide Bound, OnePerName, OneLink, Answered, Grows, Current;
    var m, w' := w.calls[call].meta, Apply(w, Reply(call));
    OneMoreAnswer(w, m.publicationId, w.calls - {call});
    OnlyAnswers(w, w');
    FewerCalls(w, w');
    GrowsRefl(w);
  }

  /** Every step of every call keeps the rows consistent, whatever happens to stored
      objects. */
  lemma StepKeepsInv(w: World, a: Action)
    requires Inv(w) && Enabled(w, a)
    ensures Inv(Apply(w, a)) && Grows(w, Apply(w, a))
  {
    hide Inv, Grows, Enabled, Apply;
    match a {
      case Prepare(call, m, id, contentType) => PrepareKeepsInv(w, m, id, contentType, call);
      case Commit(call, libraryId) => CommitKeepsInv(w, call, libraryId);
      case Reply(call) => ReplyKeepsInv(w, call);
      case _ => OtherStepKeepsInv(w, a);
    }
  }

  lemma OtherStepKeepsInv(w: World, a: Action)
    requires Inv(w) && Enabled(w, a) && !a.Prepare? && !a.Commit? && !a.Reply?
    ensures Inv(Apply(w, a)) && Grows(w, Apply(w, a))
  {
    hide Bound, OnePerName, OneLink, Answered, Grows, Current, Committing, Preparing;
    var w' := Apply(w, a);
    OnlyCalls(w, w');
    GrowsRefl(w);
    FewerCalls(w, w');
  }

  // ---------------------------------------------------------------- whole runs

  function Empty(): World {
    World(map[], map[], [], map[], map[], [])
  }

  predicate Run(w: World, steps: seq<Action>)
    decreases |steps|
  {
    steps == [] || (Enabled(w, steps[0]) && Run(Apply(w, steps[0]), steps[1..]))
  }

  function End(w: World, steps: seq<Action>): World
    requires Run(w, steps)
    decreases |steps|
  {
    if steps == [] then w else End(Apply(w, steps[0]), steps[1..])
  }

  lemma GrowsTrans(u: World, v: World, w: World)
    requires Grows(u, v) && Grows(v, w)
    ensures Grows(u, w)
  {
  }

  /** Over every run of any number of calls the rows stay consistent, and what
      identifies a publication or an artifact never changes. */
  lemma {:induction false} EveryRunKeepsInv(w: World, steps: seq<Action>)
    requires Inv(w) && Run(w, steps)
    ensures Inv(End(w, steps)) && Grows(w, End(w, steps))
    decreases |steps|
  {
    hide Inv, Grows, Enabled, Apply;
    if steps == [] {
      GrowsRefl(w);
    } else {
      StepKeepsInv(w, steps[0]);
      EveryRunKeepsInv(Apply(w, steps[0]), steps[1..]);
      GrowsTrans(w, Apply(w, steps[0]), End(w, steps));
    }
  }

  lemma EmptyInv()
    ensures Inv(Empty())
  {
  }

  /** All successful responses for one publication are equal. */
  lemma ResponsesAgree(steps: seq<Action>, i: nat, j: nat)
    requires Run(Empty(), steps) && i < |End(Empty(), steps).responses| && j < |End(Empty(), steps).responses|
    requires End(Empty(), steps).responses[i].publicationId == End(Empty(), steps).responses[j].publicationId
    ensures End(Empty(), steps).responses[i] == End(Empty(), steps).responses[j]
  {
    hide Run, End, Bound, OnePerName, OneLink, Current;
    EmptyInv();
    EveryRunKeepsInv(Empty(), steps);
  }

  /** Two publications of one run whose file names differ at most in case share one
      artifact, and so its bytes. */
  lemma OneArtifactPerName(steps: seq<Action>, p: string, q: string)
    requires Run(Empty(), steps) && p in End(Empty(), steps).publications && q in End(Empty(), steps).publications
    requires var w := End(Empty(), steps);
             && w.publications[p].agentRun == w.publications[q].agentRun
             && NameKey(w.publications[p].filename) == NameKey(w.publications[q].filename)
    ensures var w := End(Empty(), steps);
            && w.publications[p].artifact == w.publications[q].artifact
            && w.publications[p].size == w.publications[q].size && w.publications[p].sha == w.publications[q].sha
  {
    hide Run, End, OneLink, Current, Answered;
    EmptyInv();
    EveryRunKeepsInv(Empty(), steps);
  }

  // ---------------------------------------------------------------- stored bytes

  /** Published artifacts and their library copies hold their bytes, and so does the
      object of every call that has seen it hold them. */
  predicate Intact(w: World) {
    && (forall id :: id in w.artifacts && w.artifacts[id].published ==>
          Holds(w, ArtifactKey(id), w.artifacts[id].size, w.artifacts[id].sha))
    && (forall i :: 0 <= i < |w.links| ==> Holds(w, LibraryKey(w.links[i].libraryId), w.links[i].size, w.links[i].sha))
    && (forall c :: c in w.calls && w.calls[c].Stored? ==>
          var m := w.calls[c].meta;
          m.publicationId in w.publications && Holds(w, ObjectKey(w, m), m.size, m.sha))
  }

  /** The object a condemned call is about to delete is still the one it looked at, or
      another that is no better. */
  predicate StillBad(w: World, call: nat)
    requires call in w.calls
  {
    var m := w.calls[call].meta;
    m.publicationId in w.publications ==> !Holds(w, ObjectKey(w, m), m.size, m.sha)
  }

  predicate Careful(w: World, a: Action) {
    a.Delete? && a.call in w.calls ==> StillBad(w, a.call)
  }

  lemma CarefulStepKeepsIntact(w: World, a: Action)
    requires Inv(w) && Intact(w) && Enabled(w, a) && Careful(w, a)
    ensures Intact(Apply(w, a))
  {
    hide Bound, OnePerName, OneLink, Answered, Intact;
    match a {
      case Prepare(call, m, id, contentType) => PrepareKeepsIntact(w, call, m, id, contentType);
      case Store(call, body) => StoreKeepsIntact(w, call, body);
      case Commit(call, libraryId) => CommitKeepsIntact(w, call, libraryId);
      case Delete(call) => DeleteKeepsIntactIff(w, call);
      case _ => OtherStepKeepsIntact(w, a);
    }
  }

  lemma PrepareKeepsIntact(w: World, call: nat, m: Meta, id: string, contentType: string)
    requires Inv(w) && Intact(w) && Enabled(w, Prepare(call, m, id, contentType))
    ensures Intact(Apply(w, Prepare(call, m, id, contentType)))
  {
    hide Bound, OnePerName, OneLink, Answered;
  }

  lemma StoreKeepsIntact(w: World, call: nat, body: Bytes)
    requires Inv(w) && Intact(w) && Enabled(w, Store(call, body))
    ensures Intact(Apply(w, Store(call, body)))
  {
    hide Bound, OnePerName, OneLink, Answered;
  }

  lemma CommitKeepsIntact(w: World, call: nat, libraryId: string)
    requires Inv(w) && Intact(w) && Enabled(w, Commit(call, libraryId))
    ensures Intact(Apply(w, Commit(call, libraryId)))
  {
    hide Bound, OnePerName, OneLink, Answered;
  }

  lemma OtherStepKeepsIntact(w: World, a: Action)
    requires Inv(w) && Intact(w) && Enabled(w, a) && !a.Prepare? && !a.Store? && !a.Commit? && !a.Delete?
    ensures Intact(Apply(w, a))
  {
    hide Bound, OnePerName, OneLink, Answered;
  }

  /** Some published artifact or verified call relies on the object of this call. */
  predicate ReliedOn(w: World, call: nat)
    requires call in w.calls && w.calls[call].meta.publicationId in w.publications
  {
    var id := w.publications[w.calls[call].meta.publicationId].artifact;
    || (id in w.artifacts && w.artifacts[id].published)
    || exists c :: c in w.calls && w.calls[c].Stored? && w.calls[c].meta.publicationId in w.publications
                   && w.publications[w.calls[c].meta.publicationId].artifact == id
  }

  /** A delete is harmless exactly when the object is still bad or nothing relies on it. */
  lemma DeleteKeepsIntactIff(w: World, call: nat)
    requires Inv(w) && Intact(w) && Enabled(w, Delete(call))
    ensures Intact(Apply(w, Delete(call))) <==> StillBad(w, call) || !ReliedOn(w, call)
  {
    hide OnePerName, OneLink, Answered;
    var m, w' := w.calls[call].meta, Apply(w, Delete(call));
    var key := ObjectKey(w, m);
    assert key !in w'.storage;
    if ReliedOn(w, call) {
      var id := key.id;
      if !w.artifacts[id].published {
        var c :| c in w.calls && w.calls[c].Stored? && w.calls[c].meta.publicationId in w.publications
                 && w.publications[w.calls[c].meta.publicationId].artifact == id;
        assert c in w'.calls && !Holds(w', ObjectKey(w', w.calls[c].meta), w.calls[c].meta.size, w.calls[c].meta.sha);
        assert Holds(w, key, w.calls[c].meta.size, w.calls[c].meta.sha);
      } else {
        assert !Holds(w', key, w.artifacts[id].size, w.artifacts[id].sha);
      }
    }
  }

  /** Every delete of the run finds its object still bad. */
  predicate CarefulRun(w: World, steps: seq<Action>)
    requires Run(w, steps)
    decreases |steps|
  {
    steps == [] || (Careful(w, steps[0]) && CarefulRun(Apply(w, steps[0]), steps[1..]))
  }

  /** In such runs published artifacts and library copies never lose their bytes. */
  lemma {:induction false} EveryCarefulRunIsIntact(w: World, steps: seq<Action>)
    requires Inv(w) && Intact(w) && Run(w, steps) && CarefulRun(w, steps)
    ensures Intact(End(w, steps))
    decreases |steps|
  {
    hide Inv, Intact, Enabled, Apply, Careful;
    if steps != [] {
      StepKeepsInv(w, steps[0]);
      CarefulStepKeepsIntact(w, steps[0]);
      EveryCarefulRunIsIntact(Apply(w, steps[0]), steps[1..]);
    }
  }

  function Request(size: nat, sha: Digest): Meta {
    Meta("pub", "run", "digest", "tool", "file", size, sha)
  }

  lemma {:induction false} Then(w: World, steps: seq<Action>, a: Action)
    requires Run(w, steps) && Enabled(End(w, steps), a)
    ensures Run(w, steps + [a]) && End(w, steps + [a]) == Apply(End(w, steps), a)
    decreases |steps|
  {
    hide Enabled, Apply;
    if steps == [] {
      assert ([] + [a])[1..] == [];
    } else {
      assert (steps + [a])[1..] == steps[1..] + [a];
      Then(Apply(w, steps[0]), steps[1..], a);
    }
  }

  /** One artifact and one publication of it. */
  function Rows(m: Meta, published: bool, links: seq<Link>, storage: map<Key, Bytes>, calls: map<nat, Call>,
                responses: seq<Response>): World
  {
    World(map["a" := Artifact(m.agentRun, m.filename, "t", m.size, m.sha, published)],
          map[m.publicationId := NewPublication(m, "a", published)], links, storage, calls, responses)
  }

  /** The first call stores a damaged body and finds it bad. */
  lemma DamagedBody(m: Meta, bad: Bytes) returns (steps: seq<Action>)
    requires |bad| == m.size && Sha256(bad) != m.sha
    ensures Run(Empty(), steps)
    ensures End(Empty(), steps) == Rows(m, false, [], map[ArtifactKey("a") := bad], map[0 := Condemned(m)], [])
  {
    hide Run, End;
    steps := [];
    assert Run(Empty(), []) && End(Empty(), []) == Empty() by { NoSteps(); }
    Then(Empty(), steps, Prepare(0, m, "a", "t"));
    steps := steps + [Prepare(0, m, "a", "t")];
    Then(Empty(), steps, Store(0, bad));
    steps := steps + [Store(0, bad)];
    Then(Empty(), steps, Judge(0));
    steps := steps + [Judge(0)];
  }

  lemma NoSteps()
    ensures Run(Empty(), []) && End(Empty(), []) == Empty()
  {
  }

  /** A second call finds the damaged object, fails and clears it away. */
  lemma ClearedAway(m: Meta, bad: Bytes, before: seq<Action>) returns (steps: seq<Action>)
    requires |bad| == m.size && Sha256(bad) != m.sha && Run(Empty(), before)
    requires End(Empty(), before) == Rows(m, false, [], map[ArtifactKey("a") := bad], map[0 := Condemned(m)], [])
    ensures Run(Empty(), steps) && End(Empty(), steps) == Rows(m, false, [], map[], map[0 := Condemned(m)], [])
  {
    hide Run, End;
    Then(Empty(), before, Prepare(1, m, "a", "t"));
    steps := before + [Prepare(1, m, "a", "t")];
    Then(Empty(), steps, StoreFails(1));
    steps := steps + [StoreFails(1)];
    Then(Empty(), steps, Judge(1));
    steps := steps + [Judge(1)];
    Then(Empty(), steps, Delete(1));
    steps := steps + [Delete(1)];
    assert map[0 := Condemned(m)][1 := Condemned(m)] - {1} == map[0 := Condemned(m)];
    assert map[ArtifactKey("a") := bad] - {ArtifactKey("a")} == map[];
  }

  /** A third call stores the right body and publishes it. */
  lemma Republished(m: Meta, good: Bytes, before: seq<Action>) returns (steps: seq<Action>)
    requires |good| == m.size && Sha256(good) == m.sha && Run(Empty(), before)
    requires End(Empty(), before) == Rows(m, false, [], map[], map[0 := Condemned(m)], [])
    ensures Run(Empty(), steps)
    ensures var w := End(Empty(), steps);
            && w.artifacts == Rows(m, true, [], map[], map[], []).artifacts
            && w.publications == Rows(m, true, [], map[], map[], []).publications
            && w.calls == map[0 := Condemned(m)]
  {
    hide Run, End;
    Then(Empty(), before, Prepare(2, m, "a", "t"));
    steps := before + [Prepare(2, m, "a", "t")];
    Then(Empty(), steps, Store(2, good));
    steps := steps + [Store(2, good)];
    Then(Empty(), steps, Commit(2, "l"));
    steps := steps + [Commit(2, "l")];
    assert map[0 := Condemned(m)][2 := Stored(m)] - {2} == map[0 := Condemned(m)];
  }

  /** Without that care they can: a call that stored a damaged body and found it bad is
      delayed, a retry replaces the object and publishes it, and then the first call
      deletes what it takes to be the damaged object. */
  lemma LateDeleteLosesBytes(bad: Bytes, good: Bytes) returns (steps: seq<Action>)
    requires |bad| == |good| && Sha256(bad) != Sha256(good)
    ensures Run(Empty(), steps) && !Intact(End(Empty(), steps))
  {
    hide Run, End, Rows;
    var m := Request(|good|, Sha256(good));
    var s1 := DamagedBody(m, bad);
    var s2 := ClearedAway(m, bad, s1);
    var s3 := Republished(m, good, s2);
    DeletedPublished(m, End(Empty(), s3));
    Then(Empty(), s3, Delete(0));
    steps := s3 + [Delete(0)];
  }

  lemma DeletedPublished(m: Meta, w: World)
    requires w.artifacts == Rows(m, true, [], map[], map[], []).artifacts
    requires w.publications == Rows(m, true, [], map[], map[], []).publications
    requires w.calls == map[0 := Condemned(m)]
    ensures Enabled(w, Delete(0)) && !Intact(Apply(w, Delete(0)))
  {
    var w' := Apply(w, Delete(0));
    assert "a" in w'.artifacts && w'.artifacts["a"].published && ArtifactKey("a") !in w'.storage;
  }

  // ---------------------------------------------------------------- the code

  const MAX_ARTIFACT_BYTES := 64 * 1024 * 1024
  const READ_BYTES := 64 * 1024

  /** The tables and the object store. `calls` and `responses` are bookkeeping. */
  class ArtifactStore {
    var artifacts: map<string, Artifact>
    var publications: map<string, Publication>
    var links: seq<Link>
    var storage: map<Key, Bytes>
    ghost var calls: map<nat, Call>
    ghost var responses: seq<Response>

    ghost function View(): World
      reads this
    {
      World(artifacts, publications, links, storage, calls, responses)
    }

    /** `verify_stored_object`: read in blocks, giving up beyond the size limit. */
    method VerifyStoredObject(key: Key, size: nat, sha: Digest) returns (ok: bool)
      ensures ok <==> Holds(View(), key, size, sha) && size <= MAX_ARTIFACT_BYTES
    {
      if key !in storage { return false; }
      var content := storage[key];
      var read := 0;
      while read < |content|
        invariant 0 <= read <= |content| && (read > 0 ==> read <= MAX_ARTIFACT_BYTES)
        decreases |content| - read
      {
        read := if |content| - read < READ_BYTES then |content| else read + READ_BYTES;
        if read > MAX_ARTIFACT_BYTES { return false; }
      }
      ok := |content| == size && Sha256(content) == sha;
    }

    /** The first artifact of the run whose name matches, in any order of the table. */
    method FindArtifact(m: Meta) returns (found: Option<string>)
      ensures found.Some? ==> Names(View(), found.value, m)
      ensures found.None? ==> forall j :: j in artifacts ==> !Names(View(), j, m)
    {
      var left := artifacts.Keys;
      found := None;
      while left != {}
        invariant left <= artifacts.Keys
        invariant forall j :: j in artifacts.Keys - left ==> !Names(View(), j, m)
        decreases left
      {
        var id :| id in left;
        left := left - {id};
        if artifacts[id].agentRun == m.agentRun && NameKey(artifacts[id].displayName) == NameKey(m.filename) {
          return Some(id);
        }
      }
    }

    /** `_prepare_publication`. */
    method PreparePublication(call: nat, m: Meta, freshId: string, contentType: string)
      returns (ok: bool, ghost id: string)
      requires call !in calls && freshId !in artifacts && ArtifactKey(freshId) !in storage
      modifies this
      ensures ok ==> Enabled(old(View()), Prepare(call, m, id, contentType))
                     && View() == Apply(old(View()), Prepare(call, m, id, contentType))
      ensures !ok ==> View() == old(View())
      ensures ok <==> if m.publicationId in old(publications) then SameRequest(old(publications)[m.publicationId], m)
                      else if id in old(artifacts) then SameBytes(old(artifacts)[id], m) else true
      ensures m.publicationId !in old(publications) && id in old(artifacts) ==> Names(old(View()), id, m)
    {
      id := freshId;
      if m.publicationId in publications {
        var p := publications[m.publicationId];
        ok := p.agentRun == m.agentRun && p.authorizationDigest == m.authorizationDigest && p.toolCall == m.toolCall
              && p.filename == m.filename && p.size == m.size && p.sha == m.sha;
      } else {
        var found := FindArtifact(m);
        var target := freshId;
        if found.Some? {
          target := found.value;
          id := target;
          if artifacts[target].size != m.size || artifacts[target].sha != m.sha { return false, id; }
        } else {
          artifacts := artifacts[target := Artifact(m.agentRun, m.filename, contentType, m.size, m.sha, false)];
        }
        publications := publications[m.publicationId :=
          Publication(m.agentRun, m.authorizationDigest, m.toolCall, m.filename, m.size, m.sha,
                      artifacts[target].published, target)];
        ok := true;
      }
      if ok { calls := calls[call := Prepared(m)]; }
    }

    /** Store the body unless the object exists; `body` is absent when saving fails. */
    method StoreObject(call: nat, m: Meta, body: Option<Bytes>) returns (ok: bool)
      requires call in calls && calls[call] == Prepared(m) && m.publicationId in publications
      requires m.size <= MAX_ARTIFACT_BYTES && (body.Some? ==> |body.value| == m.size)
      modifies this`storage, this`calls
      ensures var a := if body.Some? then Store(call, body.value) else StoreFails(call);
              Enabled(old(View()), a) && View() == Apply(old(View()), a)
      ensures ok <==> calls[call].Stored?
    {
      if body.None? {
        calls := calls[call := Failing(m)];
        return false;
      }
      var key := ArtifactKey(publications[m.publicationId].artifact);
      if key !in storage {
        storage := storage[key := body.value];
      }
      ok := VerifyStoredObject(key, m.size, m.sha);
      calls := calls[call := if ok then Stored(m) else Failing(m)];
    }

    /** `_ingest_artifact_library_copy`; an existing link is left alone. */
    method IngestLibraryCopy(id: string, libraryId: string) returns (ok: bool)
      requires id in artifacts && LibraryKey(libraryId) !in storage
      modifies this`storage, this`links
      ensures ok <==> Linked(old(View()), id) || ArtifactKey(id) in old(storage)
      ensures !ok || Linked(old(View()), id) ==> storage == old(storage) && links == old(links)
      ensures ok && !Linked(old(View()), id) ==>
                && storage == old(storage)[LibraryKey(libraryId) := old(storage)[ArtifactKey(id)]]
                && links == old(links) + [Link(id, libraryId, artifacts[id].size, artifacts[id].sha)]
    {
      if exists i :: 0 <= i < |links| && links[i].artifact == id { return true; }
      if ArtifactKey(id) !in storage { return false; }
      storage := storage[LibraryKey(libraryId) := storage[ArtifactKey(id)]];
      links := links + [Link(id, libraryId, artifacts[id].size, artifacts[id].sha)];
      ok := true;
    }

    /** The closing transaction of `publish_artifact`. */
    method CommitPublication(call: nat, m: Meta, libraryId: string) returns (ok: bool, r: Response)
      requires Inv(View()) && call in calls && calls[call] == Stored(m) && LibraryKey(libraryId) !in storage
      requires m.size <= MAX_ARTIFACT_BYTES
      modifies this
      ensures ok ==> Enabled(old(View()), Commit(call, libraryId))
                     && View() == Apply(old(View()), Commit(call, libraryId))
      ensures Answers(m, ok, r, old(responses), responses)
      ensures !ok ==> View() == Apply(old(View()), Crash(call))
      ensures m.publicationId in old(publications) && (ok <==> MayClose(old(View()), m))
    {
      hide Bound, OnePerName, OneLink, Answered, Current;
      CurrentCall(View(), call);
      BoundArtifact(View(), m.publicationId);
      var p := publications[m.publicationId];
      var id := p.artifact;
      if p.published {
        ok := VerifyStoredObject(ArtifactKey(id), artifacts[id].size, artifacts[id].sha);
        if !ok {
          calls := calls - {call};
          return false, ResponseOf(m.publicationId, p, artifacts[id]);
        }
      } else {
        if !artifacts[id].published {
          ok := IngestLibraryCopy(id, libraryId);
          if !ok {
            calls := calls - {call};
            return false, ResponseOf(m.publicationId, p, artifacts[id]);
          }
          artifacts := artifacts[id := artifacts[id].(published := true)];
        }
        p := p.(published := true);
        publications := publications[m.publicationId := p];
      }
      calls := calls - {call};
      ok, r := true, Response(m.publicationId, id, p.filename, artifacts[id].contentType, p.size, p.sha);
      responses := responses + [r];
    }

    /** `steps` leads from `w` to here, keeping the invariants. */
    ghost predicate Tracks(w: World, steps: seq<Action>)
      reads this
    {
      && Inv(w) && Run(w, steps) && View() == End(w, steps) && Inv(View())
      && (Intact(w) ==> Intact(View()))
    }

    ghost method Note(w: World, steps: seq<Action>, a: Action) returns (more: seq<Action>)
      requires Inv(w) && Run(w, steps) && Enabled(End(w, steps), a) && View() == Apply(End(w, steps), a)
      requires Intact(w) ==> Intact(End(w, steps)) && Careful(End(w, steps), a)
      ensures Tracks(w, more)
    {
      hide Inv, Run, End, Enabled, Apply, Intact, Careful;
      Then(w, steps, a);
      EveryRunKeepsInv(w, steps);
      StepKeepsInv(End(w, steps), a);
      if Intact(w) { CarefulStepKeepsIntact(End(w, steps), a); }
      more := steps + [a];
    }

    /** The exception path: an object that does not hold the declared bytes is deleted. */
    method Discard(call: nat, m: Meta, ghost w: World, ghost before: seq<Action>) returns (ghost steps: seq<Action>)
      requires Tracks(w, before) && call in calls && calls[call] == Failing(m) && m.size <= MAX_ARTIFACT_BYTES
      modifies this`storage, this`calls
      ensures Tracks(w, steps) && m.publicationId in publications
      ensures var key := ObjectKey(View(), m);
              storage == if Holds(old(View()), key, m.size, m.sha) then old(storage) else old(storage) - {key}
    {
      hide Run, End, Intact, Bound, OnePerName, OneLink, Answered, Current;
      CurrentCall(View(), call);
      var key := ArtifactKey(publications[m.publicationId].artifact);
      var ok := true;
      if key in storage { ok := VerifyStoredObject(key, m.size, m.sha); }
      if ok {
        calls := calls - {call};
        steps := Note(w, before, Judge(call));
      } else {
        calls := calls[call := Condemned(m)];
        steps := Note(w, before, Judge(call));
        storage := storage - {key};
        calls := calls - {call};
        steps := Note(w, steps, Delete(call));
      }
    }

    /** `publish_artifact`, as one call that nothing interleaves with: it is a run of the
        protocol, so it keeps everything proved of runs, and deletes with care. A new file is
        published exactly when the declared bytes arrive. */
    method PublishArtifact(call: nat, m: Meta, freshId: string, contentType: string, libraryId: string,
                           body: Option<Bytes>)
      returns (ok: bool, r: Response, ghost steps: seq<Action>)
      requires Inv(View()) && call !in calls && freshId !in artifacts
      requires ArtifactKey(freshId) !in storage && LibraryKey(libraryId) !in storage
      requires m.size <= MAX_ARTIFACT_BYTES && (body.Some? ==> |body.value| == m.size)
      modifies this
      ensures Tracks(old(View()), steps)
      ensures Answers(m, ok, r, old(responses), responses)
      ensures m.publicationId !in old(publications)
              && (forall j :: j in old(artifacts) ==> !Names(old(View()), j, m)) ==>
                (ok <==> body.Some? && Good(body.value, m.size, m.sha))
      ensures m.publicationId in old(publications) ==>
                (ok <==> && SameRequest(old(publications)[m.publicationId], m)
                         && if old(publications)[m.publicationId].published
                            then Holds(old(View()), old(ObjectKey(View(), m)), m.size, m.sha)
                            else body.Some? && Good(Present(old(View()), m, body.value), m.size, m.sha))
      ensures forall j :: m.publicationId !in old(publications) && j in old(artifacts) && Names(old(View()), j, m) ==>
                (ok <==> && SameBytes(old(artifacts)[j], m)
                         && if old(artifacts)[j].published then Holds(old(View()), ArtifactKey(j), m.size, m.sha)
                            else body.Some? && Good(Kept(old(View()), j, body.value), m.size, m.sha))
    {
      hide Run, End, Intact, Bound, OnePerName, OneLink, Answered, Current;
      ghost var w := View();
      steps := [];
      r := Response("", "", "", "", 0, "");
      assert Run(w, []) && End(w, []) == w by { NoStepsFrom(w); }
      ghost var id;
      ok, id := PreparePublication(call, m, freshId, contentType);
      forall j | m.publicationId !in w.publications && j in w.artifacts && Names(w, j, m) && id in w.artifacts
        ensures j == id {
        UniqueName(w, j, id, m);
      }
      if !ok { return; }
      steps := Note(w, steps, Prepare(call, m, id, contentType));
      CurrentCall(View(), call);
      BoundArtifact(View(), m.publicationId);
      if publications[m.publicationId].published {
        ok, r, steps := AnswerAgain(call, m, w, steps);
      } else {
        ok, r, steps := StoreAndCommit(call, m, libraryId, body, w, steps);
      }
    }

    /** A publication that is already published is verified and answered again. */
    method AnswerAgain(call: nat, m: Meta, ghost w: World, ghost before: seq<Action>)
      returns (ok: bool, r: Response, ghost steps: seq<Action>)
      requires Tracks(w, before) && call in calls && calls[call] == Prepared(m) && m.size <= MAX_ARTIFACT_BYTES
      requires m.publicationId in publications && publications[m.publicationId].published
      modifies this`calls, this`responses
      ensures ok <==> Holds(old(View()), old(ObjectKey(View(), m)), m.size, m.sha)
      ensures Tracks(w, steps) && Answers(m, ok, r, old(responses), responses)
    {
      hide Run, End, Intact, Bound, OnePerName, OneLink, Answered, Current;
      CurrentCall(View(), call);
      BoundArtifact(View(), m.publicationId);
      var p := publications[m.publicationId];
      ok := VerifyStoredObject(ArtifactKey(p.artifact), p.size, p.sha);
      r := Response(m.publicationId, p.artifact, p.filename, artifacts[p.artifact].contentType, p.size, p.sha);
      calls := calls - {call};
      if ok {
        responses := responses + [r];
        steps := Note(w, before, Reply(call));
      } else {
        steps := Note(w, before, Crash(call));
      }
    }

    method StoreAndCommit(call: nat, m: Meta, libraryId: string, body: Option<Bytes>,
                          ghost w: World, ghost before: seq<Action>)
      returns (ok: bool, r: Response, ghost steps: seq<Action>)
      requires Tracks(w, before) && call in calls && calls[call] == Prepared(m) && LibraryKey(libraryId) !in storage
      requires m.publicationId in publications
      requires m.size <= MAX_ARTIFACT_BYTES && (body.Some? ==> |body.value| == m.size)
      modifies this
      ensures ok <==> body.Some? && Good(Present(old(View()), m, body.value), m.size, m.sha)
      ensures Tracks(w, steps) && Answers(m, ok, r, old(responses), responses)
    {
      hide Run, End, Intact, Bound, OnePerName, OneLink, Answered, Current, Committing, Preparing;
      CurrentCall(View(), call);
      r := Response("", "", "", "", 0, "");
      ok := StoreObject(call, m, body);
      steps := Note(w, before, if body.Some? then Store(call, body.value) else StoreFails(call));
      if !ok {
        steps := Discard(call, m, w, steps);
        return;
      }
      CurrentCall(View(), call);
      ok, r := CommitPublication(call, m, libraryId);
      steps := Note(w, steps, if ok then Commit(call, libraryId) else Crash(call));
    }
  }

  /** The bytes at an artifact's key once `body` has been offered: an existing object stays. */
  function Kept(w: World, id: string, body: Bytes): Bytes {
    if ArtifactKey(id) in w.storage then w.storage[ArtifactKey(id)] else body
  }

  function Present(w: World, m: Meta, body: Bytes): Bytes
    requires m.publicationId in w.publications
  {
    Kept(w, w.publications[m.publicationId].artifact, body)
  }

  /** When the closing transaction goes through: an earlier publication is verified again, an
      artifact not published yet needs its library copy. */
  predicate MayClose(w: World, m: Meta)
    requires m.publicationId in w.publications
  {
    var p := w.publications[m.publicationId];
    if p.published then Holds(w, ArtifactKey(p.artifact), m.size, m.sha)
    else (p.artifact in w.artifacts && w.artifacts[p.artifact].published)
         || Linked(w, p.artifact) || ArtifactKey(p.artifact) in w.storage
  }

  /** A success appends one response repeating the request; a failure appends none. */
  predicate Answers(m: Meta, ok: bool, r: Response, before: seq<Response>, after: seq<Response>) {
    if ok then after == before + [r] && r.publicationId == m.publicationId && r.filename == m.filename
               && r.size == m.size && r.sha == m.sha
    else after == before
  }

  lemma UniqueName(w: World, i: string, j: string, m: Meta)
    requires OnePerName(w) && Names(w, i, m) && Names(w, j, m)
    ensures i == j
  {
    assert SameName(w.artifacts[i], w.artifacts[j]);
  }

  lemma CurrentCall(w: World, call: nat)
    requires Current(w) && call in w.calls
    ensures var m := w.calls[call].meta;
            m.publicationId in w.publications && SameRequest(w.publications[m.publicationId], m)
  {
  }

  lemma NoStepsFrom(w: World)
    ensures Run(w, []) && End(w, []) == w
  {
  }
}
