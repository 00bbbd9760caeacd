/** Agent Memory files: whole-file writes guarded by the hash of what they replace, made
    by any number of processes that share one lock file and may fail or die at any
    system call. */
module Memory {
  import opened Utf8
  import opened Wrappers
  import opened Hashing

  datatype File = Index | Topic(slug: string)

  type Files = map<File, Bytes>

  /** Temporary files, by the number in their name. */
  type Temps = map<nat, Bytes>

  datatype Request = Request(file: File, content: Bytes, expected: Option<Digest>, createOnly: bool)

  datatype Outcome = Written(created: bool) | Conflict | Failed

  datatype Phase =
    | Waiting
    | Holding                            // the lock is held
    | Looked(existed: bool)
    | Approved(existed: bool)            // the observed hash was the expected one
    | Opened(existed: bool, temp: nat)
    | Synced(existed: bool, temp: nat)
    | Installed(existed: bool, temp: nat)
    | Cleaning(temp: nat)
    | Ending(outcome: Outcome)           // about to release the lock
    | Over(outcome: Outcome)

  datatype Writer = Writer(request: Request, phase: Phase)

  /** One replacement of a memory file: who, what for, and what was there. */
  datatype Install = Install(writer: nat, request: Request, before: Option<Bytes>)

  datatype World = World(files: Files, temps: Temps, lock: Option<nat>,
                         writers: map<nat, Writer>, log: seq<Install>)

  datatype Action =
    | Begin(p: nat, request: Request)
    | Lock(p: nat)
    | Look(p: nat)
    | Compare(p: nat)
    | Open(p: nat, temp: nat)
    | Write(p: nat, data: Bytes)
    | Sync(p: nat)
    | Rename(p: nat)
    | SyncDirectory(p: nat)
    | Fault(p: nat)
    | Remove(p: nat, removed: bool)
    | Unlock(p: nat, ok: bool)
    | Die(p: nat)

  function Lookup(files: Files, f: File): Option<Bytes> {
    if f in files then Some(files[f]) else None
  }

  function HashOf(content: Option<Bytes>): Option<Digest> {
    if content.None? then None else Some(Sha256(content.value))
  }

  predicate Critical(p: Phase) {
    !p.Waiting? && !p.Over?
  }

  // ---------------------------------------------------------------- steps

  predicate Enabled(w: World, a: Action) {
    if a.Begin? then a.p !in w.writers && (forall i :: 0 <= i < |w.log| ==> w.log[i].writer != a.p)
    else if a.p !in w.writers then false
    else
      var phase, request := w.writers[a.p].phase, w.writers[a.p].request;
      match a
      case Begin(_, _) => true
      case Lock(_) => phase.Waiting? && w.lock.None?
      case Look(_) => phase.Holding?
      case Compare(_) => phase.Looked?
      case Open(_, temp) => phase.Approved? && temp !in w.temps
      case Write(_, data) => phase.Opened? && data <= request.content
      case Sync(_) => phase.Opened? && phase.temp in w.temps && w.temps[phase.temp] == request.content
      case Rename(_) => phase.Synced? && phase.temp in w.temps
      case SyncDirectory(_) => phase.Installed?
      case Fault(_) => phase.Waiting? || (Critical(phase) && !phase.Ending? && !phase.Cleaning?)
      case Remove(_, _) => phase.Cleaning?
      case Unlock(_, _) => phase.Ending?
      case Die(_) => !phase.Over?
  }

  function To(w: World, p: nat, phase: Phase): World
    requires p in w.writers
  {
    w.(writers := w.writers[p := w.writers[p].(phase := phase)])
  }

  function Freed(w: World, p: nat): World {
    if w.lock == Some(p) then w.(lock := None) else w
  }

  function Apply(w: World, a: Action): World
    requires Enabled(w, a)
  {
    if a.Begin? then
      // Only one of the two guards may be given.
      w.(writers := w.writers[a.p := Writer(a.request,
           if a.request.createOnly && a.request.expected.Some? then Over(Failed) else Waiting)])
    else
      var phase, request := w.writers[a.p].phase, w.writers[a.p].request;
      var f := request.file;
      match a
      case Begin(_, _) => w
      case Lock(p) => To(w.(lock := Some(p)), p, Holding)
      case Look(p) =>
        var existed := f in w.files;
        To(w, p, if request.createOnly && existed then Ending(Conflict) else Looked(existed))
      case Compare(p) =>
        if phase.existed && f !in w.files then To(w, p, Ending(Failed))
        else
          var previous := if phase.existed then Some(Sha256(w.files[f])) else None;
          To(w, p, if previous != request.expected then Ending(Conflict) else Approved(phase.existed))
      case Open(p, temp) => To(w.(temps := w.temps[temp := []]), p, Opened(phase.existed, temp))
      case Write(p, data) => w.(temps := w.temps[phase.temp := data])
      case Sync(p) => To(w, p, Synced(phase.existed, phase.temp))
      case Rename(p) =>
        To(w.(files := w.files[f := w.temps[phase.temp]], temps := w.temps - {phase.temp},
              log := w.log + [Install(p, request, Lookup(w.files, f))]), p, Installed(phase.existed, phase.temp))
      case SyncDirectory(p) => To(w, p, Ending(Written(!phase.existed)))
      case Fault(p) =>
        if phase.Waiting? then To(w, p, Over(Failed))
        else To(w, p, if phase.Opened? || phase.Synced? || phase.Installed? then Cleaning(phase.temp)
                      else Ending(Failed))
      case Remove(p, removed) =>
        To(if removed then w.(temps := w.temps - {phase.temp}) else w, p, Ending(Failed))
      case Unlock(p, ok) =>
        To(Freed(w, p), p, Over(if phase.outcome.Written? && !ok then Failed else phase.outcome))
      case Die(p) => To(Freed(w, p), p, Over(Failed))
  }

  // ---------------------------------------------------------------- the chain of replacements

  /** The files after the installs of `log`, starting from `initial`. */
  function Replay(initial: Files, log: seq<Install>): Files {
    if log == [] then initial
    else
      var last := log[|log| - 1];
      Replay(initial, log[..|log| - 1])[last.request.file := last.request.content]
  }

  /** Each install replaced exactly what the installs before it had left, and had been
      asked to replace exactly that. */
  predicate Chain(initial: Files, log: seq<Install>) {
    log == [] || (
      var front, last := log[..|log| - 1], log[|log| - 1];
      && Chain(initial, front)
      && last.before == Lookup(Replay(initial, front), last.request.file)
      && last.request.expected == HashOf(last.before)
      && (last.request.createOnly ==> last.before.None?))
  }

  /** Installs made by one writer. */
  function Count(log: seq<Install>, p: nat): nat {
    if log == [] then 0
    else Count(log[..|log| - 1], p) + if log[|log| - 1].writer == p then 1 else 0
  }

  // ---------------------------------------------------------------- invariants

  /** The lock is held by the one writer in its critical section. */
  predicate Exclusive(w: World) {
    && (w.lock.Some? ==> w.lock.value in w.writers)
    && (forall p :: p in w.writers ==> (Critical(w.writers[p].phase) <==> w.lock == Some(p)))
  }

  /** What the writer in its critical section has seen is still so. */
  predicate Seen(w: World, v: Writer) {
    var f, phase := v.request.file, v.phase;
    && (phase.Looked? ==> phase.existed == (f in w.files) && !(v.request.createOnly && phase.existed))
    && (phase.Approved? || phase.Opened? || phase.Synced? ==>
          && phase.existed == (f in w.files)
          && v.request.expected == HashOf(Lookup(w.files, f))
          && !(v.request.createOnly && phase.existed))
    && (phase.Opened? || phase.Synced? ==> phase.temp in w.temps)
    && (phase.Synced? ==> w.temps[phase.temp] == v.request.content)
  }

  /** How many installs a writer in a phase has made. */
  predicate Counted(log: seq<Install>, p: nat, v: Writer) {
    var n := Count(log, p);
    && n <= 1
    && ((v.phase.Waiting? || v.phase.Holding? || v.phase.Looked?
         || v.phase.Approved? || v.phase.Opened? || v.phase.Synced?) ==> n == 0)
    && (v.phase.Ending? || v.phase.Over? ==> v.phase.outcome.Conflict? ==> n == 0)
    && (v.phase.Installed? || ((v.phase.Ending? || v.phase.Over?) && v.phase.outcome.Written?) ==> n == 1)
  }

  predicate Inv(initial: Files, w: World) {
    && Exclusive(w)
    && (forall p :: p in w.writers ==> Seen(w, w.writers[p]) && Counted(w.log, p, w.writers[p]))
    && Chain(initial, w.log) && w.files == Replay(initial, w.log)
  }

  lemma {:induction false} NoInstalls(log: seq<Install>, p: nat)
    requires forall i :: 0 <= i < |log| ==> log[i].writer != p
    ensures Count(log, p) == 0
  {
    if log != [] { NoInstalls(log[..|log| - 1], p); }
  }

  lemma RenameExtends(initial: Files, w: World, p: nat)
    requires Chain(initial, w.log) && w.files == Replay(initial, w.log)
    requires p in w.writers && w.writers[p].phase.Synced? && Seen(w, w.writers[p])
    ensures var w' := Apply(w, Rename(p));
            && Chain(initial, w'.log) && w'.files == Replay(initial, w'.log)
            && forall q :: Count(w'.log, q) == Count(w.log, q) + if q == p then 1 else 0
  {
    hide Chain, Replay, Count, HashOf;
    var f := w.writers[p].request.file;
    var entry := Install(p, w.writers[p].request, Lookup(w.files, f));
    OneMore(initial, w.log, entry);
  }

  lemma OneMore(initial: Files, log: seq<Install>, e: Install)
    requires Chain(initial, log) && e.before == Lookup(Replay(initial, log), e.request.file)
    requires e.request.expected == HashOf(e.before) && (e.request.createOnly ==> e.before.None?)
    ensures Chain(initial, log + [e])
    ensures Replay(initial, log + [e]) == Replay(initial, log)[e.request.file := e.request.content]
    ensures forall q :: Count(log + [e], q) == Count(log, q) + if q == e.writer then 1 else 0
  {
    var more := log + [e];
    assert more[..|more| - 1] == log && more[|more| - 1] == e;
  }

  lemma StepKeepsExclusive(w: World, a: Action)
    requires Exclusive(w) && Enabled(w, a)
    ensures Exclusive(Apply(w, a))
  {
  }

  lemma StepKeepsSeen(w: World, a: Action, q: nat)
    requires Exclusive(w) && Enabled(w, a) && (forall p :: p in w.writers ==> Seen(w, w.writers[p]))
    requires q in Apply(w, a).writers
    ensures Seen(Apply(w, a), Apply(w, a).writers[q])
  {
    hide Replay, Chain;
    if q == a.p { OwnStepSeen(w, a); } else { OtherStepSeen(w, a, q); }
  }

  lemma OwnStepSeen(w: World, a: Action)
    requires Enabled(w, a) && (a.p in w.writers ==> Seen(w, w.writers[a.p]))
    ensures Seen(Apply(w, a), Apply(w, a).writers[a.p])
  {
  }

  /** A step changes files only inside its own critical section, so outside everyone else's. */
  lemma OtherStepSeen(w: World, a: Action, q: nat)
    requires Exclusive(w) && Enabled(w, a) && q != a.p && q in w.writers && Seen(w, w.writers[q])
    ensures Seen(Apply(w, a), Apply(w, a).writers[q])
  {
    var w' := Apply(w, a);
    assert w'.writers[q] == w.writers[q];
    if Critical(w.writers[q].phase) {
      assert w'.files == w.files && w'.temps == w.temps;
    }
  }

  lemma StepKeepsCounted(w: World, a: Action, q: nat)
    requires Enabled(w, a) && (forall p :: p in w.writers ==> Counted(w.log, p, w.writers[p]))
    requires a.Rename? ==> forall r :: Count(Apply(w, a).log, r) == Count(w.log, r) + if r == a.p then 1 else 0
    requires q in Apply(w, a).writers
    ensures Counted(Apply(w, a).log, q, Apply(w, a).writers[q])
  {
    hide Count;
    if a.Begin? { NoInstalls(w.log, a.p); }
  }

  /** Every system call of every writer, successful or not, keeps the chain whole. */
  lemma StepKeepsInv(initial: Files, w: World, a: Action)
    requires Inv(initial, w) && Enabled(w, a)
    ensures Inv(initial, Apply(w, a))
  {
    hide Exclusive, Seen, Counted, Chain, Replay, Count;
    var w' := Apply(w, a);
    StepKeepsExclusive(w, a);
    if a.Rename? { RenameExtends(initial, w, a.p); }
    forall q | q in w'.writers ensures Seen(w', w'.writers[q]) && Counted(w'.log, q, w'.writers[q]) {
      StepKeepsSeen(w, a, q);
      StepKeepsCounted(w, a, q);
    }
  }

  // ---------------------------------------------------------------- whole runs

  predicate Run(w: World, steps: seq<Action>)
    decreases |steps|
  {
    steps == [] || (Enabled(w, steps[0]) && Run(Apply(w, steps[0]), steps[1..]))
  }

  function End(w: World, steps: seq<Action>): World
    requires Run(w, steps)
    decreases |steps|
  {
    if steps == [] then w else End(Apply(w, steps[0]), steps[1..])
  }

  lemma {:induction false} EveryRunKeepsInv(initial: Files, w: World, steps: seq<Action>)
    requires Inv(initial, w) && Run(w, steps)
    ensures Inv(initial, End(w, steps))
    decreases |steps|
  {
    hide Inv, Enabled, Apply;
    if steps != [] {
      StepKeepsInv(initial, w, steps[0]);
      EveryRunKeepsInv(initial, Apply(w, steps[0]), steps[1..]);
    }
  }

  function Fresh(initial: Files): World {
    World(initial, map[], None, map[], [])
  }

  lemma FreshInv(initial: Files)
    ensures Inv(initial, Fresh(initial))
  {
  }

  /** Whatever the interleaving and wherever calls fail, the visible files are those of
      a compare-and-swap chain: each install replaced exactly the content whose hash it
      was given, and a write reported as a conflict made none. */
  lemma WritesFormAChain(initial: Files, steps: seq<Action>)
    requires Run(Fresh(initial), steps)
    ensures var w := End(Fresh(initial), steps);
            && Chain(initial, w.log) && w.files == Replay(initial, w.log)
            && forall p :: p in w.writers && w.writers[p].phase.Over? ==>
                 match w.writers[p].phase.outcome
                 case Written(_) => Count(w.log, p) == 1
                 case Conflict => Count(w.log, p) == 0
                 case Failed => Count(w.log, p) <= 1
  {
    hide Run, End, Chain, Replay, Count, Exclusive, Seen;
    FreshInv(initial);
    EveryRunKeepsInv(initial, Fresh(initial), steps);
  }

  /** Each visible content is the initial one or one whole value passed to a write. */
  lemma {:induction false} ContentIsWhole(initial: Files, log: seq<Install>, f: File)
    requires f in Replay(initial, log)
    ensures (f in initial && Replay(initial, log)[f] == initial[f])
            || exists i :: 0 <= i < |log| && log[i].request.file == f
                        && log[i].request.content == Replay(initial, log)[f]
  {
    if log != [] {
      var front, last := log[..|log| - 1], log[|log| - 1];
      if last.request.file == f {
        assert log[|log| - 1].request.file == f;
      } else {
        ContentIsWhole(initial, front, f);
        if !(f in initial && Replay(initial, log)[f] == initial[f]) {
          var i :| 0 <= i < |front| && front[i].request.file == f
                   && front[i].request.content == Replay(initial, front)[f];
          assert log[i] == front[i];
        }
      }
    }
  }

  /** Between two installs of a file with none in between, the second saw the first. */
  lemma {:induction false} NextSeesPrevious(initial: Files, log: seq<Install>, i: nat, j: nat)
    requires Chain(initial, log) && i < j < |log| && log[i].request.file == log[j].request.file
    requires forall k :: i < k < j ==> log[k].request.file != log[i].request.file
    ensures log[j].before == Some(log[i].request.content)
    ensures log[j].request.expected == Some(Sha256(log[i].request.content))
    decreases |log|
  {
    hide Replay;
    var front := log[..|log| - 1];
    if j < |log| - 1 {
      assert front[i] == log[i] && front[j] == log[j];
      assert forall k :: i < k < j ==> front[k] == log[k];
      NextSeesPrevious(initial, front, i, j);
    } else {
      assert forall k :: i < k < j ==> front[k] == log[k];
      LastInstall(initial, front, log[i].request.file, i);
      assert front[i] == log[i];
    }
  }

  lemma {:induction false} LastInstall(initial: Files, log: seq<Install>, f: File, i: nat)
    requires i < |log| && log[i].request.file == f && forall k :: i < k < |log| ==> log[k].request.file != f
    ensures Lookup(Replay(initial, log), f) == Some(log[i].request.content)
    decreases |log|
  {
    if i < |log| - 1 {
      var front := log[..|log| - 1];
      assert forall k :: i <= k < |front| ==> front[k] == log[k];
      LastInstall(initial, front, f, i);
    }
  }

  // ---------------------------------------------------------------- the code of one write

  /** The system calls of a write, each of which may fail. */
  datatype Syscall =
    | OpenLock | TakeLock | Validate | Inspect | ReadTarget | CreateTemp
    | WriteTemp | SyncTemp | RenameTemp | SyncParent | RemoveTemp | ReleaseLock

  const TEMP_NAMES := 16

  /** What the two guards of a request ask of the file it replaces. */
  predicate Allowed(files: Files, r: Request) {
    HashOf(Lookup(files, r.file)) == r.expected && !(r.createOnly && r.file in files)
  }

  /** Every call up to the lock and the inspection of the file works. */
  predicate Inspects(r: Request, works: Syscall -> bool) {
    && !(r.createOnly && r.expected.Some?)
    && works(OpenLock) && works(TakeLock) && works(Validate) && works(Inspect)
  }

  /** The write gets as far as a complete, synced temporary file. */
  predicate Prepared(files: Files, temps: Temps, r: Request, works: Syscall -> bool, names: seq<nat>) {
    && Inspects(r, works) && (r.file in files ==> works(ReadTarget)) && Allowed(files, r)
    && works(CreateTemp) && (exists i :: 0 <= i < |names| && names[i] !in temps)
    && works(WriteTemp) && works(SyncTemp)
  }

  // ---------------------------------------------------------------- a write as steps of the protocol

  /** Both worlds look the same to writer `p`. */
  predicate Agree(w: World, v: World, p: nat) {
    && w.files == v.files && w.temps == v.temps && w.lock == v.lock
    && p in w.writers && p in v.writers && w.writers[p] == v.writers[p]
  }

  lemma StepAgrees(w: World, v: World, p: nat, a: Action)
    requires Agree(w, v, p) && a.p == p && !a.Begin? && Enabled(v, a)
    ensures Enabled(w, a) && Agree(Apply(w, a), Apply(v, a), p)
  {
  }

  /** While a writer is in its critical section, nothing another one does is visible to it. */
  lemma OthersAgree(w: World, v: World, p: nat, a: Action)
    requires Exclusive(w) && Agree(w, v, p) && Critical(w.writers[p].phase)
    requires a.p != p && Enabled(w, a)
    ensures Agree(Apply(w, a), v, p)
  {
  }

  /** The steps of one writer. */
  function Own(steps: seq<Action>, p: nat): seq<Action> {
    if steps == [] then []
    else (if steps[0].p == p then [steps[0]] else []) + Own(steps[1..], p)
  }

  /** Writer `p` is in its critical section whenever a step is made. */
  predicate StaysCritical(w: World, steps: seq<Action>, p: nat)
    requires Run(w, steps)
    decreases |steps|
  {
    steps == [] || (p in w.writers && Critical(w.writers[p].phase) && StaysCritical(Apply(w, steps[0]), steps[1..], p))
  }

  /** From its lock to its unlock a writer does and sees exactly what it would do and see
      without the others, whatever they do in between. */
  lemma {:induction false} CompanyIsInvisible(w: World, v: World, p: nat, steps: seq<Action>)
    requires Exclusive(w) && Agree(w, v, p) && Run(w, steps) && StaysCritical(w, steps, p)
    ensures Run(v, Own(steps, p)) && Agree(End(w, steps), End(v, Own(steps, p)), p)
    decreases |steps|
  {
    hide Enabled, Apply, Exclusive, Agree, Critical;
    if steps == [] {
      NoSteps(v);
    } else {
      var a, rest := steps[0], steps[1..];
      StepKeepsExclusive(w, a);
      if a.p == p {
        OwnStep(w, v, p, a);
        CompanyIsInvisible(Apply(w, a), Apply(v, a), p, rest);
        assert Own(steps, p) == [a] + Own(rest, p) && ([a] + Own(rest, p))[1..] == Own(rest, p);
      } else {
        OthersAgree(w, v, p, a);
        CompanyIsInvisible(Apply(w, a), v, p, rest);
        assert [] + Own(rest, p) == Own(rest, p);
      }
    }
  }

  lemma OwnStep(w: World, v: World, p: nat, a: Action)
    requires Agree(w, v, p) && a.p == p && Enabled(w, a)
    ensures Enabled(v, a) && Agree(Apply(w, a), Apply(v, a), p)
  {
    StepAgrees(v, w, p, a);
  }

  /** `steps` leads from `w` to a world in which writer `p` stands in `phase`, holding
      the lock exactly in its critical section. */
  predicate Stands(w: World, steps: seq<Action>, p: nat, r: Request, phase: Phase, files: Files, temps: Temps) {
    && Run(w, steps)
    && Agree(End(w, steps), Alone(p, r, phase, files, temps), p)
  }

  /** The world with only this writer. */
  function Alone(p: nat, r: Request, phase: Phase, files: Files, temps: Temps): World {
    World(files, temps, if Critical(phase) then Some(p) else None, map[p := Writer(r, phase)], [])
  }

  lemma StandsThen(w: World, steps: seq<Action>, p: nat, r: Request, phase: Phase, files: Files, temps: Temps,
                   a: Action, phase': Phase, files': Files, temps': Temps)
    requires Stands(w, steps, p, r, phase, files, temps) && a.p == p && !a.Begin?
    requires Enabled(Alone(p, r, phase, files, temps), a)
    requires Agree(Apply(Alone(p, r, phase, files, temps), a), Alone(p, r, phase', files', temps'), p)
    ensures Stands(w, steps + [a], p, r, phase', files', temps')
  {
    hide Enabled, Apply, Run, End;
    StepAgrees(End(w, steps), Alone(p, r, phase, files, temps), p, a);
    Then(w, steps, a);
  }

  lemma Begins(w: World, p: nat, r: Request)
    requires Enabled(w, Begin(p, r)) && w.lock.None?
    ensures Stands(w, [Begin(p, r)], p, r,
                   if r.createOnly && r.expected.Some? then Over(Failed) else Waiting, w.files, w.temps)
  {
    hide Enabled;
    NoSteps(w);
    Then(w, [], Begin(p, r));
    assert [] + [Begin(p, r)] == [Begin(p, r)];
  }

  /** Failing before a temporary file exists. */
  lemma Fails(w: World, steps: seq<Action>, p: nat, r: Request, phase: Phase, files: Files, temps: Temps)
    returns (more: seq<Action>)
    requires Stands(w, steps, p, r, phase, files, temps) && (phase.Holding? || phase.Looked? || phase.Approved?)
    ensures Stands(w, more, p, r, Over(Failed), files, temps)
  {
    hide Stands;
    StandsThen(w, steps, p, r, phase, files, temps, Fault(p), Ending(Failed), files, temps);
    more := Ends(w, steps + [Fault(p)], p, r, Failed, files, temps, true);
  }

  lemma Ends(w: World, steps: seq<Action>, p: nat, r: Request, outcome: Outcome, files: Files, temps: Temps, ok: bool)
    returns (more: seq<Action>)
    requires Stands(w, steps, p, r, Ending(outcome), files, temps)
    ensures Stands(w, more, p, r, Over(if outcome.Written? && !ok then Failed else outcome), files, temps)
  {
    hide Stands;
    more := steps + [Unlock(p, ok)];
    StandsThen(w, steps, p, r, Ending(outcome), files, temps, Unlock(p, ok),
               Over(if outcome.Written? && !ok then Failed else outcome), files, temps);
  }

  lemma NeverLocks(w: World, steps: seq<Action>, p: nat, r: Request, files: Files, temps: Temps)
    requires Stands(w, steps, p, r, Waiting, files, temps)
    ensures Stands(w, steps + [Fault(p)], p, r, Over(Failed), files, temps)
  {
    hide Stands, Run, End;
    StandsThen(w, steps, p, r, Waiting, files, temps, Fault(p), Over(Failed), files, temps);
  }

  lemma Locks(w: World, steps: seq<Action>, p: nat, r: Request, files: Files, temps: Temps)
    requires Stands(w, steps, p, r, Waiting, files, temps)
    ensures Stands(w, steps + [Lock(p)], p, r, Holding, files, temps)
  {
    hide Stands, Run, End;
    StandsThen(w, steps, p, r, Waiting, files, temps, Lock(p), Holding, files, temps);
  }

  lemma Looks(w: World, steps: seq<Action>, p: nat, r: Request, files: Files, temps: Temps)
    requires Stands(w, steps, p, r, Holding, files, temps)
    ensures var next := if r.createOnly && r.file in files then Ending(Conflict) else Looked(r.file in files);
            Stands(w, steps + [Look(p)], p, r, next, files, temps)
  {
    hide Stands, Run, End;
    StandsThen(w, steps, p, r, Holding, files, temps, Look(p),
               if r.createOnly && r.file in files then Ending(Conflict) else Looked(r.file in files), files, temps);
  }

  lemma Compares(w: World, steps: seq<Action>, p: nat, r: Request, files: Files, temps: Temps)
    requires Stands(w, steps, p, r, Looked(r.file in files), files, temps)
    ensures var same := HashOf(Lookup(files, r.file)) == r.expected;
            Stands(w, steps + [Compare(p)], p, r,
                   if same then Approved(r.file in files) else Ending(Conflict), files, temps)
  {
    hide Stands, Run, End;
    var same := HashOf(Lookup(files, r.file)) == r.expected;
    StandsThen(w, steps, p, r, Looked(r.file in files), files, temps, Compare(p),
               if same then Approved(r.file in files) else Ending(Conflict), files, temps);
  }

  lemma Opens(w: World, steps: seq<Action>, p: nat, r: Request, files: Files, temps: Temps, existed: bool, temp: nat)
    requires Stands(w, steps, p, r, Approved(existed), files, temps) && temp !in temps
    ensures Stands(w, steps + [Open(p, temp)], p, r, Opened(existed, temp), files, temps[temp := []])
  {
    hide Stands, Run, End;
    StandsThen(w, steps, p, r, Approved(existed), files, temps, Open(p, temp), Opened(existed, temp),
               files, temps[temp := []]);
  }

  lemma Writes(w: World, steps: seq<Action>, p: nat, r: Request, files: Files, temps: Temps,
                 existed: bool, temp: nat, data: Bytes)
    requires Stands(w, steps, p, r, Opened(existed, temp), files, temps) && data <= r.content
    ensures Stands(w, steps + [Write(p, data)], p, r, Opened(existed, temp), files, temps[temp := data])
  {
    hide Stands, Run, End;
    StandsThen(w, steps, p, r, Opened(existed, temp), files, temps, Write(p, data), Opened(existed, temp),
               files, temps[temp := data]);
  }

  lemma Syncs(w: World, steps: seq<Action>, p: nat, r: Request, files: Files, temps: Temps, existed: bool, temp: nat)
    requires Stands(w, steps, p, r, Opened(existed, temp), files, temps) && temp in temps && temps[temp] == r.content
    ensures Stands(w, steps + [Sync(p)], p, r, Synced(existed, temp), files, temps)
  {
    hide Stands, Run, End;
    StandsThen(w, steps, p, r, Opened(existed, temp), files, temps, Sync(p), Synced(existed, temp), files, temps);
  }

  lemma Renames(w: World, steps: seq<Action>, p: nat, r: Request, files: Files, temps: Temps, existed: bool, temp: nat)
    requires Stands(w, steps, p, r, Synced(existed, temp), files, temps) && temp in temps
    ensures Stands(w, steps + [Rename(p)], p, r, Installed(existed, temp), files[r.file := temps[temp]], temps - {temp})
  {
    hide Stands, Run, End;
    StandsThen(w, steps, p, r, Synced(existed, temp), files, temps, Rename(p), Installed(existed, temp),
               files[r.file := temps[temp]], temps - {temp});
  }

  lemma SyncsDirectory(w: World, steps: seq<Action>, p: nat, r: Request, files: Files, temps: Temps,
                         existed: bool, temp: nat)
    requires Stands(w, steps, p, r, Installed(existed, temp), files, temps)
    ensures Stands(w, steps + [SyncDirectory(p)], p, r, Ending(Written(!existed)), files, temps)
  {
    hide Stands, Run, End;
    StandsThen(w, steps, p, r, Installed(existed, temp), files, temps, SyncDirectory(p), Ending(Written(!existed)),
               files, temps);
  }

  /** Failing once the temporary file exists: it is removed if that works. */
  lemma CleansUp(w: World, steps: seq<Action>, p: nat, r: Request, files: Files, temps: Temps,
                 phase: Phase, removed: bool)
    returns (more: seq<Action>)
    requires Stands(w, steps, p, r, phase, files, temps) && (phase.Opened? || phase.Synced? || phase.Installed?)
    ensures Stands(w, more, p, r, Ending(Failed), files, if removed then temps - {phase.temp} else temps)
  {
    hide Stands, Run, End;
    StandsThen(w, steps, p, r, phase, files, temps, Fault(p), Cleaning(phase.temp), files, temps);
    more := steps + [Fault(p), Remove(p, removed)];
    StandsThen(w, steps + [Fault(p)], p, r, Cleaning(phase.temp), files, temps, Remove(p, removed),
               Ending(Failed), files,
               if removed then temps - {phase.temp} else temps);
    assert more == steps + [Fault(p)] + [Remove(p, removed)];
  }

  class MemoryStore {
    var files: Files
    var temps: Temps

    /** `install_atomic`: an error after the rename leaves the new content in place. */
    method InstallAtomic(temp: nat, r: Request, works: Syscall -> bool, torn: nat,
                         ghost w: World, ghost p: nat, ghost existed: bool, ghost before: seq<Action>)
      returns (ok: bool, ghost steps: seq<Action>)
      requires temp in temps && Stands(w, before, p, r, Opened(existed, temp), files, temps)
      modifies this
      ensures ok <==> works(WriteTemp) && works(SyncTemp) && works(RenameTemp) && works(SyncParent)
      ensures files == if works(WriteTemp) && works(SyncTemp) && works(RenameTemp)
              then old(files)[r.file := r.content] else old(files)
      ensures forall t :: t != temp ==> (t in temps <==> t in old(temps)) && (t in temps ==> temps[t] == old(temps)[t])
      ensures temp in temps ==> !ok && !works(RemoveTemp)
      ensures Stands(w, steps, p, r, Ending(if ok then Written(!existed) else Failed), files, temps)
    {
      hide Stands;
      ok, steps := false, before;
      ghost var phase := Opened(existed, temp);
      var content := r.content;
      var written := if works(WriteTemp) then content else content[..if torn < |content| then torn else |content|];
      Writes(w, steps, p, r, files, temps, existed, temp, written);
      temps := temps[temp := written];
      steps := steps + [Write(p, written)];
      if works(WriteTemp) && works(SyncTemp) {
        Syncs(w, steps, p, r, files, temps, existed, temp);
        steps, phase := steps + [Sync(p)], Synced(existed, temp);
        if works(RenameTemp) {
          Renames(w, steps, p, r, files, temps, existed, temp);
          files := files[r.file := temps[temp]];
          temps := temps - {temp};
          steps, phase := steps + [Rename(p)], Installed(existed, temp);
          ok := works(SyncParent);
        }
      }
      if ok {
        SyncsDirectory(w, steps, p, r, files, temps, existed, temp);
        steps := steps + [SyncDirectory(p)];
      } else {
        steps := CleansUp(w, steps, p, r, files, temps, phase, works(RemoveTemp));
        if works(RemoveTemp) { temps := temps - {temp}; }
      }
    }

    /** Up to sixteen names are tried for the temporary file. */
    method CreateTemporary(names: seq<nat>, works: Syscall -> bool) returns (temp: Option<nat>)
      requires |names| == TEMP_NAMES
      modifies this`temps
      ensures temp.Some? ==> temp.value !in old(temps) && temps == old(temps)[temp.value := []]
      ensures temp.None? ==> temps == old(temps)
      ensures temp.Some? <==> works(CreateTemp) && exists i :: 0 <= i < |names| && names[i] !in old(temps)
    {
      var i := 0;
      while i < TEMP_NAMES
        invariant 0 <= i <= TEMP_NAMES && forall j :: 0 <= j < i ==> names[j] in temps
      {
        if names[i] !in temps {
          if !works(CreateTemp) { return None; }
          temps := temps[names[i] := []];
          return Some(names[i]);
        }
        i := i + 1;
      }
      temp := None;
    }

    /** `atomic_write_at`, which holds the lock from `TakeLock` to its end: a run of one
        writer's steps. It is written exactly when everything works and both guards allow.
        The file has changed exactly when the rename was reached and worked, so a failed
        write has changed it exactly when only the directory sync or the unlock failed. */
    method AtomicWriteAt(r: Request, works: Syscall -> bool, names: seq<nat>, torn: nat, ghost w: World, ghost p: nat)
      returns (outcome: Outcome, ghost steps: seq<Action>)
      requires |names| == TEMP_NAMES
      requires w.files == files && w.temps == temps && w.lock.None? && Enabled(w, Begin(p, r))
      modifies this
      ensures if Prepared(old(files), old(temps), r, works, names) && works(RenameTemp) then
                && files == old(files)[r.file := r.content]
                && outcome == (if works(SyncParent) && works(ReleaseLock) then Written(r.file !in old(files))
                              else Failed)
              else files == old(files) && !outcome.Written?
      ensures outcome.Conflict? <==>
                && Inspects(r, works) && !Allowed(old(files), r)
                && (r.file in old(files) && !r.createOnly ==> works(ReadTarget))
      ensures !outcome.Failed? ==> temps == old(temps)
      ensures (forall c :: works(c)) && (exists i :: 0 <= i < |names| && names[i] !in old(temps)) ==>
        && (r.file !in old(files) && r.expected.None? ==>
              outcome == Written(true) && files == old(files)[r.file := r.content])
        && (r.file in old(files) && r.expected == Some(Sha256(old(files)[r.file])) && !r.createOnly ==>
              outcome == Written(false) && files == old(files)[r.file := r.content])
      ensures r.file in old(files) && (r.createOnly || r.expected != Some(Sha256(old(files)[r.file]))) ==>
        files == old(files) && !outcome.Written?
      ensures r.file !in old(files) && r.expected.Some? ==> files == old(files) && !outcome.Written?
      ensures Stands(w, steps, p, r, Over(outcome), files, temps)
    {
      hide Stands;
      Begins(w, p, r);
      steps := [Begin(p, r)];
      if r.createOnly && r.expected.Some? { return Failed, steps; }
      if !works(OpenLock) || !works(TakeLock) {
        NeverLocks(w, steps, p, r, files, temps);
        return Failed, steps + [Fault(p)];
      }
      Locks(w, steps, p, r, files, temps);
      steps := steps + [Lock(p)];
      if !works(Validate) || !works(Inspect) {
        steps := Fails(w, steps, p, r, Holding, files, temps);
        return Failed, steps;
      }
      var existed := r.file in files;
      Looks(w, steps, p, r, files, temps);
      steps := steps + [Look(p)];
      if r.createOnly && existed {
        steps := Ends(w, steps, p, r, Conflict, files, temps, works(ReleaseLock));
        return Conflict, steps;
      }
      if existed && !works(ReadTarget) {
        steps := Fails(w, steps, p, r, Looked(existed), files, temps);
        return Failed, steps;
      }
      var previous := if existed then Some(Sha256(files[r.file])) else None;
      Compares(w, steps, p, r, files, temps);
      steps := steps + [Compare(p)];
      if previous != r.expected {
        steps := Ends(w, steps, p, r, Conflict, files, temps, works(ReleaseLock));
        return Conflict, steps;
      }
      outcome, steps := Replace(r, existed, works, names, torn, w, p, steps);
    }

    /** The rest of the critical section once both guards have passed. */
    method Replace(r: Request, existed: bool, works: Syscall -> bool, names: seq<nat>, torn: nat,
                   ghost w: World, ghost p: nat, ghost before: seq<Action>)
      returns (outcome: Outcome, ghost steps: seq<Action>)
      requires |names| == TEMP_NAMES && Stands(w, before, p, r, Approved(existed), files, temps)
      modifies this
      ensures var reached := works(CreateTemp) && (exists i :: 0 <= i < |names| && names[i] !in old(temps))
                             && works(WriteTemp) && works(SyncTemp) && works(RenameTemp);
              && files == (if reached then old(files)[r.file := r.content] else old(files))
              && outcome == (if reached && works(SyncParent) && works(ReleaseLock) then Written(!existed) else Failed)
      ensures outcome.Written? ==> temps == old(temps)
      ensures Stands(w, steps, p, r, Over(outcome), files, temps)
    {
      hide Stands;
      var temporary := CreateTemporary(names, works);
      if temporary.None? {
        steps := Fails(w, before, p, r, Approved(existed), files, temps);
        return Failed, steps;
      }
      var temp := temporary.value;
      Opens(w, before, p, r, files, old(temps), existed, temp);
      var ok;
      ok, steps := InstallAtomic(temp, r, works, torn, w, p, existed, before + [Open(p, temp)]);
      steps := Ends(w, steps, p, r, if ok then Written(!existed) else Failed, files, temps, works(ReleaseLock));
      outcome := if ok && works(ReleaseLock) then Written(!existed) else Failed;
      assert ok ==> temps == old(temps);
    }
  }

  /** A write that fails may still have installed its content: an error reported after
      the rename does not mean that nothing changed. */
  lemma FailureAfterInstall(p: nat, r: Request) returns (steps: seq<Action>)
    requires r.expected.None?
    ensures Run(Fresh(map[]), steps)
    ensures var w := End(Fresh(map[]), steps);
            && p in w.writers && w.writers[p].phase == Over(Failed)
            && r.file in w.files && w.files[r.file] == r.content
  {
    hide Run, End;
    var w0 := Fresh(map[]);
    steps := UpToOpened(p, r);
    Then(w0, steps, Write(p, r.content));
    steps := steps + [Write(p, r.content)];
    Then(w0, steps, Sync(p));
    steps := steps + [Sync(p)];
    Then(w0, steps, Rename(p));
    steps := steps + [Rename(p)];
    Then(w0, steps, Fault(p));
    steps := steps + [Fault(p)];
    Then(w0, steps, Remove(p, true));
    steps := steps + [Remove(p, true)];
    Then(w0, steps, Unlock(p, true));
    steps := steps + [Unlock(p, true)];
  }

  lemma UpToOpened(p: nat, r: Request) returns (steps: seq<Action>)
    requires r.expected.None?
    ensures Run(Fresh(map[]), steps)
    ensures End(Fresh(map[]), steps)
            == World(map[], map[0 := []], Some(p), map[p := Writer(r, Opened(false, 0))], [])
  {
    hide Run, End;
    var w0 := Fresh(map[]);
    NoSteps(w0);
    steps := [];
    Then(w0, steps, Begin(p, r));
    steps := steps + [Begin(p, r)];
    Then(w0, steps, Lock(p));
    steps := steps + [Lock(p)];
    Then(w0, steps, Look(p));
    steps := steps + [Look(p)];
    Then(w0, steps, Compare(p));
    steps := steps + [Compare(p)];
    Then(w0, steps, Open(p, 0));
    steps := steps + [Open(p, 0)];
  }

  lemma NoSteps(w: World)
    ensures Run(w, []) && End(w, []) == w
  {
  }

  lemma {:induction false} Then(w: World, steps: seq<Action>, a: Action)
    requires Run(w, steps) && Enabled(End(w, steps), a)
    ensures Run(w, steps + [a]) && End(w, steps + [a]) == Apply(End(w, steps), a)
    decreases |steps|
  {
    hide Enabled, Apply;
    if steps == [] {
      assert ([] + [a])[1..] == [];
    } else {
      assert (steps + [a])[1..] == steps[1..] + [a];
      Then(Apply(w, steps[0]), steps[1..], a);
    }
  }
}
