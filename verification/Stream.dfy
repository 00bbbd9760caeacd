/** The resumable tail of one agent run: committed events page by page, merged with
    a volatile live overlay that must never be older than what the client has. */
module Stream {
  import opened Wrappers
  import opened SessionLog

  const PAGE_SIZE := 100

  datatype Live = Live(turn: string, message: string, afterSequence: nat, revision: nat, text: string)

  type Identity = (string, string)

  function IdentityOf(live: Live): Identity {
    (live.turn, live.message)
  }

  /** One item sent to the client. */
  datatype Item = Committed(event: Event) | Overlay(live: Live)

  datatype Tail = Tail(
    source: nat,
    highWater: nat,
    terminal: bool,
    sealed: set<Identity>,
    checked: set<Identity>,
    barriers: map<string, nat>,
    liveIdentity: Option<Identity>,
    liveRevision: nat,
    out: seq<Item>)

  // ---------------------------------------------------------------- what the client sees

  function CommittedOf(out: seq<Item>): seq<Event> {
    if out == [] then []
    else
      var last := out[|out| - 1];
      CommittedOf(out[..|out| - 1]) + (if last.Committed? then [last.event] else [])
  }

  /** The resume cursor a client holds after receiving `out`. */
  function CursorOf(out: seq<Item>, start: nat): nat {
    if out == [] then start
    else if out[|out| - 1].Committed? then out[|out| - 1].event.sequence
    else CursorOf(out[..|out| - 1], start)
  }

  function LastOverlay(out: seq<Item>): Option<Live> {
    if out == [] then None
    else if out[|out| - 1].Overlay? then Some(out[|out| - 1].live)
    else LastOverlay(out[..|out| - 1])
  }

  /** `e` replaces the overlay: it is the sealed message itself, or a barrier of the
      overlay's turn that the overlay does not yet account for. */
  predicate Supersedes(e: Event, live: Live) {
    || (e.kind.AssistantMessage? && e.turn == live.turn && e.message == live.message)
    || (IsBarrier(e) && e.turn == live.turn && live.afterSequence < e.sequence)
  }

  /** Nothing of the run at or below the cursor supersedes the overlay, including
      events from before the point the client resumed at. */
  predicate Fresh(log: Log, run: string, cursor: nat, live: Live) {
    && live.afterSequence <= HighWater(log)
    && forall e :: e in log && Mine(e, run) && e.sequence <= cursor ==> !Supersedes(e, live)
  }

  predicate OverlaysFresh(log: Log, run: string, start: nat, out: seq<Item>) {
    forall i :: 0 <= i < |out| && out[i].Overlay? ==> Fresh(log, run, CursorOf(out[..i], start), out[i].live)
  }

  /** Each overlay has a higher revision than the overlay before it, if both are of
      the same message. */
  predicate RevisionsIncrease(out: seq<Item>) {
    forall i :: 0 <= i < |out| && out[i].Overlay? ==>
      (LastOverlay(out[..i]).Some? && IdentityOf(LastOverlay(out[..i]).value) == IdentityOf(out[i].live) ==>
         LastOverlay(out[..i]).value.revision < out[i].live.revision)
  }

  predicate NothingAfterTerminal(out: seq<Item>) {
    forall i :: 0 <= i < |out| - 1 && out[i].Committed? ==> !IsTerminal(out[i].event)
  }

  /** The whole contract with the client, in terms of the log alone. */
  predicate ClientView(log: Log, run: string, start: nat, out: seq<Item>) {
    && CommittedOf(out) == Between(log, run, start, CursorOf(out, start))
    && OverlaysFresh(log, run, start, out)
    && RevisionsIncrease(out)
    && NothingAfterTerminal(out)
  }

  // ---------------------------------------------------------------- the tail's bookkeeping

  predicate BarrierNoted(barriers: map<string, nat>, e: Event) {
    IsBarrier(e) ==> e.turn in barriers && e.sequence <= barriers[e.turn]
  }

  predicate SealNoted(sealed: set<Identity>, e: Event) {
    e.kind.AssistantMessage? ==> (e.turn, e.message) in sealed
  }

  /** Events this tail has delivered are noted ... */
  predicate DeliveredNoted(log: Log, run: string, start: nat, t: Tail) {
    forall e :: e in log && Mine(e, run) && start < e.sequence <= t.source ==>
      BarrierNoted(t.barriers, e) && SealNoted(t.sealed, e)
  }

  /** ... and for an identity it has looked up, so are the older ones. */
  predicate CheckedNoted(log: Log, run: string, t: Tail) {
    forall id, e :: id in t.checked && e in log && Mine(e, run) && e.sequence <= t.source ==>
      && (e.turn == id.0 ==> BarrierNoted(t.barriers, e))
      && ((e.turn, e.message) == id ==> SealNoted(t.sealed, e))
  }

  /** A barrier of the turn in the log, at this sequence. */
  predicate BarrierAt(log: Log, run: string, turn: string, sequence: nat) {
    exists e :: e in log && Mine(e, run) && IsBarrier(e) && e.turn == turn && e.sequence == sequence
  }

  predicate SealedBy(log: Log, run: string, id: Identity) {
    exists e :: e in log && Mine(e, run) && e.kind.AssistantMessage? && (e.turn, e.message) == id
  }

  /** Nothing is noted that the log does not hold. */
  predicate NotesTrue(log: Log, run: string, t: Tail) {
    && (forall turn :: turn in t.barriers ==> t.barriers[turn] == 0 || BarrierAt(log, run, turn, t.barriers[turn]))
    && (forall id :: id in t.sealed ==> SealedBy(log, run, id))
  }

  /** Only messages that were looked up have been shown. */
  predicate ShownChecked(t: Tail) {
    forall i :: 0 <= i < |t.out| && t.out[i].Overlay? ==> IdentityOf(t.out[i].live) in t.checked
  }

  predicate Inv(log: Log, run: string, start: nat, t: Tail) {
    && Ordered(log)
    && start <= t.source <= HighWater(log) && t.highWater <= HighWater(log)
    && CursorOf(t.out, start) == t.source
    && ClientView(log, run, start, t.out)
    && DeliveredNoted(log, run, start, t)
    && CheckedNoted(log, run, t)
    && NotesTrue(log, run, t)
    && ShownChecked(t)
    && (match LastOverlay(t.out)
        case None => t.liveIdentity.None?
        case Some(live) => t.liveIdentity == Some(IdentityOf(live)) && t.liveRevision == live.revision)
    && (t.out != [] && t.out[|t.out| - 1].Committed? && IsTerminal(t.out[|t.out| - 1].event) ==> t.terminal)
  }

  function NewTail(start: nat): Tail {
    Tail(start, 0, false, {}, {}, map[], None, 0, [])
  }

  lemma NewTailInv(log: Log, run: string, start: nat)
    requires Ordered(log) && start <= HighWater(log)
    ensures Inv(log, run, start, NewTail(start))
  {
    NothingBetween(log, run, start);
  }

  // ---------------------------------------------------------------- growth of the log

  lemma CursorBounded(out: seq<Item>, start: nat, i: nat, bound: nat)
    requires i <= |out| && start <= bound
    requires forall j :: 0 <= j < |out| && out[j].Committed? ==> out[j].event.sequence <= bound
    ensures CursorOf(out[..i], start) <= bound
  {
    if i > 0 {
      assert out[..i][..i - 1] == out[..i - 1];
      if out[i - 1].Overlay? { CursorBounded(out, start, i - 1, bound); }
    }
  }

  lemma {:induction false} CommittedMembers(out: seq<Item>)
    ensures forall i :: 0 <= i < |out| && out[i].Committed? ==> out[i].event in CommittedOf(out)
  {
    if out != [] { CommittedMembers(out[..|out| - 1]); }
  }

  lemma CommittedBounded(log: Log, run: string, start: nat, out: seq<Item>)
    requires CommittedOf(out) == Between(log, run, start, CursorOf(out, start))
    ensures forall i :: 0 <= i < |out| && out[i].Committed? ==> start < out[i].event.sequence <= CursorOf(out, start)
  {
    CommittedMembers(out);
    BetweenMembers(log, run, start, CursorOf(out, start));
  }

  lemma NewEventsAreLater(log: Log, log': Log)
    requires Extends(log, log') && Ordered(log')
    ensures Ordered(log) && HighWater(log) <= HighWater(log')
    ensures forall e :: e in log' && e.sequence <= HighWater(log) ==> e in log
  {
    OrderedPrefix(log', |log|);
    assert log'[..|log|] == log;
  }

  lemma GrowthKeepsOverlays(log: Log, log': Log, run: string, start: nat, out: seq<Item>)
    requires OverlaysFresh(log, run, start, out) && Extends(log, log') && Ordered(log') && start <= HighWater(log)
    requires forall j :: 0 <= j < |out| && out[j].Committed? ==> out[j].event.sequence <= HighWater(log)
    ensures OverlaysFresh(log', run, start, out)
  {
    hide CursorOf, Supersedes, Extends, Ordered, HighWater, Mine;
    NewEventsAreLater(log, log');
    forall i | 0 <= i < |out| && out[i].Overlay? ensures Fresh(log', run, CursorOf(out[..i], start), out[i].live) {
      CursorBounded(out, start, i, HighWater(log));
      assert Fresh(log, run, CursorOf(out[..i], start), out[i].live);
    }
  }

  lemma GrowthKeepsTruth(log: Log, log': Log, run: string, t: Tail)
    requires NotesTrue(log, run, t) && Extends(log, log')
    ensures NotesTrue(log', run, t)
  {
    assert forall e :: e in log ==> e in log';
    forall turn | turn in t.barriers && t.barriers[turn] != 0 ensures BarrierAt(log', run, turn, t.barriers[turn]) {
      assert BarrierAt(log, run, turn, t.barriers[turn]);
    }
    forall id | id in t.sealed ensures SealedBy(log', run, id) {
      assert SealedBy(log, run, id);
    }
  }

  lemma GrowthKeepsNotes(log: Log, log': Log, run: string, start: nat, t: Tail)
    requires DeliveredNoted(log, run, start, t) && CheckedNoted(log, run, t)
    requires Extends(log, log') && Ordered(log') && t.source <= HighWater(log)
    ensures DeliveredNoted(log', run, start, t) && CheckedNoted(log', run, t)
  {
    hide Extends, Ordered, HighWater, Mine, BarrierNoted, SealNoted;
    NewEventsAreLater(log, log');
  }

  /** Events that appear later lie above every cursor handed out so far, so nothing
      already sent is invalidated by the log growing. */
  lemma GrowthKeepsInv(log: Log, log': Log, run: string, start: nat, t: Tail)
    requires Inv(log, run, start, t) && Extends(log, log') && Ordered(log')
    ensures Inv(log', run, start, t)
  {
    hide CommittedOf, CursorOf, LastOverlay, Between, RevisionsIncrease, NothingAfterTerminal, OverlaysFresh,
         DeliveredNoted, CheckedNoted, Extends, Ordered, HighWater, NotesTrue;
    NewEventsAreLater(log, log');
    GrowthKeepsTruth(log, log', run, t);
    BetweenStable(log, log', run, start, t.source);
    CommittedBounded(log, run, start, t.out);
    GrowthKeepsOverlays(log, log', run, start, t.out);
    GrowthKeepsNotes(log, log', run, start, t);
  }

  // ---------------------------------------------------------------- one item more

  lemma AppendedViews(out: seq<Item>, item: Item, start: nat)
    ensures (out + [item])[..|out|] == out
    ensures CommittedOf(out + [item]) == CommittedOf(out) + (if item.Committed? then [item.event] else [])
    ensures CursorOf(out + [item], start) == if item.Committed? then item.event.sequence else CursorOf(out, start)
    ensures LastOverlay(out + [item]) == if item.Overlay? then Some(item.live) else LastOverlay(out)
    ensures forall i :: 0 <= i <= |out| ==> (out + [item])[..i] == out[..i]
  {
    assert (out + [item])[..|out|] == out;
  }

  /** Effect of one committed event on the tail. */
  function Delivered(t: Tail, e: Event): Tail {
    t.(source := e.sequence,
       barriers := if IsBarrier(e)
                   then t.barriers[e.turn := if e.turn in t.barriers && t.barriers[e.turn] > e.sequence
                                             then t.barriers[e.turn] else e.sequence]
                   else t.barriers,
       sealed := if e.kind.AssistantMessage? then t.sealed + {(e.turn, e.message)} else t.sealed,
       out := t.out + [Committed(e)],
       terminal := t.terminal || IsTerminal(e))
  }

  lemma DeliveryKeepsOverlays(log: Log, run: string, start: nat, out: seq<Item>, e: Event)
    requires OverlaysFresh(log, run, start, out) && RevisionsIncrease(out) && NothingAfterTerminal(out)
    requires out != [] && out[|out| - 1].Committed? ==> !IsTerminal(out[|out| - 1].event)
    ensures var out' := out + [Committed(e)];
            OverlaysFresh(log, run, start, out') && RevisionsIncrease(out') && NothingAfterTerminal(out')
  {
    hide CursorOf, LastOverlay, Fresh;
    var out' := out + [Committed(e)];
    assert forall i :: 0 <= i < |out| ==> out'[..i] == out[..i] && out'[i] == out[i];
  }

  lemma DeliveryKeepsNotes(log: Log, run: string, start: nat, t: Tail, e: Event)
    requires DeliveredNoted(log, run, start, t) && CheckedNoted(log, run, t)
    requires forall x :: x in log && Mine(x, run) && x.sequence <= e.sequence ==> x.sequence <= t.source || x == e
    ensures DeliveredNoted(log, run, start, Delivered(t, e)) && CheckedNoted(log, run, Delivered(t, e))
  {
    hide Mine;
  }

  lemma DeliveryKeepsTruth(log: Log, run: string, t: Tail, e: Event)
    requires NotesTrue(log, run, t) && e in log && Mine(e, run)
    ensures NotesTrue(log, run, Delivered(t, e))
  {
    hide Mine;
    assert IsBarrier(e) ==> BarrierAt(log, run, e.turn, e.sequence);
    assert e.kind.AssistantMessage? ==> SealedBy(log, run, (e.turn, e.message));
  }

  lemma DeliveryKeepsInv(log: Log, run: string, start: nat, t: Tail, e: Event)
    requires Inv(log, run, start, t) && !t.terminal
    requires Between(log, run, t.source, e.sequence) == [e] && t.source < e.sequence <= HighWater(log)
    ensures Inv(log, run, start, Delivered(t, e))
  {
    hide CommittedOf, CursorOf, LastOverlay, Between, OverlaysFresh, RevisionsIncrease, NothingAfterTerminal,
         DeliveredNoted, CheckedNoted, NotesTrue;
    AppendedViews(t.out, Committed(e), start);
    BetweenSplit(log, run, start, t.source, e.sequence);
    BetweenMembers(log, run, t.source, e.sequence);
    DeliveryKeepsOverlays(log, run, start, t.out, e);
    assert forall x :: x in log && Mine(x, run) && t.source < x.sequence <= e.sequence ==> x in [e];
    DeliveryKeepsNotes(log, run, start, t, e);
    assert e in [e];
    DeliveryKeepsTruth(log, run, t, e);
  }

  /** Effect of an overlay item on the tail. */
  function Overlaid(t: Tail, live: Live): Tail {
    t.(liveIdentity := Some(IdentityOf(live)), liveRevision := live.revision, out := t.out + [Overlay(live)])
  }

  lemma OverlayKeepsView(log: Log, run: string, start: nat, out: seq<Item>, live: Live)
    requires OverlaysFresh(log, run, start, out) && RevisionsIncrease(out) && NothingAfterTerminal(out)
    requires out != [] && out[|out| - 1].Committed? ==> !IsTerminal(out[|out| - 1].event)
    requires Fresh(log, run, CursorOf(out, start), live)
    requires LastOverlay(out).Some? && IdentityOf(LastOverlay(out).value) == IdentityOf(live) ==>
               LastOverlay(out).value.revision < live.revision
    ensures var out' := out + [Overlay(live)];
            OverlaysFresh(log, run, start, out') && RevisionsIncrease(out') && NothingAfterTerminal(out')
  {
    hide CursorOf, LastOverlay, Fresh, OverlaysFresh, RevisionsIncrease, NothingAfterTerminal;
    OverlayKeepsFresh(log, run, start, out, live);
    OverlayKeepsRevisions(out, live);
    OverlayKeepsEnd(out, live);
  }

  lemma OverlayKeepsFresh(log: Log, run: string, start: nat, out: seq<Item>, live: Live)
    requires OverlaysFresh(log, run, start, out) && Fresh(log, run, CursorOf(out, start), live)
    ensures OverlaysFresh(log, run, start, out + [Overlay(live)])
  {
    hide CursorOf, Fresh;
    var out' := out + [Overlay(live)];
    forall i | 0 <= i < |out'| && out'[i].Overlay?
      ensures Fresh(log, run, CursorOf(out'[..i], start), out'[i].live)
    {
      if i < |out| { assert out'[..i] == out[..i] && out'[i] == out[i]; } else { assert out'[..i] == out; }
    }
  }

  lemma OverlayKeepsRevisions(out: seq<Item>, live: Live)
    requires RevisionsIncrease(out)
    requires LastOverlay(out).Some? && IdentityOf(LastOverlay(out).value) == IdentityOf(live) ==>
               LastOverlay(out).value.revision < live.revision
    ensures RevisionsIncrease(out + [Overlay(live)])
  {
    hide LastOverlay;
    var out' := out + [Overlay(live)];
    forall i | 0 <= i < |out'| && out'[i].Overlay?
      ensures LastOverlay(out'[..i]).Some? && IdentityOf(LastOverlay(out'[..i]).value) == IdentityOf(out'[i].live) ==>
                LastOverlay(out'[..i]).value.revision < out'[i].live.revision
    {
      if i < |out| { assert out'[..i] == out[..i] && out'[i] == out[i]; } else { assert out'[..i] == out; }
    }
  }

  lemma OverlayKeepsEnd(out: seq<Item>, live: Live)
    requires NothingAfterTerminal(out) && (out != [] && out[|out| - 1].Committed? ==> !IsTerminal(out[|out| - 1].event))
    ensures NothingAfterTerminal(out + [Overlay(live)])
  {
  }

  /** The tests look at everything at or below the cursor. */
  lemma PassesIsFresh(log: Log, run: string, t: Tail, live: Live)
    requires CheckedNoted(log, run, t) && live.afterSequence <= HighWater(log)
    requires IdentityOf(live) in t.checked && IdentityOf(live) !in t.sealed
    requires live.turn in t.barriers ==> t.barriers[live.turn] <= live.afterSequence
    ensures Fresh(log, run, t.source, live)
  {
    hide Mine, HighWater;
  }

  /** An overlay that passes the tail's three tests is fresh for the client. */
  lemma OverlayKeepsInv(log: Log, run: string, start: nat, t: Tail, live: Live)
    requires Inv(log, run, start, t) && !t.terminal
    requires live.afterSequence <= t.highWater
    requires IdentityOf(live) in t.checked && IdentityOf(live) !in t.sealed
    requires live.turn in t.barriers ==> t.barriers[live.turn] <= live.afterSequence
    requires t.liveIdentity == Some(IdentityOf(live)) ==> t.liveRevision < live.revision
    ensures Inv(log, run, start, Overlaid(t, live))
  {
    hide CommittedOf, CursorOf, LastOverlay, Between, OverlaysFresh, RevisionsIncrease, NothingAfterTerminal,
         Fresh, HighWater, Ordered, BarrierAt, SealedBy;
    AppendedViews(t.out, Overlay(live), start);
    PassesIsFresh(log, run, t, live);
    OverlayKeepsView(log, run, start, t.out, live);
  }

  /** What `_load_committed_overlay_projection` finds: the highest barrier of the turn
      and whether a committed message already has the identity. */
  function LastBarrier(log: Log, run: string, turn: string): nat {
    if log == [] then 0
    else
      var e := log[|log| - 1];
      if Mine(e, run) && IsBarrier(e) && e.turn == turn then e.sequence
      else LastBarrier(log[..|log| - 1], run, turn)
  }

  lemma {:induction false} LastBarrierBounds(log: Log, run: string, turn: string)
    requires Ordered(log)
    ensures forall e :: e in log && Mine(e, run) && IsBarrier(e) && e.turn == turn ==>
              e.sequence <= LastBarrier(log, run, turn)
    ensures LastBarrier(log, run, turn) == 0 ||
            exists e :: e in log && Mine(e, run) && IsBarrier(e) && e.turn == turn
                        && e.sequence == LastBarrier(log, run, turn)
  {
    if log != [] {
      OrderedPrefix(log, |log| - 1);
      LastBarrierBounds(log[..|log| - 1], run, turn);
      var e := log[|log| - 1];
      if Mine(e, run) && IsBarrier(e) && e.turn == turn { assert e in log; }
    }
  }

  predicate SealsMessage(e: Event, run: string, message: string) {
    Mine(e, run) && e.kind.AssistantMessage? && e.message == message
  }

  /** Messages in the log that carry this message id. */
  function Seals(log: Log, run: string, message: string): seq<Event> {
    if log == [] then []
    else
      var e := log[|log| - 1];
      Seals(log[..|log| - 1], run, message) + (if SealsMessage(e, run, message) then [e] else [])
  }

  lemma {:induction false} SealsMembers(log: Log, run: string, message: string)
    ensures forall e :: e in Seals(log, run, message) <==> e in log && SealsMessage(e, run, message)
  {
    if log != [] {
      SealsMembers(log[..|log| - 1], run, message);
      assert log == log[..|log| - 1] + [log[|log| - 1]];
    }
  }

  /** The tail after noting the barrier found for a turn. */
  function WithBarrier(t: Tail, turn: string, barrier: nat): Tail {
    t.(barriers := t.barriers[turn := if turn in t.barriers && t.barriers[turn] > barrier
                                      then t.barriers[turn] else barrier])
  }

  lemma BarrierKeepsInv(log: Log, run: string, start: nat, t: Tail, turn: string)
    requires Inv(log, run, start, t)
    ensures Inv(log, run, start, WithBarrier(t, turn, LastBarrier(log, run, turn)))
  {
    hide ClientView, CursorOf, LastOverlay, LastBarrier, DeliveredNoted, CheckedNoted, NotesTrue, Ordered, HighWater;
    BarrierKeepsNotes(log, run, start, t, turn, LastBarrier(log, run, turn));
    assert LastBarrier(log, run, turn) == 0 || BarrierAt(log, run, turn, LastBarrier(log, run, turn)) by {
      LastBarrierBounds(log, run, turn);
    }
    BarrierKeepsTruth(log, run, t, turn, LastBarrier(log, run, turn));
  }

  lemma BarrierKeepsNotes(log: Log, run: string, start: nat, t: Tail, turn: string, barrier: nat)
    requires DeliveredNoted(log, run, start, t) && CheckedNoted(log, run, t)
    ensures var t' := WithBarrier(t, turn, barrier); DeliveredNoted(log, run, start, t') && CheckedNoted(log, run, t')
  {
    hide Mine, IsBarrier;
  }

  lemma BarrierKeepsTruth(log: Log, run: string, t: Tail, turn: string, barrier: nat)
    requires NotesTrue(log, run, t) && (barrier == 0 || BarrierAt(log, run, turn, barrier))
    ensures NotesTrue(log, run, WithBarrier(t, turn, barrier))
  {
    hide BarrierAt, SealedBy;
  }

  lemma SealKeepsInv(log: Log, run: string, start: nat, t: Tail, id: Identity)
    requires Inv(log, run, start, t) && SealedBy(log, run, id)
    ensures Inv(log, run, start, t.(sealed := t.sealed + {id}))
  {
    hide ClientView, CursorOf, LastOverlay;
  }

  lemma CheckKeepsInv(log: Log, run: string, start: nat, t: Tail, id: Identity)
    requires Inv(log, run, start, t)
    requires id.0 in t.barriers && LastBarrier(log, run, id.0) <= t.barriers[id.0]
    requires forall e :: e in log && SealsMessage(e, run, id.1) ==> e.turn != id.0
    ensures Inv(log, run, start, t.(checked := t.checked + {id}))
  {
    hide ClientView, CursorOf, LastOverlay, LastBarrier;
    LastBarrierBounds(log, run, id.0);
  }

  // ---------------------------------------------------------------- revisions of one message

  /** Between positions `i` and `j` only overlays of message `id` are sent. */
  predicate OnlyOverlaysOf(out: seq<Item>, i: nat, j: nat, id: Identity)
    requires i <= j <= |out|
  {
    forall k :: i <= k < j && out[k].Overlay? ==> IdentityOf(out[k].live) == id
  }

  lemma {:induction false} LastOverlayIn(out: seq<Item>, i: nat, j: nat)
    requires i < j <= |out| && out[i].Overlay?
    ensures exists k :: i <= k < j && out[k].Overlay? && LastOverlay(out[..j]) == Some(out[k].live)
    decreases j
  {
    assert out[..j][..j - 1] == out[..j - 1];
    if out[j - 1].Overlay? {
      assert LastOverlay(out[..j]) == Some(out[j - 1].live);
    } else {
      LastOverlayIn(out, i, j - 1);
    }
  }

  /** While no other message's overlay comes between, the revisions a client sees of
      a message strictly increase. */
  lemma {:induction false} RevisionsOfOneMessage(out: seq<Item>, i: nat, j: nat)
    requires RevisionsIncrease(out) && i < j < |out| && out[i].Overlay? && out[j].Overlay?
    requires IdentityOf(out[i].live) == IdentityOf(out[j].live)
    requires OnlyOverlaysOf(out, i, j, IdentityOf(out[j].live))
    ensures out[i].live.revision < out[j].live.revision
    decreases j
  {
    LastOverlayIn(out, i, j);
    var k :| i <= k < j && out[k].Overlay? && LastOverlay(out[..j]) == Some(out[k].live);
    if i < k { RevisionsOfOneMessage(out, i, k); }
  }

  /** The tail would show this candidate. */
  predicate Offers(t: Tail, run: string, live: Live, barrierLog: Log, sealLog: Log) {
    !t.terminal && live.afterSequence <= t.highWater && Shown(t, run, live, barrierLog, sealLog)
  }

  /** The candidate is newer than every overlay of its message sent so far. */
  predicate NewestSoFar(out: seq<Item>, live: Live) {
    forall i :: 0 <= i < |out| && out[i].Overlay? && IdentityOf(out[i].live) == IdentityOf(live) ==>
      out[i].live.revision < live.revision
  }

  /** Every overlay of the message sent so far is remembered: the tail still holds this
      message, at a revision that is the highest of them. */
  predicate Remembers(t: Tail, id: Identity) {
    forall i :: 0 <= i < |t.out| && t.out[i].Overlay? && IdentityOf(t.out[i].live) == id ==>
      t.liveIdentity == Some(id) && t.out[i].live.revision <= t.liveRevision
  }

  /** Nothing of the message can be shown any more: it is sealed, or superseded up to the
      observed high water. */
  predicate Closed(t: Tail, id: Identity) {
    t.terminal || id in t.sealed || (id.0 in t.barriers && t.highWater < t.barriers[id.0])
  }

  /** The tail compares a candidate only with the last overlay it showed. So whatever it
      shows next of a message is newer than all it has shown of it if and only if it
      remembers them all or can show nothing more of it. */
  lemma RevisionsIncreaseIff(log: Log, run: string, start: nat, t: Tail, id: Identity, barrierLog: Log, sealLog: Log)
    requires Inv(log, run, start, t)
    ensures (forall live :: IdentityOf(live) == id && Offers(t, run, live, barrierLog, sealLog) ==>
              NewestSoFar(t.out, live))
            <==> Remembers(t, id) || Closed(t, id)
  {
    hide ClientView, DeliveredNoted, CheckedNoted, LastOverlay, CursorOf, LastBarrier, Seals;
    if !Remembers(t, id) && !Closed(t, id) {
      var i :| 0 <= i < |t.out| && t.out[i].Overlay? && IdentityOf(t.out[i].live) == id
               && !(t.liveIdentity == Some(id) && t.out[i].live.revision <= t.liveRevision);
      var live := Live(id.0, id.1, t.highWater, t.out[i].live.revision, "");
      assert IdentityOf(live) == id && Offers(t, run, live, barrierLog, sealLog) && !NewestSoFar(t.out, live);
    }
  }

  // ---------------------------------------------------------------- reconnecting

  /** What one connection that started at `start` brought to its client, which may be less
      than was sent, and the log when the connection broke. */
  datatype Connection = Connection(log: Log, received: seq<Item>)

  ghost predicate Brought(c: Connection, run: string, start: nat) {
    exists t :: Inv(c.log, run, start, t) && c.received <= t.out
  }

  /** Successive connections of a client, each resumed at the cursor it had received last. */
  ghost predicate Reconnects(connections: seq<Connection>, run: string, start: nat, seen: Log)
    decreases |connections|
  {
    connections == [] || (
      && Extends(seen, connections[0].log) && Brought(connections[0], run, start)
      && Reconnects(connections[1..], run, CursorOf(connections[0].received, start), connections[0].log))
  }

  function AllReceived(connections: seq<Connection>): seq<Item> {
    if connections == [] then [] else connections[0].received + AllReceived(connections[1..])
  }

  lemma {:induction false} CommittedFront(out: seq<Item>, n: nat)
    requires n <= |out|
    ensures CommittedOf(out[..n]) <= CommittedOf(out)
  {
    if n < |out| {
      var front := out[..|out| - 1];
      assert front[..n] == out[..n];
      CommittedFront(front, n);
    } else {
      assert out[..n] == out;
    }
  }

  lemma {:induction false} CursorIsLast(out: seq<Item>, start: nat)
    ensures CursorOf(out, start)
            == if CommittedOf(out) == [] then start else CommittedOf(out)[|CommittedOf(out)| - 1].sequence
  {
    if out != [] { CursorIsLast(out[..|out| - 1], start); }
  }

  lemma {:induction false} ReceivedConcat(a: seq<Item>, b: seq<Item>, start: nat)
    ensures CommittedOf(a + b) == CommittedOf(a) + CommittedOf(b)
    ensures CursorOf(a + b, start) == CursorOf(b, CursorOf(a, start))
  {
    if b == [] {
      assert a + b == a;
    } else {
      assert (a + b)[..|a + b| - 1] == a + b[..|b| - 1];
      ReceivedConcat(a, b[..|b| - 1], start);
    }
  }

  /** A client that received only a front of what was sent has all committed events up to
      its own cursor. */
  lemma FrontIsComplete(log: Log, run: string, start: nat, t: Tail, received: seq<Item>)
    requires Inv(log, run, start, t) && received <= t.out
    ensures var cursor := CursorOf(received, start);
            start <= cursor <= HighWater(log) && CommittedOf(received) == Between(log, run, start, cursor)
  {
    hide CommittedOf, CursorOf, Between, OverlaysFresh, RevisionsIncrease, NothingAfterTerminal, DeliveredNoted,
         CheckedNoted, ShownChecked, LastOverlay;
    var es := Projected(log, run, start);
    BetweenSplit(log, run, start, t.source, HighWater(log));
    assert received == t.out[..|received|];
    CommittedFront(t.out, |received|);
    CursorIsLast(received, start);
    var m := |CommittedOf(received)|;
    assert CommittedOf(received) == es[..m];
    if m == 0 {
      NothingBetween(log, run, start);
    } else {
      ProjectedSplit(log, run, start, m - 1);
    }
  }

  /** However often the connection breaks, wherever it breaks, and however the log grows
      meanwhile: all a client has received are the run's projected events from its first
      cursor to its last, each once and in order. */
  lemma {:induction false} ReconnectingLosesNothing(connections: seq<Connection>, run: string, start: nat, seen: Log)
    requires Reconnects(connections, run, start, seen) && connections != []
    ensures var log, all := connections[|connections| - 1].log, AllReceived(connections);
            && Ordered(log) && Extends(seen, log) && start <= CursorOf(all, start) <= HighWater(log)
            && CommittedOf(all) == Between(log, run, start, CursorOf(all, start))
    decreases |connections|
  {
    hide CommittedOf, CursorOf, Between, Inv, Extends, Ordered, HighWater;
    var c, rest := connections[0], connections[1..];
    var t :| Inv(c.log, run, start, t) && c.received <= t.out;
    assert Ordered(c.log) by { InvOrdered(c.log, run, start, t); }
    FrontIsComplete(c.log, run, start, t, c.received);
    if rest == [] {
      assert AllReceived(rest) == [] && c.received + [] == c.received;
    } else {
      var cursor, log := CursorOf(c.received, start), rest[|rest| - 1].log;
      ReconnectingLosesNothing(rest, run, cursor, c.log);
      ReceivedConcat(c.received, AllReceived(rest), start);
      ExtendsTrans(seen, c.log, log);
      BetweenStable(c.log, log, run, start, cursor);
      BetweenSplit(log, run, start, cursor, CursorOf(AllReceived(rest), cursor));
    }
  }

  lemma InvOrdered(log: Log, run: string, start: nat, t: Tail)
    requires Inv(log, run, start, t)
    ensures Ordered(log)
  {
  }

  /** Nothing is held back without a reason: a candidate that no committed event supersedes,
      newer than the overlay shown last if that is of the same message, is shown. */
  lemma FreshIsShown(log: Log, run: string, start: nat, t: Tail, live: Live, barrierLog: Log, sealLog: Log)
    requires Inv(log, run, start, t) && Extends(log, barrierLog) && Extends(barrierLog, sealLog)
    requires Consistent(sealLog, run, live) && Ordered(sealLog)
    requires forall e :: e in sealLog && Mine(e, run) ==> !Supersedes(e, live)
    requires t.liveIdentity == Some(IdentityOf(live)) ==> t.liveRevision < live.revision
    ensures Shown(t, run, live, barrierLog, sealLog)
  {
    hide ClientView, DeliveredNoted, CheckedNoted, LastOverlay, CursorOf, LastBarrier, Seals, Ordered;
    assert forall e :: e in log ==> e in sealLog;
    assert forall e :: e in barrierLog ==> e in sealLog;
    OrderedEarlier(barrierLog, sealLog);
    LastBarrierBounds(barrierLog, run, live.turn);
    SealsMembers(sealLog, run, live.message);
    FirstIn(Seals(sealLog, run, live.message));
    NotesOf(log, run, t, live);
  }

  lemma FirstIn<T>(s: seq<T>)
    ensures s != [] ==> s[0] in s
  {
  }

  lemma NotesOf(log: Log, run: string, t: Tail, live: Live)
    requires NotesTrue(log, run, t)
    ensures IdentityOf(live) in t.sealed ==> SealedBy(log, run, IdentityOf(live))
    ensures live.turn in t.barriers && t.barriers[live.turn] != 0 ==>
              BarrierAt(log, run, live.turn, t.barriers[live.turn])
  {
  }

  // ---------------------------------------------------------------- reading the database

  /** One round of the drain loop: the log at each of its queries, in order. */
  datatype PageView = PageView(highWaterLog: Log, recordsLog: Log, terminalLog: Log, admissionFailed: bool)

  /** Successive views of an append-only log. */
  predicate Growing(seen: Log, views: seq<PageView>)
    decreases |views|
  {
    views == [] || (
      && Extends(seen, views[0].highWaterLog)
      && Extends(views[0].highWaterLog, views[0].recordsLog)
      && Extends(views[0].recordsLog, views[0].terminalLog)
      && Ordered(views[0].terminalLog)
      && Growing(views[0].terminalLog, views[1..]))
  }

  /** The log after the last of the views. */
  function Latest(seen: Log, views: seq<PageView>): Log
    decreases |views|
  {
    if views == [] then seen else Latest(views[0].terminalLog, views[1..])
  }

  lemma {:induction false} LatestExtends(seen: Log, views: seq<PageView>)
    requires Growing(seen, views)
    ensures Extends(seen, Latest(seen, views))
    ensures views != [] ==> Extends(views[0].recordsLog, Latest(seen, views)) && Ordered(Latest(seen, views))
    decreases |views|
  {
    hide Extends, Ordered;
    if views == [] {
      SameExtends(seen);
    } else {
      var v := views[0];
      LatestExtends(v.terminalLog, views[1..]);
      ExtendsTrans(v.recordsLog, v.terminalLog, Latest(seen, views));
      ExtendsTrans(v.highWaterLog, v.recordsLog, Latest(seen, views));
      ExtendsTrans(seen, v.highWaterLog, Latest(seen, views));
    }
  }

  lemma SameExtends(log: Log)
    ensures Extends(log, log)
  {
  }

  lemma OrderedEarlier(log: Log, log': Log)
    requires Extends(log, log') && Ordered(log')
    ensures Ordered(log) && HighWater(log) <= HighWater(log')
  {
    OrderedPrefix(log', |log|);
    assert log'[..|log|] == log;
  }

  function FirstPage(events: seq<Event>): seq<Event> {
    if |events| <= PAGE_SIZE then events else events[..PAGE_SIZE]
  }

  /** Where the run's stream ends: its first terminal event, or at once when it was
      never admitted. */
  function TerminalSequence(log: Log, run: string, admissionFailed: bool): Option<nat> {
    if log == [] then (if admissionFailed then Some(0) else None)
    else if Mine(log[0], run) && IsTerminal(log[0]) then Some(log[0].sequence)
    else TerminalSequence(log[1..], run, admissionFailed)
  }

  /** A terminal event of the run lies at or below the cursor. */
  predicate TerminalBy(log: Log, run: string, cursor: nat) {
    exists e :: e in log && Mine(e, run) && IsTerminal(e) && e.sequence <= cursor
  }

  predicate NoTerminal(log: Log, run: string) {
    forall e :: e in log && Mine(e, run) ==> !IsTerminal(e)
  }

  lemma FirstOrLater(log: Log, run: string, cursor: nat)
    requires log != []
    ensures var ends := Mine(log[0], run) && IsTerminal(log[0]);
            && (TerminalBy(log, run, cursor) <==>
                  (ends && log[0].sequence <= cursor) || TerminalBy(log[1..], run, cursor))
            && (NoTerminal(log, run) <==> !ends && NoTerminal(log[1..], run))
  {
    hide Mine, IsTerminal;
    assert log == [log[0]] + log[1..] && log[0] in log;
    if x :| x in log[1..] && Mine(x, run) && IsTerminal(x) && x.sequence <= cursor { assert x in log; }
  }

  lemma LaterIsHigher(log: Log, run: string, cursor: nat)
    requires log != [] && Ordered(log) && TerminalBy(log[1..], run, cursor)
    ensures log[0].sequence <= cursor
  {
    var x :| x in log[1..] && Mine(x, run) && IsTerminal(x) && x.sequence <= cursor;
    var k :| 0 <= k < |log[1..]| && log[1..][k] == x;
    assert log[k + 1] == x;
  }

  /** The stream of a run ends at or below a cursor exactly when one of its terminal events
      is there, or when it has none and was never admitted. */
  lemma {:induction false} TerminalAtIff(log: Log, run: string, admissionFailed: bool, cursor: nat)
    requires Ordered(log)
    ensures var at := TerminalSequence(log, run, admissionFailed);
            at.Some? && at.value <= cursor
            <==> TerminalBy(log, run, cursor) || (admissionFailed && NoTerminal(log, run))
  {
    hide Mine, IsTerminal, TerminalBy, NoTerminal;
    if log == [] {
      assert !TerminalBy([], run, cursor) && NoTerminal([], run) by { NothingEnds(run, cursor); }
    } else {
      FirstOrLater(log, run, cursor);
      TerminalAtIff(log[1..], run, admissionFailed, cursor);
      if TerminalBy(log[1..], run, cursor) { LaterIsHigher(log, run, cursor); }
    }
  }

  lemma NothingEnds(run: string, cursor: nat)
    ensures !TerminalBy([], run, cursor) && NoTerminal([], run)
  {
  }

  /** The event says whose it is, and names what it seals or bars. */
  predicate WellFormed(e: Event) {
    && e.bound
    && (e.kind.PhaseEvent? ==> e.turn != "")
    && (e.kind.AssistantMessage? ==> e.turn != "" && e.message != "")
  }

  lemma MalformedIff(e: Event)
    ensures Malformed(e) <==> !WellFormed(e)
  {
  }

  predicate Malformed(e: Event) {
    || !e.bound
    || (IsBarrier(e) && e.turn == "")
    || (e.kind.AssistantMessage? && e.message == "")
  }

  /** Why a drain over these views does not finish: an event of the run that is not well
      formed, or full pages to the last view. */
  predicate Stuck(log: Log, run: string, delivered: int, views: seq<PageView>) {
    (exists e :: e in log && Mine(e, run) && !WellFormed(e)) || PAGE_SIZE * |views| <= delivered
  }

  lemma StuckStays(log: Log, log': Log, run: string, delivered: int, more: int, views: seq<PageView>)
    requires Stuck(log, run, delivered, views) && Extends(log, log') && delivered <= more
    ensures Stuck(log', run, more, views)
  {
    hide Mine, WellFormed;
    if e :| e in log && Mine(e, run) && !WellFormed(e) { assert e in log'; }
  }

  datatype DrainResult = Finished(view: PageView) | StillReading | Broken

  /** The overlay survives every test the tail makes before showing it. */
  predicate Shown(t: Tail, run: string, live: Live, barrierLog: Log, sealLog: Log) {
    var id := IdentityOf(live);
    && (live.turn in t.barriers ==> t.barriers[live.turn] <= live.afterSequence)
    && id !in t.sealed
    && (id !in t.checked ==>
         LastBarrier(barrierLog, run, live.turn) <= live.afterSequence && Seals(sealLog, run, live.message) == [])
    && (t.liveIdentity == Some(id) ==> t.liveRevision < live.revision)
  }

  /** The tail after looking the overlay's message up, if it had not done so before. */
  function LookedUp(t: Tail, run: string, live: Live, barrierLog: Log): Tail {
    if IdentityOf(live) in t.checked then t
    else
      var barrier := LastBarrier(barrierLog, run, live.turn);
      t.(barriers := t.barriers[live.turn := if live.turn in t.barriers && t.barriers[live.turn] > barrier
                                             then t.barriers[live.turn] else barrier],
         checked := t.checked + {IdentityOf(live)})
  }

  /** The candidate passes the first tests, and its message has to be looked up. */
  predicate NeedsLookUp(t: Tail, live: Live) {
    && (live.turn in t.barriers ==> t.barriers[live.turn] <= live.afterSequence)
    && IdentityOf(live) !in t.sealed && IdentityOf(live) !in t.checked
  }

  /** No committed message uses the overlay's message id in another turn, or twice. */
  predicate Consistent(sealLog: Log, run: string, live: Live) {
    var seals := Seals(sealLog, run, live.message);
    |seals| <= 1 && (seals != [] ==> seals[0].turn == live.turn)
  }

  /** No two events of the log commit this message. */
  predicate SealedAtMostOnce(log: Log, run: string, message: string) {
    forall i, j :: 0 <= i < j < |log| ==> !(SealsMessage(log[i], run, message) && SealsMessage(log[j], run, message))
  }

  lemma {:induction false} SealsCounted(log: Log, run: string, message: string)
    ensures |Seals(log, run, message)| <= 1 <==> SealedAtMostOnce(log, run, message)
    ensures Seals(log, run, message) == [] <==> forall i :: 0 <= i < |log| ==> !SealsMessage(log[i], run, message)
  {
    hide SealsMessage;
    if log != [] {
      var front, e := log[..|log| - 1], log[|log| - 1];
      SealsCounted(front, run, message);
      assert forall i :: 0 <= i < |front| ==> front[i] == log[i];
      assert SealedAtMostOnce(log, run, message) ==> SealedAtMostOnce(front, run, message);
    }
  }

  /** The message id of a candidate is in order exactly when it was committed at most once, and
      then in the candidate's own turn. */
  lemma ConsistentIff(log: Log, run: string, live: Live)
    ensures Consistent(log, run, live)
            <==> && SealedAtMostOnce(log, run, live.message)
                 && forall e :: e in log && SealsMessage(e, run, live.message) ==> e.turn == live.turn
  {
    hide SealsMessage, Seals, SealedAtMostOnce;
    SealsCounted(log, run, live.message);
    SealsMembers(log, run, live.message);
    FirstIn(Seals(log, run, live.message));
    OnlyOne(Seals(log, run, live.message));
  }

  lemma OnlyOne<T>(s: seq<T>)
    ensures |s| <= 1 ==> forall x :: x in s ==> x == s[0]
  {
  }

  lemma EarlierUnsealed(log: Log, log': Log, run: string, message: string)
    requires Extends(log, log') && forall e :: e in log' ==> !SealsMessage(e, run, message)
    ensures forall e :: e in log ==> !SealsMessage(e, run, message)
  {
    assert forall e :: e in log ==> e in log';
  }

  /** One turn of the tail loop. */
  datatype Turn =
    | DrainTurn(views: seq<PageView>)
    | CandidateTurn(live: Live, views: seq<PageView>, barrierLog: Log, sealLog: Log)

  predicate ScriptGrows(seen: Log, script: seq<Turn>)
    decreases |script|
  {
    script == [] || (
      && Growing(seen, script[0].views)
      && (match script[0]
          case DrainTurn(views) => ScriptGrows(Latest(seen, views), script[1..])
          case CandidateTurn(_, views, barrierLog, sealLog) =>
            && Extends(Latest(seen, views), barrierLog) && Extends(barrierLog, sealLog) && Ordered(sealLog)
            && ScriptGrows(sealLog, script[1..])))
  }

  lemma EarlierStart(seen: Log, bound: Log, views: seq<PageView>)
    requires Extends(seen, bound) && Growing(bound, views)
    ensures Growing(seen, views) && Extends(Latest(seen, views), Latest(bound, views))
  {
    if views != [] {
      ExtendsTrans(seen, bound, views[0].highWaterLog);
      SameExtends(Latest(seen, views));
    }
  }

  lemma CommittedTerminals(out: seq<Item>)
    requires NothingAfterTerminal(out)
    ensures var es := CommittedOf(out);
            && (forall i :: 0 <= i < |es| - 1 ==> !IsTerminal(es[i]))
            && (es != [] && IsTerminal(es[|es| - 1]) ==> out[|out| - 1] == Committed(es[|es| - 1]))
  {
    if out != [] {
      var front := out[..|out| - 1];
      CommittedTerminals(front);
    }
  }

  lemma {:induction false} StopsHere(events: seq<Event>, k: nat)
    requires k <= |events| && forall j :: 0 <= j < k ==> !IsTerminal(events[j])
    ensures k == |events| ==> UpToTerminal(events) == events
    ensures k < |events| ==> events[k] in UpToTerminal(events)
    ensures k < |events| && IsTerminal(events[k]) ==> UpToTerminal(events) == events[..k + 1]
  {
    if k > 0 {
      StopsHere(events[1..], k - 1);
      assert events[1..][..k - 1 + (if k < |events| then 1 else 0)] == events[1..k + (if k < |events| then 1 else 0)];
      assert k < |events| ==> events[..k + 1] == [events[0]] + events[1..k + 1];
    }
  }

  lemma HighWaterKeepsInv(log: Log, run: string, start: nat, t: Tail, water: nat)
    requires Inv(log, run, start, t) && water <= HighWater(log)
    ensures Inv(log, run, start, t.(highWater := water))
  {
    hide ClientView, CursorOf, LastOverlay;
  }

  lemma TerminalFlagKeepsInv(log: Log, run: string, start: nat, t: Tail)
    requires Inv(log, run, start, t)
    ensures Inv(log, run, start, t.(terminal := true))
    ensures !t.terminal && t.out != [] && t.out[|t.out| - 1].Committed? ==> !IsTerminal(t.out[|t.out| - 1].event)
  {
    hide ClientView, CursorOf, LastOverlay;
  }

  /** At a terminal event the delivery is complete whatever follows in the log. */
  lemma TerminalDelivery(log: Log, run: string, start: nat, t: Tail)
    requires Inv(log, run, start, t)
    requires t.out != [] && t.out[|t.out| - 1].Committed? && IsTerminal(t.out[|t.out| - 1].event)
    ensures CommittedOf(t.out) == Delivery(log, run, start)
  {
    hide Between, CursorOf, LastOverlay;
    CommittedTerminals(t.out);
    BetweenSplit(log, run, start, t.source, HighWater(log));
    DeliveryStops(CommittedOf(t.out), Between(log, run, t.source, HighWater(log)));
  }

  /** With nothing left above the cursor everything owed has been delivered. */
  lemma ShortPageDelivery(log: Log, run: string, start: nat, t: Tail)
    requires Inv(log, run, start, t) && !t.terminal && Projected(log, run, t.source) == []
    ensures CommittedOf(t.out) == Delivery(log, run, start)
  {
    hide Between, CursorOf, LastOverlay;
    CommittedTerminals(t.out);
    BetweenSplit(log, run, start, t.source, HighWater(log));
    assert Between(log, run, start, t.source) + [] == Between(log, run, start, t.source);
    OwnDelivery(CommittedOf(t.out));
  }

  lemma InvFacts(log: Log, run: string, start: nat, t: Tail)
    requires Inv(log, run, start, t)
    ensures Ordered(log) && start <= t.source <= HighWater(log) && t.highWater <= HighWater(log)
    ensures ClientView(log, run, start, t.out)
  {
  }

  lemma PageVisible(log: Log, run: string, lo: nat)
    requires Ordered(log)
    ensures forall e :: e in FirstPage(Projected(log, run, lo)) ==> e.sequence <= HighWater(log)
  {
    BetweenMembers(log, run, lo, HighWater(log));
  }

  lemma {:induction false} UpToTerminalMembers(events: seq<Event>)
    ensures forall e :: e in UpToTerminal(events) ==> e in events
  {
    if events != [] { UpToTerminalMembers(events[1..]); }
  }

  /** What breaks a page is an event of the run. */
  lemma BrokenBy(log: Log, run: string, lo: nat, records: seq<Event>)
    requires records == FirstPage(Projected(log, run, lo)) && exists e :: e in UpToTerminal(records) && Malformed(e)
    ensures exists e :: e in log && Mine(e, run) && !WellFormed(e)
  {
    hide Between, UpToTerminal;
    var e :| e in UpToTerminal(records) && Malformed(e);
    UpToTerminalMembers(records);
    BetweenMembers(log, run, lo, HighWater(log));
    MalformedIff(e);
  }

  /** Why a turn of the tail loop fails: its drain is stuck, or its candidate refers to events
      that were not there yet or to a message id used twice. */
  predicate Excused(log: Log, seen: Log, run: string, delivered: int, turn: Turn) {
    || Stuck(seen, run, delivered, turn.views)
    || (turn.CandidateTurn?
        && (turn.live.afterSequence > HighWater(log) || !Consistent(turn.sealLog, run, turn.live)))
  }

  lemma ExcusedStays(first: Log, log: Log, seen: Log, run: string, out: seq<Item>, sent: seq<Item>, now: seq<Item>,
                     turn: Turn)
    requires Excused(log, seen, run, |CommittedOf(now)| - |CommittedOf(sent)|, turn)
    requires Extends(first, log) && Ordered(log) && out <= sent
    ensures Excused(first, seen, run, |CommittedOf(now)| - |CommittedOf(out)|, turn)
  {
    hide Stuck, Consistent, Ordered, CommittedOf;
    OrderedEarlier(first, log);
    assert sent[..|out|] == out;
    CommittedFront(sent, |out|);
    SameExtends(seen);
    if Stuck(seen, run, |CommittedOf(now)| - |CommittedOf(sent)|, turn.views) {
      StuckStays(seen, seen, run, |CommittedOf(now)| - |CommittedOf(sent)|, |CommittedOf(now)| - |CommittedOf(out)|,
                 turn.views);
    }
  }

  class TailStream {
    const run: string
    const start: nat
    var source: nat
    var highWater: nat
    var terminal: bool
    var sealed: set<Identity>
    var checked: set<Identity>
    var barriers: map<string, nat>
    var liveIdentity: Option<Identity>
    var liveRevision: nat
    var out: seq<Item>
    ghost var seen: Log

    function View(): Tail
      reads this
    {
      Tail(source, highWater, terminal, sealed, checked, barriers, liveIdentity, liveRevision, out)
    }

    ghost predicate Valid()
      reads this
    {
      Inv(seen, run, start, View())
    }

    /** `log` is what the cursor was checked against before the stream opened. */
    constructor (run: string, start: nat, ghost log: Log)
      requires Ordered(log) && start <= HighWater(log)
      ensures Valid() && this.run == run && this.start == start && seen == log && View() == NewTail(start)
    {
      this.run, this.start := run, start;
      source, highWater, terminal := start, 0, false;
      sealed, checked, barriers := {}, {}, map[];
      liveIdentity, liveRevision, out := None, 0, [];
      seen := log;
      new;
      NewTailInv(log, run, start);
    }

    ghost method Observe(log: Log)
      requires Valid() && Extends(seen, log) && Ordered(log)
      modifies this`seen
      ensures Valid() && seen == log
    {
      GrowthKeepsInv(seen, log, run, start, View());
      seen := log;
    }

    /** One committed event reaches the client. */
    method DeliverOne(e: Event)
      requires Valid() && !terminal
      requires Between(seen, run, source, e.sequence) == [e] && source < e.sequence <= HighWater(seen)
      modifies this`source, this`barriers, this`sealed, this`out, this`terminal
      ensures Valid() && View() == Delivered(old(View()), e)
    {
      hide Inv, Between;
      DeliveryKeepsInv(seen, run, start, View(), e);
      source := e.sequence;
      if IsBarrier(e) {
        barriers := barriers[e.turn := if e.turn in barriers && barriers[e.turn] > e.sequence
                                       then barriers[e.turn] else e.sequence];
      }
      if e.kind.AssistantMessage? {
        sealed := sealed + {(e.turn, e.message)};
      }
      out := out + [Committed(e)];
      if IsTerminal(e) {
        terminal := true;
      }
    }

    /** The record loop of `_drain_postgres` over one page. */
    method DeliverPage(records: seq<Event>) returns (ok: bool)
      requires Valid() && !terminal && records == FirstPage(Projected(seen, run, source))
      modifies this`source, this`barriers, this`sealed, this`out, this`terminal
      ensures Valid() && old(out) <= out
      ensures !ok ==> !terminal
      ensures ok <==> forall e :: e in UpToTerminal(records) ==> !Malformed(e)
      ensures ok && !terminal ==> Projected(seen, run, source) == Projected(seen, run, old(source))[|records|..]
      ensures ok && !terminal ==> |CommittedOf(out)| == |CommittedOf(old(out))| + |records|
      ensures terminal ==> out != [] && out[|out| - 1].Committed? && IsTerminal(out[|out| - 1].event)
    {
      hide Inv, Between, UpToTerminal, Ordered, CommittedOf;
      ghost var all := Projected(seen, run, source);
      InvFacts(seen, run, start, View());
      for k := 0 to |records|
        invariant Valid() && !terminal && old(out) <= out
        invariant Projected(seen, run, source) == all[k..]
        invariant |CommittedOf(out)| == |CommittedOf(old(out))| + k
        invariant forall j :: 0 <= j < k ==> !Malformed(records[j]) && !IsTerminal(records[j])
      {
        var e := records[k];
        assert all[k..][0] == e;
        StopsHere(records, k);
        if Malformed(e) {
          return false;
        }
        ProjectedSplit(seen, run, source, 0);
        assert all[k..][..1] == [e] && all[k..][1..] == all[k + 1..];
        AppendedViews(out, Committed(e), start);
        DeliverOne(e);
        if terminal { return true; }
      }
      StopsHere(records, |records|);
      ok := true;
    }

    /** `_drain_postgres`: pages until one is short or the run ends. A finished drain
        has delivered exactly what the log owed from the start cursor on. */
    method DrainPostgres(views: seq<PageView>) returns (r: DrainResult)
      requires Valid() && !terminal && Growing(seen, views)
      modifies this
      ensures Valid() && old(out) <= out
      ensures Extends(old(seen), seen) && Extends(seen, Latest(old(seen), views))
      ensures r.Finished? ==>
        && CommittedOf(out) == Delivery(r.view.recordsLog, run, start)
        && HighWater(old(seen)) <= HighWater(r.view.highWaterLog) <= highWater
        && (var at := TerminalSequence(r.view.terminalLog, run, r.view.admissionFailed);
            terminal <==> (out != [] && out[|out| - 1].Committed? && IsTerminal(out[|out| - 1].event))
                          || (at.Some? && at.value <= source))
      ensures !r.Finished? ==> !terminal
      ensures r.Broken? ==> exists e :: e in seen && Mine(e, run) && !WellFormed(e)
      ensures r.StillReading? ==> |CommittedOf(out)| == |CommittedOf(old(out))| + PAGE_SIZE * |views|
      ensures !r.Finished? ==> Stuck(seen, run, |CommittedOf(out)| - |CommittedOf(old(out))|, views)
      ensures checked == old(checked) && liveIdentity == old(liveIdentity) && liveRevision == old(liveRevision)
    {
      hide Inv, Between, CommittedOf, Delivery, TerminalSequence, Extends, Ordered, UpToTerminal, HighWater;
      var rest := views;
      SameExtends(seen);
      while rest != []
        invariant Valid() && !terminal && old(out) <= out
        invariant |rest| <= |views|
        invariant |CommittedOf(out)| == |CommittedOf(old(out))| + PAGE_SIZE * (|views| - |rest|)
        invariant Extends(old(seen), seen) && Growing(seen, rest) && Latest(seen, rest) == Latest(old(seen), views)
        invariant checked == old(checked) && liveIdentity == old(liveIdentity) && liveRevision == old(liveRevision)
        decreases |rest|
      {
        var v := rest[0];
        LatestExtends(seen, rest);
        rest := rest[1..];
        OrderedEarlier(v.recordsLog, v.terminalLog);
        OrderedEarlier(v.highWaterLog, v.recordsLog);
        ExtendsTrans(old(seen), seen, v.highWaterLog);
        OrderedEarlier(old(seen), v.highWaterLog);
        ExtendsTrans(seen, v.highWaterLog, v.recordsLog);
        ExtendsTrans(old(seen), seen, v.recordsLog);
        ExtendsTrans(old(seen), v.recordsLog, v.terminalLog);
        Observe(v.recordsLog);
        var records := FirstPage(Projected(v.recordsLog, run, source));
        PageVisible(v.recordsLog, run, source);
        var water := HighWater(v.highWaterLog);
        if records != [] && records[|records| - 1].sequence > water {
          water := records[|records| - 1].sequence;
        }
        HighWaterKeepsInv(seen, run, start, View(), water);
        highWater := water;
        ghost var from := source;
        var ok := DeliverPage(records);
        if !ok {
          BrokenBy(seen, run, from, records);
          return Broken;
        }
        if terminal {
          TerminalDelivery(seen, run, start, View());
          return Finished(v);
        }
        if |records| < PAGE_SIZE {
          ShortPageDelivery(seen, run, start, View());
          TerminalFlagKeepsInv(seen, run, start, View());
          var at := TerminalSequence(v.terminalLog, run, v.admissionFailed);
          terminal := at.Some? && at.value <= source;
          return Finished(v);
        }
        Observe(v.terminalLog);
      }
      LatestExtends(seen, rest);
      r := StillReading;
    }

    /** `_load_committed_overlay_projection` for an identity not looked up before.
        Returns false when the overlay is already outdated or sealed. */
    method LookUp(live: Live, barrierLog: Log, sealLog: Log) returns (ok: bool, usable: bool)
      requires Valid() && Extends(seen, barrierLog) && Extends(barrierLog, sealLog) && Ordered(sealLog)
      requires IdentityOf(live) !in checked && IdentityOf(live) !in sealed
      modifies this`barriers, this`sealed, this`checked, this`seen
      ensures Valid() && seen == sealLog
      ensures ok <==> Consistent(sealLog, run, live)
      ensures ok && usable ==>
        && View() == LookedUp(old(View()), run, live, barrierLog)
        && live.turn in barriers && barriers[live.turn] <= live.afterSequence
      ensures ok ==>
        (usable <==> && (live.turn in old(barriers) ==> old(barriers)[live.turn] <= live.afterSequence)
                     && LastBarrier(barrierLog, run, live.turn) <= live.afterSequence
                     && Seals(sealLog, run, live.message) == [])
    {
      hide Inv, LastBarrier, Seals, Extends, Ordered;
      var barrier := LastBarrier(barrierLog, run, live.turn);
      var seals := Seals(sealLog, run, live.message);
      OrderedEarlier(barrierLog, sealLog);
      Observe(barrierLog);
      if |seals| > 1 || (seals != [] && seals[0].turn != live.turn) {
        Observe(sealLog);
        return false, false;
      }
      BarrierKeepsInv(seen, run, start, View(), live.turn);
      barriers := barriers[live.turn := if live.turn in barriers && barriers[live.turn] > barrier
                                        then barriers[live.turn] else barrier];
      if live.afterSequence < barriers[live.turn] {
        Observe(sealLog);
        return true, false;
      }
      if seals != [] {
        Observe(sealLog);
        SealsMembers(sealLog, run, live.message);
        assert seals[0] in seals;
        SealKeepsInv(seen, run, start, View(), IdentityOf(live));
        sealed := sealed + {IdentityOf(live)};
        return true, false;
      }
      SealsMembers(sealLog, run, live.message);
      EarlierUnsealed(barrierLog, sealLog, run, live.message);
      CheckKeepsInv(seen, run, start, View(), IdentityOf(live));
      checked := checked + {IdentityOf(live)};
      Observe(sealLog);
      return true, true;
    }

    /** `_stream_live_candidate`. `caught` is the tail once it has caught up with the
        candidate, by a drain if it must; it is absent when that drain does not finish. From
        there the overlay is shown exactly when it survives every test, and what is shown is
        fresh for the client. */
    method StreamLiveCandidate(live: Live, views: seq<PageView>, barrierLog: Log, sealLog: Log)
      returns (ok: bool, ghost caught: Option<Tail>)
      requires Valid() && !terminal && Growing(seen, views)
      requires Extends(Latest(seen, views), barrierLog) && Extends(barrierLog, sealLog) && Ordered(sealLog)
      modifies this
      ensures Valid() && old(out) <= out && Extends(old(seen), seen) && Extends(seen, sealLog)
      ensures live.afterSequence <= old(highWater) ==> caught == Some(old(View()))
      ensures caught.None? ==> !ok && Stuck(seen, run, |CommittedOf(out)| - |CommittedOf(old(out))|, views)
      ensures caught.Some? && live.afterSequence > old(highWater) ==> HighWater(old(seen)) <= caught.value.highWater
      ensures !ok ==>
        || Stuck(seen, run, |CommittedOf(out)| - |CommittedOf(old(out))|, views)
        || live.afterSequence > HighWater(old(seen)) || !Consistent(sealLog, run, live)
      ensures caught.Some? ==>
        var t := caught.value;
        && old(out) <= t.out && t.checked == old(checked)
        && t.liveIdentity == old(liveIdentity) && t.liveRevision == old(liveRevision)
        && (t.terminal || live.afterSequence > t.highWater ==> View() == t && ok == t.terminal)
        && (!t.terminal && live.afterSequence <= t.highWater ==>
              && (ok <==> (NeedsLookUp(t, live) ==> Consistent(sealLog, run, live)))
              && (if Shown(t, run, live, barrierLog, sealLog)
                  then View() == Overlaid(LookedUp(t, run, live, barrierLog), live)
                  else out == t.out && terminal == t.terminal))
    {
      hide Inv, LastBarrier, Seals, Extends, Ordered, Growing, Latest;
      SameExtends(seen);
      LatestExtends(seen, views);
      ExtendsTrans(Latest(seen, views), barrierLog, sealLog);
      ExtendsTrans(seen, Latest(seen, views), sealLog);
      ExtendsTrans(seen, Latest(seen, views), barrierLog);
      caught := None;
      if live.afterSequence > highWater {
        var drained := DrainPostgres(views);
        ExtendsTrans(seen, Latest(old(seen), views), sealLog);
        ExtendsTrans(seen, Latest(old(seen), views), barrierLog);
        if drained.Broken? || drained.StillReading? {
          return false, caught;
        }
        caught := Some(View());
        if terminal {
          return true, caught;
        }
        if live.afterSequence > highWater {
          return false, caught;
        }
      }
      caught := Some(View());
      ghost var before := seen;
      ok := ShowCandidate(live, barrierLog, sealLog);
      ExtendsTrans(old(seen), before, seen);
    }

    /** The tests of a candidate that is within the observed high water. */
    method ShowCandidate(live: Live, barrierLog: Log, sealLog: Log) returns (ok: bool)
      requires Valid() && !terminal && live.afterSequence <= highWater
      requires Extends(seen, barrierLog) && Extends(barrierLog, sealLog) && Ordered(sealLog)
      modifies this
      ensures Valid() && Extends(old(seen), seen) && Extends(seen, sealLog)
      ensures ok <==> (NeedsLookUp(old(View()), live) ==> Consistent(sealLog, run, live))
      ensures IdentityOf(live) in old(sealed) || IdentityOf(live) in old(checked) ==> ok
      ensures live.turn in old(barriers) && live.afterSequence < old(barriers)[live.turn] ==> ok
      ensures if Shown(old(View()), run, live, barrierLog, sealLog)
              then View() == Overlaid(LookedUp(old(View()), run, live, barrierLog), live)
              else out == old(out) && terminal == old(terminal)
    {
      hide Inv, LastBarrier, Extends, Ordered;
      SameExtends(seen);
      ExtendsTrans(seen, barrierLog, sealLog);
      if live.turn in barriers && live.afterSequence < barriers[live.turn] {
        return true;
      }
      var id := IdentityOf(live);
      if id in sealed {
        return true;
      }
      if id !in checked {
        var usable;
        ok, usable := LookUp(live, barrierLog, sealLog);
        SameExtends(sealLog);
        if !ok || !usable {
          return;
        }
      }
      if liveIdentity == Some(id) && live.revision <= liveRevision {
        return true;
      }
      OverlayKeepsInv(seen, run, start, View(), live);
      liveIdentity, liveRevision := Some(id), live.revision;
      out := out + [Overlay(live)];
      ok := true;
    }

    /** The tail loop: any succession of drains and overlay candidates, ended by the
        run's end or a failure. However the log grows in between, what the client
        has received at the end satisfies its whole contract. */
    method StreamItems(script: seq<Turn>) returns (ok: bool, used: nat)
      requires Valid() && !terminal && ScriptGrows(seen, script)
      modifies this
      ensures Valid() && ClientView(seen, run, start, out) && old(out) <= out
      ensures used <= |script| && (ok && !terminal ==> used == |script|)
      ensures !ok ==> used > 0 && Excused(old(seen), seen, run, |CommittedOf(out)| - |CommittedOf(old(out))|,
                                          script[used - 1])
    {
      hide Inv, Extends, Growing, Latest, ClientView, Ordered, CommittedOf, Stuck, Consistent, HighWater;
      ok, used := true, 0;
      ghost var bound := seen;
      SameExtends(seen);
      while used < |script| && ok && !terminal
        invariant used <= |script| && Valid() && old(out) <= out && Extends(old(seen), seen)
        invariant Extends(seen, bound) && ScriptGrows(bound, script[used..])
        invariant !ok ==> used > 0 && Excused(old(seen), seen, run, |CommittedOf(out)| - |CommittedOf(old(out))|,
                                              script[used - 1])
        decreases |script| - used, ok
      {
        ghost var before, sent := seen, out;
        InvFacts(seen, run, start, View());
        var turn := script[used];
        assert script[used..][1..] == script[used + 1..];
        used := used + 1;
        EarlierStart(seen, bound, turn.views);
        match turn {
          case DrainTurn(views) =>
            var r := DrainPostgres(views);
            ExtendsTrans(seen, Latest(before, views), Latest(bound, views));
            ok := r.Finished?;
            bound := Latest(bound, views);
          case CandidateTurn(live, views, barrierLog, sealLog) =>
            ExtendsTrans(Latest(seen, views), Latest(bound, views), barrierLog);
            ghost var caught;
            ok, caught := StreamLiveCandidate(live, views, barrierLog, sealLog);
            bound := sealLog;
        }
        if !ok {
          ExcusedStays(old(seen), before, seen, run, old(out), sent, out, turn);
        }
        ExtendsTrans(old(seen), before, seen);
      }
      InvFacts(seen, run, start, View());
    }
  }

  /** A run in which revisions go back: a message at revision 2, another message, and then
      the first message again at revision 1. */
  method OlderRevisionAfterOtherMessage(log: Log, run: string, turn: string, message: string, other: string)
    returns (out: seq<Item>)
    requires Ordered(log) && message != other && forall e :: e in log ==> !Mine(e, run)
    ensures var a, b := Live(turn, message, 0, 2, ""), Live(turn, other, 0, 1, "");
            out == [Overlay(a), Overlay(b), Overlay(a.(revision := 1))]
  {
    hide Inv, Extends, Ordered, Growing, Latest, Mine, LastBarrier, Seals;
    var a, b := Live(turn, message, 0, 2, ""), Live(turn, other, 0, 1, "");
    NothingCommitted(log, run, turn, message);
    NothingCommitted(log, run, turn, other);
    var tail := new TailStream(run, 0, log);
    StillGrowing(log);
    var ok;
    ghost var caught;
    ok, caught := tail.StreamLiveCandidate(a, [], log, log);
    BackAtLog(tail.seen, log);
    ok, caught := tail.StreamLiveCandidate(b, [], log, log);
    BackAtLog(tail.seen, log);
    ok, caught := tail.StreamLiveCandidate(a.(revision := 1), [], log, log);
    out := tail.out;
  }

  lemma StillGrowing(log: Log)
    ensures Growing(log, []) && Latest(log, []) == log && Extends(log, log)
  {
  }

  /** A log between a log and itself. */
  lemma BackAtLog(seen: Log, log: Log)
    requires Extends(log, seen) && Extends(seen, log)
    ensures seen == log
  {
  }

  lemma {:induction false} NothingCommitted(log: Log, run: string, turn: string, message: string)
    requires forall e :: e in log ==> !Mine(e, run)
    ensures LastBarrier(log, run, turn) == 0 && Seals(log, run, message) == []
  {
    if log != [] { NothingCommitted(log[..|log| - 1], run, turn, message); }
  }
}
