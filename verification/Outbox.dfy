/** The terminal outbox: waking the waiters of a finished job page by page, and
    acknowledging the job only once every page has been delivered. Continuation cursors
    live in memory and may be lost at any time. */
module Outbox {
  import opened Utf8
  import opened Wrappers

  datatype Cursor = Cursor(checkpointId: Text, toolCallId: Text)

  datatype Key = Key(jobId: string, generation: int)

  datatype Event = Event(jobId: string, eventType: string, published: bool, generation: int)

  // A reply that is not an object with exactly the expected members is `Malformed`.
  datatype WakeReply = WakePage(disposition: string, checked: int, next: Option<Cursor>) | Malformed | NoWakeReply

  datatype PublishReply = PublishReply(disposition: string) | NoPublishReply

  /** Calls this process made: a wake with the reply it got, good or bad, and a publish
      request from the moment it is sent. */
  datatype Call =
    | Wake(key: Key, after: Option<Cursor>, reply: WakeReply)
    | Publish(key: Key)

  predicate ValidJobId(id: string) {
    && 1 <= |id| <= 160
    && forall i :: 0 <= i < |id| ==>
         var c := id[i]; 'a' <= c <= 'z' || 'A' <= c <= 'Z' || '0' <= c <= '9' || c in "_-:."
  }

  predicate ValidEvent(e: Event) {
    ValidJobId(e.jobId) && e.eventType == "runtime_job.terminal" && !e.published && 0 <= e.generation <= 4_294_967_295
  }

  /** What the runtime lists for a finished job. */
  function TerminalEvent(jobId: string, generation: int): Event {
    Event(jobId, "runtime_job.terminal", false, generation)
  }

  /** Exactly such events of a proper job are served. */
  lemma ValidEventIff(e: Event)
    ensures ValidEvent(e)
            <==> && e == TerminalEvent(e.jobId, e.generation)
                 && ValidJobId(e.jobId) && 0 <= e.generation < 0x1_0000_0000
  {
  }

  datatype Next = Next(cursor: Option<Cursor>) | Refused

  /** `waiter_page_next`: a continuation must name something, move, and follow work. */
  function PageNext(reply: WakeReply, after: Option<Cursor>): Next {
    if !reply.WakePage? || reply.disposition !in {"woken", "no_waiter"} || !(0 <= reply.checked <= 256) then Refused
    else if reply.next.None? then Next(None)
    else if Blank(reply.next.value.checkpointId) || Blank(reply.next.value.toolCallId)
            || reply.next == after || reply.checked == 0 then Refused
    else Next(reply.next)
  }

  /** A reply that can be true: it says what became of the waiters of one page, and a
      continuation names a place other than the one asked for, after some waiter. */
  predicate Genuine(reply: WakeReply, after: Option<Cursor>) {
    && reply.WakePage? && reply.disposition in {"woken", "no_waiter"} && 0 <= reply.checked <= 256
    && (reply.next.Some? ==>
          && !Blank(reply.next.value.checkpointId) && !Blank(reply.next.value.toolCallId)
          && reply.next != after && reply.checked > 0)
  }

  /** Exactly the genuine replies are accepted, and what is taken from one is its own
      continuation. */
  lemma PageNextIff(reply: WakeReply, after: Option<Cursor>)
    ensures Genuine(reply, after) ==> reply.WakePage?
    ensures PageNext(reply, after) == if Genuine(reply, after) then Next(reply.next) else Refused
  {
    hide Blank;
  }

  // ---------------------------------------------------------------- what has been delivered

  /** The wake call delivered a page of `key` that ends at `next`. */
  predicate Delivers(call: Call, key: Key, next: Option<Cursor>) {
    call.Wake? && call.key == key && Genuine(call.reply, call.after) && call.reply.next == next
  }

  /** Pages delivered for `key` lead from the beginning to cursor `c`. */
  predicate Reached(log: seq<Call>, key: Key, c: Option<Cursor>)
    decreases |log|
  {
    c.None? || (log != [] && (
      var rest, last := log[..|log| - 1], log[|log| - 1];
      || (Delivers(last, key, c) && Reached(rest, key, last.after))
      || Reached(rest, key, c)))
  }

  /** They lead from the beginning to the end. */
  predicate Completed(log: seq<Call>, key: Key)
    decreases |log|
  {
    log != [] && (
      var rest, last := log[..|log| - 1], log[|log| - 1];
      || (Delivers(last, key, None) && Reached(rest, key, last.after))
      || Completed(rest, key))
  }

  /** Every publish request comes after a completed fan-out of its own key. */
  predicate NeverEarly(log: seq<Call>)
    decreases |log|
  {
    log == [] || (
      var rest, last := log[..|log| - 1], log[|log| - 1];
      NeverEarly(rest) && (last.Publish? ==> Completed(rest, last.key)))
  }

  predicate Standing(cursors: map<Key, Cursor>, log: seq<Call>) {
    forall k :: k in cursors ==> Reached(log, k, Some(cursors[k]))
  }

  lemma OneMore(log: seq<Call>, call: Call)
    ensures (log + [call])[..|log + [call]| - 1] == log && (log + [call])[|log + [call]| - 1] == call
  {
  }

  lemma StandingStays(cursors: map<Key, Cursor>, log: seq<Call>, call: Call)
    requires Standing(cursors, log)
    ensures Standing(cursors, log + [call])
  {
    OneMore(log, call);
  }

  // ---------------------------------------------------------------- a round

  datatype State = State(cursors: map<Key, Cursor>, log: seq<Call>)

  predicate Inv(s: State) {
    Standing(s.cursors, s.log) && NeverEarly(s.log)
  }

  datatype Served = Served(state: State, raised: bool)

  function After(cursors: map<Key, Cursor>, key: Key): Option<Cursor> {
    if key in cursors then Some(cursors[key]) else None
  }

  predicate Accepted(reply: PublishReply) {
    reply.PublishReply? && reply.disposition in {"published", "already_published", "stale"}
  }

  /** One event of a round, with the replies it meets. */
  function Serve(s: State, e: Event, wake: WakeReply, ack: PublishReply): Served {
    if !ValidEvent(e) then Served(s, true)
    else
      var key := Key(e.jobId, e.generation);
      var after := After(s.cursors, key);
      var log := s.log + [Wake(key, after, wake)];
      match PageNext(wake, after)
      case Refused => Served(State(s.cursors, log), true)
      case Next(Some(c)) => Served(State(s.cursors[key := c], log), false)
      case Next(None) =>
        if Accepted(ack) then Served(State(s.cursors - {key}, log + [Publish(key)]), false)
        else Served(State(s.cursors, log + [Publish(key)]), true)
  }

  /** The first `n` events of a round, stopping at the first exception. */
  function ServeAll(s: State, events: seq<Event>, wakes: seq<WakeReply>, acks: seq<PublishReply>, n: nat): Served
    requires |events| == |wakes| == |acks| && n <= |events|
  {
    if n == 0 then Served(s, false)
    else
      var before := ServeAll(s, events, wakes, acks, n - 1);
      if before.raised then before else Serve(before.state, events[n - 1], wakes[n - 1], acks[n - 1])
  }

  function Visible(events: seq<Event>): set<Key> {
    set e | e in events :: Key(e.jobId, e.generation)
  }

  /** A whole round: what `dispatch_terminal_once` leaves behind. */
  function Round(s: State, events: seq<Event>, wakes: seq<WakeReply>, acks: seq<PublishReply>): Served
    requires |events| == |wakes| == |acks|
  {
    var r := ServeAll(s, events, wakes, acks, |events|);
    if r.raised then r
    else Served(r.state.(cursors := r.state.cursors - (r.state.cursors.Keys - Visible(events))), false)
  }

  function KeyOf(e: Event): Key {
    Key(e.jobId, e.generation)
  }

  /** What serving one event does, in terms of the reply alone: the wake call is always
      made, a publish request follows exactly on a genuine reply without a continuation, and
      the cursor kept is the continuation of the reply. */
  lemma ServedByReply(s: State, e: Event, wake: WakeReply, ack: PublishReply)
    requires ValidEvent(e)
    ensures var key, r := KeyOf(e), Serve(s, e, wake, ack);
            var after, good := After(s.cursors, key), Genuine(wake, After(s.cursors, key));
            && r.state.log == s.log + [Wake(key, after, wake)]
                              + (if good && wake.next.None? then [Publish(key)] else [])
            && (r.raised <==> !good || (wake.next.None? && !Accepted(ack)))
            && After(r.state.cursors, key) == (if r.raised then after else wake.next)
            && r.state.cursors - {key} == s.cursors - {key}
  {
    hide PageNext, Genuine, Accepted, ValidEvent;
    PageNextIff(wake, After(s.cursors, KeyOf(e)));
    assert forall log: seq<Call> :: log + [] == log;
  }

  /** An event that is not in order stops the round before any call is made for it; for any
      other event one is made. */
  lemma InvalidStops(s: State, e: Event, wake: WakeReply, ack: PublishReply)
    ensures !ValidEvent(e) ==> Serve(s, e, wake, ack) == Served(s, true)
    ensures ValidEvent(e) ==> |Serve(s, e, wake, ack).state.log| > |s.log|
  {
    hide PageNext, Accepted, ValidEvent;
  }

  lemma ServeKeepsInv(s: State, e: Event, wake: WakeReply, ack: PublishReply)
    requires Inv(s)
    ensures Inv(Serve(s, e, wake, ack).state)
  {
    hide Reached, NeverEarly, Completed, Genuine, PageNext;
    var key := Key(e.jobId, e.generation);
    var after := After(s.cursors, key);
    if ValidEvent(e) {
      PageNextIff(wake, after);
      FromTheStart(s.log, key);
      var call := Wake(key, after, wake);
      WakeAdvances(s.log, key, after, wake);
      StandingStays(s.cursors, s.log, call);
      if Genuine(wake, after) && wake.next.None? {
        StandingStays(s.cursors, s.log + [call], Publish(key));
        PublishIsInTime(s.log + [call], key);
      }
    }
  }

  lemma FromTheStart(log: seq<Call>, key: Key)
    ensures Reached(log, key, None)
  {
  }

  lemma WakeAdvances(log: seq<Call>, key: Key, after: Option<Cursor>, reply: WakeReply)
    requires NeverEarly(log) && Reached(log, key, after)
    ensures var log' := log + [Wake(key, after, reply)];
            && NeverEarly(log')
            && (Genuine(reply, after) ==>
                  Reached(log', key, reply.next) && (reply.next.None? ==> Completed(log', key)))
  {
    hide Genuine;
    OneMore(log, Wake(key, after, reply));
  }

  lemma PublishIsInTime(log: seq<Call>, key: Key)
    requires NeverEarly(log) && Completed(log, key)
    ensures NeverEarly(log + [Publish(key)])
  {
    OneMore(log, Publish(key));
  }

  lemma {:induction false} ServeAllKeepsInv(s: State, events: seq<Event>, wakes: seq<WakeReply>,
                                            acks: seq<PublishReply>, n: nat)
    requires Inv(s) && |events| == |wakes| == |acks| && n <= |events|
    ensures Inv(ServeAll(s, events, wakes, acks, n).state)
  {
    hide Inv, Serve;
    if n > 0 {
      ServeAllKeepsInv(s, events, wakes, acks, n - 1);
      var before := ServeAll(s, events, wakes, acks, n - 1);
      ServeKeepsInv(before.state, events[n - 1], wakes[n - 1], acks[n - 1]);
    }
  }

  lemma RoundKeepsInv(s: State, events: seq<Event>, wakes: seq<WakeReply>, acks: seq<PublishReply>)
    requires Inv(s) && |events| == |wakes| == |acks|
    ensures Inv(Round(s, events, wakes, acks).state)
  {
    hide ServeAll, Reached, NeverEarly;
    ServeAllKeepsInv(s, events, wakes, acks, |events|);
  }

  /** The dispatcher object. `log` is what it has done since it was created. */
  class TerminalDispatcher {
    var cursors: map<Key, Cursor>
    ghost var log: seq<Call>

    ghost function View(): State
      reads this
    {
      State(cursors, log)
    }

    constructor ()
      ensures View() == State(map[], []) && Inv(View())
    {
      cursors, log := map[], [];
    }

    /** Cursors of events no longer pending are dropped. */
    method Prune(visible: set<Key>)
      modifies this`cursors
      ensures cursors == old(cursors) - (old(cursors).Keys - visible)
    {
      var keys := cursors.Keys;
      while keys != {}
        invariant keys <= old(cursors).Keys
        invariant cursors == old(cursors) - ((old(cursors).Keys - keys) - visible)
        decreases keys
      {
        var key :| key in keys;
        keys := keys - {key};
        if key !in visible { cursors := cursors - {key}; }
      }
      assert old(cursors).Keys - {} == old(cursors).Keys;
    }

    /** One round. `pending` is absent when the request for events fails; the replies
        to the calls made for each event are arbitrary. */
    method DispatchOnce(pending: Option<seq<Event>>, wakes: seq<WakeReply>, acks: seq<PublishReply>)
      returns (r: Option<nat>)
      requires Inv(View())
      requires pending.Some? ==> |pending.value| == |wakes| == |acks|
      modifies this
      ensures Inv(View())
      ensures if pending.None? then View() == old(View()) && r.None?
              else var round := Round(old(View()), pending.value, wakes, acks);
                   View() == round.state && r == if round.raised then None else Some(|pending.value|)
      ensures r.Some? ==> cursors.Keys <= Visible(pending.value)
    {
      hide Inv, Reached, NeverEarly, Completed, Standing;
      if pending.None? { return None; }
      var events := pending.value;
      RoundKeepsInv(View(), events, wakes, acks);
      for i := 0 to |events|
        invariant ServeAll(old(View()), events, wakes, acks, i) == Served(View(), false)
      {
        var e := events[i];
        if ServeAll(old(View()), events, wakes, acks, i + 1).raised {
          ServeAllStops(old(View()), events, wakes, acks, i + 1);
        }
        if !ValidEvent(e) { return None; }
        var key := Key(e.jobId, e.generation);
        var after := if key in cursors then Some(cursors[key]) else None;
        log := log + [Wake(key, after, wakes[i])];
        var next := PageNext(wakes[i], after);
        if next.Refused? { return None; }
        if next.cursor.Some? {
          cursors := cursors[key := next.cursor.value];
        } else {
          log := log + [Publish(key)];
          if !Accepted(acks[i]) { return None; }
          cursors := cursors - {key};
        }
      }
      Prune(Visible(events));
      r := Some(|events|);
    }
  }

  /** An exception ends the round where it happened. */
  lemma {:induction false} ServeAllStops(s: State, events: seq<Event>, wakes: seq<WakeReply>,
                                        acks: seq<PublishReply>, n: nat)
    requires |events| == |wakes| == |acks| && n <= |events|
    requires ServeAll(s, events, wakes, acks, n).raised
    ensures ServeAll(s, events, wakes, acks, |events|) == ServeAll(s, events, wakes, acks, n)
    decreases |events| - n
  {
    hide Serve;
    if n < |events| { ServeAllStops(s, events, wakes, acks, n + 1); }
  }

  // ---------------------------------------------------------------- whole runs

  /** A restart, or a lost cursor table, forgets the cursors but not what was done. */
  datatype Happening = Restart | Dispatch(events: seq<Event>, wakes: seq<WakeReply>, acks: seq<PublishReply>)

  function Happens(s: State, h: Happening): State {
    match h
    case Restart => s.(cursors := map[])
    case Dispatch(events, wakes, acks) =>
      if |events| == |wakes| == |acks| then Round(s, events, wakes, acks).state else s
  }

  function History(s: State, run: seq<Happening>): State {
    if run == [] then s else Happens(History(s, run[..|run| - 1]), run[|run| - 1])
  }

  /** In every run, whatever fails and whenever cursors are lost, no job generation is
      published early and every retained cursor stands for delivered pages. */
  lemma {:induction false} EveryRunDelivers(run: seq<Happening>)
    ensures Inv(History(State(map[], []), run))
  {
    hide Reached, NeverEarly, Round;
    if run == [] {
      assert NeverEarly([]) by { EmptyLog(); }
    } else {
      var before := History(State(map[], []), run[..|run| - 1]);
      EveryRunDelivers(run[..|run| - 1]);
      match run[|run| - 1] {
        case Restart =>
        case Dispatch(events, wakes, acks) =>
          if |events| == |wakes| == |acks| { RoundKeepsInv(before, events, wakes, acks); }
      }
    }
  }

  lemma EmptyLog()
    ensures NeverEarly([])
  {
  }

  // ---------------------------------------------------------------- progress

  /** The cursor the next wake call of a key starts from after these replies. */
  function Last(after: Option<Cursor>, wakes: seq<WakeReply>): Option<Cursor> {
    if wakes == [] || !wakes[|wakes| - 1].WakePage? then after else wakes[|wakes| - 1].next
  }

  /** Each reply is genuine where it arrives, and only the last reports the end. */
  predicate Answers(after: Option<Cursor>, wakes: seq<WakeReply>) {
    wakes == [] || (
      var front, last := wakes[..|wakes| - 1], wakes[|wakes| - 1];
      && Answers(after, front) && (front != [] ==> Last(after, front).Some?)
      && Genuine(last, Last(after, front)))
  }

  /** One event served in successive rounds; an intermediate publish reply is never asked for. */
  function ServeOn(s: State, e: Event, wakes: seq<WakeReply>, ack: PublishReply): State {
    if wakes == [] then s else Serve(ServeOn(s, e, wakes[..|wakes| - 1], ack), e, wakes[|wakes| - 1], ack).state
  }

  lemma ServeStep(s: State, e: Event, wake: WakeReply, ack: PublishReply)
    requires ValidEvent(e) && Accepted(ack)
    requires Genuine(wake, After(s.cursors, Key(e.jobId, e.generation)))
    ensures var key := Key(e.jobId, e.generation); var s' := Serve(s, e, wake, ack).state;
            && s'.cursors - {key} == s.cursors - {key} && After(s'.cursors, key) == wake.next && s'.log != []
            && s'.log[|s'.log| - 1] == if wake.next.None? then Publish(key)
                                       else Wake(key, After(s.cursors, key), wake)
  {
    hide ValidEvent, PageNext, Accepted, Genuine, Serve;
    ServedByReply(s, e, wake, ack);
  }

  /** Each round continues where the last one stopped, and a round whose reply has no next
      page publishes the key and forgets its cursor. */
  lemma {:induction false} FanOutAdvances(s: State, e: Event, wakes: seq<WakeReply>, ack: PublishReply)
    requires ValidEvent(e) && Key(e.jobId, e.generation) !in s.cursors && Accepted(ack)
    requires wakes != [] && Answers(None, wakes)
    ensures var key := Key(e.jobId, e.generation); var s' := ServeOn(s, e, wakes, ack);
            && s'.cursors - {key} == s.cursors
            && After(s'.cursors, key) == Last(None, wakes)
            && (Last(None, wakes).None? <==> s'.log != [] && s'.log[|s'.log| - 1] == Publish(key))
    decreases |wakes|
  {
    hide ValidEvent, PageNext, Accepted, Serve, Genuine;
    var key := Key(e.jobId, e.generation);
    var front, last := wakes[..|wakes| - 1], wakes[|wakes| - 1];
    if front != [] {
      FanOutAdvances(s, e, front, ack);
    } else {
      assert ServeOn(s, e, [], ack) == s;
    }
    var before := ServeOn(s, e, front, ack);
    ServeStep(before, e, last, ack);
    PageNextIff(last, Last(None, front));
    assert before.cursors - {key} == s.cursors;
  }

  // ---------------------------------------------------------------- a round as a whole

  /** The keys of the wake calls, in the order they were made. */
  function Woken(log: seq<Call>): seq<Key> {
    if log == [] then []
    else Woken(log[..|log| - 1]) + (if log[|log| - 1].Wake? then [log[|log| - 1].key] else [])
  }

  function KeysOf(events: seq<Event>): seq<Key> {
    seq(|events|, i requires 0 <= i < |events| => KeyOf(events[i]))
  }

  lemma WokenStep(log: seq<Call>, call: Call)
    ensures Woken(log + [call]) == Woken(log) + if call.Wake? then [call.key] else []
  {
    OneMore(log, call);
  }

  /** No event with this key comes after position `i` among the first `n`. */
  predicate LastOfKey(events: seq<Event>, i: nat, n: nat)
    requires i < n <= |events|
  {
    forall j :: i < j < n ==> KeyOf(events[j]) != KeyOf(events[i])
  }

  lemma ServeWakes(s: State, e: Event, wake: WakeReply, ack: PublishReply)
    requires !Serve(s, e, wake, ack).raised
    ensures var s' := Serve(s, e, wake, ack).state;
            && Woken(s'.log) == Woken(s.log) + [KeyOf(e)]
            && wake.WakePage? && After(s'.cursors, KeyOf(e)) == wake.next
            && forall k :: k != KeyOf(e) ==> After(s'.cursors, k) == After(s.cursors, k)
  {
    hide Woken, PageNext, Genuine, Accepted;
    assert ValidEvent(e);
    var call := Wake(KeyOf(e), After(s.cursors, KeyOf(e)), wake);
    PageNextIff(wake, After(s.cursors, KeyOf(e)));
    WokenStep(s.log, call);
    WokenStep(s.log + [call], Publish(KeyOf(e)));
    ServedByReply(s, e, wake, ack);
    assert Woken(s.log) + [KeyOf(e)] + [] == Woken(s.log) + [KeyOf(e)];
  }

  lemma {:induction false} ServeAllWakes(s: State, events: seq<Event>, wakes: seq<WakeReply>,
                                         acks: seq<PublishReply>, n: nat)
    requires |events| == |wakes| == |acks| && n <= |events| && !ServeAll(s, events, wakes, acks, n).raised
    ensures var s' := ServeAll(s, events, wakes, acks, n).state;
            && Woken(s'.log) == Woken(s.log) + KeysOf(events[..n])
            && (forall i :: 0 <= i < n && LastOfKey(events, i, n) ==>
                  wakes[i].WakePage? && After(s'.cursors, KeyOf(events[i])) == wakes[i].next)
  {
    hide Woken, Serve;
    if n == 0 {
      assert Woken(s.log) + KeysOf(events[..0]) == Woken(s.log);
    } else {
      ServeAllWakes(s, events, wakes, acks, n - 1);
      var before := ServeAll(s, events, wakes, acks, n - 1).state;
      ServeWakes(before, events[n - 1], wakes[n - 1], acks[n - 1]);
      assert KeysOf(events[..n]) == KeysOf(events[..n - 1]) + [KeyOf(events[n - 1])];
      forall i | 0 <= i < n - 1 && LastOfKey(events, i, n) ensures LastOfKey(events, i, n - 1) {
      }
    }
  }

  /** A round that ends without an exception has made one wake call per pending event, in
      order, and keeps for each pending key exactly the continuation of its last reply, and
      nothing for any other key. */
  lemma RoundServesAll(s: State, events: seq<Event>, wakes: seq<WakeReply>, acks: seq<PublishReply>)
    requires |events| == |wakes| == |acks| && !Round(s, events, wakes, acks).raised
    ensures var s' := Round(s, events, wakes, acks).state;
            && Woken(s'.log) == Woken(s.log) + KeysOf(events)
            && s'.cursors.Keys <= Visible(events)
            && forall i :: 0 <= i < |events| && LastOfKey(events, i, |events|) ==>
                 wakes[i].WakePage? && After(s'.cursors, KeyOf(events[i])) == wakes[i].next
  {
    hide Woken, ServeAll;
    ServeAllWakes(s, events, wakes, acks, |events|);
    assert events[..|events|] == events;
    assert forall i :: 0 <= i < |events| ==> KeyOf(events[i]) in Visible(events);
  }

  predicate DistinctKeys(events: seq<Event>) {
    forall i, j :: 0 <= i < j < |events| ==> KeyOf(events[i]) != KeyOf(events[j])
  }

  /** Every event of the round is proper and meets replies that are. */
  predicate AllGood(s: State, events: seq<Event>, wakes: seq<WakeReply>, acks: seq<PublishReply>)
    requires |events| == |wakes| == |acks|
  {
    forall i :: 0 <= i < |events| ==>
      ValidEvent(events[i]) && Genuine(wakes[i], After(s.cursors, KeyOf(events[i]))) && Accepted(acks[i])
  }

  lemma {:induction false} ServeAllCompletes(s: State, events: seq<Event>, wakes: seq<WakeReply>,
                                             acks: seq<PublishReply>, n: nat)
    requires |events| == |wakes| == |acks| && n <= |events|
    requires DistinctKeys(events) && AllGood(s, events, wakes, acks)
    ensures var r := ServeAll(s, events, wakes, acks, n);
            && !r.raised
            && forall j :: n <= j < |events| ==>
                 After(r.state.cursors, KeyOf(events[j])) == After(s.cursors, KeyOf(events[j]))
  {
    hide Serve, ValidEvent, Genuine, Accepted;
    if n > 0 {
      ServeAllCompletes(s, events, wakes, acks, n - 1);
      var before := ServeAll(s, events, wakes, acks, n - 1).state;
      ServedByReply(before, events[n - 1], wakes[n - 1], acks[n - 1]);
      PageNextIff(wakes[n - 1], After(s.cursors, KeyOf(events[n - 1])));
      ServeWakes(before, events[n - 1], wakes[n - 1], acks[n - 1]);
    }
  }

  /** A round raises nothing when every event is proper and every reply genuine. */
  lemma RoundCompletes(s: State, events: seq<Event>, wakes: seq<WakeReply>, acks: seq<PublishReply>)
    requires |events| == |wakes| == |acks| && DistinctKeys(events) && AllGood(s, events, wakes, acks)
    ensures !Round(s, events, wakes, acks).raised
  {
    hide ServeAll, AllGood, DistinctKeys;
    ServeAllCompletes(s, events, wakes, acks, |events|);
  }

  /** A round that ends in an exception loses no cursor but those of keys it published. */
  lemma {:induction false} RaisingKeepsCursors(s: State, events: seq<Event>, wakes: seq<WakeReply>,
                                               acks: seq<PublishReply>, n: nat, k: Key)
    requires |events| == |wakes| == |acks| && n <= |events| && k in s.cursors
    ensures var s' := ServeAll(s, events, wakes, acks, n).state;
            && s.log <= s'.log
            && (k in s'.cursors || Publish(k) in s'.log[|s.log|..])
  {
    hide Serve, PageNext, Genuine, Accepted, ValidEvent;
    if n > 0 {
      RaisingKeepsCursors(s, events, wakes, acks, n - 1, k);
      var before := ServeAll(s, events, wakes, acks, n - 1);
      if !before.raised { ServeDrops(before.state, events[n - 1], wakes[n - 1], acks[n - 1], k); }
    }
  }

  lemma ServeDrops(s: State, e: Event, wake: WakeReply, ack: PublishReply, k: Key)
    ensures var s' := Serve(s, e, wake, ack).state;
            s.log <= s'.log && (k in s.cursors ==> k in s'.cursors || Publish(k) in s'.log[|s.log|..])
  {
    hide PageNext, Genuine, Accepted;
    if ValidEvent(e) {
      PageNextIff(wake, After(s.cursors, KeyOf(e)));
      ServedByReply(s, e, wake, ack);
      var call, s' := Wake(KeyOf(e), After(s.cursors, KeyOf(e)), wake), Serve(s, e, wake, ack).state;
      if s'.log == s.log + [call] + [Publish(KeyOf(e))] {
        assert s'.log[|s.log|..][1] == Publish(KeyOf(e));
      }
    }
  }

  // ---------------------------------------------------------------- the chain itself

  predicate Increasing(positions: seq<nat>, bound: nat) {
    && (forall i :: 0 <= i < |positions| ==> positions[i] < bound)
    && (forall i, j :: 0 <= i < j < |positions| ==> positions[i] < positions[j])
  }

  predicate Continues(log: seq<Call>, p: nat, q: nat) {
    && p < |log| && q < |log| && log[p].Wake? && log[q].Wake?
    && log[p].reply.WakePage? && log[p].reply.next.Some? && log[q].after == log[p].reply.next
  }

  predicate DeliversPage(call: Call, key: Key) {
    call.Wake? && call.key == key && Genuine(call.reply, call.after)
  }

  /** The calls at `positions` are wakes of `key` with genuine replies, each continuing the
      one before, the first from the beginning and the last ending at `c`. */
  ghost predicate Links(log: seq<Call>, key: Key, positions: seq<nat>, c: Option<Cursor>) {
    && Increasing(positions, |log|)
    && (forall i :: 0 <= i < |positions| ==> DeliversPage(log[positions[i]], key))
    && (forall i :: 0 <= i < |positions| - 1 ==> Continues(log, positions[i], positions[i + 1]))
    && (positions != [] ==> log[positions[0]].after.None? && log[positions[|positions| - 1]].reply.next == c)
  }

  lemma {:induction false} ReachedChain(log: seq<Call>, key: Key, c: Option<Cursor>) returns (positions: seq<nat>)
    requires Reached(log, key, c)
    ensures Links(log, key, positions, c) && (positions == [] <==> c.None?)
    decreases |log|
  {
    hide Links;
    if c.None? {
      positions := [];
      NoLinks(log, key, c);
    } else {
      var rest, last := log[..|log| - 1], log[|log| - 1];
      if Delivers(last, key, c) && Reached(rest, key, last.after) {
        var front := ReachedChain(rest, key, last.after);
        ChainGrows(log, key, front, last.after, |log| - 1);
        positions := front + [|log| - 1];
      } else {
        positions := ReachedChain(rest, key, c);
        LinksStay(rest, last, key, positions, c);
        assert rest + [last] == log;
      }
    }
  }

  lemma NoLinks(log: seq<Call>, key: Key, c: Option<Cursor>)
    ensures Links(log, key, [], c)
  {
  }

  lemma LinksStay(log: seq<Call>, call: Call, key: Key, positions: seq<nat>, c: Option<Cursor>)
    requires Links(log, key, positions, c)
    ensures Links(log + [call], key, positions, c)
  {
    assert forall i :: 0 <= i < |positions| ==> (log + [call])[positions[i]] == log[positions[i]];
    forall i | 0 <= i < |positions| - 1 ensures Continues(log + [call], positions[i], positions[i + 1]) {
      assert Continues(log, positions[i], positions[i + 1]);
    }
  }

  lemma ChainGrows(log: seq<Call>, key: Key, front: seq<nat>, after: Option<Cursor>, p: nat)
    requires p < |log| && Links(log[..p], key, front, after) && (front == [] <==> after.None?)
    requires DeliversPage(log[p], key) && log[p].after == after
    ensures Links(log, key, front + [p], log[p].reply.next)
  {
    assert forall i :: 0 <= i < |front| ==> log[..p][front[i]] == log[front[i]];
    var positions := front + [p];
    forall i | 0 <= i < |positions| - 1 ensures Continues(log, positions[i], positions[i + 1]) {
      if i + 1 < |front| { assert Continues(log[..p], front[i], front[i + 1]); }
    }
  }

  /** A published key has a complete chain of genuine replies, from null to null, got
      before the publish request. */
  lemma {:induction false} PublishedChain(log: seq<Call>, p: nat) returns (positions: seq<nat>)
    requires NeverEarly(log) && p < |log| && log[p].Publish?
    ensures Links(log[..p], log[p].key, positions, None) && positions != []
    decreases |log|
  {
    hide Links;
    var rest := log[..|log| - 1];
    if p < |log| - 1 {
      positions := PublishedChain(rest, p);
      assert rest[..p] == log[..p];
    } else {
      positions := CompletedChain(rest, log[p].key);
    }
  }

  lemma {:induction false} CompletedChain(log: seq<Call>, key: Key) returns (positions: seq<nat>)
    requires Completed(log, key)
    ensures Links(log, key, positions, None) && positions != []
    decreases |log|
  {
    hide Links;
    var rest, last := log[..|log| - 1], log[|log| - 1];
    if Delivers(last, key, None) && Reached(rest, key, last.after) {
      var front := ReachedChain(rest, key, last.after);
      ChainGrows(log, key, front, last.after, |log| - 1);
      positions := front + [|log| - 1];
    } else {
      positions := CompletedChain(rest, key);
      LinksStay(rest, last, key, positions, None);
      assert rest + [last] == log;
    }
  }

  /** How many waiters the replies at `positions` say were checked. */
  function Checked(log: seq<Call>, positions: seq<nat>): int
    requires forall i :: 0 <= i < |positions| ==> positions[i] < |log|
  {
    if positions == [] then 0
    else
      var call := log[positions[|positions| - 1]];
      Checked(log, positions[..|positions| - 1])
      + if call.Wake? && call.reply.WakePage? then call.reply.checked else 0
  }

  /** A chain is no longer than its waiters allow: each page but the last checked some. */
  lemma {:induction false} ChainDoesWork(log: seq<Call>, key: Key, positions: seq<nat>, c: Option<Cursor>, n: nat)
    requires Links(log, key, positions, c) && n <= |positions|
    ensures (if n < |positions| then n else n - 1) <= Checked(log, positions[..n])
    ensures 0 <= Checked(log, positions[..n])
    decreases n
  {
    if n > 0 {
      ChainDoesWork(log, key, positions, c, n - 1);
      assert positions[..n][..n - 1] == positions[..n - 1];
      assert DeliversPage(log[positions[n - 1]], key);
      assert n < |positions| ==> Continues(log, positions[n - 1], positions[n - 1 + 1]);
    }
  }

  /** The wake call covers rank `x`, for cursors ordered by `rank`. */
  predicate Spans(call: Call, key: Key, rank: Cursor -> int, x: int) {
    && DeliversPage(call, key)
    && (call.after.None? || rank(call.after.value) < x)
    && (call.reply.next.None? || x <= rank(call.reply.next.value))
  }

  /** Whatever order waiters are paged in, no waiter falls between the pages of a
      complete chain: some call of the chain spans its place. */
  lemma {:induction false} NoWaiterSkipped(log: seq<Call>, key: Key, positions: seq<nat>, n: nat,
                                          rank: Cursor -> int, x: int)
    requires Links(log, key, positions, None) && n < |positions|
    requires n == |positions| - 1
             || (log[positions[n]].reply.next.Some? && x <= rank(log[positions[n]].reply.next.value))
    ensures exists i :: 0 <= i <= n && Spans(log[positions[i]], key, rank, x)
    decreases n
  {
    var call := log[positions[n]];
    if call.after.Some? && x <= rank(call.after.value) {
      assert n > 0 ==> Continues(log, positions[n - 1], positions[n - 1 + 1]);
      NoWaiterSkipped(log, key, positions, n - 1, rank, x);
    } else {
      assert Spans(log[positions[n]], key, rank, x);
    }
  }
}
