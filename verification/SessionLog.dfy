/** The session log as the stream reads it: append-only, and events become visible
    in sequence order. */
module SessionLog {
  datatype EventKind =
    | PhaseEvent | AssistantMessage
    | RunCompleted | RunFailed | RunInterrupted
    | OtherKind(name: string)

  /** `bound` tells whether the payload repeats the identity of its row. */
  datatype Event = Event(
    sequence: nat, run: string, projects: bool, kind: EventKind, turn: string, message: string, bound: bool)

  type Log = seq<Event>

  predicate IsTerminal(e: Event) {
    e.kind.RunCompleted? || e.kind.RunFailed? || e.kind.RunInterrupted?
  }

  predicate IsBarrier(e: Event) {
    e.kind.PhaseEvent? || e.kind.AssistantMessage?
  }

  predicate Ordered(log: Log) {
    && (forall i :: 0 <= i < |log| ==> 0 < log[i].sequence)
    && (forall i, j :: 0 <= i < j < |log| ==> log[i].sequence < log[j].sequence)
  }

  /** `log'` is a later state of `log`. */
  predicate Extends(log: Log, log': Log) {
    log <= log'
  }

  lemma ExtendsTrans(a: Log, b: Log, c: Log)
    requires Extends(a, b) && Extends(b, c)
    ensures Extends(a, c)
  {
  }

  function HighWater(log: Log): nat {
    if log == [] then 0 else log[|log| - 1].sequence
  }

  predicate Mine(e: Event, run: string) {
    e.run == run && e.projects
  }

  /** The run's projected events with sequence in (lo, hi]. */
  function Between(log: Log, run: string, lo: nat, hi: nat): seq<Event> {
    if log == [] then []
    else
      var e := log[|log| - 1];
      Between(log[..|log| - 1], run, lo, hi) + (if Mine(e, run) && lo < e.sequence <= hi then [e] else [])
  }

  /** The run's projected events above `lo`. */
  function Projected(log: Log, run: string, lo: nat): seq<Event> {
    Between(log, run, lo, HighWater(log))
  }

  /** Everything up to and including the first terminal event. */
  function UpToTerminal(events: seq<Event>): seq<Event> {
    if events == [] then []
    else if IsTerminal(events[0]) then [events[0]]
    else [events[0]] + UpToTerminal(events[1..])
  }

  /** What a client that starts after `start` is owed. */
  function Delivery(log: Log, run: string, start: nat): seq<Event> {
    UpToTerminal(Projected(log, run, start))
  }

  lemma OrderedPrefix(log: Log, n: nat)
    requires Ordered(log) && n <= |log|
    ensures Ordered(log[..n]) && HighWater(log[..n]) <= HighWater(log)
    ensures forall i :: n <= i < |log| ==> HighWater(log[..n]) < log[i].sequence
  {
  }

  lemma {:induction false} BetweenMembers(log: Log, run: string, lo: nat, hi: nat)
    ensures forall e :: e in Between(log, run, lo, hi) <==> e in log && Mine(e, run) && lo < e.sequence <= hi
  {
    if log != [] {
      BetweenMembers(log[..|log| - 1], run, lo, hi);
      assert log == log[..|log| - 1] + [log[|log| - 1]];
    }
  }

  /** The past does not change: growth adds nothing at or below a visible sequence. */
  lemma {:induction false} BetweenStable(log: Log, log': Log, run: string, lo: nat, hi: nat)
    requires Ordered(log') && Extends(log, log') && hi <= HighWater(log)
    ensures Between(log', run, lo, hi) == Between(log, run, lo, hi)
    decreases |log'|
  {
    if |log| < |log'| {
      var front := log'[..|log'| - 1];
      assert log <= front;
      OrderedPrefix(log', |log|);
      assert log'[..|log|] == log;
      BetweenStable(log, front, run, lo, hi);
    } else {
      assert log == log';
    }
  }

  lemma {:induction false} BetweenSplit(log: Log, run: string, lo: nat, mid: nat, hi: nat)
    requires Ordered(log) && lo <= mid <= hi
    ensures Between(log, run, lo, hi) == Between(log, run, lo, mid) + Between(log, run, mid, hi)
  {
    if log != [] {
      var front, e := log[..|log| - 1], log[|log| - 1];
      BetweenSplit(front, run, lo, mid, hi);
      OrderedPrefix(log, |front|);
      var a, b := Between(front, run, lo, mid), Between(front, run, mid, hi);
      if e.sequence <= mid {
        NothingAbove(front, run, mid, hi);
        assert a + [e] == a + [e] + b;
      } else {
        assert a + (b + [e]) == (a + b) + [e];
      }
    }
  }

  lemma {:induction false} NothingAbove(log: Log, run: string, lo: nat, hi: nat)
    requires forall i :: 0 <= i < |log| ==> log[i].sequence <= lo
    ensures Between(log, run, lo, hi) == []
  {
    if log != [] { NothingAbove(log[..|log| - 1], run, lo, hi); }
  }

  lemma {:induction false} NothingBetween(log: Log, run: string, cursor: nat)
    ensures Between(log, run, cursor, cursor) == []
  {
    if log != [] { NothingBetween(log[..|log| - 1], run, cursor); }
  }

  /** Taking the first events above a cursor moves it: what was taken is everything
      up to the last of them, what remains is everything above it. */
  lemma {:induction false} ProjectedSplit(log: Log, run: string, lo: nat, k: nat)
    requires Ordered(log) && k < |Projected(log, run, lo)|
    ensures var es := Projected(log, run, lo); var c := es[k].sequence;
            && lo < c <= HighWater(log) && es[k] in log && Mine(es[k], run)
            && Between(log, run, lo, c) == es[..k + 1]
            && Projected(log, run, c) == es[k + 1..]
            && (k > 0 ==> es[k - 1].sequence < c)
  {
    hide Between;
    var es := Projected(log, run, lo);
    BetweenMembers(log, run, lo, HighWater(log));
    assert es[k] in es;
    var c := es[k].sequence;
    BetweenSplit(log, run, lo, c, HighWater(log));
    var a, b := Between(log, run, lo, c), Between(log, run, c, HighWater(log));
    assert es == a + b;
    BetweenMembers(log, run, lo, c);
    BetweenMembers(log, run, c, HighWater(log));
    BetweenIncreasing(log, run, lo, HighWater(log));
    CutPosition(a, b, k);
  }

  lemma CutPosition(a: seq<Event>, b: seq<Event>, k: nat)
    requires k < |a + b|
    requires forall i, j :: 0 <= i < j < |a + b| ==> (a + b)[i].sequence < (a + b)[j].sequence
    requires forall e :: e in a ==> e.sequence <= (a + b)[k].sequence
    requires forall e :: e in b ==> (a + b)[k].sequence < e.sequence
    ensures |a| == k + 1
  {
    var es := a + b;
    assert forall j :: 0 <= j < |a| ==> es[j] in a;
    assert forall j :: |a| <= j < |es| ==> es[j] in b;
    assert |a| > 0 ==> es[|a| - 1].sequence <= es[k].sequence;
    FromSecond(a, b, k);
    Later(es, k, |a| - 1);
  }

  lemma FromSecond(a: seq<Event>, b: seq<Event>, k: nat)
    ensures |a| <= k < |a + b| ==> (a + b)[k] in b
  {
  }

  lemma Later(es: seq<Event>, i: int, j: int)
    requires forall i, j :: 0 <= i < j < |es| ==> es[i].sequence < es[j].sequence
    ensures 0 <= i < j < |es| ==> es[i].sequence < es[j].sequence
  {
  }

  lemma {:induction false} BetweenIncreasing(log: Log, run: string, lo: nat, hi: nat)
    requires Ordered(log)
    ensures var es := Between(log, run, lo, hi);
            forall i, j :: 0 <= i < j < |es| ==> es[i].sequence < es[j].sequence
  {
    hide Between, Mine;
    BetweenStep(log, run, lo, hi);
    if log != [] {
      var front := log[..|log| - 1];
      BetweenIncreasing(front, run, lo, hi);
      BetweenMembers(front, run, lo, hi);
      assert log == front + [log[|log| - 1]];
      AllBelow(front, Between(front, run, lo, hi), log[|log| - 1]);
    }
  }

  lemma BetweenStep(log: Log, run: string, lo: nat, hi: nat)
    ensures log == [] ==> Between(log, run, lo, hi) == []
    ensures log != [] ==>
              var e := log[|log| - 1];
              Between(log, run, lo, hi) == Between(log[..|log| - 1], run, lo, hi)
                                           + (if Mine(e, run) && lo < e.sequence <= hi then [e] else [])
  {
  }

  lemma AllBelow(front: Log, es: seq<Event>, e: Event)
    requires Ordered(front + [e]) && forall x :: x in es ==> x in front
    ensures forall i :: 0 <= i < |es| ==> es[i].sequence < e.sequence
  {
    forall i | 0 <= i < |es| ensures es[i].sequence < e.sequence {
      assert es[i] in es;
      var k :| 0 <= k < |front| && front[k] == es[i];
      assert (front + [e])[k] == front[k] && (front + [e])[|front|] == e;
    }
  }

  lemma {:induction false} UpToTerminalPrefix(events: seq<Event>, i: nat)
    requires i < |UpToTerminal(events)|
    ensures |UpToTerminal(events)| <= |events| && UpToTerminal(events)[i] == events[i]
    ensures IsTerminal(events[i]) ==> |UpToTerminal(events)| == i + 1
    ensures !IsTerminal(events[i]) ==> UpToTerminal(events)[i + 1..] == UpToTerminal(events[i + 1..])
  {
    if !IsTerminal(events[0]) {
      if i > 0 {
        UpToTerminalPrefix(events[1..], i - 1);
        assert events[1..][i..] == events[i + 1..];
        assert UpToTerminal(events)[i + 1..] == UpToTerminal(events[1..])[i..];
      } else {
        LengthUpToTerminal(events);
      }
    }
  }

  lemma {:induction false} LengthUpToTerminal(events: seq<Event>)
    ensures |UpToTerminal(events)| <= |events|
  {
    if events != [] && !IsTerminal(events[0]) { LengthUpToTerminal(events[1..]); }
  }

  /** Restarting from the cursor of any delivered event yields exactly the rest of the
      delivery if and only if that event is not the terminal one or the run has no
      projected event after it. (The stream does not look for a terminal event at or
      below its start before it reads on.) */
  lemma ResumeYieldsSuffixIff(log: Log, run: string, start: nat, i: nat)
    requires Ordered(log) && i < |Delivery(log, run, start)|
    ensures var d := Delivery(log, run, start); var c := d[i].sequence;
            Delivery(log, run, c) == d[i + 1..] <==> (!IsTerminal(d[i]) || Projected(log, run, c) == [])
  {
    var es := Projected(log, run, start);
    UpToTerminalPrefix(es, i);
    ProjectedSplit(log, run, start, i);
  }

  /** A log where the two differ: an event committed after the terminal one. The stream
      ends at the terminal event; restarted from its cursor, it delivers the other. */
  lemma ResumeReadsOn(run: string)
    ensures var last := Event(1, run, true, RunCompleted, "", "", true);
            var late := Event(2, run, true, OtherKind("usage"), "", "", true);
            && Ordered([last, late]) && Delivery([last, late], run, 0) == [last]
            && Delivery([last, late], run, last.sequence) == [late] != Delivery([last, late], run, 0)[1..]
  {
    hide Between, UpToTerminal;
    var last := Event(1, run, true, RunCompleted, "", "", true);
    var late := Event(2, run, true, OtherKind("usage"), "", "", true);
    TwoBetween(last, late, run, 0, 2);
    TwoBetween(last, late, run, 1, 2);
    assert [last] + [late] == [last, late] && [] + [late] == [late];
    StopsAtFirst(last, late);
    OwnDelivery([late]);
  }

  lemma TwoBetween(a: Event, b: Event, run: string, lo: nat, hi: nat)
    ensures Between([a, b], run, lo, hi) == (if Mine(a, run) && lo < a.sequence <= hi then [a] else [])
                                            + (if Mine(b, run) && lo < b.sequence <= hi then [b] else [])
  {
    assert [a, b][..1] == [a] && [a][..0] == [];
    assert Between([a][..0], run, lo, hi) == [];
  }

  lemma StopsAtFirst(a: Event, b: Event)
    requires IsTerminal(a)
    ensures UpToTerminal([a, b]) == [a]
  {
  }

  /** Events without a terminal one, or with one only at the end, are their own
      delivery. */
  lemma {:induction false} OwnDelivery(events: seq<Event>)
    requires forall i :: 0 <= i < |events| - 1 ==> !IsTerminal(events[i])
    ensures UpToTerminal(events) == events
  {
    if events != [] { OwnDelivery(events[1..]); }
  }

  lemma {:induction false} DeliveryStops(events: seq<Event>, more: seq<Event>)
    requires events != [] && IsTerminal(events[|events| - 1])
    requires forall i :: 0 <= i < |events| - 1 ==> !IsTerminal(events[i])
    ensures UpToTerminal(events + more) == events
  {
    if |events| > 1 {
      DeliveryStops(events[1..], more);
      assert (events + more)[1..] == events[1..] + more;
    }
  }
}
