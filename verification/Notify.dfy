/**
 The notification pipeline: the manager's queue, and the goroutines of one client as
 steps of a transition system over bounded channels.
 */
module Notifications {
  import opened Rlp

  type Msg = Bytes

  // ---------- the manager's queue ----------

  /** What the queue's select picks next. ready tells whether a reader waits at the output. */
  datatype Event = In(msg: Msg, ready: bool) | Out | Closed | Quit

  predicate Stops(e: Event) {
    e.Closed? || e.Quit?
  }

  /** The messages received before the queue stops. */
  function Received(events: seq<Event>): seq<Msg> {
    if events == [] || Stops(events[0]) then []
    else (if events[0].In? then [events[0].msg] else []) + Received(events[1..])
  }

  lemma {:induction false} ReceivedNext(events: seq<Event>, e: Event)
    requires forall x | x in events :: !Stops(x)
    ensures Received(events + [e]) == Received(events) + if e.In? then [e.msg] else []
  {
    if events == [] {
      assert events + [e] == [e];
    } else {
      ReceivedNext(events[1..], e);
      assert (events + [e])[1..] == events[1..] + [e] && (events + [e])[0] == events[0];
    }
  }

  lemma {:induction false} ReceivedStop(events: seq<Event>, k: nat)
    requires k < |events| && Stops(events[k]) && forall i | 0 <= i < k :: !Stops(events[i])
    ensures Received(events) == Received(events[..k])
  {
    if k > 0 {
      ReceivedStop(events[1..], k - 1);
      assert events[..k][1..] == events[1..][..k - 1];
    } else {
      assert events[..0] == [];
    }
  }

  /**
   How many messages wait after a schedule, counted without them: one more for an input that
   finds others waiting or no reader, one less for a reader that comes.
   */
  function Backlog(events: seq<Event>, n: nat): nat {
    if events == [] || Stops(events[0]) then n
    else Backlog(events[1..], Waits(events[0], n))
  }

  function Waits(e: Event, n: nat): nat {
    if e.In? then if n == 0 && e.ready then 0 else n + 1
    else if e.Out? && n > 0 then n - 1
    else n
  }

  lemma {:induction false} BacklogNext(events: seq<Event>, e: Event, n: nat)
    requires (forall x | x in events :: !Stops(x)) && !Stops(e)
    ensures Backlog(events + [e], n) == Waits(e, Backlog(events, n))
  {
    if events == [] {
      assert (events + [e])[1..] == [];
    } else {
      BacklogNext(events[1..], e, Waits(events[0], n));
      assert (events + [e])[1..] == events[1..] + [e] && (events + [e])[0] == events[0];
    }
  }

  lemma {:induction false} BacklogStop(events: seq<Event>, k: nat, n: nat)
    requires k < |events| && Stops(events[k]) && forall i | 0 <= i < k :: !Stops(events[i])
    ensures Backlog(events, n) == Backlog(events[..k], n)
  {
    if k > 0 {
      BacklogStop(events[1..], k - 1, Waits(events[0], n));
      assert events[..k][1..] == events[1..][..k - 1];
    } else {
      assert events[..0] == [];
    }
  }

  /** No more can wait than was received. */
  lemma {:induction false} BacklogBound(events: seq<Event>, n: nat)
    ensures Backlog(events, n) <= n + |Received(events)|
  {
    if events != [] && !Stops(events[0]) { BacklogBound(events[1..], Waits(events[0], n)); }
  }

  lemma {:induction false} BacklogJoin(a: seq<Event>, b: seq<Event>, n: nat)
    requires forall i | 0 <= i < |a| :: !Stops(a[i])
    ensures Backlog(a + b, n) == Backlog(b, Backlog(a, n))
  {
    hide Waits;
    if a == [] {
      assert a + b == b;
    } else {
      BacklogJoin(a[1..], b, Waits(a[0], n));
      assert (a + b)[1..] == a[1..] + b && (a + b)[0] == a[0];
    }
  }

  lemma {:induction false} ReceivedJoin(a: seq<Event>, b: seq<Event>)
    requires forall i | 0 <= i < |a| :: !Stops(a[i])
    ensures Received(a + b) == Received(a) + Received(b)
  {
    if a == [] {
      assert a + b == b;
    } else {
      ReceivedJoin(a[1..], b);
      assert (a + b)[1..] == a[1..] + b && (a + b)[0] == a[0];
      var head := if a[0].In? then [a[0].msg] else [];
      assert head + (Received(a[1..]) + Received(b)) == head + Received(a[1..]) + Received(b);
    }
  }

  lemma {:induction false} ReadersDrain(events: seq<Event>, n: nat)
    requires forall i | 0 <= i < |events| :: events[i].Out?
    ensures Backlog(events, n) == (if |events| < n then n - |events| else 0) && Received(events) == []
  {
    if events != [] { ReadersDrain(events[1..], Waits(events[0], n)); }
  }

  /** Once as many readers have come since the last input as there were messages, nothing waits any more. */
  lemma Drained(events: seq<Event>, readers: seq<Event>)
    requires (forall i | 0 <= i < |events| :: !Stops(events[i])) && (forall i | 0 <= i < |readers| :: readers[i].Out?)
    requires |readers| >= |Received(events)|
    ensures Backlog(events + readers, 0) == 0 && Received(events + readers) == Received(events)
  {
    BacklogJoin(events, readers, 0);
    ReceivedJoin(events, readers);
    BacklogBound(events, 0);
    ReadersDrain(readers, Backlog(events, 0));
  }

  /**
   queueHandler over any schedule of its channels: nothing is lost, doubled or reordered.
   What was received is what went out followed by what is still queued, and no more is queued
   than the schedule leaves waiting.
   */
  method QueueHandler(events: seq<Event>) returns (emitted: seq<Msg>, q: seq<Msg>)
    ensures Received(events) == emitted + q && |q| == Backlog(events, 0)
  {
    q, emitted := [], [];
    var dequeue, skipQueue := false, true;
    var next := [];
    for i := 0 to |events|
      invariant Received(events[..i]) == emitted + q && |q| == Backlog(events[..i], 0)
      invariant forall k | 0 <= k < i :: !Stops(events[k])
      invariant dequeue == (q != []) && skipQueue == (q == []) && (q != [] ==> next == q[0])
    {
      assert events[..i + 1] == events[..i] + [events[i]];
      ReceivedNext(events[..i], events[i]);
      if !Stops(events[i]) { BacklogNext(events[..i], events[i], 0); }
      match events[i] {
        case In(n, ready) =>
          if skipQueue && ready {
            emitted := emitted + [n];
          } else {
            q := q + [n];
            dequeue, skipQueue, next := true, false, q[0];
          }
        case Out =>
          // A send on the nil channel is never picked.
          if dequeue {
            emitted := emitted + [next];
            q := q[1..];
            if q == [] {
              dequeue, skipQueue := false, true;
            } else {
              next := q[0];
            }
          }
        case _ =>
          ReceivedStop(events, i);
          BacklogStop(events, i, 0);
          return;
      }
    }
    assert events[..|events|] == events;
  }

  // ---------- one client ----------

  /** A message for the socket; notify marks one whose sender waits for the done channel. */
  datatype Response = Response(msg: Msg, notify: bool)

  /** Where the notification queue handler is. */
  datatype Notifier =
    | Selecting
    | Checking(msg: Msg)
    | Sending(msg: Msg)
    | Refusing
    | Draining
    | Gone

  /** Where the output handler is. */
  datatype Writer =
    | Waiting
    | Writing(r: Response)
    | Confirming
    | Clearing
    | Declining
    | Left

  datatype State = State(
    // Channels: one slot, a fixed buffer, one slot.
    ntfn: seq<Msg>,
    send: seq<Response>,
    done: seq<bool>,
    // The notification queue handler's variables and place.
    pending: seq<Msg>,
    waiting: bool,
    notifier: Notifier,
    writer: Writer,
    disconnected: bool,
    // History: notifications accepted, taken up for sending, given up, and written.
    queued: seq<Msg>,
    taken: seq<Msg>,
    lost: seq<Msg>,
    written: seq<Msg>)

  const SEND_BUFFER := 50

  predicate Init(s: State) {
    s == State([], [], [], [], false, Selecting, Waiting, false, [], [], [], [])
  }

  /** One step of one goroutine, or of the callers around the client. */
  datatype Action =
    // QueueNotification, SendMessage of a reply, Disconnect: by anyone at any time.
    | Queue(msg: Msg) | Reply(msg: Msg) | Disconnect
    // notificationQueueHandler, with SendMessage inside.
    | Take | Token | Check | Send | Refuse | Quit1 | DrainNtfn | DrainDone | Exit1
    // outHandler.
    | Pick | Write | Fail | Confirm | Quit2 | Clear | Decline | Exit2

  /** A step can be taken; a send on a full channel cannot. */
  predicate Enabled(s: State, a: Action) {
    match a
    case Queue(_) => |s.ntfn| < 1
    case Reply(_) => |s.send| < SEND_BUFFER
    case Disconnect => true
    case Take => s.notifier.Selecting? && s.ntfn != []
    case Token => s.notifier.Selecting? && s.done != []
    case Check => s.notifier.Checking?
    case Send => s.notifier.Sending? && |s.send| < SEND_BUFFER
    case Refuse => s.notifier.Refusing? && |s.done| < 1
    case Quit1 => s.notifier.Selecting? && s.disconnected
    case DrainNtfn => s.notifier.Draining? && s.ntfn != []
    case DrainDone => s.notifier.Draining? && s.done != []
    case Exit1 => s.notifier.Draining? && s.ntfn == [] && s.done == []
    case Pick => s.writer.Waiting? && s.send != []
    case Write => s.writer.Writing?
    case Fail => s.writer.Writing?
    case Confirm => s.writer.Confirming? && |s.done| < 1
    case Quit2 => s.writer.Waiting? && s.disconnected
    case Clear => s.writer.Clearing? && s.send != []
    case Decline => s.writer.Declining? && |s.done| < 1
    case Exit2 => s.writer.Clearing? && s.send == []
  }

  function Apply(s: State, a: Action): State
    requires Enabled(s, a)
  {
    match a
    case Queue(m) => s.(ntfn := s.ntfn + [m], queued := s.queued + [m])
    case Reply(m) => s.(send := s.send + [Response(m, false)])
    case Disconnect => s.(disconnected := true)
    case Take =>
      if !s.waiting then
        s.(ntfn := s.ntfn[1..], waiting := true, notifier := Checking(s.ntfn[0]), taken := s.taken + [s.ntfn[0]])
      else s.(ntfn := s.ntfn[1..], pending := s.pending + [s.ntfn[0]])
    case Token =>
      if s.pending == [] then s.(done := s.done[1..], waiting := false)
      else
        s.(done := s.done[1..], pending := s.pending[1..], notifier := Checking(s.pending[0]), taken := s.taken + [s.pending[0]])
    case Check =>
      if s.disconnected then s.(notifier := Refusing, lost := s.lost + [s.notifier.msg])
      else s.(notifier := Sending(s.notifier.msg))
    case Send => s.(send := s.send + [Response(s.notifier.msg, true)], notifier := Selecting)
    case Refuse => s.(done := s.done + [false], notifier := Selecting)
    case Quit1 => s.(notifier := Draining)
    case DrainNtfn => s.(ntfn := s.ntfn[1..])
    case DrainDone => s.(done := s.done[1..])
    case Exit1 => s.(notifier := Gone)
    case Pick => s.(send := s.send[1..], writer := Writing(s.send[0]))
    case Write =>
      if s.writer.r.notify then s.(writer := Confirming, written := s.written + [s.writer.r.msg]) else s.(writer := Waiting)
    case Fail =>
      s.(writer := Clearing, disconnected := true, lost := if s.writer.r.notify then s.lost + [s.writer.r.msg] else s.lost)
    case Confirm => s.(done := s.done + [true], writer := Waiting)
    case Quit2 => s.(writer := Clearing)
    case Clear =>
      if s.send[0].notify then s.(send := s.send[1..], writer := Declining, lost := s.lost + [s.send[0].msg])
      else s.(send := s.send[1..])
    case Decline => s.(done := s.done + [false], writer := Clearing)
    case Exit2 => s.(writer := Left)
  }

  // ---------- what is in flight ----------

  /** The notifications among responses. */
  function Notices(rs: seq<Response>): seq<Msg> {
    if rs == [] then [] else (if rs[0].notify then [rs[0].msg] else []) + Notices(rs[1..])
  }

  lemma {:induction false} NoticesNext(rs: seq<Response>, r: Response)
    ensures Notices(rs + [r]) == Notices(rs) + if r.notify then [r.msg] else []
  {
    if rs == [] {
      assert rs + [r] == [r];
    } else {
      NoticesNext(rs[1..], r);
      assert (rs + [r])[1..] == rs[1..] + [r] && (rs + [r])[0] == rs[0];
    }
  }

  /** The message that the notification queue handler is sending. */
  function Outgoing(s: State): seq<Msg> {
    if s.notifier.Checking? || s.notifier.Sending? then [s.notifier.msg] else []
  }

  /** The notification that the output handler is writing. */
  function Underway(s: State): seq<Msg> {
    if s.writer.Writing? && s.writer.r.notify then [s.writer.r.msg] else []
  }

  /** Done signals that are on the channel or about to be put there. */
  function Signals(s: State): nat {
    |s.done| + (if s.notifier.Refusing? then 1 else 0) + if s.writer.Confirming? || s.writer.Declining? then 1 else 0
  }

  /** Notifications on their way to the socket, the furthest first. */
  function Flying(s: State): seq<Msg> {
    Underway(s) + Notices(s.send) + Outgoing(s)
  }

  /** Notifications on their way to the socket, or with a signal on its way back. */
  function InFlight(s: State): nat {
    |Flying(s)| + Signals(s)
  }

  // ---------- the invariant ----------

  predicate Active(s: State) {
    !s.notifier.Draining? && !s.notifier.Gone?
  }

  /** At most one notification is in flight; as long as the client is connected, one exactly if the handler waits. */
  predicate Single(s: State) {
    && InFlight(s) <= 1 && (Active(s) && !s.waiting ==> InFlight(s) == 0 && s.pending == [])
    && (!s.disconnected && s.waiting ==> InFlight(s) == 1)
  }

  /** Notifications are taken up in the order they were queued. */
  predicate Fifo(s: State) {
    if Active(s) then s.queued == s.taken + s.pending + s.ntfn else s.taken <= s.queued
  }

  /** What was taken up is written, given up or on its way, in this order. */
  predicate Accounted(s: State) {
    s.taken == s.written + s.lost + Flying(s)
  }

  /** Nothing is given up before the client is disconnected, and after that nothing can reach the socket. */
  predicate Lossless(s: State) {
    && (s.lost != [] ==> s.disconnected && !s.notifier.Sending? && Notices(s.send) == [] && Underway(s) == [])
    && (s.writer.Clearing? || s.writer.Declining? || s.writer.Left? ==> s.disconnected)
    && (s.notifier.Refusing? || !Active(s) ==> s.disconnected)
  }

  predicate Inv(s: State) {
    Single(s) && Fifo(s) && Accounted(s) && Lossless(s)
  }

  lemma InitInv(s: State)
    requires Init(s)
    ensures Inv(s)
  {
  }

  lemma KeepOutside(s: State, a: Action)
    requires Inv(s) && Enabled(s, a) && (a.Queue? || a.Reply? || a.Disconnect?)
    ensures Inv(Apply(s, a))
  {
    hide Notices, Flying;
    var t := Apply(s, a);
    SameNotices(s, a);
    if a.Queue? && Active(s) { assert s.queued + [a.msg] == s.taken + s.pending + (s.ntfn + [a.msg]); }
  }

  lemma SameNotices(s: State, a: Action)
    requires Enabled(s, a) && (a.Queue? || a.Reply? || a.Disconnect?)
    ensures var t := Apply(s, a); Notices(t.send) == Notices(s.send) && Flying(t) == Flying(s)
  {
    hide Notices;
    if a.Reply? {
      NoticesNext(s.send, Response(a.msg, false));
      assert Notices(s.send) + [] == Notices(s.send);
    }
  }

  /** The first of the next part moves to the end of the part before it. */
  lemma Shift(q: seq<Msg>, a: seq<Msg>, b: seq<Msg>, c: seq<Msg>)
    requires q == a + b + c
    ensures c != [] ==> q == a + (b + [c[0]]) + c[1..]
    ensures b != [] ==> q == (a + [b[0]]) + b[1..] + c
    ensures b == [] && c != [] ==> q == (a + [c[0]]) + b + c[1..]
  {
    if c != [] { assert c == [c[0]] + c[1..]; }
    if b != [] { assert b == [b[0]] + b[1..]; }
  }

  lemma Empty3(a: seq<Msg>, b: seq<Msg>, c: seq<Msg>)
    requires |a + b + c| == 0
    ensures a == [] && b == [] && c == []
  {
    assert |a + b + c| == |a| + |b| + |c|;
  }

  /** With nothing in flight, a message that is taken up is the only one. */
  lemma OneFlies(s: State, t: State, m: Msg)
    requires Flying(s) == [] && t.send == s.send && t.writer == s.writer && t.notifier == Checking(m)
    ensures Flying(t) == [m] && Notices(t.send) == [] && Underway(t) == []
  {
    Empty3(Underway(s), Notices(s.send), Outgoing(s));
  }

  lemma KeepTake(s: State)
    requires Inv(s) && Enabled(s, Take)
    ensures Inv(Apply(s, Take))
  {
    hide Notices, Flying;
    var t := Apply(s, Take);
    Shift(s.queued, s.taken, s.pending, s.ntfn);
    if s.waiting {
      SameFlying(s, t);
    } else {
      assert |Flying(s)| == 0;
      OneFlies(s, t, s.ntfn[0]);
    }
  }

  lemma SameFlying(s: State, t: State)
    requires t.send == s.send && Underway(t) == Underway(s) && Outgoing(t) == Outgoing(s)
    ensures Flying(t) == Flying(s)
  {
  }

  lemma KeepToken(s: State)
    requires Inv(s) && Enabled(s, Token)
    ensures Inv(Apply(s, Token))
  {
    hide Notices, Flying;
    var t := Apply(s, Token);
    Shift(s.queued, s.taken, s.pending, s.ntfn);
    assert |Flying(s)| == 0;
    if s.pending == [] {
      SameFlying(s, t);
    } else {
      OneFlies(s, t, s.pending[0]);
    }
  }

  lemma KeepSend(s: State, a: Action)
    requires Inv(s) && Enabled(s, a) && (a.Check? || a.Send? || a.Refuse?)
    ensures Inv(Apply(s, a))
  {
    hide Notices, Flying;
    var t := Apply(s, a);
    if a.Send? {
      Sent(s, t);
    } else if a.Check? && s.disconnected {
      Refused(s, t);
    } else {
      SameFlying(s, t);
    }
  }

  lemma Sent(s: State, t: State)
    requires s.notifier.Sending? && t.send == s.send + [Response(s.notifier.msg, true)] && t.notifier == Selecting
    requires t.writer == s.writer
    ensures Flying(t) == Flying(s)
  {
    hide Notices;
    NoticesNext(s.send, Response(s.notifier.msg, true));
    assert Underway(s) + (Notices(s.send) + [s.notifier.msg]) + [] == Underway(s) + Notices(s.send) + [s.notifier.msg];
  }

  lemma Refused(s: State, t: State)
    requires s.notifier.Checking? && |Flying(s)| <= 1 && t.send == s.send && t.notifier == Refusing && t.writer == s.writer
    ensures Flying(s) == [s.notifier.msg] && Flying(t) == [] && Notices(t.send) == [] && Underway(t) == []
  {
    hide Notices;
    assert |Flying(s)| == |Underway(s)| + |Notices(s.send)| + |Outgoing(s)|;
  }

  lemma KeepEnd(s: State, a: Action)
    requires Inv(s) && Enabled(s, a) && (a.Quit1? || a.DrainNtfn? || a.DrainDone? || a.Exit1?)
    ensures Inv(Apply(s, a))
  {
    hide Notices, Flying;
    SameFlying(s, Apply(s, a));
  }

  lemma KeepWrite(s: State, a: Action)
    requires Inv(s) && Enabled(s, a) && (a.Pick? || a.Write? || a.Fail? || a.Confirm?)
    ensures Inv(Apply(s, a))
  {
    hide Notices, Flying;
    var t := Apply(s, a);
    if a.Pick? {
      Picked(s, t);
    } else if Underway(s) != [] {
      Landed(s, t);
    } else {
      SameFlying(s, t);
    }
  }

  lemma Picked(s: State, t: State)
    requires s.send != [] && !s.writer.Writing?
    requires t.send == s.send[1..] && t.writer == Writing(s.send[0]) && t.notifier == s.notifier
    ensures Flying(t) == Flying(s)
    ensures Notices(s.send) == [] ==> Notices(t.send) == [] && Underway(t) == []
  {
    assert s.send == [s.send[0]] + s.send[1..];
  }

  lemma Landed(s: State, t: State)
    requires Underway(s) != [] && |Flying(s)| <= 1 && t.send == s.send && !t.writer.Writing? && t.notifier == s.notifier
    ensures Flying(s) == Underway(s) && Flying(t) == [] && Notices(t.send) == [] && Outgoing(s) == []
  {
    assert |Flying(s)| == |Underway(s)| + |Notices(s.send)| + |Outgoing(s)|;
  }

  lemma KeepClear(s: State, a: Action)
    requires Inv(s) && Enabled(s, a) && (a.Quit2? || a.Clear? || a.Decline? || a.Exit2?)
    ensures Inv(Apply(s, a))
  {
    hide Notices, Flying;
    var t := Apply(s, a);
    if a.Clear? { Cleared(s, t); } else { SameFlying(s, t); }
  }

  /** A response is thrown away; if it was a notification, it was the only one in flight. */
  lemma Cleared(s: State, t: State)
    requires s.send != [] && !s.writer.Writing? && |Flying(s)| <= 1
    requires t.send == s.send[1..] && !t.writer.Writing? && t.notifier == s.notifier
    ensures if s.send[0].notify then Flying(s) == [s.send[0].msg] && Flying(t) == [] && Notices(t.send) == [] && Outgoing(s) == []
            else Flying(t) == Flying(s) && Notices(t.send) == Notices(s.send)
  {
    assert Underway(s) == [] && Underway(t) == [] && Outgoing(t) == Outgoing(s);
    assert |Flying(s)| == |Underway(s)| + |Notices(s.send)| + |Outgoing(s)|;
    if s.send[0].notify { assert Notices(s.send) == [s.send[0].msg] + Notices(s.send[1..]); }
  }

  lemma StepInv(s: State, a: Action)
    requires Inv(s) && Enabled(s, a)
    ensures Inv(Apply(s, a))
  {
    hide Inv, Apply;
    match a
    case Queue(_) => KeepOutside(s, a);
    case Reply(_) => KeepOutside(s, a);
    case Disconnect => KeepOutside(s, a);
    case Take => KeepTake(s);
    case Token => KeepToken(s);
    case Check => KeepSend(s, a);
    case Send => KeepSend(s, a);
    case Refuse => KeepSend(s, a);
    case Quit1 => KeepEnd(s, a);
    case DrainNtfn => KeepEnd(s, a);
    case DrainDone => KeepEnd(s, a);
    case Exit1 => KeepEnd(s, a);
    case Pick => KeepWrite(s, a);
    case Write => KeepWrite(s, a);
    case Fail => KeepWrite(s, a);
    case Confirm => KeepWrite(s, a);
    case Quit2 => KeepClear(s, a);
    case Clear => KeepClear(s, a);
    case Decline => KeepClear(s, a);
    case Exit2 => KeepClear(s, a);
  }

  // ---------- runs ----------

  /** Steps of the goroutines in any interleaving. */
  predicate Feasible(s: State, run: seq<Action>)
    decreases |run|
  {
    run == [] || (Enabled(s, run[0]) && Feasible(Apply(s, run[0]), run[1..]))
  }

  function After(s: State, run: seq<Action>): State
    requires Feasible(s, run)
    decreases |run|
  {
    if run == [] then s else After(Apply(s, run[0]), run[1..])
  }

  lemma {:induction false} RunInv(s: State, run: seq<Action>)
    requires Inv(s) && Feasible(s, run)
    ensures Inv(After(s, run))
    decreases |run|
  {
    hide Inv, Enabled, Apply;
    if run != [] {
      StepInv(s, run[0]);
      RunInv(Apply(s, run[0]), run[1..]);
    }
  }

  /**
   After any interleaving: notifications were written in the order they were queued, with no
   gap and none twice; at most one is in flight; and whoever is about to signal on the one-slot
   done channel finds the slot free, so that send never blocks.
   */
  lemma Pipeline(s: State, run: seq<Action>)
    requires Init(s) && Feasible(s, run)
    ensures var t := After(s, run);
            && t.written <= t.queued && InFlight(t) <= 1
            && (t.notifier.Refusing? ==> Enabled(t, Refuse))
            && (t.writer.Confirming? ==> Enabled(t, Confirm))
            && (t.writer.Declining? ==> Enabled(t, Decline))
  {
    hide Feasible, After;
    InitInv(s);
    RunInv(s, run);
    var t := After(s, run);
    assert t.written <= t.taken <= t.queued;
  }

  /** A step that the client's own goroutines can take. */
  predicate Inner(a: Action) {
    !a.Queue? && !a.Reply? && !a.Disconnect?
  }

  /** While the client is connected, a notification that is queued but not written can always move on. */
  lemma NotStuck(s: State, run: seq<Action>) returns (a: Action)
    requires Init(s) && Feasible(s, run)
    requires !After(s, run).disconnected && After(s, run).written != After(s, run).queued
    ensures Inner(a) && Enabled(After(s, run), a)
  {
    hide Feasible, After;
    InitInv(s);
    RunInv(s, run);
    var t := After(s, run);
    a := Movable(t);
  }

  lemma Movable(t: State) returns (a: Action)
    requires Inv(t) && !t.disconnected && t.written != t.queued
    ensures Smooth(a) && Enabled(t, a)
  {
    a := if t.writer.Writing? then Write
         else if t.writer.Confirming? then Confirm
         else if t.send != [] then Pick
         else if t.notifier.Checking? then Check
         else if t.notifier.Sending? then Send
         else if t.done != [] then Token
         else Take;
  }

  // ---------- delivery ----------

  /** A step of the client's own goroutines in which the socket does not fail. */
  predicate Smooth(a: Action) {
    Inner(a) && !a.Fail?
  }

  /** How many steps everything that is under way can still take. */
  function Work(s: State): nat {
    8 * |s.ntfn| + 7 * |s.pending| + 4 * |s.send| + |s.done|
    + (if s.notifier.Checking? then 6 else if s.notifier.Sending? then 5 else 0)
    + if s.writer.Writing? then 3 else if s.writer.Confirming? then 2 else 0
  }

  /** As long as the client is connected, every step of its own uses up some of the work and nothing is queued. */
  lemma WorkDone(s: State, a: Action)
    requires Inv(s) && !s.disconnected && Enabled(s, a) && Smooth(a)
    ensures var t := Apply(s, a); !t.disconnected && t.queued == s.queued && Work(t) < Work(s)
  {
    hide Accounted, Fifo, Single, Notices;
  }

  lemma {:induction false} RunWork(s: State, run: seq<Action>)
    requires Inv(s) && !s.disconnected && Feasible(s, run) && forall a | a in run :: Smooth(a)
    ensures var t := After(s, run); Inv(t) && !t.disconnected && t.queued == s.queued && Work(t) + |run| <= Work(s)
    decreases |run|
  {
    hide Inv, Enabled, Apply, Work;
    if run != [] {
      assert run[0] in run;
      StepInv(s, run[0]);
      WorkDone(s, run[0]);
      RunWork(Apply(s, run[0]), run[1..]);
    }
  }

  /**
   Liveness while the client is connected: from any reachable state its own goroutines can
   take only so many steps, whatever the interleaving, and when they can take no more every
   notification that was queued has been written.
   */
  lemma Delivered(s: State, run: seq<Action>, own: seq<Action>)
    requires Init(s) && Feasible(s, run) && !After(s, run).disconnected
    requires Feasible(After(s, run), own) && forall a | a in own :: Smooth(a)
    ensures |own| <= Work(After(s, run))
    ensures var t := After(After(s, run), own);
            (forall a | Smooth(a) :: !Enabled(t, a)) ==> t.written == t.queued == After(s, run).queued
  {
    hide Feasible, After, Inv, Work;
    InitInv(s);
    RunInv(s, run);
    RunWork(After(s, run), own);
    var t := After(After(s, run), own);
    if t.written != t.queued {
      var a := Movable(t);
    }
  }
}
