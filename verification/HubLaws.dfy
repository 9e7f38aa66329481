/**
 What subscribers of the hub can rely on, over every run of publishes, subscriptions, reads and cancellations.
 */
module HubLaws {
  import opened Text
  import opened StableSort
  import opened Hub

  /** Cursors count on from `base`. */
  ghost predicate Consecutive(events: seq<Event>, base: nat) {
    forall i | 0 <= i < |events| :: CursorIs(events[i], base + i + 1)
  }

  ghost predicate CursorIs(e: Event, n: nat) {
    ParseUint(e.cursor) == Some(n)
  }

  /** The hub agrees with the log of everything ever published. */
  ghost predicate Agrees(h: HubState, log: seq<Event>) {
    && |log| < UINT64 - 1
    && h.next == |log|
    && h.ringSize >= 1
    && h.ring == Keep(log, h.ringSize)
    && Consecutive(log, 0)
    && (forall id | id in h.subscribers :: id < h.nextSubID)
  }

  lemma AfterStep(ring: seq<Event>, c: nat, n: nat)
    requires ring != [] && CursorIs(ring[|ring| - 1], n)
    ensures After(ring, c) == After(ring[..|ring| - 1], c) + if n > c then [ring[|ring| - 1]] else []
  {
  }

  lemma {:induction false} AfterIsTheTail(ring: seq<Event>, base: nat, c: nat)
    requires Consecutive(ring, base)
    ensures After(ring, c) == if c <= base then ring else if c <= base + |ring| then ring[c - base..] else []
  {
    if ring != [] {
      var last := |ring| - 1;
      AfterIsTheTail(ring[..last], base, c);
      assert CursorIs(ring[last], base + last + 1);
      AfterStep(ring, c, base + last + 1);
      assert ring == ring[..last] + [ring[last]];
    }
  }

  lemma RingIsConsecutive(h: HubState, log: seq<Event>)
    requires Agrees(h, log)
    ensures |h.ring| <= |log| && h.ring == log[|log| - |h.ring|..]
    ensures Consecutive(h.ring, |log| - |h.ring|)
    ensures h.ring == [] <==> log == []
  {
    var lo := |log| - |h.ring|;
    forall i | 0 <= i < |h.ring|
      ensures CursorIs(h.ring[i], lo + i + 1)
    {
      assert h.ring[i] == log[lo + i];
    }
  }

  lemma TailOfTail(log: seq<Event>, base: nat, c: nat)
    requires base <= c <= |log|
    ensures log[base..][c - base..] == log[c..]
  {
  }

  /** Replay in terms of the ring alone. */
  lemma ReplayFromTheRing(h: HubState, from: string, base: nat, c: nat)
    requires Consecutive(h.ring, base) && ParseUint(from) == Some(c)
    requires h.next == base + |h.ring| < UINT64 - 1 && c <= h.next && (h.ring == [] ==> base == 0)
    ensures Replay(h, from) == if c >= base then (h.ring[c - base..], true) else ([], false)
  {
    AfterIsTheTail(h.ring, base, c);
    if h.ring != [] {
      assert CursorIs(h.ring[0], base + 1);
      assert Successor(c) == c + 1;
      assert h.ring[0..] == h.ring;
    }
  }

  /**
   From a cursor the hub has issued, replay returns exactly the log behind it, and reports that as complete
   exactly when nothing behind it has been evicted from the ring.
   */
  lemma ReplayIsTheLog(h: HubState, log: seq<Event>, from: string, c: nat)
    requires Agrees(h, log) && ParseUint(from) == Some(c) && c <= |log|
    ensures Replay(h, from).1 <==> c >= |log| - |h.ring|
    ensures Replay(h, from).0 == if Replay(h, from).1 then log[c..] else []
  {
    RingIsConsecutive(h, log);
    var base := |log| - |h.ring|;
    ReplayFromTheRing(h, from, base, c);
    if c >= base {
      TailOfTail(log, base, c);
    }
  }

  /** The ring begins at a cursor that was issued, and holds nothing behind a greater one. */
  lemma NothingIsBehind(h: HubState, log: seq<Event>, c: nat)
    requires Agrees(h, log) && |log| < c < UINT64 && h.ring != []
    ensures After(h.ring, c) == []
    ensures var oldest := ParseUint(h.ring[0].cursor); oldest.Some? && 0 < oldest.value <= |log|
  {
    RingIsConsecutive(h, log);
    AfterIsTheTail(h.ring, |log| - |h.ring|, c);
    assert CursorIs(h.ring[0], |log| - |h.ring| + 1);
  }

  /**
   A cursor the hub never issued (a client left over from before a restart) is answered with nothing, and as complete as
   soon as anything has been published: save for the greatest cursor there is, whose successor is zero.
   */
  lemma ReplayOfAForeignCursor(h: HubState, log: seq<Event>, from: string, c: nat)
    requires Agrees(h, log) && ParseUint(from) == Some(c) && |log| < c < UINT64
    ensures Replay(h, from) == ([], log != [] && c < UINT64 - 1)
  {
    if h.ring != [] {
      NothingIsBehind(h, log, c);
      assert Successor(c) == if c < UINT64 - 1 then c + 1 else 0;
    }
  }

  // ----- runs -----

  /** A subscription between the two locks of Subscribe: it has read the log up to `readAt`. */
  datatype Ticket = Ticket(subscriber: Subscriber, from: nat, readAt: nat)

  /** A registered subscription and its history: what was read from it, and whether a full channel dropped something. */
  datatype View = View(from: nat, readAt: nat, joined: nat, received: seq<Event>, lost: bool)

  datatype World = World(hub: HubState, log: seq<Event>, tickets: map<int, Ticket>, views: map<int, View>)

  datatype Step =
    | Publish(body: string)
    | Read(ticket: int, from: string, allow: Event -> bool)
    | Join(ticket: int)
    | Take(id: int)
    | Leave(id: int)

  function Start(replayBuffer: int): World {
    World(NewState(replayBuffer), [], map[], map[])
  }

  /** The position in the log that a subscription from `from` starts at. */
  function StartOf(h: HubState, from: string): nat {
    var c := ParseUint(from);
    if Replay(h, from).1 && c.Some? && c.value <= h.next then c.value else h.next
  }

  function Dropped(s: Subscriber, event: Event): bool {
    s.allow(event) && |s.stream| >= s.capacity
  }

  function Do(w: World, step: Step): World {
    match step
    case Publish(body) =>
      var event := Event(Digits(Successor(w.hub.next)), body);
      w.(hub := PublishTo(w.hub, body), log := w.log + [event],
         views := map id | id in w.views && id in w.hub.subscribers ::
                    w.views[id].(lost := w.views[id].lost || Dropped(w.hub.subscribers[id], event)))
    case Read(ticket, from, allow) =>
      w.(tickets := w.tickets[ticket := Ticket(Prepare(w.hub, from, allow), StartOf(w.hub, from), |w.log|)])
    case Join(ticket) =>
      if ticket !in w.tickets then w
      else
        var t := w.tickets[ticket];
        w.(hub := Register(w.hub, t.subscriber), tickets := w.tickets - {ticket},
           views := w.views[w.hub.nextSubID := View(t.from, t.readAt, |w.log|, [], false)])
    case Take(id) =>
      if id in w.views && id in w.hub.subscribers && w.hub.subscribers[id].stream != [] then
        w.(hub := Receive(w.hub, id),
           views := w.views[id := w.views[id].(received := w.views[id].received + [w.hub.subscribers[id].stream[0]])])
      else w
    case Leave(id) => w.(hub := Cancel(w.hub, id), views := w.views - {id})
  }

  function Run(w: World, steps: seq<Step>): World {
    if steps == [] then w else Do(Run(w, steps[..|steps| - 1]), steps[|steps| - 1])
  }

  function CursorValue(e: Event): nat {
    match ParseUint(e.cursor) case Some(v) => v case None => 0
  }

  /** Events of the log, each at most once, in the order of their cursors. */
  ghost predicate InCursorOrder(events: seq<Event>, log: seq<Event>) {
    && (forall i | 0 <= i < |events| ::
          1 <= CursorValue(events[i]) <= |log| && log[CursorValue(events[i]) - 1] == events[i])
    && (forall i, j | 0 <= i < j < |events| :: CursorValue(events[i]) < CursorValue(events[j]))
  }

  /**
   What should have reached a subscriber: the log behind its cursor, without what was published between its two
   locks.
   */
  ghost function Due(allow: Event -> bool, from: nat, readAt: nat, joined: nat, log: seq<Event>): seq<Event>
    requires from <= readAt <= joined <= |log|
  {
    Filter(allow, log[from..readAt]) + Filter(allow, log[joined..])
  }

  ghost predicate ViewHolds(s: Subscriber, v: View, log: seq<Event>) {
    && v.from <= v.readAt <= v.joined <= |log|
    && Proper(v.received + s.stream, log, s.allow)
    && |v.received + s.stream| <= |Due(s.allow, v.from, v.readAt, v.joined, log)|
    && (v.lost ==> |v.received + s.stream| < |Due(s.allow, v.from, v.readAt, v.joined, log)|)
    && (!v.lost ==> v.received + s.stream == Due(s.allow, v.from, v.readAt, v.joined, log))
  }

  ghost predicate TicketHolds(t: Ticket, log: seq<Event>) {
    && t.from <= t.readAt <= |log|
    && t.subscriber.stream == Filter(t.subscriber.allow, log[t.from..t.readAt])
  }

  ghost predicate Holds(w: World) {
    && Agrees(w.hub, w.log)
    && (forall k | k in w.tickets :: TicketHolds(w.tickets[k], w.log))
    && w.views.Keys == w.hub.subscribers.Keys
    && (forall id | id in w.views :: ViewHolds(w.hub.subscribers[id], w.views[id], w.log))
  }

  lemma AppendInOrder(events: seq<Event>, log: seq<Event>, e: Event, n: nat)
    requires InCursorOrder(events, log) && 1 <= n <= |log| && log[n - 1] == e && CursorValue(e) == n
    requires forall i | 0 <= i < |events| :: CursorValue(events[i]) < n
    ensures InCursorOrder(events + [e], log)
  {
    assert CursorValue(e) == n;
  }

  /** Allowed events of the log, in order, up to a position. */
  ghost predicate UpTo(r: seq<Event>, log: seq<Event>, allow: Event -> bool, hi: nat) {
    InCursorOrder(r, log) && forall i | 0 <= i < |r| :: allow(r[i]) && CursorValue(r[i]) <= hi
  }

  /** The same, from the last event down. */
  ghost predicate Climbs(r: seq<Event>, log: seq<Event>, allow: Event -> bool, hi: nat) {
    r == [] ||
    (var e := r[|r| - 1];
     var n := CursorValue(e);
     1 <= n <= hi && n <= |log| && log[n - 1] == e && allow(e) && Climbs(r[..|r| - 1], log, allow, n - 1))
  }

  lemma ClimbsHigher(r: seq<Event>, log: seq<Event>, allow: Event -> bool, hi: nat, higher: nat)
    requires Climbs(r, log, allow, hi) && hi <= higher
    ensures Climbs(r, log, allow, higher)
  {
  }

  lemma {:induction false} ClimbsAt(r: seq<Event>, log: seq<Event>, allow: Event -> bool, hi: nat, i: nat)
    requires Climbs(r, log, allow, hi) && i < |r|
    ensures 1 <= CursorValue(r[i]) <= hi && CursorValue(r[i]) <= |log| && log[CursorValue(r[i]) - 1] == r[i]
      && allow(r[i])
  {
    if i < |r| - 1 {
      ClimbsAt(r[..|r| - 1], log, allow, CursorValue(r[|r| - 1]) - 1, i);
    }
  }

  lemma {:induction false} ClimbsBetween(r: seq<Event>, log: seq<Event>, allow: Event -> bool, hi: nat, i: nat, j: nat)
    requires Climbs(r, log, allow, hi) && i < j < |r|
    ensures CursorValue(r[i]) < CursorValue(r[j])
  {
    var below := CursorValue(r[|r| - 1]) - 1;
    if j < |r| - 1 {
      ClimbsBetween(r[..|r| - 1], log, allow, below, i, j);
    } else {
      ClimbsAt(r[..|r| - 1], log, allow, below, i);
    }
  }

  lemma ClimbingIsInOrder(r: seq<Event>, log: seq<Event>, allow: Event -> bool, hi: nat)
    requires Climbs(r, log, allow, hi)
    ensures UpTo(r, log, allow, hi)
  {
    forall i | 0 <= i < |r|
      ensures 1 <= CursorValue(r[i]) <= |log| && log[CursorValue(r[i]) - 1] == r[i] && allow(r[i])
        && CursorValue(r[i]) <= hi
    {
      ClimbsAt(r, log, allow, hi, i);
    }
    forall i, j | 0 <= i < j < |r| ensures CursorValue(r[i]) < CursorValue(r[j]) {
      ClimbsBetween(r, log, allow, hi, i, j);
    }
  }

  lemma ClimbsOneMore(r: seq<Event>, log: seq<Event>, allow: Event -> bool, hi: nat, e: Event)
    requires hi < |log| && log[hi] == e && CursorIs(e, hi + 1) && allow(e) && Climbs(r, log, allow, hi)
    ensures Climbs(r + [e], log, allow, hi + 1)
  {
    assert (r + [e])[..|r|] == r;
  }

  lemma ClimbsStep(r: seq<Event>, log: seq<Event>, allow: Event -> bool, hi: nat, e: Event)
    requires hi < |log| && log[hi] == e && CursorIs(e, hi + 1) && Climbs(r, log, allow, hi)
    ensures Climbs(if allow(e) then r + [e] else r, log, allow, hi + 1)
  {
    if allow(e) {
      ClimbsOneMore(r, log, allow, hi, e);
    } else {
      ClimbsHigher(r, log, allow, hi, hi + 1);
    }
  }

  lemma FilterSliceStep(log: seq<Event>, allow: Event -> bool, lo: nat, hi: nat)
    requires lo < hi <= |log|
    ensures var r := Filter(allow, log[lo..hi - 1]);
      Filter(allow, log[lo..hi]) == if allow(log[hi - 1]) then r + [log[hi - 1]] else r
  {
    SliceGrows(log, lo, hi);
    FilterOfAppend(allow, log[lo..hi - 1], log[hi - 1]);
  }

  lemma {:induction false} FilteredSliceClimbs(log: seq<Event>, allow: Event -> bool, lo: nat, hi: nat)
    requires Consecutive(log, 0) && lo <= hi <= |log|
    ensures Climbs(Filter(allow, log[lo..hi]), log, allow, hi)
  {
    if lo < hi {
      FilteredSliceClimbs(log, allow, lo, hi - 1);
      FilterSliceStep(log, allow, lo, hi);
      assert CursorIs(log[hi - 1], hi);
      ClimbsStep(Filter(allow, log[lo..hi - 1]), log, allow, hi - 1, log[hi - 1]);
    }
  }

  lemma SliceGrows(log: seq<Event>, lo: nat, hi: nat)
    requires lo < hi <= |log|
    ensures log[lo..hi] == log[lo..hi - 1] + [log[hi - 1]]
  {
  }

  lemma FilteredSliceIsInOrder(log: seq<Event>, allow: Event -> bool, lo: nat, hi: nat)
    requires Consecutive(log, 0) && lo <= hi <= |log|
    ensures UpTo(Filter(allow, log[lo..hi]), log, allow, hi)
  {
    FilteredSliceClimbs(log, allow, lo, hi);
    ClimbingIsInOrder(Filter(allow, log[lo..hi]), log, allow, hi);
  }

  lemma KeepOfKeep(log: seq<Event>, e: Event, size: nat)
    requires size >= 1
    ensures Keep(Keep(log, size) + [e], size) == Keep(log + [e], size)
  {
  }

  lemma PublishAgrees(h: HubState, log: seq<Event>, body: string)
    requires Agrees(h, log) && |log| + 1 < UINT64 - 1
    ensures Agrees(PublishTo(h, body), log + [Event(Digits(Successor(h.next)), body)])
    ensures Successor(h.next) == |log| + 1
  {
    var event := Event(Digits(|log| + 1), body);
    assert Successor(h.next) == |log| + 1;
    ParseUintOfDigits(|log| + 1);
    KeepOfKeep(log, event, h.ringSize);
    AppendIsConsecutive(log, event);
  }

  lemma AppendIsConsecutive(log: seq<Event>, event: Event)
    requires Consecutive(log, 0) && CursorIs(event, |log| + 1)
    ensures Consecutive(log + [event], 0)
  {
  }

  lemma DueAfterPublish(allow: Event -> bool, from: nat, readAt: nat, joined: nat, log: seq<Event>, event: Event)
    requires from <= readAt <= joined <= |log|
    ensures Due(allow, from, readAt, joined, log + [event])
         == if allow(event) then Due(allow, from, readAt, joined, log) + [event]
             else Due(allow, from, readAt, joined, log)
  {
    assert (log + [event])[from..readAt] == log[from..readAt];
    assert (log + [event])[joined..] == log[joined..] + [event];
    FilterOfAppend(allow, log[joined..], event);
  }

  lemma OrderInALongerLog(events: seq<Event>, log: seq<Event>, event: Event)
    requires InCursorOrder(events, log)
    ensures InCursorOrder(events, log + [event])
  {
  }

  /** What a subscriber was sent so far: allowed events of the log, in order. */
  ghost predicate Proper(events: seq<Event>, log: seq<Event>, allow: Event -> bool) {
    InCursorOrder(events, log) && forall i | 0 <= i < |events| :: allow(events[i])
  }

  lemma ProperAfterPublish(events: seq<Event>, log: seq<Event>, allow: Event -> bool, event: Event)
    requires Proper(events, log, allow) && ParseUint(event.cursor) == Some(|log| + 1)
    ensures Proper(events, log + [event], allow)
    ensures allow(event) ==> Proper(events + [event], log + [event], allow)
  {
    OrderInALongerLog(events, log, event);
    AppendInOrder(events, log + [event], event, |log| + 1);
  }

  lemma ViewAfterPublish(s: Subscriber, v: View, log: seq<Event>, event: Event)
    requires ViewHolds(s, v, log) && ParseUint(event.cursor) == Some(|log| + 1)
    ensures ViewHolds(Offer(s, event), v.(lost := v.lost || Dropped(s, event)), log + [event])
  {
    DueAfterPublish(s.allow, v.from, v.readAt, v.joined, log, event);
    ProperAfterPublish(v.received + s.stream, log, s.allow, event);
    assert v.received + (s.stream + [event]) == v.received + s.stream + [event];
  }

  lemma TicketAfterPublish(t: Ticket, log: seq<Event>, event: Event)
    requires TicketHolds(t, log)
    ensures TicketHolds(t, log + [event])
  {
    assert (log + [event])[t.from..t.readAt] == log[t.from..t.readAt];
  }

  lemma ReadHolds(h: HubState, log: seq<Event>, from: string, allow: Event -> bool)
    requires Agrees(h, log)
    ensures TicketHolds(Ticket(Prepare(h, from, allow), StartOf(h, from), |log|), log)
  {
    var c := ParseUint(from);
    if from != "" && c.Some? {
      if c.value <= |log| {
        ReplayIsTheLog(h, log, from, c.value);
      } else {
        ReplayOfAForeignCursor(h, log, from, c.value);
      }
      assert Replay(h, from).0 == log[StartOf(h, from)..];
    } else {
      assert Replay(h, from).0 == [] && log[|log|..] == [];
    }
    assert log[StartOf(h, from)..|log|] == log[StartOf(h, from)..];
  }

  lemma JoinHolds(h: HubState, t: Ticket, log: seq<Event>)
    requires Agrees(h, log) && TicketHolds(t, log)
    ensures ViewHolds(t.subscriber, View(t.from, t.readAt, |log|, [], false), log)
  {
    FilteredSliceIsInOrder(log, t.subscriber.allow, t.from, t.readAt);
    assert log[|log|..] == [];
    assert [] + t.subscriber.stream == t.subscriber.stream;
    assert t.subscriber.stream + [] == t.subscriber.stream;
  }

  lemma TakeHolds(s: Subscriber, v: View, log: seq<Event>)
    requires ViewHolds(s, v, log) && s.stream != []
    ensures ViewHolds(s.(stream := s.stream[1..]), v.(received := v.received + [s.stream[0]]), log)
  {
    assert v.received + [s.stream[0]] + s.stream[1..] == v.received + s.stream;
  }

  lemma DoHolds(w: World, step: Step)
    requires Holds(w) && |w.log| + 1 < UINT64 - 1
    ensures Holds(Do(w, step))
    ensures |Do(w, step).log| <= |w.log| + 1
  {
    match step
    case Publish(body) =>
      var event := Event(Digits(Successor(w.hub.next)), body);
      PublishAgrees(w.hub, w.log, body);
      ParseUintOfDigits(|w.log| + 1);
      var after := Do(w, step);
      forall id | id in after.views
        ensures ViewHolds(after.hub.subscribers[id], after.views[id], after.log)
      {
        ViewAfterPublish(w.hub.subscribers[id], w.views[id], w.log, event);
      }
      forall k | k in w.tickets
        ensures TicketHolds(w.tickets[k], after.log)
      {
        TicketAfterPublish(w.tickets[k], w.log, event);
      }
    case Read(ticket, from, allow) =>
      ReadHolds(w.hub, w.log, from, allow);
    case Join(ticket) =>
      if ticket in w.tickets {
        JoinHolds(w.hub, w.tickets[ticket], w.log);
      }
    case Take(id) =>
      if id in w.views && w.hub.subscribers[id].stream != [] {
        TakeHolds(w.hub.subscribers[id], w.views[id], w.log);
      }
    case Leave(id) =>
  }

  lemma {:induction false} EveryRunHolds(replayBuffer: int, steps: seq<Step>)
    requires |steps| < UINT64 - 1
    ensures Holds(Run(Start(replayBuffer), steps))
    ensures |Run(Start(replayBuffer), steps).log| <= |steps|
  {
    if steps != [] {
      EveryRunHolds(replayBuffer, steps[..|steps| - 1]);
      DoHolds(Run(Start(replayBuffer), steps[..|steps| - 1]), steps[|steps| - 1]);
    }
  }

  /** Whatever is lost, a subscriber sees allowed events of the log only, in strictly increasing cursor order. */
  lemma DeliveryIsInOrder(replayBuffer: int, steps: seq<Step>, id: int)
    requires |steps| < UINT64 - 1 && id in Run(Start(replayBuffer), steps).views
    ensures var w := Run(Start(replayBuffer), steps);
            && id in w.hub.subscribers
            && InCursorOrder(w.views[id].received + w.hub.subscribers[id].stream, w.log)
            && forall e | e in w.views[id].received :: w.hub.subscribers[id].allow(e)
  {
    EveryRunHolds(replayBuffer, steps);
    var w := Run(Start(replayBuffer), steps);
    var received, stream := w.views[id].received, w.hub.subscribers[id].stream;
    forall e | e in received
      ensures w.hub.subscribers[id].allow(e)
    {
      var i :| 0 <= i < |received| && received[i] == e;
      assert (received + stream)[i] == e;
    }
  }

  /**
   A subscription delivers the whole log behind its cursor if and only if its channel never overflowed and no event it
   allows was published between the two locks of Subscribe. With an atomic Subscribe there is no such event.
   */
  lemma DeliveryIsGaplessIffNothingWasLostOrCameBetween(replayBuffer: int, steps: seq<Step>, id: int)
    requires |steps| < UINT64 - 1 && id in Run(Start(replayBuffer), steps).views
    ensures var w := Run(Start(replayBuffer), steps);
            id in w.hub.subscribers &&
            var v, s := w.views[id], w.hub.subscribers[id];
            && v.from <= v.readAt <= v.joined <= |w.log|
            && (v.received + s.stream == Filter(s.allow, w.log[v.from..])
                <==> !v.lost && forall i | v.readAt <= i < v.joined :: !s.allow(w.log[i]))
  {
    EveryRunHolds(replayBuffer, steps);
    var w := Run(Start(replayBuffer), steps);
    var v, s := w.views[id], w.hub.subscribers[id];
    DueIsEverythingIffNothingBetween(s.allow, v.from, v.readAt, v.joined, w.log);
  }

  /**
   A subscriber reads its backlog, an event it allows is published, and it registers: from any state the hub can be in,
   the event does not reach it.
   */
  lemma AnEventBetweenTheLocksIsMissed(w: World, ticket: int, from: string, allow: Event -> bool, body: string)
    requires Holds(w) && |w.log| + 1 < UINT64 - 1 && allow(Event(Digits(|w.log| + 1), body))
    ensures var missed := Do(Do(Do(w, Read(ticket, from, allow)), Publish(body)), Join(ticket));
            var id := w.hub.nextSubID;
            && id in missed.views && id in missed.hub.subscribers && !missed.views[id].lost
            && var v, s := missed.views[id], missed.hub.subscribers[id];
               && v.from <= |missed.log| && v.received + s.stream != Filter(allow, missed.log[v.from..])
  {
    var read := Do(w, Read(ticket, from, allow));
    var published := Do(read, Publish(body));
    var missed := Do(published, Join(ticket));
    var id := w.hub.nextSubID;
    DoHolds(w, Read(ticket, from, allow));
    DoHolds(read, Publish(body));
    var t := published.tickets[ticket];
    assert t == read.tickets[ticket] && t.readAt == |w.log| && t.subscriber.allow == allow;
    JoinHolds(published.hub, t, published.log);
    assert missed.views[id] == View(t.from, t.readAt, |published.log|, [], false);
    assert missed.log[|w.log|] == Event(Digits(|w.log| + 1), body);
    DueIsEverythingIffNothingBetween(allow, t.from, t.readAt, |published.log|, missed.log);
  }

  lemma DueIsEverythingIffNothingBetween(allow: Event -> bool, from: nat, readAt: nat, joined: nat, log: seq<Event>)
    requires from <= readAt <= joined <= |log|
    ensures Due(allow, from, readAt, joined, log) == Filter(allow, log[from..])
            <==> forall i | readAt <= i < joined :: !allow(log[i])
    ensures |Due(allow, from, readAt, joined, log)| <= |Filter(allow, log[from..])|
  {
    var head, between, tail := log[from..readAt], log[readAt..joined], log[joined..];
    assert log[from..] == head + (between + tail);
    FilterConcat(allow, head, between + tail);
    FilterConcat(allow, between, tail);
    NothingPasses(allow, between);
    assert forall i | readAt <= i < joined :: between[i - readAt] == log[i];
    assert forall i | 0 <= i < |between| :: between[i] == log[readAt + i];
    var h, b, t := Filter(allow, head), Filter(allow, between), Filter(allow, tail);
    assert |h + (b + t)| == |h + t| + |b|;
    assert b == [] ==> h + (b + t) == h + t;
  }

  lemma {:induction false} NothingPasses(keep: Event -> bool, s: seq<Event>)
    ensures Filter(keep, s) == [] <==> forall i | 0 <= i < |s| :: !keep(s[i])
  {
    if s != [] {
      NothingPasses(keep, s[..|s| - 1]);
      assert forall i | 0 <= i < |s| - 1 :: s[..|s| - 1][i] == s[i];
    }
  }

  // ----- the ring and the channels in numbers -----

  lemma {:induction false} TheRingKeepsItsSize(replayBuffer: int, steps: seq<Step>)
    ensures Run(Start(replayBuffer), steps).hub.ringSize == if replayBuffer > 0 then replayBuffer else 1024
  {
    if steps != [] {
      TheRingKeepsItsSize(replayBuffer, steps[..|steps| - 1]);
    }
  }

  /**
   In every run the ring holds the last events published, as many as it was made for, or 1024 when no number was given,
   and all of them while there are fewer.
   */
  lemma TheRingIsTheLastOfTheLog(replayBuffer: int, steps: seq<Step>)
    requires |steps| < UINT64 - 1
    ensures var w := Run(Start(replayBuffer), steps);
      var size := if replayBuffer > 0 then replayBuffer else 1024;
      w.hub.ring == if |w.log| <= size then w.log else w.log[|w.log| - size..]
  {
    EveryRunHolds(replayBuffer, steps);
    TheRingKeepsItsSize(replayBuffer, steps);
  }

  /**
   Without a cursor nothing is replayed and nothing is missing; with one that is no number nothing is replayed either.
   */
  lemma ReplayWithoutACursor(h: HubState, garbled: string)
    requires garbled != "" && ParseUint(garbled) == None
    ensures Replay(h, "") == ([], true) && Replay(h, garbled) == ([], false)
  {
  }

  /** A channel starts with the allowed events of its backlog and has room for 64 more than the whole backlog. */
  lemma AChannelHoldsItsBacklogAnd64More(h: HubState, from: string, allow: Event -> bool)
    ensures var backlog := Replay(h, from).0;
      var s := Prepare(h, from, allow);
      && s.capacity == |backlog| + 64 && s.allow == allow && |s.stream| <= |backlog|
      && (forall e :: e in s.stream <==> e in backlog && allow(e))
  {
    var backlog := Replay(h, from).0;
    FilterIsShorter(allow, backlog);
    forall e ensures e in Filter(allow, backlog) <==> e in backlog && allow(e) {
      FilterKeepsMembers(allow, backlog, e);
    }
  }

  /** An event is taken if and only if it is allowed and there is room; it comes last, and nothing else moves. */
  lemma OfferedOnce(s: Subscriber, e: Event)
    ensures Offer(s, e) ==
      if s.allow(e) && |s.stream| < s.capacity then Subscriber(s.stream + [e], s.capacity, s.allow) else s
  {
  }
}
