/**
 The event hub behind the live stream (internal/api/hub.go): a bounded replay ring, cursors, and one bounded
 channel for each subscriber.
 */
module Hub {
  import opened Text
  import opened StableSort

  datatype Event = Event(cursor: string, body: string)

  /** The hub's side of a subscription: the channel with what is still unread in it, and the filter. */
  datatype Subscriber = Subscriber(stream: seq<Event>, capacity: nat, allow: Event -> bool)

  datatype HubState = HubState(next: nat, ring: seq<Event>, ringSize: nat, subscribers: map<int, Subscriber>,
      nextSubID: int)

  const DEFAULT_REPLAY_BUFFER := 1024

  // ----- the operations as functions of the state -----

  /** select { case stream <- event: default: } */
  function Offer(target: Subscriber, event: Event): Subscriber {
    if target.allow(event) && |target.stream| < target.capacity then target.(stream := target.stream + [event])
        else target
  }

  function OfferAll(targets: map<int, Subscriber>, event: Event): map<int, Subscriber> {
    map id | id in targets :: Offer(targets[id], event)
  }

  function Keep(ring: seq<Event>, size: nat): seq<Event> {
    if |ring| > size then ring[|ring| - size..] else ring
  }

  /** uint64 addition. */
  function Successor(n: nat): nat {
    (n + 1) % UINT64
  }

  function PublishTo(h: HubState, body: string): HubState {
    var event := Event(Digits(Successor(h.next)), body);
    h.(next := Successor(h.next),
       ring := Keep(h.ring + [event], h.ringSize),
       subscribers := OfferAll(h.subscribers, event))
  }

  function After(ring: seq<Event>, after: nat): seq<Event> {
    if ring == [] then []
    else
      var last := ring[|ring| - 1];
      var cursor := ParseUint(last.cursor);
      After(ring[..|ring| - 1], after) + if cursor.Some? && cursor.value > after then [last] else []
  }

  function Replay(h: HubState, from: string): (seq<Event>, bool) {
    if from == "" then ([], true)
    else
      match ParseUint(from)
      case None => ([], false)
      case Some(after) =>
        if h.ring == [] then ([], after == h.next)
        else
          match ParseUint(h.ring[0].cursor)
          case None => ([], false)
          case Some(oldest) => if Successor(after) < oldest then ([], false) else (After(h.ring, after), true)
  }

  /** What Subscribe builds under its first lock. */
  function Prepare(h: HubState, from: string, allow: Event -> bool): Subscriber {
    var backlog := Replay(h, from).0;
    Subscriber(Filter(allow, backlog), |backlog| + 64, allow)
  }

  /** What it does under its second lock. */
  function Register(h: HubState, subscriber: Subscriber): HubState {
    h.(subscribers := h.subscribers[h.nextSubID := subscriber], nextSubID := h.nextSubID + 1)
  }

  function Receive(h: HubState, id: int): HubState {
    if id in h.subscribers && h.subscribers[id].stream != [] then
      h.(subscribers := h.subscribers[id := h.subscribers[id].(stream := h.subscribers[id].stream[1..])])
    else h
  }

  function Cancel(h: HubState, id: int): HubState {
    h.(subscribers := h.subscribers - {id})
  }

  const AllowAll: Event -> bool := (e: Event) => true

  function FilterOrAll(allow: Option<Event -> bool>): Event -> bool {
    match allow
    case None => AllowAll
    case Some(f) => f
  }

  lemma FilterStep(keep: Event -> bool, s: seq<Event>, i: nat)
    requires i < |s|
    ensures Filter(keep, s[..i + 1]) == Filter(keep, s[..i]) + if keep(s[i]) then [s[i]] else []
  {
    assert s[..i + 1][..i] == s[..i];
  }

  function NewState(replayBuffer: int): HubState {
    HubState(0, [], if replayBuffer <= 0 then DEFAULT_REPLAY_BUFFER else replayBuffer, map[], 0)
  }

  // ----- the hub itself -----

  class EventHub {
    var next: nat
    var ring: seq<Event>
    var ringSize: nat
    var subscribers: map<int, Subscriber>
    var nextSubID: int

    ghost function State(): HubState
      reads this
    {
      HubState(next, ring, ringSize, subscribers, nextSubID)
    }

    constructor (replayBuffer: int)
      ensures State() == NewState(replayBuffer)
      ensures ringSize >= 1
    {
      next, ring, subscribers, nextSubID := 0, [], map[], 0;
      ringSize := if replayBuffer <= 0 then DEFAULT_REPLAY_BUFFER else replayBuffer;
    }

    method Publish(body: string)
      modifies this
      ensures State() == PublishTo(old(State()), body)
    {
      next := Successor(next);
      var event := Event(Digits(next), body);
      ring := ring + [event];
      if |ring| > ringSize {
        ring := ring[|ring| - ringSize..];
      }
      Deliver(event);
    }

    /** The sends of Publish, one target after the other, in no particular order. */
    method Deliver(event: Event)
      modifies this`subscribers
      ensures subscribers == OfferAll(old(subscribers), event)
    {
      var targets := subscribers;
      var todo := targets.Keys;
      while todo != {}
        invariant todo <= targets.Keys && subscribers.Keys == targets.Keys
        invariant forall id | id in todo :: subscribers[id] == targets[id]
        invariant forall id | id in targets.Keys - todo :: subscribers[id] == Offer(targets[id], event)
        decreases |todo|
      {
        ghost var some := SomeMember(todo);
        var id :| id in todo;
        todo := todo - {id};
        var target := targets[id];
        if !target.allow(event) {
          continue;
        }
        if |target.stream| < target.capacity {
          subscribers := subscribers[id := target.(stream := target.stream + [event])];
        }
      }
      forall id | id in subscribers.Keys
        ensures subscribers[id] == OfferAll(targets, event)[id]
      {
        assert id in targets.Keys - todo;
      }
      SameMap(subscribers, OfferAll(targets, event));
    }

    method Rewind(from: string) returns (events: seq<Event>, complete: bool)
      ensures (events, complete) == Replay(State(), from)
    {
      if from == "" {
        return [], true;
      }
      var after := ParseUint(from);
      if after.None? {
        return [], false;
      }
      if |ring| == 0 {
        return [], after.value == next;
      }
      var oldest := ParseUint(ring[0].cursor);
      if oldest.None? {
        return [], false;
      }
      if Successor(after.value) < oldest.value {
        return [], false;
      }
      events := [];
      for i := 0 to |ring|
        invariant events == After(ring[..i], after.value)
      {
        assert ring[..i + 1][..i] == ring[..i];
        var cursor := ParseUint(ring[i].cursor);
        if cursor.None? {
          continue;
        }
        if cursor.value > after.value {
          events := events + [ring[i]];
        }
      }
      assert ring[..|ring|] == ring;
      complete := true;
    }

    method Subscribe(from: string, allow: Option<Event -> bool>) returns (id: int, complete: bool)
      modifies this
      ensures complete == Replay(old(State()), from).1
      ensures id == old(nextSubID)
      ensures State() == Register(old(State()),
                                  Prepare(old(State()), from, FilterOrAll(allow)))
    {
      var filter := FilterOrAll(allow);
      var backlog;
      backlog, complete := Rewind(from);
      var stream: seq<Event> := [];
      for i := 0 to |backlog|
        invariant State() == old(State())
        invariant stream == Filter(filter, backlog[..i])
      {
        FilterStep(filter, backlog, i);
        if filter(backlog[i]) {
          stream := stream + [backlog[i]];
        }
      }
      assert backlog[..|backlog|] == backlog;
      id := nextSubID;
      nextSubID := nextSubID + 1;
      subscribers := subscribers[id := Subscriber(stream, |backlog| + 64, filter)];
    }

    /** The subscriber reads one event from its channel. */
    method Take(id: int) returns (event: Option<Event>)
      modifies this
      ensures State() == Receive(old(State()), id)
      ensures event == if id in old(subscribers) && old(subscribers)[id].stream != []
                       then Some(old(subscribers)[id].stream[0]) else None
    {
      if id !in subscribers || |subscribers[id].stream| == 0 {
        return None;
      }
      var target := subscribers[id];
      subscribers := subscribers[id := target.(stream := target.stream[1..])];
      event := Some(target.stream[0]);
    }

    method Drop(id: int)
      modifies this
      ensures State() == Cancel(old(State()), id)
    {
      subscribers := subscribers - {id};
    }
  }
}
