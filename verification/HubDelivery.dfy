/**
 Publishing in its two parts: the cursor and the list of receivers are fixed under the lock, the sends come after it
 (hub.go:38-66). Several publishers send at once, and a receiver may be cancelled and its channel closed in between
 (hub.go:90-96).
 */
module HubDelivery {
  import opened Text
  import opened StableSort
  import opened Hub

  /** One publisher on its way: the event and the receivers it has still to offer it to. */
  datatype Sending = Sending(event: Event, targets: set<int>)

  /**
   `sending` by the order the cursors were given in; `former` are the cancelled receivers, whose channels are there
   still. `got` is which of the publishers' events each channel took, in the order they arrived.
   */
  datatype World = World(hub: HubState, sending: seq<Sending>, former: map<int, Subscriber>, closed: set<int>,
      got: map<int, seq<nat>>, crashed: bool)
  {
    function Got(id: int): seq<nat> {
      if id in got then got[id] else []
    }

    predicate Targets(p: nat, id: int) {
      p < |sending| && id in sending[p].targets
    }
  }

  datatype Step =
    | Assign(body: string)
    | Send(p: nat, id: int)
    | Attach(from: string, allow: Event -> bool)
    | Read(id: int)
    | Detach(id: int)
    | Close(id: int)

  /** Under the lock: the cursor, the ring, and who is to receive the event. */
  function Assigned(h: HubState, body: string): (HubState, Sending) {
    var event := Event(Digits(Successor(h.next)), body);
    (h.(next := Successor(h.next), ring := Keep(h.ring + [event], h.ringSize)), Sending(event, h.subscribers.Keys))
  }

  /** A receiver's channel and filter, also after it was cancelled. */
  function Receiver(w: World, id: int): Subscriber
    requires id in w.hub.subscribers || id in w.former
  {
    if id in w.hub.subscribers then w.hub.subscribers[id] else w.former[id]
  }

  predicate Takes(s: Subscriber, event: Event) {
    s.allow(event) && |s.stream| < s.capacity
  }

  /** One send without waiting; on a closed channel it brings the program down. */
  function SendTo(w: World, p: nat, id: int): World {
    if !w.Targets(p, id) || (id !in w.hub.subscribers && id !in w.former) then w
    else
      var event := w.sending[p].event;
      var s := Receiver(w, id);
      var offered := w.(sending := w.sending[p := w.sending[p].(targets := w.sending[p].targets - {id})]);
      if !s.allow(event) then offered
      else if id in w.closed then offered.(crashed := true)
      else if !Takes(s, event) then offered
      else
        var counted := offered.(got := w.got[id := w.Got(id) + [p]]);
        if id in w.hub.subscribers then
          counted.(hub := w.hub.(subscribers := w.hub.subscribers[id := Offer(s, event)]))
        else counted.(former := w.former[id := Offer(s, event)])
  }

  /** The channel with its first event read. */
  function Rest(s: Subscriber): Subscriber {
    if s.stream == [] then s else s.(stream := s.stream[1..])
  }

  function Next(w: World, s: Step): World {
    if w.crashed then w
    else
      match s
      case Assign(body) =>
        var (hub, sending) := Assigned(w.hub, body);
        w.(hub := hub, sending := w.sending + [sending])
      case Send(p, id) => SendTo(w, p, id)
      case Attach(from, allow) => w.(hub := Register(w.hub, Prepare(w.hub, from, allow)))
      case Read(id) =>
        if id in w.former then w.(former := w.former[id := Rest(w.former[id])]) else w.(hub := Receive(w.hub, id))
      case Detach(id) =>
        if id !in w.hub.subscribers then w
        else w.(hub := Cancel(w.hub, id), former := w.former[id := w.hub.subscribers[id]])
      case Close(id) => if id in w.former then w.(closed := w.closed + {id}) else w
  }

  function Run(w: World, steps: seq<Step>): World {
    if |steps| == 0 then w else Next(Run(w, steps[..|steps| - 1]), steps[|steps| - 1])
  }

  function Start(replayBuffer: int): World {
    World(NewState(replayBuffer), [], map[], {}, map[], false)
  }

  // ----- one send -----

  /**
   A send that is due puts the event into the channel if the subscriber allows it and there is room, and is done
   either way; no other channel is touched. On a closed channel an event that is allowed ends the program.
   */
  lemma WhatASendDoes(w: World, p: nat, id: int)
    requires !w.crashed && w.Targets(p, id) && (id in w.hub.subscribers || id in w.former)
    ensures var after, s, event := Next(w, Send(p, id)), Receiver(w, id), w.sending[p].event;
      var taken := s.allow(event) && |s.stream| < s.capacity && id !in w.closed;
      && !after.Targets(p, id) && (after.crashed <==> s.allow(event) && id in w.closed)
      && (id in after.hub.subscribers || id in after.former)
      && Receiver(after, id) == s.(stream := if taken then s.stream + [event] else s.stream)
      && after.Got(id) == (if taken then w.Got(id) + [p] else w.Got(id))
      && (forall other :: other != id && (other in w.hub.subscribers || other in w.former) ==>
            && (other in after.hub.subscribers || other in after.former)
            && Receiver(after, other) == Receiver(w, other) && after.Got(other) == w.Got(other))
  {
  }

  // ----- what holds in every run -----

  /** The step puts an event into the channel. */
  predicate Arrives(w: World, s: Step, id: int) {
    s.Send? && s.id == id && !w.crashed && w.Targets(s.p, id) && Next(w, s).Got(id) == w.Got(id) + [s.p]
  }

  lemma OnlyArrivalsCount(w: World, s: Step, id: int)
    ensures Next(w, s).Got(id) == w.Got(id) || Arrives(w, s, id)
  {
  }

  /** Identifiers are never given twice: the living, the cancelled and the closed are told apart. */
  ghost predicate ToldApart(w: World) {
    && (forall id <- w.hub.subscribers :: id < w.hub.nextSubID && id !in w.former)
    && (forall id <- w.former :: id < w.hub.nextSubID)
    && (forall id <- w.closed :: id in w.former)
    && (forall p, id | 0 <= p < |w.sending| && id in w.sending[p].targets :: id in w.hub.subscribers || id in w.former)
  }

  /** Every channel was made with room for its backlog and 64 events more. */
  ghost predicate Roomy(w: World) {
    && (forall id <- w.hub.subscribers :: w.hub.subscribers[id].capacity >= 64)
    && (forall id <- w.former :: w.former[id].capacity >= 64)
  }

  /** What a channel took is from publishers that are through with it. */
  ghost predicate Through(w: World, id: int) {
    forall k | 0 <= k < |w.Got(id)| :: w.Got(id)[k] < |w.sending| && !w.Targets(w.Got(id)[k], id)
  }

  ghost predicate Holds(w: World) {
    ToldApart(w) && Roomy(w) && forall id :: Through(w, id)
  }

  lemma SendKeepsApart(w: World, p: nat, id: int)
    requires ToldApart(w)
    ensures ToldApart(SendTo(w, p, id))
  {
    var v := SendTo(w, p, id);
    assert forall q | 0 <= q < |v.sending| :: v.sending[q].targets <= w.sending[q].targets;
  }

  lemma StepKeepsApart(w: World, s: Step)
    requires ToldApart(w)
    ensures ToldApart(Next(w, s))
  {
    if s.Send? {
      SendKeepsApart(w, s.p, s.id);
    }
  }

  lemma StepKeepsRoomy(w: World, s: Step)
    requires Roomy(w)
    ensures Roomy(Next(w, s))
  {
  }

  lemma StepKeepsThrough(w: World, s: Step, id: int)
    requires Through(w, id)
    ensures Through(Next(w, s), id)
  {
    var v := Next(w, s);
    OnlyArrivalsCount(w, s, id);
    assert |w.sending| <= |v.sending|;
    forall k | 0 <= k < |v.Got(id)| ensures v.Got(id)[k] < |v.sending| && !v.Targets(v.Got(id)[k], id) {
      if k < |w.Got(id)| {
        assert v.Got(id)[k] == w.Got(id)[k];
      }
    }
  }

  lemma StepKeepsHold(w: World, s: Step)
    requires Holds(w)
    ensures Holds(Next(w, s))
  {
    StepKeepsApart(w, s);
    StepKeepsRoomy(w, s);
    forall id ensures Through(Next(w, s), id) {
      StepKeepsThrough(w, s, id);
    }
  }

  lemma {:induction false} EveryRunHolds(w: World, steps: seq<Step>)
    requires Holds(w)
    ensures Holds(Run(w, steps))
  {
    if |steps| > 0 {
      EveryRunHolds(w, steps[..|steps| - 1]);
      StepKeepsHold(Run(w, steps[..|steps| - 1]), steps[|steps| - 1]);
    }
  }

  // ----- one publisher at a time is the publish of one step -----

  /** The sends of publisher p to these receivers. */
  function Sends(p: nat, ids: seq<int>): seq<Step> {
    seq(|ids|, i requires 0 <= i < |ids| => Send(p, ids[i]))
  }

  predicate Once(ids: seq<int>) {
    forall i, j :: 0 <= i < j < |ids| ==> ids[i] != ids[j]
  }

  /** All the receivers and nobody else. */
  predicate Lists(ids: seq<int>, receivers: set<int>) {
    (forall k :: 0 <= k < |ids| ==> ids[k] in receivers) && (forall id <- receivers :: id in ids)
  }

  /** After the first sends: those receivers have been offered the event, the others not yet. */
  ghost predicate OfferedTo(w: World, v: World, event: Event, ids: seq<int>) {
    && v.hub == w.hub.(subscribers := v.hub.subscribers) && v.hub.subscribers.Keys == w.hub.subscribers.Keys
    && (forall id <- w.hub.subscribers ::
          v.hub.subscribers[id] == if id in ids then Offer(w.hub.subscribers[id], event) else w.hub.subscribers[id])
    && |v.sending| == |w.sending| && v.closed == w.closed && v.former == w.former && !v.crashed
  }

  lemma OneMoreOffered(w: World, v: World, p: nat, ids: seq<int>, id: int)
    requires Holds(w) && p < |w.sending| && OfferedTo(w, v, w.sending[p].event, ids)
    requires v.sending[p] == Sending(w.sending[p].event, w.sending[p].targets - set i | i in ids)
    requires id in w.hub.subscribers && id !in ids && id in w.sending[p].targets
    ensures var u := SendTo(v, p, id);
      && OfferedTo(w, u, w.sending[p].event, ids + [id])
      && u.sending[p] == Sending(w.sending[p].event, w.sending[p].targets - set i | i in ids + [id])
  {
  }

  lemma {:induction false} SendingAround(w: World, p: nat, ids: seq<int>)
    requires Holds(w) && !w.crashed && p < |w.sending| && Once(ids)
    requires forall k :: 0 <= k < |ids| ==> ids[k] in w.hub.subscribers && ids[k] in w.sending[p].targets
    ensures var v := Run(w, Sends(p, ids));
      && OfferedTo(w, v, w.sending[p].event, ids)
      && v.sending[p] == Sending(w.sending[p].event, w.sending[p].targets - set i | i in ids)
  {
    if |ids| > 0 {
      var last := |ids| - 1;
      SendingAround(w, p, ids[..last]);
      assert Sends(p, ids)[..last] == Sends(p, ids[..last]);
      assert ids[last] !in ids[..last];
      OneMoreOffered(w, Run(w, Sends(p, ids[..last])), p, ids[..last], ids[last]);
      assert ids[..last] + [ids[last]] == ids;
    }
  }

  /**
   A publisher that nobody comes between does in its parts what the publish of one step does, in whatever order it
   sends.
   */
  lemma AloneItIsAPublish(w: World, body: string, ids: seq<int>)
    requires Holds(w) && !w.crashed && Once(ids) && Lists(ids, w.hub.subscribers.Keys)
    ensures Run(Next(w, Assign(body)), Sends(|w.sending|, ids)).hub == PublishTo(w.hub, body)
  {
    var v := Next(w, Assign(body));
    StepKeepsHold(w, Assign(body));
    var event := Event(Digits(Successor(w.hub.next)), body);
    assert v.sending[|w.sending|] == Sending(event, w.hub.subscribers.Keys);
    SendingAround(v, |w.sending|, ids);
    var end := Run(v, Sends(|w.sending|, ids));
    forall id <- w.hub.subscribers ensures end.hub.subscribers[id] == OfferAll(w.hub.subscribers, event)[id] {
      assert end.hub.subscribers[id] == Offer(w.hub.subscribers[id], event);
    }
    SameMap(end.hub.subscribers, OfferAll(w.hub.subscribers, event));
  }

  // ----- publishers in turn deliver in order -----

  predicate Rising(tickets: seq<nat>) {
    forall i, j :: 0 <= i < j < |tickets| ==> tickets[i] < tickets[j]
  }

  /** A send that arrives does so before nothing of a later cursor: no event overtook it. */
  ghost predicate NotOvertaken(w: World, s: Step, id: int) {
    Arrives(w, s, id) ==> forall k :: 0 <= k < |w.Got(id)| ==> w.Got(id)[k] < s.p
  }

  /** Nor was any that arrived before. */
  ghost predicate NoneOvertakes(w: World, steps: seq<Step>, id: int) {
    |steps| > 0 ==>
      && NoneOvertakes(w, steps[..|steps| - 1], id)
      && NotOvertaken(Run(w, steps[..|steps| - 1]), steps[|steps| - 1], id)
  }

  lemma RisingStep(w: World, s: Step, id: int)
    ensures Rising(Next(w, s).Got(id)) <==> Rising(w.Got(id)) && NotOvertaken(w, s, id)
  {
    OnlyArrivalsCount(w, s, id);
    if Arrives(w, s, id) {
      var before, after := w.Got(id), Next(w, s).Got(id);
      assert after == before + [s.p] && after[|before|] == s.p;
      assert forall k | 0 <= k < |before| :: after[k] == before[k];
    } else {
      assert Next(w, s).Got(id) == w.Got(id);
    }
  }

  lemma RunInParts(w: World, steps: seq<Step>)
    requires steps != []
    ensures Run(w, steps) == Next(Run(w, steps[..|steps| - 1]), steps[|steps| - 1])
  {
  }

  lemma {:induction false} InOrderIffNoneOvertakes(w: World, steps: seq<Step>, id: int)
    requires w.Got(id) == []
    ensures Rising(Run(w, steps).Got(id)) <==> NoneOvertakes(w, steps, id)
  {
    if |steps| > 0 {
      var last := |steps| - 1;
      InOrderIffNoneOvertakes(w, steps[..last], id);
      RunInParts(w, steps);
      RisingStep(Run(w, steps[..last]), steps[last], id);
    }
  }

  /** What a channel took is from publishers that are through with it; one that is not comes behind all of these. */
  ghost predicate Queued(w: World, id: int) {
    && Rising(w.Got(id))
    && (forall k :: 0 <= k < |w.Got(id)| ==> w.Got(id)[k] < |w.sending|)
    && (forall p: nat :: w.Targets(p, id) ==>
          p == |w.sending| - 1 && forall k :: 0 <= k < |w.Got(id)| ==> w.Got(id)[k] < p)
  }

  /** A publisher gets its cursor only when every earlier one has sent to all its receivers. */
  ghost predicate OneByOneSent(w: World, steps: seq<Step>) {
    forall k :: 0 <= k < |steps| && steps[k].Assign? ==> forall p: nat, id :: !Run(w, steps[..k]).Targets(p, id)
  }

  lemma QueuedStep(w: World, s: Step, id: int)
    requires Queued(w, id) && (s.Assign? ==> forall p: nat :: !w.Targets(p, id))
    ensures Queued(Next(w, s), id)
  {
    var v := Next(w, s);
    RisingStep(w, s, id);
    OnlyArrivalsCount(w, s, id);
    assert Rising(v.Got(id));
    assert forall k :: 0 <= k < |v.Got(id)| ==> v.Got(id)[k] < |v.sending|;
    forall p: nat | v.Targets(p, id)
      ensures p == |v.sending| - 1 && forall k :: 0 <= k < |v.Got(id)| ==> v.Got(id)[k] < p
    {
      if w.Targets(p, id) {
        assert p == |v.sending| - 1;
        assert v.Got(id) == w.Got(id);
      } else {
        assert s.Assign?;
      }
    }
  }

  lemma OneByOneBefore(w: World, steps: seq<Step>)
    requires steps != [] && OneByOneSent(w, steps)
    ensures OneByOneSent(w, steps[..|steps| - 1])
    ensures var last := |steps| - 1;
      steps[last].Assign? ==> forall p: nat, id :: !Run(w, steps[..last]).Targets(p, id)
  {
    var last := |steps| - 1;
    forall k | 0 <= k < last && steps[..last][k].Assign?
      ensures forall p: nat, id :: !Run(w, steps[..last][..k]).Targets(p, id)
    {
      assert steps[..last][..k] == steps[..k];
    }
  }

  lemma {:induction false} StaysQueued(w: World, steps: seq<Step>, id: int)
    requires Queued(w, id) && OneByOneSent(w, steps)
    ensures Queued(Run(w, steps), id)
  {
    if |steps| > 0 {
      var last := |steps| - 1;
      OneByOneBefore(w, steps);
      StaysQueued(w, steps[..last], id);
      RunInParts(w, steps);
      QueuedStep(Run(w, steps[..last]), steps[last], id);
    }
  }

  /** In every run of a new hub, publishers that wait for each other deliver in order to every receiver. */
  lemma PublishersInTurnDeliverInOrder(replayBuffer: int, steps: seq<Step>, id: int)
    requires OneByOneSent(Start(replayBuffer), steps)
    ensures Rising(Run(Start(replayBuffer), steps).Got(id))
    ensures NoneOvertakes(Start(replayBuffer), steps, id) && Holds(Run(Start(replayBuffer), steps))
  {
    StaysQueued(Start(replayBuffer), steps, id);
    InOrderIffNoneOvertakes(Start(replayBuffer), steps, id);
    EveryRunHolds(Start(replayBuffer), steps);
  }

  // ----- out of order -----

  /** The publisher has still to offer this receiver an event that its filter lets pass. */
  ghost predicate Due(w: World, p: nat, id: int)
    requires ToldApart(w)
  {
    w.Targets(p, id) && Receiver(w, id).allow(w.sending[p].event)
  }

  /** An event is due that comes before one the channel took, or two are due. */
  ghost predicate CanOvertake(w: World, id: int)
    requires ToldApart(w)
  {
    || (exists p: nat, k: nat :: Due(w, p, id) && k < |w.Got(id)| && p < w.Got(id)[k])
    || (exists p: nat, q: nat :: p < q && Due(w, p, id) && Due(w, q, id))
  }

  /** No cursor is given. */
  predicate NoneAssigned(steps: seq<Step>) {
    forall k :: 0 <= k < |steps| ==> !steps[k].Assign?
  }

  /** Some run in which no cursor is given brings the channel out of order. */
  ghost predicate CanDisorder(w: World, id: int) {
    exists steps :: NoneAssigned(steps) && !Rising(Run(w, steps).Got(id))
  }

  lemma DueBefore(w: World, s: Step, p: nat, id: int)
    requires ToldApart(w) && ToldApart(Next(w, s)) && !s.Assign?
    ensures Due(Next(w, s), p, id) ==> Due(w, p, id)
  {
  }

  /** In order, and with nothing due that could disturb it. */
  ghost predicate Settled(w: World, id: int) {
    ToldApart(w) && Through(w, id) && Rising(w.Got(id)) && !CanOvertake(w, id)
  }

  /** What arrives was due, and is due no more. */
  lemma ArrivalWasDue(w: World, s: Step, id: int)
    requires ToldApart(w) && ToldApart(Next(w, s)) && Arrives(w, s, id)
    ensures Due(w, s.p, id) && !Due(Next(w, s), s.p, id)
  {
  }

  lemma StaysSettled(w: World, s: Step, id: int)
    requires Settled(w, id) && !s.Assign?
    ensures Settled(Next(w, s), id)
  {
    var v := Next(w, s);
    StepKeepsApart(w, s);
    StepKeepsThrough(w, s, id);
    RisingStep(w, s, id);
    OnlyArrivalsCount(w, s, id);
    forall p: nat | Due(v, p, id) ensures Due(w, p, id) {
      DueBefore(w, s, p, id);
    }
    if Arrives(w, s, id) {
      ArrivalWasDue(w, s, id);
      assert forall k | 0 <= k < |w.Got(id)| :: w.Got(id)[k] < s.p by {
        assert forall k: nat | k < |w.Got(id)| :: w.Targets(s.p, id) && !w.Targets(w.Got(id)[k], id);
      }
      assert forall p: nat | Due(v, p, id) :: p == s.p;
    }
  }

  lemma {:induction false} RunsStaySettled(w: World, steps: seq<Step>, id: int)
    requires Settled(w, id) && NoneAssigned(steps)
    ensures Settled(Run(w, steps), id)
  {
    if |steps| > 0 {
      RunsStaySettled(w, steps[..|steps| - 1], id);
      StaysSettled(Run(w, steps[..|steps| - 1]), steps[|steps| - 1], id);
    }
  }

  lemma RunOneMore(w: World, steps: seq<Step>, s: Step)
    ensures Run(w, steps + [s]) == Next(Run(w, steps), s)
  {
    assert (steps + [s])[..|steps|] == steps;
  }

  /** The channel is there and open. */
  predicate Open(w: World, id: int) {
    !w.crashed && (id in w.hub.subscribers || id in w.former) && id !in w.closed
  }

  /** The same but for what is unread in this channel. */
  ghost predicate OnlyReadFrom(w: World, v: World, id: int) {
    && Open(w, id) && Holds(v) && Open(v, id) && v.sending == w.sending && v.got == w.got
    && Receiver(v, id).allow == Receiver(w, id).allow
  }

  lemma ReadOne(w: World, id: int)
    requires Holds(w) && Open(w, id)
    ensures var v := Next(w, Read(id));
      OnlyReadFrom(w, v, id) && Receiver(v, id) == Rest(Receiver(w, id))
  {
    StepKeepsHold(w, Read(id));
  }

  /** The reader can empty the channel. */
  lemma Drain(w: World, id: int) returns (steps: seq<Step>)
    requires Holds(w) && Open(w, id)
    ensures NoneAssigned(steps) && OnlyReadFrom(w, Run(w, steps), id) && Receiver(Run(w, steps), id).stream == []
  {
    steps := [];
    while Receiver(Run(w, steps), id).stream != []
      invariant NoneAssigned(steps) && OnlyReadFrom(w, Run(w, steps), id)
      decreases |Receiver(Run(w, steps), id).stream|
    {
      ReadOne(Run(w, steps), id);
      RunOneMore(w, steps, Read(id));
      steps := steps + [Read(id)];
    }
  }

  /** With room in the channel an event that is due is taken. */
  lemma TakesWhatIsDue(w: World, p: nat, id: int)
    requires Holds(w) && Open(w, id) && Due(w, p, id) && |Receiver(w, id).stream| < Receiver(w, id).capacity
    ensures var v := Next(w, Send(p, id));
      && Holds(v) && Open(v, id) && v.Got(id) == w.Got(id) + [p]
      && |Receiver(v, id).stream| == |Receiver(w, id).stream| + 1
      && forall q: nat :: q != p ==> (Due(v, q, id) <==> Due(w, q, id))
  {
    StepKeepsHold(w, Send(p, id));
  }

  lemma LastTwoFall(tickets: seq<nat>, i: nat, j: nat)
    requires i < j < |tickets| && tickets[j] < tickets[i]
    ensures !Rising(tickets)
  {
  }

  /** One that comes before what was taken is sent. */
  lemma SentBehind(w: World, p: nat, k: nat, id: int)
    requires Holds(w) && Open(w, id) && |Receiver(w, id).stream| < Receiver(w, id).capacity
    requires Due(w, p, id) && k < |w.Got(id)| && p < w.Got(id)[k]
    ensures !Rising(Next(w, Send(p, id)).Got(id))
  {
    TakesWhatIsDue(w, p, id);
    LastTwoFall(w.Got(id) + [p], k, |w.Got(id)|);
  }

  /** Two that are due are sent the wrong way round. */
  lemma SentTheWrongWay(w: World, p: nat, q: nat, id: int)
    requires Holds(w) && Open(w, id) && |Receiver(w, id).stream| + 1 < Receiver(w, id).capacity
    requires p < q && Due(w, p, id) && Due(w, q, id)
    ensures var end := Next(Next(w, Send(q, id)), Send(p, id));
      end.Got(id) == w.Got(id) + [q, p] && !Rising(end.Got(id))
  {
    TakesWhatIsDue(w, q, id);
    var v := Next(w, Send(q, id));
    assert v.Got(id)[|w.Got(id)|] == q;
    TakesWhatIsDue(v, p, id);
    assert w.Got(id) + [q] + [p] == w.Got(id) + [q, p];
    LastTwoFall(w.Got(id) + [q, p], |w.Got(id)|, |w.Got(id)| + 1);
  }

  lemma RunOfTwo(w: World, s: Step, t: Step)
    ensures Run(w, [s]) == Next(w, s) && Run(w, [s, t]) == Next(Next(w, s), t)
  {
    RunOneMore(w, [], s);
    RunOneMore(w, [s], t);
    assert [] + [s] == [s] && [s] + [t] == [s, t];
  }

  lemma RunBehind(w: World, p: nat, k: nat, id: int)
    requires Holds(w) && Open(w, id) && Receiver(w, id).stream == []
    requires Due(w, p, id) && k < |w.Got(id)| && p < w.Got(id)[k]
    ensures !Rising(Run(w, [Send(p, id)]).Got(id))
  {
    SentBehind(w, p, k, id);
    RunOfTwo(w, Send(p, id), Send(p, id));
  }

  lemma RunTheWrongWay(w: World, p: nat, q: nat, id: int)
    requires Holds(w) && Open(w, id) && Receiver(w, id).stream == []
    requires p < q && Due(w, p, id) && Due(w, q, id)
    ensures !Rising(Run(w, [Send(q, id), Send(p, id)]).Got(id))
  {
    SentTheWrongWay(w, p, q, id);
    RunOfTwo(w, Send(q, id), Send(p, id));
  }

  lemma OvertakingFromEmpty(w: World, id: int) returns (steps: seq<Step>)
    requires Holds(w) && Open(w, id) && CanOvertake(w, id) && Receiver(w, id).stream == []
    ensures NoneAssigned(steps) && !Rising(Run(w, steps).Got(id))
  {
    if p: nat, k: nat :| Due(w, p, id) && k < |w.Got(id)| && p < w.Got(id)[k] {
      RunBehind(w, p, k, id);
      steps := [Send(p, id)];
    } else {
      var p: nat, q: nat :| p < q && Due(w, p, id) && Due(w, q, id);
      RunTheWrongWay(w, p, q, id);
      steps := [Send(q, id), Send(p, id)];
    }
  }

  lemma {:induction false} RunOfBoth(w: World, a: seq<Step>, b: seq<Step>)
    ensures Run(w, a + b) == Run(Run(w, a), b)
  {
    if b == [] {
      assert a + b == a;
    } else {
      RunOfBoth(w, a, b[..|b| - 1]);
      RunOneMore(w, a + b[..|b| - 1], b[|b| - 1]);
      assert a + b == a + b[..|b| - 1] + [b[|b| - 1]];
    }
  }

  lemma DueAfterReading(w: World, v: World, id: int)
    requires Holds(w) && OnlyReadFrom(w, v, id)
    ensures CanOvertake(v, id) <==> CanOvertake(w, id)
  {
    assert forall p: nat :: Due(v, p, id) == Due(w, p, id);
    assert v.Got(id) == w.Got(id);
  }

  lemma OvertakingIsReached(w: World, id: int) returns (steps: seq<Step>)
    requires Holds(w) && Open(w, id) && CanOvertake(w, id)
    ensures NoneAssigned(steps) && !Rising(Run(w, steps).Got(id))
  {
    var drain := Drain(w, id);
    DueAfterReading(w, Run(w, drain), id);
    var sends := OvertakingFromEmpty(Run(w, drain), id);
    RunOfBoth(w, drain, sends);
    steps := drain + sends;
  }

  /**
   A channel that is open and in order can come out of order without another cursor being given if and only if an
   event is due that comes before one it took, or two events are due: every run of sends, reads, cancellations and
   closings keeps the order otherwise.
   */
  lemma OrderCanBeLostIff(w: World, id: int)
    requires Holds(w) && Open(w, id) && Rising(w.Got(id))
    ensures CanOvertake(w, id) <==> CanDisorder(w, id)
  {
    if CanOvertake(w, id) {
      var steps := OvertakingIsReached(w, id);
    } else {
      forall steps | NoneAssigned(steps) ensures Rising(Run(w, steps).Got(id)) {
        RunsStaySettled(w, steps, id);
      }
    }
  }

  /**
   Two cursors given and the later event sent first: from every state with a receiver that allows both and has room.
   */
  lemma TwoPublishersOvertake(w: World, first: string, second: string, id: int)
    requires Holds(w) && !w.crashed && id in w.hub.subscribers
    requires var s := w.hub.subscribers[id];
      && |s.stream| + 2 <= s.capacity && s.allow(Event(Digits(Successor(w.hub.next)), first))
      && s.allow(Event(Digits(Successor(Successor(w.hub.next))), second))
    ensures var n := |w.sending|;
      var begun := Next(Next(w, Assign(first)), Assign(second));
      var end := Next(Next(begun, Send(n + 1, id)), Send(n, id));
      end.Got(id) == w.Got(id) + [n + 1, n] && !Rising(end.Got(id))
  {
    var n := |w.sending|;
    StepKeepsHold(w, Assign(first));
    var one := Next(w, Assign(first));
    StepKeepsHold(one, Assign(second));
    var begun := Next(one, Assign(second));
    assert begun.sending[n] == one.sending[n] && one.sending[n].targets == w.hub.subscribers.Keys;
    assert begun.sending[n + 1].targets == w.hub.subscribers.Keys;
    SentTheWrongWay(begun, n, n + 1, id);
  }

  // ----- a channel that is closed -----

  /** Some publisher has still to offer its event to this receiver, and the receiver's filter lets it pass. */
  ghost predicate Awaited(w: World, id: int)
    requires Holds(w)
  {
    exists p: nat :: Due(w, p, id)
  }

  /** The step is a send to this receiver that brings the program down. */
  predicate CrashesAt(w: World, s: Step, id: int) {
    s.Send? && s.id == id && !w.crashed && Next(w, s).crashed
  }

  /** Some run ends in one. */
  ghost predicate CanCrash(w: World, id: int) {
    exists steps, s :: CrashesAt(Run(w, steps), s, id)
  }

  lemma CrashWasAwaited(w: World, s: Step, id: int)
    requires Holds(w)
    ensures CrashesAt(w, s, id) ==> Awaited(w, id)
  {
    if CrashesAt(w, s, id) {
      assert Due(w, s.p, id);
    }
  }

  /** A receiver that is closed is listed by no new publisher. */
  lemma DueOfClosed(w: World, s: Step, p: nat, id: int)
    requires Holds(w) && Holds(Next(w, s)) && id in w.closed
    ensures Due(Next(w, s), p, id) ==> Due(w, p, id)
  {
    if !s.Assign? {
      DueBefore(w, s, p, id);
    }
  }

  lemma ClosedStaysUnawaited(w: World, s: Step, id: int)
    requires Holds(w) && id in w.closed && !Awaited(w, id)
    ensures Holds(Next(w, s)) && id in Next(w, s).closed && !Awaited(Next(w, s), id) && !CrashesAt(w, s, id)
  {
    StepKeepsHold(w, s);
    CrashWasAwaited(w, s, id);
    forall p: nat ensures !Due(Next(w, s), p, id) {
      DueOfClosed(w, s, p, id);
    }
  }

  lemma {:induction false} UnawaitedNeverCrashes(w: World, steps: seq<Step>, s: Step, id: int)
    requires Holds(w) && id in w.closed && !Awaited(w, id)
    ensures Holds(Run(w, steps)) && id in Run(w, steps).closed && !Awaited(Run(w, steps), id)
    ensures !CrashesAt(Run(w, steps), s, id)
  {
    if |steps| > 0 {
      UnawaitedNeverCrashes(w, steps[..|steps| - 1], s, id);
      ClosedStaysUnawaited(Run(w, steps[..|steps| - 1]), steps[|steps| - 1], id);
    }
    ClosedStaysUnawaited(Run(w, steps), s, id);
  }

  /**
   Once a receiver's channel is closed, a send to it can still come, and bring the program down, if and only if a
   publisher that listed the receiver before it was cancelled has yet to offer it an event that it lets pass.
   */
  lemma AClosedChannelIsSentToIff(w: World, id: int)
    requires Holds(w) && id in w.closed && !w.crashed
    ensures Awaited(w, id) <==> CanCrash(w, id)
  {
    if Awaited(w, id) {
      var p: nat :| Due(w, p, id);
      var none: seq<Step> := [];
      assert Run(w, none) == w;
      assert CrashesAt(Run(w, none), Send(p, id), id);
    } else {
      forall steps, s ensures !CrashesAt(Run(w, steps), s, id) {
        UnawaitedNeverCrashes(w, steps, s, id);
      }
    }
  }

  /**
   Published, cancelled, closed, and only then sent: it is reached from every state with a receiver that lets the
   event pass.
   */
  lemma ACancelledReceiverBringsThePublisherDown(w: World, body: string, id: int)
    requires Holds(w) && !w.crashed && id in w.hub.subscribers
    requires w.hub.subscribers[id].allow(Event(Digits(Successor(w.hub.next)), body))
    ensures Next(Next(Next(Next(w, Assign(body)), Detach(id)), Close(id)), Send(|w.sending|, id)).crashed
  {
    var begun := Next(w, Assign(body));
    var detached := Next(begun, Detach(id));
    assert detached.sending[|w.sending|].targets == w.hub.subscribers.Keys;
  }
}
