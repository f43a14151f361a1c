/** How much of each call the two threads let through: which of the offered frames are published, how many frames a
    request hands out and how far a discard goes, over every interleaving. */
module RingOffers {
  import opened RingProtocol

  function Front(actions: seq<Action>): seq<Action> requires actions != [] { actions[..|actions| - 1] }

  function Latest(actions: seq<Action>): Action requires actions != [] { actions[|actions| - 1] }

  // ---------------------------------------------------------------- the writer

  /** The frames of the last offer that the writer took up. */
  ghost function Offered(s: State, actions: seq<Action>): seq<Frame>
    requires Inv(s)
    decreases |actions|
  {
    if actions == [] then []
    else
      var a, before := Latest(actions), Run(s, Front(actions));
      if a.Offer? && before.producer.Resting? && Shaped(a.frames, s.lanes) then a.frames else Offered(s, Front(actions))
  }

  /** How many slots were free when the writer last loaded the read counter. */
  ghost function Room(s: State, actions: seq<Action>): nat
    requires Inv(s)
    decreases |actions|
  {
    if actions == [] then 0
    else
      var a, before := Latest(actions), Run(s, Front(actions));
      if a.Produce? && before.producer.LoadedWrite? then before.read + s.capacity - before.write else Room(s, Front(actions))
  }

  /** The frames that go through of the offer in hand: as many of its first ones as there was room for. */
  ghost function Accepted(s: State, actions: seq<Action>): seq<Frame>
    requires Inv(s)
  {
    var offer := Offered(s, actions);
    offer[..Min(|offer|, Room(s, actions))]
  }

  /** Everything that should have been published: the accepted frames of each offer that was finished. */
  ghost function PublishedSoFar(s: State, actions: seq<Action>): seq<Frame>
    requires Inv(s)
    decreases |actions|
  {
    if actions == [] then []
    else
      var before := Run(s, Front(actions));
      PublishedSoFar(s, Front(actions))
      + if Latest(actions).Produce? && before.producer.Filling? && before.producer.lane == s.lanes
        then Accepted(s, Front(actions)) else []
  }

  /** What the writer holds is the offer it took up, or the part of it that goes through. */
  ghost predicate HoldsOffer(producer: Producer, offer: seq<Frame>, room: nat) {
    match producer
    case Resting => true
    case LoadedWrite(held, _) => held == offer
    case Filling(frames, _, _, _) => frames == offer[..Min(|offer|, room)]
  }

  lemma ActHolds(s: State, a: Action, offer: seq<Frame>, room: nat)
    requires Inv(s) && HoldsOffer(s.producer, offer, room)
    ensures var t := Act(s, a);
      var taken := if a.Offer? && s.producer.Resting? && Shaped(a.frames, s.lanes) then a.frames else offer;
      var free: nat := if a.Produce? && s.producer.LoadedWrite? then s.read + s.capacity - s.write else room;
      && HoldsOffer(t.producer, taken, free)
      && t.log == s.log + if a.Produce? && s.producer.Filling? && s.producer.lane == s.lanes then offer[..Min(|offer|, room)] else []
  {
    hide Stored, ConsumerHolds, DeliveredInOrder, CellAt, Put;
  }

  /** Over every interleaving the log is exactly the accepted frames of the finished offers: the first frames of each, as
      many as were free when the read counter was loaded, in the order of the offers. */
  lemma {:induction false} LogIsAccepted(s: State, actions: seq<Action>)
    requires Inv(s) && s.producer.Resting?
    ensures Run(s, actions).log == s.log + PublishedSoFar(s, actions)
    ensures HoldsOffer(Run(s, actions).producer, Offered(s, actions), Room(s, actions))
    decreases |actions|
  {
    hide Inv, Act, HoldsOffer, Shaped;
    if actions == [] {
      RestingHolds(s);
    } else {
      LogIsAccepted(s, Front(actions));
      SameRing(s, Front(actions));
      ActHolds(Run(s, Front(actions)), Latest(actions), Offered(s, Front(actions)), Room(s, Front(actions)));
    }
  }

  lemma RestingHolds(s: State)
    requires s.producer.Resting?
    ensures HoldsOffer(s.producer, [], 0)
  {
  }

  lemma SameRing(s: State, actions: seq<Action>)
    requires Inv(s)
    ensures Run(s, actions).lanes == s.lanes && Run(s, actions).capacity == s.capacity
  {
  }

  // ---------------------------------------------------------------- the reader

  /** How many frames the last request that the reader took up asked for. */
  ghost function Asked(s: State, actions: seq<Action>): nat
    requires Inv(s)
    decreases |actions|
  {
    if actions == [] then 0
    else
      var a, before := Latest(actions), Run(s, Front(actions));
      if a.Request? && before.consumer.Waiting? then a.count else Asked(s, Front(actions))
  }

  /** How many frames were queued when the reader last loaded the write counter, for a request or a discard. */
  ghost function Queued(s: State, actions: seq<Action>): nat
    requires Inv(s)
    decreases |actions|
  {
    if actions == [] then 0
    else
      var a, before := Latest(actions), Run(s, Front(actions));
      if (a.Consume? && before.consumer.LoadedRead?) || (a.Discard? && before.consumer.Waiting?) then before.write - before.read
      else Queued(s, Front(actions))
  }

  /** How many frames should have been handed out, and how far the read counter should have come. */
  ghost function HandedOut(s: State, actions: seq<Action>): nat
    requires Inv(s)
    decreases |actions|
  {
    if actions == [] then 0
    else
      var before := Run(s, Front(actions));
      HandedOut(s, Front(actions))
      + if Latest(actions).Consume? && before.consumer.Copying? && before.consumer.lane == s.lanes
        then Min(Asked(s, Front(actions)), Queued(s, Front(actions))) else 0
  }

  ghost function Dropped(s: State, actions: seq<Action>): nat
    requires Inv(s)
    decreases |actions|
  {
    if actions == [] then 0
    else
      var before := Run(s, Front(actions));
      Dropped(s, Front(actions))
      + if Latest(actions).Consume? && before.consumer.Discarding? then Queued(s, Front(actions)) else 0
  }

  ghost predicate HoldsRequest(s: State, asked: nat, queued: nat) {
    match s.consumer
    case Waiting => true
    case LoadedRead(request, _) => request == asked
    case Copying(_, count, _, _, _) => count == Min(asked, queued)
    case Discarding(w) => w == s.read + queued
  }

  lemma ActReads(s: State, a: Action, asked: nat, queued: nat)
    requires Inv(s) && HoldsRequest(s, asked, queued)
    ensures var t := Act(s, a);
      var request := if a.Request? && s.consumer.Waiting? then a.count else asked;
      var seen: nat := if (a.Consume? && s.consumer.LoadedRead?) || (a.Discard? && s.consumer.Waiting?)
                       then s.write - s.read else queued;
      && HoldsRequest(t, request, seen)
      && |t.delivered| == |s.delivered| + (if a.Consume? && s.consumer.Copying? && s.consumer.lane == s.lanes
                                           then Min(asked, queued) else 0)
      && t.read == s.read + (|t.delivered| - |s.delivered|) + (if a.Consume? && s.consumer.Discarding? then queued else 0)
  {
    hide Stored, ProducerHolds, DeliveredInOrder, CellAt, Put, Buffered;
  }

  /** Over every interleaving, the frames handed out number what the finished requests asked for or found queued, whichever
      was less, and the read counter passes those and what the finished discards found queued. */
  lemma {:induction false} ReadsAreAnswered(s: State, actions: seq<Action>)
    requires Inv(s) && s.consumer.Waiting?
    ensures |Run(s, actions).delivered| == |s.delivered| + HandedOut(s, actions)
    ensures Run(s, actions).read == s.read + HandedOut(s, actions) + Dropped(s, actions)
    ensures HoldsRequest(Run(s, actions), Asked(s, actions), Queued(s, actions))
    decreases |actions|
  {
    hide Inv, Act, HoldsRequest;
    if actions == [] {
      WaitingHolds(s);
    } else {
      ReadsAreAnswered(s, Front(actions));
      SameRing(s, Front(actions));
      ActReads(Run(s, Front(actions)), Latest(actions), Asked(s, Front(actions)), Queued(s, Front(actions)));
    }
  }

  lemma WaitingHolds(s: State)
    requires s.consumer.Waiting?
    ensures HoldsRequest(s, 0, 0)
  {
  }
}
