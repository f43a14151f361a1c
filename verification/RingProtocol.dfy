/** The ring as two threads see it: every load, every single cell copied and every publish is one step,
    and the producer and the consumer interleave in any way.  A frame is one cell per channel plus the
    generation stamp, copied lane by lane. */
module RingProtocol {
  import opened Wrapping

  datatype Cell = Sample(value: real) | Stamp(generation: nat)

  type Frame = seq<Cell>

  datatype Producer =
    | Resting
    | LoadedWrite(offer: seq<Frame>, w: nat)
    | Filling(frames: seq<Frame>, w: nat, lane: nat, k: nat)

  datatype Consumer =
    | Waiting
    | LoadedRead(request: nat, r: nat)
    | Copying(r: nat, count: nat, lane: nat, k: nat, buffer: seq<seq<Cell>>)
    | Discarding(w: nat)

  datatype Delivery = Delivery(index: nat, frame: Frame)

  /** `log` is every frame ever published and `delivered` every frame handed out: the history. */
  datatype State = State(lanes: nat, capacity: nat, memory: seq<seq<Cell>>, read: nat, write: nat,
                         producer: Producer, consumer: Consumer, log: seq<Frame>, delivered: seq<Delivery>)

  datatype Action = Offer(frames: seq<Frame>) | Produce | Request(count: nat) | Discard | Consume

  function Min(a: nat, b: nat): nat { if a < b then a else b }

  predicate Shaped(frames: seq<Frame>, lanes: nat) { forall j | 0 <= j < |frames| :: |frames[j]| == lanes }

  /** The slot counter position `i` lives in. */
  function CellAt(memory: seq<seq<Cell>>, lane: nat, i: nat, capacity: nat): Cell
    requires capacity > 0 && lane < |memory| && |memory[lane]| == capacity
  {
    memory[lane][Wrap(i, capacity)]
  }

  function Put(memory: seq<seq<Cell>>, lane: nat, i: nat, capacity: nat, cell: Cell): seq<seq<Cell>>
    requires capacity > 0 && lane < |memory| && |memory[lane]| == capacity
  {
    memory[lane := memory[lane][Wrap(i, capacity) := cell]]
  }

  predicate Shape(s: State) {
    && s.capacity > 0 && |s.memory| == s.lanes
    && (forall l | 0 <= l < s.lanes :: |s.memory[l]| == s.capacity)
    && |s.log| == s.write && Shaped(s.log, s.lanes)
  }

  predicate Counters(s: State) { s.read <= s.write <= s.read + s.capacity }

  /** Every queued frame sits in its slots. */
  ghost predicate Stored(s: State)
    requires Shape(s)
  {
    forall i: nat, l: nat | s.read <= i < s.write && l < s.lanes ::
      CellAt(s.memory, l, i, s.capacity) == s.log[i][l]
  }

  predicate Before(l: nat, j: nat, lane: nat, k: nat) { l < lane || (l == lane && j < k) }

  ghost predicate ProducerHolds(s: State)
    requires Shape(s)
  {
    match s.producer
    case Resting => true
    case LoadedWrite(offer, w) => w == s.write && Shaped(offer, s.lanes)
    case Filling(frames, w, lane, k) =>
      && w == s.write && w + |frames| <= s.read + s.capacity && Shaped(frames, s.lanes)
      && lane <= s.lanes && k <= |frames| && (lane == s.lanes ==> k == 0)
      && forall l: nat, j: nat | l < s.lanes && j < |frames| && Before(l, j, lane, k) ::
           CellAt(s.memory, l, w + j, s.capacity) == frames[j][l]
  }

  /** The cells copied so far are those of the frames from `r` on, lane by lane. */
  ghost predicate Buffered(buffer: seq<seq<Cell>>, log: seq<Frame>, lanes: nat, r: nat, count: nat, lane: nat, k: nat)
    requires |buffer| == lanes && r + count <= |log| && k <= count && Shaped(log, lanes)
  {
    && (forall l | 0 <= l < lanes :: |buffer[l]| == if l < lane then count else if l == lane then k else 0)
    && forall l: nat, j: nat | l < lanes && j < |buffer[l]| :: buffer[l][j] == log[r + j][l]
  }

  lemma BufferGrows(buffer: seq<seq<Cell>>, log: seq<Frame>, lanes: nat, r: nat, count: nat, lane: nat, k: nat)
    requires |buffer| == lanes && r + count <= |log| && k < count && lane < lanes && Shaped(log, lanes)
    requires Buffered(buffer, log, lanes, r, count, lane, k)
    ensures Buffered(buffer[lane := buffer[lane] + [log[r + k][lane]]], log, lanes, r, count, lane, k + 1)
  {
    var next := buffer[lane := buffer[lane] + [log[r + k][lane]]];
    forall l: nat, j: nat | l < lanes && j < |next[l]| ensures next[l][j] == log[r + j][l] {
      if l != lane || j < k {
        assert next[l][j] == buffer[l][j];
      }
    }
  }

  ghost predicate ConsumerHolds(s: State)
    requires Shape(s)
  {
    match s.consumer
    case Waiting => true
    case LoadedRead(_, r) => r == s.read
    case Copying(r, count, lane, k, buffer) =>
      && r == s.read && r + count <= s.write
      && lane <= s.lanes && k <= count && (lane == s.lanes ==> k == 0) && |buffer| == s.lanes
      && Buffered(buffer, s.log, s.lanes, r, count, lane, k)
    case Discarding(w) => s.read <= w <= s.write
  }

  /** Delivered frames are published frames, unchanged, each at most once and in order. */
  ghost predicate DeliveredInOrder(s: State) {
    && (forall d | 0 <= d < |s.delivered| ::
          s.delivered[d].index < s.read && s.delivered[d].index < |s.log|
          && s.delivered[d].frame == s.log[s.delivered[d].index])
    && forall d, e | 0 <= d < e < |s.delivered| :: s.delivered[d].index < s.delivered[e].index
  }

  ghost predicate Inv(s: State) {
    Shape(s) && Counters(s) && Stored(s) && ProducerHolds(s) && ConsumerHolds(s) && DeliveredInOrder(s)
  }

  /** The frames a finished copy hands out. */
  function Assemble(buffer: seq<seq<Cell>>, r: nat, count: nat): (ds: seq<Delivery>)
    requires forall l | 0 <= l < |buffer| :: |buffer[l]| == count
    ensures |ds| == count
    ensures forall d | 0 <= d < count :: ds[d].index == r + d && |ds[d].frame| == |buffer|
    ensures forall d, l | 0 <= d < count && 0 <= l < |buffer| :: ds[d].frame[l] == buffer[l][d]
  {
    seq(count, d requires 0 <= d < count =>
      Delivery(r + d, seq(|buffer|, l requires 0 <= l < |buffer| => buffer[l][d])))
  }

  function ProducerStep(s: State): (r: State)
    requires Shape(s) && Counters(s) && ProducerHolds(s)
    ensures r.lanes == s.lanes && r.capacity == s.capacity && s.log <= r.log
  {
    match s.producer
    case Resting => s
    case LoadedWrite(offer, w) =>
      var available := s.capacity - Min(w - s.read, s.capacity);
      s.(producer := Filling(offer[..Min(|offer|, available)], w, 0, 0))
    case Filling(frames, w, lane, k) =>
      if lane == s.lanes then s.(write := w + |frames|, log := s.log + frames, producer := Resting)
      else if k == |frames| then s.(producer := Filling(frames, w, lane + 1, 0))
      else s.(memory := Put(s.memory, lane, w + k, s.capacity, frames[k][lane]),
              producer := Filling(frames, w, lane, k + 1))
  }

  function ConsumerStep(s: State): (r: State)
    requires Shape(s) && Counters(s) && ConsumerHolds(s)
    ensures r.lanes == s.lanes && r.capacity == s.capacity && s.log <= r.log
  {
    match s.consumer
    case Waiting => s
    case LoadedRead(request, r) =>
      var count := Min(request, Min(s.write - r, s.capacity));
      s.(consumer := Copying(r, count, 0, 0, seq(s.lanes, _ => [])))
    case Copying(r, count, lane, k, buffer) =>
      if lane == s.lanes then
        s.(read := r + count, delivered := s.delivered + Assemble(buffer, r, count), consumer := Waiting)
      else if k == count then s.(consumer := Copying(r, count, lane + 1, 0, buffer))
      else
        var cell := CellAt(s.memory, lane, r + k, s.capacity);
        s.(consumer := Copying(r, count, lane, k + 1, buffer[lane := buffer[lane] + [cell]]))
    case Discarding(w) => s.(read := w, consumer := Waiting)
  }

  lemma ProducerStepHolds(s: State)
    requires Inv(s)
    ensures Inv(ProducerStep(s))
  {
    hide Stored, ConsumerHolds, DeliveredInOrder, CellAt;
    if s.producer.Filling? && s.producer.lane == s.lanes {
      PublishHolds(s, s.producer.frames);
    } else if s.producer.Filling? && s.producer.k < |s.producer.frames| {
      FillHolds(s, s.producer.frames, s.producer.lane, s.producer.k);
    } else {
      UntouchedByProducer(s, ProducerStep(s));
    }
  }

  /** Only the writer's own place changed. */
  lemma UntouchedByProducer(s: State, t: State)
    requires Shape(s) && Shape(t) && s.(producer := t.producer) == t
    requires Stored(s) && ConsumerHolds(s) && DeliveredInOrder(s)
    ensures Stored(t) && ConsumerHolds(t) && DeliveredInOrder(t)
  {
  }

  lemma FillHolds(s: State, frames: seq<Frame>, lane: nat, k: nat)
    requires Inv(s) && s.producer == Filling(frames, s.write, lane, k) && lane < s.lanes && k < |frames|
    ensures Inv(ProducerStep(s))
  {
    hide Wrap;
    forall i: nat | s.read <= i < s.write + |frames| && i != s.write + k
      ensures Wrap(i, s.capacity) != Wrap(s.write + k, s.capacity)
    {
      if i < s.write + k {
        WrapDistinct(i, s.write + k, s.capacity);
      } else {
        WrapDistinct(s.write + k, i, s.capacity);
      }
    }
  }

  function Published(s: State, frames: seq<Frame>): State {
    s.(write := s.write + |frames|, log := s.log + frames, producer := Resting)
  }

  lemma PublishHolds(s: State, frames: seq<Frame>)
    requires Inv(s) && s.producer == Filling(frames, s.write, s.lanes, 0)
    ensures Inv(ProducerStep(s))
  {
    hide Stored, ConsumerHolds, DeliveredInOrder, CellAt;
    assert ProducerStep(s) == Published(s, frames);
    PublishedIsStored(s, frames);
    PublishedIsUnread(s, frames);
  }

  lemma PublishedIsStored(s: State, frames: seq<Frame>)
    requires Shape(s) && Stored(s) && ProducerHolds(s) && s.producer == Filling(frames, s.write, s.lanes, 0)
    ensures Shape(Published(s, frames)) && Stored(Published(s, frames))
  {
    hide CellAt;
    var t := Published(s, frames);
    forall i: nat, l: nat | t.read <= i < t.write && l < t.lanes
      ensures CellAt(t.memory, l, i, t.capacity) == t.log[i][l]
    {
      if i >= s.write {
        assert Before(l, i - s.write, s.lanes, 0);
        assert CellAt(s.memory, l, s.write + (i - s.write), s.capacity) == frames[i - s.write][l];
      }
    }
  }

  /** What the reader holds and has handed out does not depend on later frames. */
  lemma PublishedIsUnread(s: State, frames: seq<Frame>)
    requires Shape(s) && Shape(Published(s, frames)) && ConsumerHolds(s) && DeliveredInOrder(s)
    ensures ConsumerHolds(Published(s, frames)) && DeliveredInOrder(Published(s, frames))
  {
    if s.consumer.Copying? {
      var Copying(r, count, lane, k, buffer) := s.consumer;
      BufferKept(buffer, s.log, s.log + frames, s.lanes, r, count, lane, k);
    }
    hide Buffered;
  }

  lemma BufferKept(buffer: seq<seq<Cell>>, log: seq<Frame>, longer: seq<Frame>, lanes: nat, r: nat, count: nat, lane: nat, k: nat)
    requires |buffer| == lanes && r + count <= |log| && k <= count && Shaped(log, lanes) && Shaped(longer, lanes) && log <= longer
    requires Buffered(buffer, log, lanes, r, count, lane, k)
    ensures Buffered(buffer, longer, lanes, r, count, lane, k)
  {
  }

  lemma ConsumerStepHolds(s: State)
    requires Inv(s)
    ensures Inv(ConsumerStep(s))
  {
    if s.consumer.Discarding? {
      DiscardHolds(s);
    } else {
      hide Stored, ProducerHolds, DeliveredInOrder, CellAt, Buffered;
      if s.consumer.Copying? && s.consumer.lane == s.lanes {
        HandOutHolds(s, s.consumer.count, s.consumer.buffer);
      } else if s.consumer.Copying? && s.consumer.k < s.consumer.count {
        CopyHolds(s, s.consumer.count, s.consumer.lane, s.consumer.k, s.consumer.buffer);
      } else {
        ReaderMoves(s);
      }
    }
  }

  /** Only the reader's own place changed. */
  lemma UntouchedByConsumer(s: State, t: State)
    requires Shape(s) && Shape(t) && s.(consumer := t.consumer) == t
    requires Stored(s) && ProducerHolds(s) && DeliveredInOrder(s)
    ensures Stored(t) && ProducerHolds(t) && DeliveredInOrder(t)
  {
  }

  lemma ReaderMoves(s: State)
    requires Inv(s) && !s.consumer.Discarding?
    requires s.consumer.Copying? ==> s.consumer.lane < s.lanes && s.consumer.k == s.consumer.count
    ensures Inv(ConsumerStep(s))
  {
    hide Stored, ProducerHolds, DeliveredInOrder;
    UntouchedByConsumer(s, ConsumerStep(s));
  }

  lemma DiscardHolds(s: State)
    requires Inv(s) && s.consumer.Discarding?
    ensures Inv(ConsumerStep(s))
  {
    hide CellAt;
  }

  lemma HandOutHolds(s: State, count: nat, buffer: seq<seq<Cell>>)
    requires Inv(s) && s.consumer == Copying(s.read, count, s.lanes, 0, buffer)
    ensures Inv(ConsumerStep(s))
  {
    forall d | 0 <= d < count ensures Assemble(buffer, s.read, count)[d].frame == s.log[s.read + d] {
      assert forall l | 0 <= l < s.lanes :: buffer[l][d] == s.log[s.read + d][l];
    }
    AppendDelivers(s, Assemble(buffer, s.read, count), count);
    hide DeliveredInOrder;
  }

  lemma AppendDelivers(s: State, ds: seq<Delivery>, count: nat)
    requires DeliveredInOrder(s) && s.read + count <= |s.log| && |ds| == count
    requires forall d | 0 <= d < count :: ds[d].index == s.read + d && ds[d].frame == s.log[s.read + d]
    ensures DeliveredInOrder(s.(read := s.read + count, delivered := s.delivered + ds, consumer := Waiting))
  {
  }

  lemma CopyHolds(s: State, count: nat, lane: nat, k: nat, buffer: seq<seq<Cell>>)
    requires Inv(s) && s.consumer == Copying(s.read, count, lane, k, buffer) && lane < s.lanes && k < count
    ensures Inv(ConsumerStep(s))
  {
    var cell := CellAt(s.memory, lane, s.read + k, s.capacity);
    assert cell == s.log[s.read + k][lane];
    hide Stored, ProducerHolds, DeliveredInOrder, CellAt, Buffered;
    UntouchedByConsumer(s, ConsumerStep(s));
    BufferGrows(buffer, s.log, s.lanes, s.read, count, lane, k);
  }

  /** Entering a call loads the thread's own counter; a busy thread and a malformed block are refused. */
  function Call(s: State, a: Action): State {
    match a
    case Offer(frames) =>
      if s.producer.Resting? && Shaped(frames, s.lanes) then s.(producer := LoadedWrite(frames, s.write)) else s
    case Request(count) => if s.consumer.Waiting? then s.(consumer := LoadedRead(count, s.read)) else s
    case Discard => if s.consumer.Waiting? then s.(consumer := Discarding(s.write)) else s
    case Produce => s
    case Consume => s
  }

  lemma CallHolds(s: State, a: Action)
    requires Inv(s)
    ensures Inv(Call(s, a))
  {
    if a.Offer? {
      hide Stored, ConsumerHolds, DeliveredInOrder;
      UntouchedByProducer(s, Call(s, a));
    } else {
      hide Stored, ProducerHolds, DeliveredInOrder;
      UntouchedByConsumer(s, Call(s, a));
    }
  }

  /** One atomic step of either thread. */
  ghost function Act(s: State, a: Action): (r: State)
    requires Inv(s)
    ensures Inv(r) && r.lanes == s.lanes && r.capacity == s.capacity && s.log <= r.log
  {
    if a.Produce? then
      ProducerStepHolds(s);
      ProducerStep(s)
    else if a.Consume? then
      ConsumerStepHolds(s);
      ConsumerStep(s)
    else
      CallHolds(s, a);
      Call(s, a)
  }

  /** Any interleaving of the two threads. */
  ghost function Run(s: State, actions: seq<Action>): (t: State)
    requires Inv(s)
    ensures Inv(t) && t.lanes == s.lanes && t.capacity == s.capacity
    ensures s.log <= t.log // what was published is never revised
    decreases |actions|
  {
    if actions == [] then s else Act(Run(s, actions[..|actions| - 1]), actions[|actions| - 1])
  }

  function Start(lanes: nat, capacity: nat, memory: seq<seq<Cell>>): State {
    State(lanes, capacity, memory, 0, 0, Resting, Waiting, [], [])
  }

  /** From a new ring, after any interleaving: the counters are coherent and every frame handed out is
      a published frame with its samples and stamp intact, each at most once and in order. */
  lemma EveryInterleaving(lanes: nat, capacity: nat, memory: seq<seq<Cell>>, actions: seq<Action>)
    requires capacity > 0 && |memory| == lanes && forall l | 0 <= l < lanes :: |memory[l]| == capacity
    ensures Inv(Start(lanes, capacity, memory))
    ensures var t := Run(Start(lanes, capacity, memory), actions);
            && t.read <= t.write <= t.read + capacity && |t.log| == t.write
            && (forall d | 0 <= d < |t.delivered| ::
                  t.delivered[d].index < t.read && t.delivered[d].frame == t.log[t.delivered[d].index])
            && forall d, e | 0 <= d < e < |t.delivered| :: t.delivered[d].index < t.delivered[e].index
  {
    assert DeliveredInOrder(Run(Start(lanes, capacity, memory), actions));
  }

  /** As long as nothing is discarded, nothing is skipped: the frames handed out are exactly the
      first `read` published ones. */
  lemma {:induction false} NothingSkipped(s: State, actions: seq<Action>)
    requires Inv(s) && !s.consumer.Discarding? && |s.delivered| == s.read
    requires forall k | 0 <= k < |actions| :: !actions[k].Discard?
    ensures var t := Run(s, actions);
            && !t.consumer.Discarding? && |t.delivered| == t.read
            && forall d | 0 <= d < t.read :: t.delivered[d].index == d
    decreases |actions|
  {
    hide Inv, Act;
    if actions != [] {
      NothingSkipped(s, actions[..|actions| - 1]);
      ActSkipsNothing(Run(s, actions[..|actions| - 1]), actions[|actions| - 1]);
    }
    IncreasingFills(Run(s, actions), Run(s, actions).read);
  }

  lemma ActSkipsNothing(s: State, a: Action)
    requires Inv(s) && !s.consumer.Discarding? && |s.delivered| == s.read && !a.Discard?
    ensures !Act(s, a).consumer.Discarding? && |Act(s, a).delivered| == Act(s, a).read
  {
  }

  /** n strictly increasing indices below n are 0, 1, ..., n - 1. */
  lemma {:induction false} IncreasingFills(t: State, n: nat)
    requires Inv(t) && |t.delivered| == t.read && n <= t.read
    ensures forall d | 0 <= d < n :: t.delivered[d].index >= d
    ensures n == t.read ==> forall d | 0 <= d < n :: t.delivered[d].index == d
  {
    if n > 0 {
      IncreasingFills(t, n - 1);
      assert n > 1 ==> t.delivered[n - 2].index < t.delivered[n - 1].index;
    }
    if n == t.read {
      IncreasingBounds(t, n);
    }
  }

  lemma {:induction false} IncreasingBounds(t: State, m: nat)
    requires Inv(t) && |t.delivered| == t.read && m <= t.read
    ensures forall d | t.read - m <= d < t.read :: t.delivered[d].index <= d
  {
    if m > 0 {
      IncreasingBounds(t, m - 1);
      var d := t.read - m;
      assert m > 1 ==> t.delivered[d].index < t.delivered[d + 1].index;
    }
  }

  /** The slots being filled never meet a slot the consumer may still read. */
  lemma FillingNeverOverlaps(s: State, i: nat, j: nat)
    requires Inv(s) && s.producer.Filling?
    requires s.read <= i < s.write && j < |s.producer.frames|
    ensures Wrap(i, s.capacity) != Wrap(s.producer.w + j, s.capacity)
  {
    WrapDistinct(i, s.producer.w + j, s.capacity);
  }
}
