/** What goes in comes out: the samples of any sequence of writes and reads of the ring, whatever the block sizes. */
module RingRelay {
  import opened AudioRing
  import opened Planar

  /** One call as its caller sees it: the planar block given or filled, and how many of its frames went through. */
  datatype Call =
    | Put(planar: seq<real>, frames: nat, accepted: nat, generation: nat)
    | Get(planar: seq<real>, frames: nat, prefix: nat, copied: nat, generation: nat)

  /** What `Write` and `ReadWithSilencePrefix` promise of one call, `before` and `after` being the queue. */
  ghost predicate Relays(before: seq<QueuedFrame>, call: Call, after: seq<QueuedFrame>, channels: nat) {
    match call
    case Put(planar, frames, accepted, generation) =>
      && |planar| == channels * frames && accepted <= frames
      && after == before + FramesOf(planar, channels, frames, generation)[..accepted]
    case Get(planar, frames, prefix, copied, generation) =>
      && prefix + copied <= frames && Delivers(planar, channels, frames, before, prefix, copied, generation)
      && after == before[copied..]
  }

  ghost predicate IsRun(queues: seq<seq<QueuedFrame>>, calls: seq<Call>, channels: nat) {
    && |queues| == |calls| + 1 && queues[0] == []
    && forall i | 0 <= i < |calls| :: Relays(queues[i], calls[i], queues[i + 1], channels)
  }

  /** A sample of one channel and the generation it was written, or asked for, under. */
  datatype Mark = Mark(sample: real, generation: nat)

  /** `count` frames of channel `c` of a planar block, from frame `from` on. */
  function Lane(planar: seq<real>, frames: nat, c: nat, from: nat, count: nat, generation: nat): (ms: seq<Mark>)
    requires from + count <= frames && c * frames + frames <= |planar|
    ensures |ms| == count
    ensures forall j | 0 <= j < count :: ms[j] == Mark(planar[c * frames + from + j], generation)
  {
    seq(count, j requires 0 <= j < count => Mark(planar[c * frames + from + j], generation))
  }

  predicate WellFormed(call: Call, channels: nat) {
    match call
    case Put(planar, frames, accepted, _) => |planar| == channels * frames && accepted <= frames
    case Get(planar, frames, prefix, copied, _) => |planar| == channels * frames && prefix + copied <= frames
  }

  predicate AllWellFormed(calls: seq<Call>, channels: nat) { forall i | 0 <= i < |calls| :: WellFormed(calls[i], channels) }

  lemma RelaysIsWellFormed(before: seq<QueuedFrame>, call: Call, after: seq<QueuedFrame>, channels: nat)
    requires Relays(before, call, after, channels)
    ensures WellFormed(call, channels)
  {
  }

  /** Everything the writes put into channel `c`, in order. */
  function Sent(calls: seq<Call>, channels: nat, c: nat): seq<Mark>
    requires AllWellFormed(calls, channels) && c < channels
  {
    if calls == [] then []
    else
      var front, last := calls[..|calls| - 1], calls[|calls| - 1];
      assert WellFormed(last, channels);
      ChannelFits(channels, last.frames, c);
      Sent(front, channels, c) + if last.Put? then Lane(last.planar, last.frames, c, 0, last.accepted, last.generation) else []
  }

  /** Everything the reads took out of channel `c`, in order. */
  function Received(calls: seq<Call>, channels: nat, c: nat): seq<Mark>
    requires AllWellFormed(calls, channels) && c < channels
  {
    if calls == [] then []
    else
      var front, last := calls[..|calls| - 1], calls[|calls| - 1];
      assert WellFormed(last, channels);
      ChannelFits(channels, last.frames, c);
      Received(front, channels, c)
      + if last.Get? then Lane(last.planar, last.frames, c, last.prefix, last.copied, last.generation) else []
  }

  /** The marks of the frames still queued. */
  ghost predicate Waits(queue: seq<QueuedFrame>, channels: nat, c: nat, marks: seq<Mark>) {
    && |queue| == |marks| && c < channels
    && forall k | 0 <= k < |queue| :: |queue[k].samples| == channels && Mark(queue[k].samples[c], queue[k].generation) == marks[k]
  }

  /** A sample handed out is the sample written, or silence if it was written under another generation. */
  predicate Answers(sent: Mark, received: Mark) {
    received.sample == if sent.generation == received.generation then sent.sample else 0.0
  }

  ghost predicate Relayed(sent: seq<Mark>, received: seq<Mark>, queue: seq<QueuedFrame>, channels: nat, c: nat) {
    && |received| <= |sent| && Waits(queue, channels, c, sent[|received|..])
    && forall i | 0 <= i < |received| :: Answers(sent[i], received[i])
  }

  lemma PutRelays(sent: seq<Mark>, received: seq<Mark>, queue: seq<QueuedFrame>, channels: nat, c: nat, call: Call)
    requires call.Put? && WellFormed(call, channels) && Relayed(sent, received, queue, channels, c)
    requires c * call.frames + call.frames <= |call.planar|
    ensures Relayed(sent + Lane(call.planar, call.frames, c, 0, call.accepted, call.generation), received,
                    queue + FramesOf(call.planar, channels, call.frames, call.generation)[..call.accepted], channels, c)
  {
    var Put(planar, frames, accepted, generation) := call;
    var lane, added := Lane(planar, frames, c, 0, accepted, generation), FramesOf(planar, channels, frames, generation)[..accepted];
    ChannelStarts(frames, c);
    assert (sent + lane)[|received|..] == sent[|received|..] + lane;
    forall k | 0 <= k < accepted ensures |added[k].samples| == channels && Mark(added[k].samples[c], added[k].generation) == lane[k] {
      assert added[k].samples[c] == planar[At(c, frames, k)];
    }
  }

  lemma GetRelays(sent: seq<Mark>, received: seq<Mark>, queue: seq<QueuedFrame>, channels: nat, c: nat, call: Call)
    requires call.Get? && WellFormed(call, channels) && Relayed(sent, received, queue, channels, c)
    requires c * call.frames + call.frames <= |call.planar|
    requires Delivers(call.planar, channels, call.frames, queue, call.prefix, call.copied, call.generation)
    ensures Relayed(sent, received + Lane(call.planar, call.frames, c, call.prefix, call.copied, call.generation),
                    queue[call.copied..], channels, c)
  {
    var Get(planar, frames, prefix, copied, generation) := call;
    var lane := Lane(planar, frames, c, prefix, copied, generation);
    ChannelStarts(frames, c);
    forall k | 0 <= k < copied ensures Answers(sent[|received| + k], lane[k]) {
      assert planar[At(c, frames, prefix + k)] == ReadSample(queue, prefix, copied, generation, c, prefix + k);
      assert sent[|received|..][k] == Mark(queue[k].samples[c], queue[k].generation);
    }
  }

  /** Over any sequence of writes and reads: on every channel, the i-th sample handed out is the i-th sample accepted,
      silenced exactly if it was written under another generation than it is read under; the rest is still queued. */
  lemma RelayHolds(queues: seq<seq<QueuedFrame>>, calls: seq<Call>, channels: nat, c: nat)
    requires IsRun(queues, calls, channels) && c < channels
    ensures AllWellFormed(calls, channels)
    ensures var sent, received := Sent(calls, channels, c), Received(calls, channels, c);
      && |received| + |queues[|calls|]| == |sent|
      && forall i | 0 <= i < |received| ::
           received[i].sample == if sent[i].generation == received[i].generation then sent[i].sample else 0.0
  {
    RunIsRelayed(queues, calls, channels, c);
  }

  lemma {:induction false} RunIsRelayed(queues: seq<seq<QueuedFrame>>, calls: seq<Call>, channels: nat, c: nat)
    requires IsRun(queues, calls, channels) && c < channels
    ensures AllWellFormed(calls, channels)
    ensures Relayed(Sent(calls, channels, c), Received(calls, channels, c), queues[|calls|], channels, c)
    decreases |calls|
  {
    hide Delivers, Lane, FramesOf, Relayed;
    if calls == [] {
      assert Relayed([], [], [], channels, c) by { NothingRelayed(channels, c); }
    } else {
      var n := |calls| - 1;
      var last := calls[n];
      assert Relays(queues[n], last, queues[n + 1], channels);
      RelaysIsWellFormed(queues[n], last, queues[n + 1], channels);
      RunIsRelayed(queues[..n + 1], calls[..n], channels, c);
      ChannelFits(channels, last.frames, c);
      var sent, received := Sent(calls[..n], channels, c), Received(calls[..n], channels, c);
      if last.Put? {
        PutRelays(sent, received, queues[n], channels, c, last);
        assert received + [] == received;
      } else {
        GetRelays(sent, received, queues[n], channels, c, last);
        assert sent + [] == sent;
      }
    }
  }

  lemma NothingRelayed(channels: nat, c: nat)
    requires c < channels
    ensures Relayed([], [], [], channels, c)
  {
  }

  /** A block written whole into an empty queue and read back whole is the same block, or silence. */
  lemma BlockComesBack(given: seq<real>, taken: seq<real>, channels: nat, frames: nat, written: nat, expected: nat)
    requires |given| == channels * frames
    requires Delivers(taken, channels, frames, FramesOf(given, channels, frames, written), 0, frames, expected)
    ensures taken == if written == expected then given else seq(|given|, _ => 0.0)
  {
    var queue := FramesOf(given, channels, frames, written);
    forall i | 0 <= i < |taken| ensures taken[i] == if written == expected then given[i] else 0.0 {
      var c, f := Position(channels, frames, i);
      assert taken[At(c, frames, f)] == ReadSample(queue, 0, frames, expected, c, f);
    }
  }

  /** Every index of a planar block is one frame of one channel. */
  lemma Position(channels: nat, frames: nat, i: nat) returns (c: nat, f: nat)
    requires i < channels * frames
    ensures c < channels && f < frames && i == At(c, frames, f)
  {
    c, f := 0, i;
    while f >= frames
      invariant c < channels && i == c * frames + f
      decreases f
    {
      assert c + 1 == channels ==> channels * frames == c * frames + frames;
      assert (c + 1) * frames == c * frames + frames;
      c, f := c + 1, f - frames;
    }
  }

  /** The same on a ring: what is written to an empty ring with room for it comes back sample for sample under its own
      generation, and as silence under any other. */
  method WriteThenRead(ring: PlanarAudioRing, given: array<real>, taken: array<real>, frames: nat, written: nat, expected: nat)
    requires ring.Valid() && ring.Contents() == [] && frames <= ring.capacity
    requires given.Length == taken.Length == ring.channelCount * frames
    requires given != ring.samples && taken != ring.samples && given != taken
    modifies ring`writeFrame, ring`readFrame, ring`overrunFrames, ring`underrunFrames, ring.samples, ring.generations, taken
    ensures ring.Valid() && ring.Contents() == []
    ensures given[..] == old(given[..])
    ensures taken[..] == if written == expected then given[..] else seq(given.Length, _ => 0.0)
    ensures ring.overrunFrames == old(ring.overrunFrames) && ring.underrunFrames == old(ring.underrunFrames)
  {
    var accepted := ring.Write(given, frames, written);
    ghost var block := given[..];
    hide PlanarAudioRing.Contents, Delivers, FramesOf;
    assert ring.Contents() == FramesOf(block, ring.channelCount, frames, written);
    var queued := ring.Read(taken, frames, expected);
    BlockComesBack(block, taken[..], ring.channelCount, frames, written, expected);
  }

  /** A write of the ring is a call that puts what it accepted. */
  method PutBlock(ring: PlanarAudioRing, planar: array<real>, frames: nat, generation: nat) returns (accepted: nat)
    requires ring.Valid() && planar != ring.samples && planar.Length == ring.channelCount * frames
    modifies ring`writeFrame, ring`overrunFrames, ring.samples, ring.generations
    ensures ring.Valid()
    ensures Relays(old(ring.Contents()), Put(old(planar[..]), frames, accepted, generation), ring.Contents(), ring.channelCount)
  {
    accepted := ring.Write(planar, frames, generation);
  }

  /** A read of the ring is a call that gets what it copied. */
  method GetBlock(ring: PlanarAudioRing, planar: array<real>, frames: nat, generation: nat, prefix: nat) returns (copied: nat)
    requires ring.Valid() && planar != ring.samples && planar.Length == ring.channelCount * frames && prefix <= frames
    modifies ring`readFrame, ring`underrunFrames, planar
    ensures ring.Valid()
    ensures Relays(old(ring.Contents()), Get(planar[..], frames, prefix, copied, generation), ring.Contents(), ring.channelCount)
  {
    hide Delivers, PlanarAudioRing.Contents;
    var result := ring.ReadWithSilencePrefix(planar, frames, generation, prefix);
    copied := result.queuedFrames;
  }
}
