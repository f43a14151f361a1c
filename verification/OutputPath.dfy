/** The ring, the startup delay and the smoother wired together as the output callback uses them: what reaches the
    device is the smoothed stream, whatever the block sizes. */
module OutputPath {
  import opened AudioRing
  import opened Planar
  import Bridge = BridgeStream
  import Control = TransitionControl
  import Runs = TransitionRuns
  import Smoother = Silencer

  // ---------------------------------------------------------------- one output block

  /** How many frames of a block are intentional silence, given the remaining delay: all of them while the bridge is not
      ready. */
  function Prefix(delay: nat, frames: nat, ready: bool): (n: nat)
    ensures n <= frames
  {
    if ready then Min(frames, delay) else frames
  }

  /** How many come from a ring that has so many queued. */
  function Copied(delay: nat, queued: nat, frames: nat, ready: bool): (n: nat)
    ensures n <= queued && Prefix(delay, frames, ready) + n <= frames
  {
    Min(frames - Prefix(delay, frames, ready), queued)
  }

  function Available(delay: nat, queued: nat, frames: nat, ready: bool): (n: nat)
    ensures n <= frames
  {
    Prefix(delay, frames, ready) + Copied(delay, queued, frames, ready)
  }

  /** The delay left after the block; a block that is all prefix because the bridge is not ready uses up none. */
  function DelayAfter(delay: nat, frames: nat, ready: bool): nat {
    if ready then delay - Prefix(delay, frames, ready) else delay
  }

  /** Every queued frame has a sample for each of `channels` channels. */
  predicate Wide(queue: seq<QueuedFrame>, channels: nat) { forall k | 0 <= k < |queue| :: |queue[k].samples| == channels }

  /** What the read hands to the smoother on one channel. */
  function Filled(queue: seq<QueuedFrame>, delay: nat, channels: nat, frames: nat, generation: nat, ready: bool, c: nat)
    : (xs: seq<real>)
    requires Wide(queue, channels) && c < channels
    ensures |xs| == frames
  {
    Bridge.ReadBlock(queue, frames, Prefix(delay, frames, ready), Copied(delay, |queue|, frames, ready), generation, c)
  }

  function AllFilled(queue: seq<QueuedFrame>, delay: nat, channels: nat, frames: nat, generation: nat, ready: bool)
    : (xs: seq<seq<real>>)
    requires Wide(queue, channels)
    ensures |xs| == channels && Smoother.AllOfLength(xs, frames)
    ensures forall c | 0 <= c < channels :: xs[c] == Filled(queue, delay, channels, frames, generation, ready, c)
  {
    seq(channels, c requires 0 <= c < channels => Filled(queue, delay, channels, frames, generation, ready, c))
  }

  function NextStream(s: Bridge.Stream, capacity: nat, frames: nat, ready: bool): (r: Bridge.Stream)
    requires s.Valid(capacity)
    ensures r.Valid(capacity)
  {
    if ready then Bridge.Step(s, capacity, Bridge.Op.Request(frames)) else s
  }

  lemma NextQueue(s: Bridge.Stream, capacity: nat, frames: nat, ready: bool)
    requires s.Valid(capacity)
    ensures var r := NextStream(s, capacity, frames, ready);
      r.Queue() == s.Queue()[Copied(s.remaining, |s.Queue()|, frames, ready)..]
      && r.remaining == DelayAfter(s.remaining, frames, ready)
  {
  }

  lemma SuffixIsWide(queue: seq<QueuedFrame>, channels: nat, k: nat)
    requires Wide(queue, channels) && k <= |queue|
    ensures Wide(queue[k..], channels)
  {
  }

  /** Everything one output block does: the stream moves on and every channel is the smoothed next block. */
  ghost predicate Processed(s: Bridge.Stream, capacity: nat, lines: seq<Control.Line>, channels: nat, frames: nat,
                            generation: nat, ready: bool, silence: nat, fade: nat,
                            r: Bridge.Stream, after: seq<Control.Line>, ys: seq<seq<real>>, adjusted: nat)
  {
    && s.Valid(capacity) && Wide(s.Queue(), channels) && 1 <= channels == |ys| <= Smoother.MAX_CHANNELS
    && Smoother.AllValid(lines) && Smoother.AllValid(after)
    && r == NextStream(s, capacity, frames, ready)
    && Smoother.Smoothed(lines, AllFilled(s.Queue(), s.remaining, channels, frames, generation, ready),
                         Available(s.remaining, |s.Queue()|, frames, ready), silence, fade, after, ys, adjusted)
  }

  /** The counts of a block and of its two parts: silence is not cut short before frames come, and frames are not
      missing before more come. */
  lemma CountsSplit(delay: nat, queued: nat, m: nat, n: nat, ready: bool)
    ensures var p, c := Prefix(delay, m, ready), Copied(delay, queued, m, ready);
      var q, d := Prefix(DelayAfter(delay, m, ready), n, ready), Copied(DelayAfter(delay, m, ready), queued - c, n, ready);
      && p + q == Prefix(delay, m + n, ready) && c + d == Copied(delay, queued, m + n, ready)
      && (q > 0 ==> p == m) && (d > 0 ==> p + c == m)
  {
  }

  lemma AvailableSplits(delay: nat, queued: nat, m: nat, n: nat, ready: bool)
    ensures Available(delay, queued, m, ready) == Control.Clip(Available(delay, queued, m + n, ready), m)
    ensures Available(DelayAfter(delay, m, ready), queued - Copied(delay, queued, m, ready), n, ready)
         == Control.Clip(Available(delay, queued, m + n, ready) - m, n)
  {
    CountsSplit(delay, queued, m, n, ready);
    hide Prefix, Copied, DelayAfter;
  }

  /** A sample of a block is the sample of the part it falls in. */
  lemma SampleSplits(queue: seq<QueuedFrame>, p: nat, c: nat, m: nat, q: nat, d: nat, n: nat, generation: nat, channel: nat, f: nat)
    requires c + d <= |queue| && p + c <= m && q + d <= n && f < m + n
    requires (q > 0 ==> p == m) && (d > 0 ==> p + c == m)
    requires forall k | 0 <= k < |queue| :: channel < |queue[k].samples|
    ensures ReadSample(queue, p + q, c + d, generation, channel, f)
         == if f < m then ReadSample(queue, p, c, generation, channel, f)
            else ReadSample(queue[c..], q, d, generation, channel, f - m)
  {
    hide Heard;
  }

  lemma BlockSplits(queue: seq<QueuedFrame>, p: nat, c: nat, m: nat, q: nat, d: nat, n: nat, generation: nat, channel: nat)
    requires c + d <= |queue| && p + c <= m && q + d <= n
    requires (q > 0 ==> p == m) && (d > 0 ==> p + c == m)
    requires forall k | 0 <= k < |queue| :: channel < |queue[k].samples|
    ensures Bridge.ReadBlock(queue, m + n, p + q, c + d, generation, channel)
         == Bridge.ReadBlock(queue, m, p, c, generation, channel)
            + Bridge.ReadBlock(queue[c..], n, q, d, generation, channel)
  {
    var whole := Bridge.ReadBlock(queue, m + n, p + q, c + d, generation, channel);
    var first := Bridge.ReadBlock(queue, m, p, c, generation, channel);
    var second := Bridge.ReadBlock(queue[c..], n, q, d, generation, channel);
    hide *;
    forall f | 0 <= f < m + n ensures whole[f] == (first + second)[f] {
      SampleSplits(queue, p, c, m, q, d, n, generation, channel, f);
    }
  }

  lemma FilledSplits(queue: seq<QueuedFrame>, delay: nat, channels: nat, m: nat, n: nat, generation: nat, ready: bool, c: nat)
    requires Wide(queue, channels) && c < channels
    ensures Wide(queue[Copied(delay, |queue|, m, ready)..], channels)
    ensures Filled(queue, delay, channels, m + n, generation, ready, c)
         == Filled(queue, delay, channels, m, generation, ready, c)
            + Filled(queue[Copied(delay, |queue|, m, ready)..], DelayAfter(delay, m, ready), channels, n, generation, ready, c)
  {
    hide *;
    var p, k := Prefix(delay, m, ready), Copied(delay, |queue|, m, ready);
    var later, rest := DelayAfter(delay, m, ready), queue[k..];
    var q, d := Prefix(later, n, ready), Copied(later, |rest|, n, ready);
    SuffixIsWide(queue, channels, k);
    CountsSplit(delay, |queue|, m, n, ready);
    FilledIs(queue, delay, channels, m + n, generation, ready, c);
    FilledIs(queue, delay, channels, m, generation, ready, c);
    FilledIs(rest, later, channels, n, generation, ready, c);
    BlockSplits(queue, p, k, m, q, d, n, generation, c);
  }

  lemma FilledIs(queue: seq<QueuedFrame>, delay: nat, channels: nat, frames: nat, generation: nat, ready: bool, c: nat)
    requires Wide(queue, channels) && c < channels
    ensures forall k | 0 <= k < |queue| :: c < |queue[k].samples|
    ensures Filled(queue, delay, channels, frames, generation, ready, c)
         == Bridge.ReadBlock(queue, frames, Prefix(delay, frames, ready), Copied(delay, |queue|, frames, ready), generation, c)
  {
  }

  lemma AllFilledSplits(queue: seq<QueuedFrame>, delay: nat, channels: nat, m: nat, n: nat, generation: nat, ready: bool,
                        rest: seq<QueuedFrame>, later: nat)
    requires Wide(queue, channels)
    requires rest == queue[Copied(delay, |queue|, m, ready)..] && later == DelayAfter(delay, m, ready)
    ensures Wide(rest, channels)
    ensures AllFilled(queue, delay, channels, m + n, generation, ready)
         == Smoother.Joined(AllFilled(queue, delay, channels, m, generation, ready),
                            AllFilled(rest, later, channels, n, generation, ready))
  {
    SuffixIsWide(queue, channels, Copied(delay, |queue|, m, ready));
    hide *;
    forall c | 0 <= c < channels
      ensures Filled(queue, delay, channels, m + n, generation, ready, c)
           == Filled(queue, delay, channels, m, generation, ready, c) + Filled(rest, later, channels, n, generation, ready, c)
    {
      FilledSplits(queue, delay, channels, m, n, generation, ready, c);
    }
  }

  lemma StreamPartition(s: Bridge.Stream, capacity: nat, m: nat, n: nat, ready: bool)
    requires s.Valid(capacity)
    ensures NextStream(NextStream(s, capacity, m, ready), capacity, n, ready) == NextStream(s, capacity, m + n, ready)
  {
    hide Bridge.Step;
    if ready {
      Bridge.BlockPartition(s, capacity, m, n);
    }
  }

  /** Two output blocks under one generation are one block of their total size: the same samples on every channel, the
      same stream, the same lines, and counts that add up. */
  lemma ProcessPartition(s: Bridge.Stream, capacity: nat, lines: seq<Control.Line>, channels: nat, m: nat, n: nat,
                         generation: nat, ready: bool, silence: nat, fade: nat,
                         t: Bridge.Stream, mid: seq<Control.Line>, us: seq<seq<real>>, i: nat,
                         r: Bridge.Stream, end: seq<Control.Line>, vs: seq<seq<real>>, j: nat)
    requires Processed(s, capacity, lines, channels, m, generation, ready, silence, fade, t, mid, us, i)
    requires Processed(t, capacity, mid, channels, n, generation, ready, silence, fade, r, end, vs, j)
    ensures Processed(s, capacity, lines, channels, m + n, generation, ready, silence, fade, r, end, Smoother.Joined(us, vs), i + j)
  {
    hide Smoother.Smoothed, Smoother.AllOfLength, Smoother.Joined, Available, Filled, AllFilled, NextStream,
         Control.Clip, Wide, Prefix, Copied, DelayAfter;
    var xs := AllFilled(s.Queue(), s.remaining, channels, m, generation, ready);
    var ys := AllFilled(t.Queue(), t.remaining, channels, n, generation, ready);
    var available := Available(s.remaining, |s.Queue()|, m + n, ready);
    NextQueue(s, capacity, m, ready);
    AvailableSplits(s.remaining, |s.Queue()|, m, n, ready);
    AllFilledSplits(s.Queue(), s.remaining, channels, m, n, generation, ready, t.Queue(), t.remaining);
    StreamPartition(s, capacity, m, n, ready);
    Smoother.ApplyPartition(lines, xs, ys, m, n, available, silence, fade, mid, end, us, vs, i, j);
  }

  lemma DeliveredIsFilled(block: seq<real>, queue: seq<QueuedFrame>, delay: nat, channels: nat, frames: nat, generation: nat,
                          ready: bool)
    requires Wide(queue, channels)
    requires Delivers(block, channels, frames, queue, Prefix(delay, frames, ready), Copied(delay, |queue|, frames, ready), generation)
    ensures Channels(block, channels, frames) == AllFilled(queue, delay, channels, frames, generation, ready)
  {
    hide At, ReadSample, Prefix, Copied;
    forall c | 0 <= c < channels
      ensures Channel(block, channels, frames, c) == Filled(queue, delay, channels, frames, generation, ready, c)
    {
      var xs, ys := Channel(block, channels, frames, c), Filled(queue, delay, channels, frames, generation, ready, c);
      assert forall f: nat | f < frames :: xs[f] == block[At(c, frames, f)] == ys[f];
    }
  }

  // ---------------------------------------------------------------- the history of one channel

  /** The events of one block behind those of the past. */
  function History(es: seq<Runs.Event>, changed: bool, xs: seq<real>, available: nat, silence: nat, fade: nat): seq<Runs.Event> {
    es + Runs.Opening(changed, silence, fade) + Runs.BlockEvents(xs, |xs|, available, silence, fade)
  }

  lemma HistoryIsRun(es: seq<Runs.Event>, changed: bool, xs: seq<real>, available: nat, silence: nat, fade: nat)
    ensures var p := Control.Progress(Control.Opened(Runs.Run(es), changed, silence, fade), 0);
            var es' := History(es, changed, xs, available, silence, fade);
            && Runs.Run(es') == Control.After(p, xs, |xs|, available, silence, fade).line
            && Runs.Emitted(es') == Runs.Emitted(es) + Control.Output(p, xs, available, silence, fade)
  {
    hide Runs.Run, Runs.Emitted, Runs.BlockEvents, Control.After, Control.Output;
    var begun := es + Runs.Opening(changed, silence, fade);
    var p := Control.Progress(Control.Opened(Runs.Run(es), changed, silence, fade), 0);
    Runs.OpeningIsRun(es, changed, silence, fade);
    Runs.BlockIsRun(begun, p, xs, |xs|, available, silence, fade);
    Runs.BlockEmits(begun, p, xs, |xs|, available, silence, fade);
    assert Control.Output(p, xs, available, silence, fade)[..|xs|] == Control.Output(p, xs, available, silence, fade);
  }

  /** Where a sample leaving the output path may come from: nowhere, a sample that left before it since the last reset,
      faded, or a queued frame stamped with the active generation, scaled by a gain in [0, 1]. */
  ghost predicate Sourced(y: real, past: seq<real>, queue: seq<QueuedFrame>, channels: nat, copied: nat, generation: nat, c: nat)
    requires Wide(queue, channels) && c < channels && copied <= |queue|
  {
    || y == 0.0
    || (exists k | 0 <= k < |past| :: Runs.ScaledCopy(y, past[k]))
    || Bridge.Stamped(y, queue, copied, generation, c)
  }

  ghost predicate AllSourced(ys: seq<real>, past: seq<real>, queue: seq<QueuedFrame>, channels: nat, copied: nat, generation: nat, c: nat)
    requires Wide(queue, channels) && c < channels && copied <= |queue|
  {
    forall f | 0 <= f < |ys| :: Sourced(ys[f], past + ys[..f], queue, channels, copied, generation, c)
  }

  lemma BlockIsSourced(es: seq<Runs.Event>, changed: bool, queue: seq<QueuedFrame>, delay: nat, channels: nat, frames: nat,
                       generation: nat, ready: bool, c: nat, silence: nat, fade: nat)
    requires Wide(queue, channels) && c < channels
    ensures var xs := Filled(queue, delay, channels, frames, generation, ready, c);
            var p := Control.Progress(Control.Opened(Runs.Run(es), changed, silence, fade), 0);
            AllSourced(Control.Output(p, xs, Available(delay, |queue|, frames, ready), silence, fade), Runs.Emitted(es), queue, channels,
                       Copied(delay, |queue|, frames, ready), generation, c)
  {
    hide Runs.Run, Runs.Emitted, Control.Output, Runs.ScaledCopy, Bridge.Stamped;
    var begun := es + Runs.Opening(changed, silence, fade);
    var xs := Filled(queue, delay, channels, frames, generation, ready, c);
    var p := Control.Progress(Control.Opened(Runs.Run(es), changed, silence, fade), 0);
    Runs.OpeningIsRun(es, changed, silence, fade);
    var prefix, copied := Prefix(delay, frames, ready), Copied(delay, |queue|, frames, ready);
    var ys := Control.Output(p, xs, prefix + copied, silence, fade);
    forall f | 0 <= f < |ys| ensures Sourced(ys[f], Runs.Emitted(es) + ys[..f], queue, channels, copied, generation, c) {
      Bridge.NothingStaleLeavesTheBridge(begun, p, queue, prefix, copied, generation, c, f, xs, silence, fade);
    }
  }

  /** Every channel's line is the run of its history. */
  ghost predicate Tracked(lines: seq<Control.Line>, events: seq<seq<Runs.Event>>)
    requires |events| <= |lines|
  {
    forall c | 0 <= c < |events| :: lines[c] == Runs.Run(events[c])
  }

  /** A processed block extends every channel's history by exactly the samples that left, each of them sourced. */
  ghost predicate Delivered(queue: seq<QueuedFrame>, delay: nat, channels: nat, frames: nat, generation: nat, ready: bool,
                            events: seq<seq<Runs.Event>>, ys: seq<seq<real>>, after: seq<seq<Runs.Event>>)
    requires Wide(queue, channels) && |events| == |ys| == |after| == channels
  {
    forall c | 0 <= c < channels ::
      && Runs.Emitted(after[c]) == Runs.Emitted(events[c]) + ys[c]
      && AllSourced(ys[c], Runs.Emitted(events[c]), queue, channels, Copied(delay, |queue|, frames, ready), generation, c)
  }

  lemma HistoryAdvances(s: Bridge.Stream, capacity: nat, lines: seq<Control.Line>, changed: bool, channels: nat, frames: nat,
                        generation: nat, ready: bool, silence: nat, fade: nat, events: seq<seq<Runs.Event>>,
                        opening: seq<Control.Line>, r: Bridge.Stream, end: seq<Control.Line>, ys: seq<seq<real>>, adjusted: nat)
    returns (after: seq<seq<Runs.Event>>)
    requires |events| == channels && |lines| == Smoother.MAX_CHANNELS
    requires Processed(s, capacity, opening, channels, frames, generation, ready, silence, fade, r, end, ys, adjusted)
    requires Tracked(lines, events)
    requires forall c | 0 <= c < channels ::
               lines[c].control.Valid() && opening[c] == Control.Opened(lines[c], changed, silence, fade)
    ensures |after| == channels && Tracked(end, after)
    ensures Delivered(s.Queue(), s.remaining, channels, frames, generation, ready, events, ys, after)
  {
    hide Runs.Run, Runs.Emitted, Control.After, Control.Output, AllSourced, NextStream, Filled, Available, History;
    var queue, delay := s.Queue(), s.remaining;
    var available := Available(delay, |queue|, frames, ready);
    after := seq(channels, c requires 0 <= c < channels =>
      History(events[c], changed, Filled(queue, delay, channels, frames, generation, ready, c), available, silence, fade));
    forall c | 0 <= c < channels
      ensures end[c] == Runs.Run(after[c]) && Runs.Emitted(after[c]) == Runs.Emitted(events[c]) + ys[c]
      ensures AllSourced(ys[c], Runs.Emitted(events[c]), queue, channels, Copied(delay, |queue|, frames, ready), generation, c)
    {
      var xs := Filled(queue, delay, channels, frames, generation, ready, c);
      HistoryIsRun(events[c], changed, xs, available, silence, fade);
      BlockIsSourced(events[c], changed, queue, delay, channels, frames, generation, ready, c, silence, fade);
    }
  }

  // ---------------------------------------------------------------- the path itself

  class OutputPath {
    const ring: PlanarAudioRing
    const latency: Bridge.AudioBridgeLatencyController
    const silencer: Smoother.AudioTransitionSilencer
    ghost var stream: Bridge.Stream
    ghost var events: seq<seq<Runs.Event>>

    /** The ring and the delay are the stream's queue and remaining delay, and every channel's line is the run of all
        that has happened to it. */
    ghost predicate Valid()
      reads this, ring, ring.samples, ring.generations, latency, silencer, silencer.lastOutput, silencer.fadeStart
    {
      && ring.Valid() && silencer.Valid()
      && ring.samples != silencer.lastOutput && ring.samples != silencer.fadeStart
      && stream.Valid(ring.capacity) && ring.Contents() == stream.Queue() && latency.remainingFrames == stream.remaining
      && Wide(stream.Queue(), ring.channelCount)
      && |events| == ring.channelCount && Tracked(silencer.Lines(), events)
    }

    ghost predicate Apart(planar: array<real>)
      reads this, silencer
    {
      planar != ring.samples && planar != silencer.lastOutput && planar != silencer.fadeStart
    }

    /** The empty ring is given; delay and smoother are new, and nothing has happened on any channel. */
    constructor (given: PlanarAudioRing, generation: nat)
      requires given.Valid() && given.Contents() == []
      ensures ring == given && fresh(latency) && fresh(silencer) && fresh(silencer.lastOutput) && fresh(silencer.fadeStart)
      ensures Valid() && stream == Bridge.Begin(0, []) && silencer.observedGeneration == generation
      ensures events == seq(given.channelCount, _ => [])
    {
      ring := given;
      latency := new Bridge.AudioBridgeLatencyController();
      silencer := new Smoother.AudioTransitionSilencer(generation);
      stream := Bridge.Begin(0, []);
      events := seq(given.channelCount, _ => []);
    }

    /** One processed block enters the ring. */
    method Offer(planar: array<real>, frames: nat, generation: nat) returns (accepted: nat)
      requires Valid() && Apart(planar) && planar.Length == ring.channelCount * frames
      modifies this`stream, ring`writeFrame, ring`overrunFrames, ring.samples, ring.generations
      ensures Valid()
      ensures stream == Bridge.Step(old(stream), ring.capacity,
                                    Bridge.Op.Offer(FramesOf(planar[..], ring.channelCount, frames, generation)))
      ensures accepted == |stream.accepted| - old(|stream.accepted|)
    {
      accepted := ring.Write(planar, frames, generation);
      ghost var offered := FramesOf(planar[..], ring.channelCount, frames, generation);
      stream := Bridge.Step(stream, ring.capacity, Bridge.Op.Offer(offered));
    }

    /** A measured delay starts over in front of what is queued. */
    method Configure(frames: nat)
      requires Valid()
      modifies this`stream, latency
      ensures Valid() && latency.latencyFrames == frames && stream == Bridge.Begin(frames, old(stream.Queue()))
    {
      latency.Configure(frames);
      stream := Bridge.Begin(frames, stream.Queue());
    }

    /** A pending transition drops what is queued, restarts the delay, and starts or resets the smoother. */
    method Restart(reset: bool, silence: nat, fade: nat)
      requires Valid()
      modifies this, ring`readFrame, latency`remainingFrames, silencer, silencer.lastOutput, silencer.fadeStart
      ensures Valid() && stream == Bridge.Begin(latency.latencyFrames, [])
      ensures forall c: nat | c < Smoother.MAX_CHANNELS ::
                silencer.LineAt(c) == if reset then Control.Reset(silence, fade)
                                      else Control.Begin(old(silencer.LineAt(c)), silence, fade)
      ensures forall c | 0 <= c < ring.channelCount ::
                events[c] == old(events)[c] + [if reset then Runs.Disconnect(silence, fade) else Runs.Start(silence, fade)]
    {
      hide Runs.Run;
      var _ := ring.DiscardQueuedFrames();
      latency.Reset();
      if reset {
        silencer.Reset(silence, fade);
      } else {
        silencer.Start(silence, fade);
      }
      stream := Bridge.Begin(latency.latencyFrames, []);
      ghost var e := if reset then Runs.Disconnect(silence, fade) else Runs.Start(silence, fade);
      ghost var before := events;
      events := seq(|before|, c requires 0 <= c < |before| => before[c] + [e]);
      forall c | 0 <= c < |before| {
        Runs.RunSnoc(before[c], e);
      }
    }

    /** Reads one block. */
    method Fill(planar: array<real>, frames: nat, generation: nat, ready: bool) returns (available: nat)
      requires Valid() && Apart(planar) && planar.Length == ring.channelCount * frames
      modifies this`stream, ring`readFrame, ring`underrunFrames, latency`remainingFrames, planar
      ensures Valid()
      ensures stream == NextStream(old(stream), ring.capacity, frames, ready)
      ensures available == Available(old(stream).remaining, |old(stream).Queue()|, frames, ready)
      ensures Channels(planar[..], ring.channelCount, frames)
           == AllFilled(old(stream).Queue(), old(stream).remaining, ring.channelCount, frames, generation, ready)
    {
      hide Tracked, NextStream, Bridge.Step, Delivers, Channels, AllFilled, Wide;
      ghost var before := stream;
      var prefix := frames;
      if ready {
        prefix := latency.ConsumePrefixFrames(frames);
      }
      var read := ring.ReadWithSilencePrefix(planar, frames, generation, prefix);
      available := read.availableFrames;
      stream := NextStream(before, ring.capacity, frames, ready);
      NextQueue(before, ring.capacity, frames, ready);
      SuffixIsWide(before.Queue(), ring.channelCount, Copied(before.remaining, |before.Queue()|, frames, ready));
      DeliveredIsFilled(planar[..], before.Queue(), before.remaining, ring.channelCount, frames, generation, ready);
    }

    /** One output block: the stream moves on, every channel of the buffer is the smoothed next block, and every sample
        in it is accounted for by what left before or by a frame stamped with this generation. */
    method Process(planar: array<real>, frames: nat, generation: nat, ready: bool, silence: nat, fade: nat)
      returns (adjusted: nat)
      requires Valid() && Apart(planar) && planar.Length == ring.channelCount * frames
      modifies this, ring`readFrame, ring`underrunFrames, latency`remainingFrames
      modifies silencer, silencer.lastOutput, silencer.fadeStart, planar
      ensures Valid() && silencer.observedGeneration == generation
      ensures Processed(old(stream), ring.capacity, old(silencer.OpeningLines(generation, silence, fade)), ring.channelCount,
                        frames, generation, ready, silence, fade, stream, silencer.Lines(),
                        Channels(planar[..], ring.channelCount, frames), adjusted)
      ensures Delivered(old(stream).Queue(), old(stream).remaining, ring.channelCount, frames, generation, ready, old(events),
                        Channels(planar[..], ring.channelCount, frames), events)
    {
      hide Runs.Run, Smoother.Smoothed, AllFilled, NextStream, Delivered, Channels;
      ghost var before, lines, opening := stream, silencer.Lines(), silencer.OpeningLines(generation, silence, fade);
      ghost var changed := generation != silencer.observedGeneration;
      ghost var history := events;
      var available := Fill(planar, frames, generation, ready);
      adjusted := silencer.Apply(planar, ring.channelCount, frames, available, generation, silence, fade);
      silencer.ValidLines();
      ghost var ys := Channels(planar[..], ring.channelCount, frames);
      events := HistoryAdvances(before, ring.capacity, lines, changed, ring.channelCount, frames, generation, ready, silence,
                                fade, history, opening, stream, silencer.Lines(), ys, adjusted);
    }
  }
}
