/** The planar single-producer single-consumer ring, as one thread at a time sees it: a bounded
    queue of frames, each stamped with the generation that produced it. */
module AudioRing {
  import opened Planar
  import opened Wrapping

  datatype QueuedFrame = QueuedFrame(samples: seq<real>, generation: nat)

  datatype DelayedAudioReadResult = DelayedAudioReadResult(queuedFrames: nat, availableFrames: nat)

  function Min(a: nat, b: nat): nat { if a < b then a else b }

  /** The frames of a planar block, in order. */
  function FramesOf(planar: seq<real>, channels: nat, frames: nat, generation: nat): (fs: seq<QueuedFrame>)
    requires |planar| == channels * frames
    ensures |fs| == frames
  {
    AllInRange(channels, frames);
    seq(frames, f requires 0 <= f < frames =>
      QueuedFrame(seq(channels, c requires 0 <= c < channels => planar[At(c, frames, f)]), generation))
  }

  /** The frame heard for a queued one: silence unless its generation is the active one. */
  function Heard(frame: QueuedFrame, generation: nat): (samples: seq<real>)
    ensures |samples| == |frame.samples|
  {
    if frame.generation == generation then frame.samples else seq(|frame.samples|, _ => 0.0)
  }

  /** One channel of a read block: silent prefix, queued frames, silent tail. */
  function ReadSample(queue: seq<QueuedFrame>, prefix: nat, copied: nat, generation: nat, c: nat, f: nat): real
    requires copied <= |queue|
    requires forall k | 0 <= k < copied :: c < |queue[k].samples|
  {
    if prefix <= f < prefix + copied then Heard(queue[f - prefix], generation)[c] else 0.0
  }

  /** A block of `channels` channels holds the silent prefix, the oldest `copied` frames of the queue and a silent tail. */
  ghost predicate Delivers(planar: seq<real>, channels: nat, frames: nat, queue: seq<QueuedFrame>, prefix: nat, copied: nat,
                           generation: nat)
  {
    && |planar| == channels * frames && copied <= |queue|
    && (forall k | 0 <= k < copied :: |queue[k].samples| == channels)
    && forall c: nat, f: nat | c < channels && f < frames ::
         At(c, frames, f) < |planar| && planar[At(c, frames, f)] == ReadSample(queue, prefix, copied, generation, c, f)
  }

  /** `destination[to..]` receives the `count` ring cells from `absoluteFrame` on. */
  ghost predicate Unwrapped(cells: seq<real>, ring: seq<real>, base: nat, size: nat, absoluteFrame: nat)
    requires 0 < size && base + size <= |ring|
  {
    forall k: nat | k < |cells| :: cells[k] == ring[base + Slot(absoluteFrame, k, size)]
  }

  method CopySpan(source: array<real>, from: nat, destination: array<real>, to: nat, count: nat)
    requires from + count <= source.Length && to + count <= destination.Length && source != destination
    modifies destination
    ensures forall i | to <= i < to + count :: destination[i] == source[from + (i - to)]
    ensures forall i | 0 <= i < destination.Length && !(to <= i < to + count) :: destination[i] == old(destination[i])
  {
    forall i | to <= i < to + count {
      destination[i] := source[from + (i - to)];
    }
  }

  method CopyIntoRing(source: array<real>, from: nat, ring: array<real>, base: nat, size: nat,
                      absoluteFrame: nat, count: nat)
    requires 0 < size && count <= size && from + count <= source.Length && base + size <= ring.Length
    requires source != ring
    modifies ring
    ensures Unwrapped(source[from..from + count], ring[..], base, size, absoluteFrame)
    ensures forall k: nat | count <= k < size ::
              ring[base + Slot(absoluteFrame, k, size)] == old(ring[base + Slot(absoluteFrame, k, size)])
    ensures forall i | 0 <= i < ring.Length && !(base <= i < base + size) :: ring[i] == old(ring[i])
  {
    var offset := Wrap(absoluteFrame, size);
    var firstCount := Min(count, size - offset);
    forall k: nat | k < size {
      WrapSplit(absoluteFrame, k, size);
    }
    hide Wrap, Slot;
    CopySpan(source, from, ring, base + offset, firstCount);
    CopySpan(source, from + firstCount, ring, base, count - firstCount);
  }

  method CopyFromRing(ring: array<real>, base: nat, size: nat, destination: array<real>, to: nat,
                      absoluteFrame: nat, count: nat)
    requires 0 < size && count <= size && to + count <= destination.Length && base + size <= ring.Length
    requires destination != ring
    modifies destination
    ensures Unwrapped(destination[to..to + count], ring[..], base, size, absoluteFrame)
    ensures forall i | 0 <= i < destination.Length && !(to <= i < to + count) ::
              destination[i] == old(destination[i])
  {
    var offset := Wrap(absoluteFrame, size);
    var firstCount := Min(count, size - offset);
    forall k: nat | k < size {
      WrapSplit(absoluteFrame, k, size);
    }
    hide Wrap, Slot;
    CopySpan(ring, base + offset, destination, to, firstCount);
    CopySpan(ring, base, destination, to + firstCount, count - firstCount);
  }

  /** The frame in a slot, and the frames in the slots from a position on. */
  function FrameAt(cells: seq<real>, stamps: seq<nat>, channels: nat, capacity: nat, slot: nat): (q: QueuedFrame)
    requires |cells| == channels * capacity && |stamps| == capacity && slot < capacity
    ensures |q.samples| == channels && q.generation == stamps[slot]
    ensures forall c: nat | c < channels :: At(c, capacity, slot) < |cells| && q.samples[c] == cells[At(c, capacity, slot)]
  {
    AllInRange(channels, capacity);
    QueuedFrame(seq(channels, c requires 0 <= c < channels => cells[At(c, capacity, slot)]), stamps[slot])
  }

  function QueueAt(cells: seq<real>, stamps: seq<nat>, channels: nat, capacity: nat, from: nat, count: nat): (q: seq<QueuedFrame>)
    requires |cells| == channels * capacity && |stamps| == capacity > 0
    ensures |q| == count
    ensures forall k: nat | k < count :: q[k] == FrameAt(cells, stamps, channels, capacity, Slot(from, k, capacity))
  {
    seq(count, k requires 0 <= k < count => FrameAt(cells, stamps, channels, capacity, Slot(from, k, capacity)))
  }

  lemma SameFrame(cells: seq<real>, stamps: seq<nat>, cells': seq<real>, stamps': seq<nat>, channels: nat, capacity: nat, slot: nat)
    requires |cells| == |cells'| == channels * capacity && |stamps| == |stamps'| == capacity && slot < capacity
    requires stamps'[slot] == stamps[slot]
    requires forall c: nat | c < channels :: At(c, capacity, slot) < |cells| && cells'[At(c, capacity, slot)] == cells[At(c, capacity, slot)]
    ensures FrameAt(cells', stamps', channels, capacity, slot) == FrameAt(cells, stamps, channels, capacity, slot)
  {
    hide At;
  }

  /** Cells and stamps after a block was stored behind the first `queued` positions, nothing else changed. */
  ghost predicate BlockStored(cells: seq<real>, stamps: seq<nat>, cells': seq<real>, stamps': seq<nat>, channels: nat, capacity: nat,
                         write: nat, block: seq<real>, frames: nat, accepted: nat, generation: nat)
    requires |cells| == |cells'| == channels * capacity && |stamps| == |stamps'| == capacity > 0 && |block| == channels * frames
    requires accepted <= frames && accepted <= capacity
  {
    && (forall c: nat, k: nat | c < channels && k < accepted ::
          At(c, capacity, Slot(write, k, capacity)) < |cells| && At(c, frames, k) < |block| &&
          cells'[At(c, capacity, Slot(write, k, capacity))] == block[At(c, frames, k)])
    && (forall c: nat, k: nat | c < channels && accepted <= k < capacity ::
          At(c, capacity, Slot(write, k, capacity)) < |cells| &&
          cells'[At(c, capacity, Slot(write, k, capacity))] == cells[At(c, capacity, Slot(write, k, capacity))])
    && (forall k: nat | k < accepted :: stamps'[Slot(write, k, capacity)] == generation)
    && (forall k: nat | accepted <= k < capacity :: stamps'[Slot(write, k, capacity)] == stamps[Slot(write, k, capacity)])
  }

  lemma QueueAppends(cells: seq<real>, stamps: seq<nat>, cells': seq<real>, stamps': seq<nat>, channels: nat, capacity: nat,
                     read: nat, queued: nat, block: seq<real>, frames: nat, accepted: nat, generation: nat)
    requires |cells| == |cells'| == channels * capacity && |stamps| == |stamps'| == capacity > 0 && |block| == channels * frames
    requires accepted <= frames && queued + accepted <= capacity
    requires BlockStored(cells, stamps, cells', stamps', channels, capacity, read + queued, block, frames, accepted, generation)
    ensures QueueAt(cells', stamps', channels, capacity, read, queued + accepted)
         == QueueAt(cells, stamps, channels, capacity, read, queued) + FramesOf(block, channels, frames, generation)[..accepted]
  {
    hide At, Wrap, FrameAt, QueueAt, FramesOf;
    var was, now := QueueAt(cells, stamps, channels, capacity, read, queued), QueueAt(cells', stamps', channels, capacity, read, queued + accepted);
    var added := FramesOf(block, channels, frames, generation)[..accepted];
    forall k: nat | k < queued + accepted ensures now[k] == (was + added)[k] {
      if k < queued {
        KeptFrame(cells, stamps, cells', stamps', channels, capacity, read, queued, block, frames, accepted, generation, k);
      } else {
        NewFrame(cells, stamps, cells', stamps', channels, capacity, read, queued, block, frames, accepted, generation, k - queued);
      }
    }
  }

  lemma KeptFrame(cells: seq<real>, stamps: seq<nat>, cells': seq<real>, stamps': seq<nat>, channels: nat, capacity: nat,
                  read: nat, queued: nat, block: seq<real>, frames: nat, accepted: nat, generation: nat, k: nat)
    requires |cells| == |cells'| == channels * capacity && |stamps| == |stamps'| == capacity > 0 && |block| == channels * frames
    requires accepted <= frames && queued + accepted <= capacity && k < queued
    requires BlockStored(cells, stamps, cells', stamps', channels, capacity, read + queued, block, frames, accepted, generation)
    ensures FrameAt(cells', stamps', channels, capacity, Slot(read, k, capacity))
         == FrameAt(cells, stamps, channels, capacity, Slot(read, k, capacity))
  {
    SlotFromLater(read, k, queued, capacity);
    hide At, Wrap, FrameAt, Slot;
    SameFrame(cells, stamps, cells', stamps', channels, capacity, Slot(read + queued, capacity - queued + k, capacity));
  }

  lemma NewFrame(cells: seq<real>, stamps: seq<nat>, cells': seq<real>, stamps': seq<nat>, channels: nat, capacity: nat,
                 read: nat, queued: nat, block: seq<real>, frames: nat, accepted: nat, generation: nat, k: nat)
    requires |cells| == |cells'| == channels * capacity && |stamps| == |stamps'| == capacity > 0 && |block| == channels * frames
    requires accepted <= frames && queued + accepted <= capacity && k < accepted
    requires BlockStored(cells, stamps, cells', stamps', channels, capacity, read + queued, block, frames, accepted, generation)
    ensures FrameAt(cells', stamps', channels, capacity, Slot(read, queued + k, capacity))
         == FramesOf(block, channels, frames, generation)[k]
  {
    assert Slot(read, queued + k, capacity) == Slot(read + queued, k, capacity);
    hide At, Wrap, Slot;
    var frame, given := FrameAt(cells', stamps', channels, capacity, Slot(read + queued, k, capacity)), FramesOf(block, channels, frames, generation)[k];
    assert frame.samples == given.samples;
  }

  lemma QueueSuffix(cells: seq<real>, stamps: seq<nat>, channels: nat, capacity: nat, from: nat, count: nat, n: nat)
    requires |cells| == channels * capacity && |stamps| == capacity > 0 && n <= count
    ensures QueueAt(cells, stamps, channels, capacity, from, count)[n..]
         == QueueAt(cells, stamps, channels, capacity, from + n, count - n)
  {
    hide FrameAt, Wrap;
    var q, r := QueueAt(cells, stamps, channels, capacity, from, count), QueueAt(cells, stamps, channels, capacity, from + n, count - n);
    forall k | 0 <= k < count - n ensures q[n..][k] == r[k] {
      assert Slot(from, n + k, capacity) == Slot(from + n, k, capacity);
    }
  }

  class PlanarAudioRing {
    const channelCount: nat
    const capacity: nat
    const samples: array<real>
    const generations: array<nat>
    var readFrame: nat
    var writeFrame: nat
    var overrunFrames: nat
    var underrunFrames: nat

    ghost predicate Valid()
      reads this`readFrame, this`writeFrame
    {
      && 1 <= channelCount <= 16 && capacity > 0
      && samples.Length == channelCount * capacity && generations.Length == capacity
      && readFrame <= writeFrame <= readFrame + capacity
    }

    /** The frame stored `k` positions after the read counter. */
    ghost function Stored(k: nat): (q: QueuedFrame)
      requires Valid()
      reads this`readFrame, this`writeFrame, samples, generations
      ensures |q.samples| == channelCount && q.generation == generations[Slot(readFrame, k, capacity)]
      ensures forall c: nat | c < channelCount ::
                At(c, capacity, Slot(readFrame, k, capacity)) < samples.Length &&
                q.samples[c] == samples[At(c, capacity, Slot(readFrame, k, capacity))]
    {
      AllInRange(channelCount, capacity);
      FrameAt(samples[..], generations[..], channelCount, capacity, Slot(readFrame, k, capacity))
    }

    /** The queue the ring implements. */
    ghost function Contents(): (q: seq<QueuedFrame>)
      requires Valid()
      reads this`readFrame, this`writeFrame, samples, generations
      ensures |q| == writeFrame - readFrame
      ensures forall k: nat | k < |q| :: q[k] == Stored(k)
    {
      QueueAt(samples[..], generations[..], channelCount, capacity, readFrame, writeFrame - readFrame)
    }

    constructor (channels: nat, frames: nat)
      requires 1 <= channels <= 16 && frames > 0
      ensures Valid() && fresh(samples) && fresh(generations)
      ensures channelCount == channels && capacity == frames
      ensures Contents() == [] && overrunFrames == underrunFrames == 0
    {
      channelCount, capacity := channels, frames;
      samples := new real[channels * frames](_ => 0.0);
      generations := new nat[frames](_ => 0);
      readFrame, writeFrame, overrunFrames, underrunFrames := 0, 0, 0, 0;
    }

    /** The constructor's argument check: no ring for an argument out of range. */
    static method Create(channels: nat, frames: nat) returns (ring: PlanarAudioRing?)
      ensures ring == null <==> !(1 <= channels <= 16 && frames > 0)
      ensures ring != null ==> fresh(ring) && ring.Valid() && ring.Contents() == []
                               && ring.channelCount == channels && ring.capacity == frames
    {
      if 1 <= channels <= 16 && frames > 0 {
        ring := new PlanarAudioRing(channels, frames);
      } else {
        ring := null;
      }
    }

    /** Copies one channel of the block into the slots after the write counter. */
    method StoreChannel(planar: array<real>, frames: nat, accepted: nat, c: nat)
      requires Valid() && planar != samples && planar.Length == channelCount * frames
      requires c < channelCount && accepted <= frames && accepted <= capacity
      modifies samples
      ensures forall k: nat | k < accepted ::
                At(c, capacity, Slot(writeFrame, k, capacity)) < samples.Length && At(c, frames, k) < planar.Length &&
                samples[At(c, capacity, Slot(writeFrame, k, capacity))] == planar[At(c, frames, k)]
      ensures forall d: nat, k: nat | d < channelCount && k < capacity && (d != c || accepted <= k) ::
                At(d, capacity, Slot(writeFrame, k, capacity)) < samples.Length &&
                samples[At(d, capacity, Slot(writeFrame, k, capacity))]
                == old(samples[At(d, capacity, Slot(writeFrame, k, capacity))])
    {
      AllInRange(channelCount, capacity);
      AllInRange(channelCount, frames);
      ChannelFits(channelCount, capacity, c);
      ChannelFits(channelCount, frames, c);
      CopyIntoRing(planar, c * frames, samples, c * capacity, capacity, writeFrame, accepted);
      forall d: nat, i: nat | d < channelCount && i < capacity && d != c
        ensures samples[At(d, capacity, i)] == old(samples[At(d, capacity, i)])
      {
        ChannelsApart(capacity, d, i, c);
      }
      forall k: nat | k < accepted
        ensures samples[At(c, capacity, Slot(writeFrame, k, capacity))] == planar[At(c, frames, k)]
      {
        assert planar[c * frames..c * frames + accepted][k] == samples[..][c * capacity + Slot(writeFrame, k, capacity)];
      }
    }

    method StampFrames(accepted: nat, generation: nat)
      requires Valid() && accepted <= capacity
      modifies generations
      ensures forall k: nat | k < accepted :: generations[Slot(writeFrame, k, capacity)] == generation
      ensures forall k: nat | accepted <= k < capacity ::
                generations[Slot(writeFrame, k, capacity)] == old(generations[Slot(writeFrame, k, capacity)])
    {
      forall k: nat | k < capacity {
        WrapSplit(writeFrame, k, capacity);
      }
      for frame := 0 to accepted
        invariant forall k: nat | k < frame :: generations[Slot(writeFrame, k, capacity)] == generation
        invariant forall k: nat | frame <= k < capacity ::
          generations[Slot(writeFrame, k, capacity)] == old(generations[Slot(writeFrame, k, capacity)])
      {
        generations[Slot(writeFrame, frame, capacity)] := generation;
      }
    }

    /** Stores the first `accepted` frames of the block in the slots after the write counter. */
    method StoreFrames(planar: array<real>, frames: nat, accepted: nat, generation: nat)
      requires Valid() && planar != samples && planar.Length == channelCount * frames
      requires accepted <= frames && accepted <= capacity
      modifies samples, generations
      ensures forall c: nat, k: nat | c < channelCount && k < accepted ::
                At(c, capacity, Slot(writeFrame, k, capacity)) < samples.Length && At(c, frames, k) < planar.Length &&
                samples[At(c, capacity, Slot(writeFrame, k, capacity))] == planar[At(c, frames, k)]
      ensures forall c: nat, k: nat | c < channelCount && accepted <= k < capacity ::
                At(c, capacity, Slot(writeFrame, k, capacity)) < samples.Length &&
                samples[At(c, capacity, Slot(writeFrame, k, capacity))]
                == old(samples[At(c, capacity, Slot(writeFrame, k, capacity))])
      ensures forall k: nat | k < accepted :: generations[Slot(writeFrame, k, capacity)] == generation
      ensures forall k: nat | accepted <= k < capacity ::
                generations[Slot(writeFrame, k, capacity)] == old(generations[Slot(writeFrame, k, capacity)])
    {
      AllInRange(channelCount, capacity);
      AllInRange(channelCount, frames);
      hide At, Slot;
      for c := 0 to channelCount
        modifies samples
        invariant forall d: nat, k: nat | d < c && k < accepted ::
          samples[At(d, capacity, Slot(writeFrame, k, capacity))] == planar[At(d, frames, k)]
        invariant forall d: nat, k: nat | d < channelCount && k < capacity && (c <= d || accepted <= k) ::
          samples[At(d, capacity, Slot(writeFrame, k, capacity))]
          == old(samples[At(d, capacity, Slot(writeFrame, k, capacity))])
      {
        StoreChannel(planar, frames, accepted, c);
      }
      StampFrames(accepted, generation);
    }

    /** Appends what fits, in order and stamped; the rest is counted as overrun. */
    method Write(planar: array<real>, frames: nat, generation: nat) returns (accepted: nat)
      requires Valid() && planar != samples
      modifies this`writeFrame, this`overrunFrames, samples, generations
      ensures Valid()
      ensures planar.Length != channelCount * frames ==>
                accepted == 0 && Contents() == old(Contents()) && overrunFrames == old(overrunFrames)
      ensures planar.Length == channelCount * frames ==>
                && accepted == Min(frames, capacity - |old(Contents())|)
                && Contents() == old(Contents()) + FramesOf(planar[..], channelCount, frames, generation)[..accepted]
                && overrunFrames == old(overrunFrames) + (frames - accepted)
    {
      accepted := 0;
      if planar.Length != channelCount * frames {
        return;
      }
      var queuedFrames := Min(writeFrame - readFrame, capacity);
      var availableFrames := capacity - queuedFrames;
      accepted := Min(frames, availableFrames);
      Append(planar, frames, accepted, generation);
      overrunFrames := overrunFrames + (frames - accepted);
    }

    /** Stores the accepted frames behind the queue and publishes them. */
    method Append(planar: array<real>, frames: nat, accepted: nat, generation: nat)
      requires Valid() && planar != samples && planar.Length == channelCount * frames
      requires accepted <= frames && writeFrame - readFrame + accepted <= capacity
      modifies this`writeFrame, samples, generations
      ensures Valid()
      ensures Contents() == old(Contents()) + FramesOf(planar[..], channelCount, frames, generation)[..accepted]
    {
      ghost var cells, stamps := samples[..], generations[..];
      ghost var block := planar[..];
      StoreFrames(planar, frames, accepted, generation);
      QueueAppends(cells, stamps, samples[..], generations[..], channelCount, capacity, readFrame, writeFrame - readFrame,
                   block, frames, accepted, generation);
      hide QueueAt;
      writeFrame := writeFrame + accepted;
    }

    /** Fills one channel of the output: silence, then the queued samples behind the prefix. */
    method LoadChannel(planar: array<real>, frames: nat, prefix: nat, copied: nat, c: nat)
      requires Valid() && planar != samples && planar.Length == channelCount * frames
      requires c < channelCount && prefix + copied <= frames && copied <= capacity
      modifies planar
      ensures forall f: nat | f < frames ::
                At(c, frames, f) < planar.Length && (prefix <= f < prefix + copied ==>
                At(c, capacity, Slot(readFrame, f - prefix, capacity)) < samples.Length) &&
                planar[At(c, frames, f)] == if prefix <= f < prefix + copied
                                            then samples[At(c, capacity, Slot(readFrame, f - prefix, capacity))] else 0.0
      ensures forall d: nat, f: nat | d < channelCount && f < frames && d != c ::
                At(d, frames, f) < planar.Length && planar[At(d, frames, f)] == old(planar[At(d, frames, f)])
    {
      AllInRange(channelCount, capacity);
      AllInRange(channelCount, frames);
      ChannelFits(channelCount, capacity, c);
      ChannelFits(channelCount, frames, c);
      ChannelStarts(frames, c);
      ChannelStarts(capacity, c);
      AllApart(channelCount, frames, c);
      var to, from := c * frames, c * capacity;
      hide At, Slot;
      forall i | to <= i < to + frames {
        planar[i] := 0.0;
      }
      CopyFromRing(samples, from, capacity, planar, to + prefix, readFrame, copied);
      forall f: nat | prefix <= f < prefix + copied
        ensures planar[At(c, frames, f)] == samples[At(c, capacity, Slot(readFrame, f - prefix, capacity))]
      {
        var cells := planar[to + prefix..to + prefix + copied];
        assert cells[f - prefix] == samples[..][from + Slot(readFrame, f - prefix, capacity)];
      }
    }

    method LoadFrames(planar: array<real>, frames: nat, prefix: nat, copied: nat)
      requires Valid() && planar != samples && planar.Length == channelCount * frames
      requires prefix + copied <= frames && copied <= capacity
      modifies planar
      ensures forall c: nat, f: nat | c < channelCount && f < frames ::
                At(c, frames, f) < planar.Length && (prefix <= f < prefix + copied ==>
                At(c, capacity, Slot(readFrame, f - prefix, capacity)) < samples.Length) &&
                planar[At(c, frames, f)] == if prefix <= f < prefix + copied
                                            then samples[At(c, capacity, Slot(readFrame, f - prefix, capacity))] else 0.0
    {
      AllInRange(channelCount, frames);
      AllInRange(channelCount, capacity);
      assert forall c: nat, k: nat | c < channelCount && k < copied ::
          At(c, capacity, Slot(readFrame, k, capacity)) < samples.Length;
      hide At, Slot;
      for c := 0 to channelCount
        invariant forall d: nat, f: nat | d < c && f < frames ::
          planar[At(d, frames, f)] == if prefix <= f < prefix + copied
                                      then samples[At(d, capacity, Slot(readFrame, f - prefix, capacity))] else 0.0
      {
        LoadChannel(planar, frames, prefix, copied, c);
      }
    }

    /** Silences every copied frame whose stamp is not the active generation. */
    method SilenceStaleFrames(planar: array<real>, frames: nat, prefix: nat, copied: nat, expectedGeneration: nat)
      requires Valid() && planar != samples && planar.Length == channelCount * frames
      requires prefix + copied <= frames && copied <= capacity
      modifies planar
      ensures forall c: nat, f: nat | c < channelCount && f < frames ::
                At(c, frames, f) < planar.Length &&
                planar[At(c, frames, f)]
                == if prefix <= f < prefix + copied
                      && generations[Slot(readFrame, f - prefix, capacity)] != expectedGeneration
                   then 0.0 else old(planar[At(c, frames, f)])
    {
      AllInRange(channelCount, frames);
      for frame := 0 to copied
        invariant forall c: nat, f: nat | c < channelCount && f < frames ::
          planar[At(c, frames, f)]
          == if prefix <= f < prefix + frame
                && generations[Slot(readFrame, f - prefix, capacity)] != expectedGeneration
             then 0.0 else old(planar[At(c, frames, f)])
      {
        if generations[Slot(readFrame, frame, capacity)] != expectedGeneration {
          SilenceColumn(planar, frames, prefix + frame);
        }
      }
    }

    method SilenceColumn(planar: array<real>, frames: nat, frame: nat)
      requires planar.Length == channelCount * frames && frame < frames
      modifies planar
      ensures forall c: nat, f: nat | c < channelCount && f < frames ::
                At(c, frames, f) < planar.Length &&
                planar[At(c, frames, f)] == if f == frame then 0.0 else old(planar[At(c, frames, f)])
    {
      AllInRange(channelCount, frames);
      for c := 0 to channelCount
        invariant forall d: nat, f: nat | d < channelCount && f < frames ::
          planar[At(d, frames, f)] == if f == frame && d < c then 0.0 else old(planar[At(d, frames, f)])
      {
        AllDistinctFrom(frames, c, frame);
        planar[At(c, frames, frame)] := 0.0;
      }
    }

    method Read(planar: array<real>, frames: nat, expectedGeneration: nat) returns (queued: nat)
      requires Valid() && planar != samples
      modifies this`readFrame, this`underrunFrames, planar
      ensures Valid()
      ensures planar.Length != channelCount * frames ==>
                queued == 0 && planar[..] == old(planar[..])
                && Contents() == old(Contents()) && underrunFrames == old(underrunFrames)
      ensures planar.Length == channelCount * frames ==>
                && queued == Min(frames, |old(Contents())|)
                && Contents() == old(Contents())[queued..]
                && underrunFrames == old(underrunFrames) + (frames - queued)
                && Delivers(planar[..], channelCount, frames, old(Contents()), 0, queued, expectedGeneration)
    {
      var result := ReadWithSilencePrefix(planar, frames, expectedGeneration, 0);
      queued := result.queuedFrames;
    }

    /** Removes frames from the queue behind an intentional silent prefix; a missing tail is silent
        and counted as underrun. */
    method ReadWithSilencePrefix(planar: array<real>, frames: nat, expectedGeneration: nat, prefix: nat)
      returns (result: DelayedAudioReadResult)
      requires Valid() && planar != samples
      modifies this`readFrame, this`underrunFrames, planar
      ensures Valid()
      ensures planar.Length != channelCount * frames || prefix > frames ==>
                result == DelayedAudioReadResult(0, 0) && planar[..] == old(planar[..])
                && Contents() == old(Contents()) && underrunFrames == old(underrunFrames)
      ensures planar.Length == channelCount * frames && prefix <= frames ==>
                var copied := Min(frames - prefix, |old(Contents())|);
                && result == DelayedAudioReadResult(copied, prefix + copied)
                && Contents() == old(Contents())[copied..]
                && underrunFrames == old(underrunFrames) + (frames - prefix - copied)
                && Delivers(planar[..], channelCount, frames, old(Contents()), prefix, copied, expectedGeneration)
    {
      hide Delivers, QueueAt, FrameAt, PlanarAudioRing.Contents, PlanarAudioRing.Stored;
      if planar.Length != channelCount * frames || prefix > frames {
        return DelayedAudioReadResult(0, 0);
      }
      var queuedFrames := Min(writeFrame - readFrame, capacity);
      var requested := frames - prefix;
      var copied := Min(requested, queuedFrames);
      LoadQueued(planar, frames, prefix, copied, expectedGeneration);
      Consume(copied);
      underrunFrames := underrunFrames + (requested - copied);
      result := DelayedAudioReadResult(copied, prefix + copied);
    }

    /** The block to hand out, the queue untouched. */
    method LoadQueued(planar: array<real>, frames: nat, prefix: nat, copied: nat, expectedGeneration: nat)
      requires Valid() && planar != samples && planar.Length == channelCount * frames
      requires prefix + copied <= frames && copied <= writeFrame - readFrame
      modifies planar
      ensures Delivers(planar[..], channelCount, frames, Contents(), prefix, copied, expectedGeneration)
    {
      LoadFrames(planar, frames, prefix, copied);
      SilenceStaleFrames(planar, frames, prefix, copied, expectedGeneration);
      assert forall k: nat | k < copied :: Contents()[k] == Stored(k);
    }

    /** Publishes that the oldest frames have been read. */
    method Consume(copied: nat)
      requires Valid() && copied <= writeFrame - readFrame
      modifies this`readFrame
      ensures Valid() && Contents() == old(Contents())[copied..]
    {
      QueueSuffix(samples[..], generations[..], channelCount, capacity, readFrame, writeFrame - readFrame, copied);
      hide QueueAt;
      readFrame := readFrame + copied;
    }

    /** Drops everything queued; the xrun counters do not move. */
    method DiscardQueuedFrames() returns (discarded: nat)
      requires Valid()
      modifies this`readFrame
      ensures Valid()
      ensures discarded == |old(Contents())| && Contents() == []
    {
      discarded := Min(writeFrame - readFrame, capacity);
      readFrame := writeFrame;
    }
  }

  lemma ChannelFits(channels: nat, frames: nat, c: nat)
    requires c < channels
    ensures c * frames + frames <= channels * frames
  {
    assert (c + 1) * frames <= channels * frames;
  }

  lemma ChannelStarts(frames: nat, c: nat)
    ensures forall f: nat :: At(c, frames, f) == c * frames + f
  {
  }

  lemma AllApart(channels: nat, frames: nat, c: nat)
    ensures forall d: nat, f: nat | d < channels && f < frames && d != c ::
              !(c * frames <= At(d, frames, f) < c * frames + frames)
  {
    forall d: nat, f: nat | d < channels && f < frames && d != c
      ensures !(c * frames <= At(d, frames, f) < c * frames + frames)
    {
      ChannelsApart(frames, d, f, c);
    }
  }

  /** A slot of another channel lies outside channel `c`. */
  lemma ChannelsApart(frames: nat, d: nat, i: nat, c: nat)
    requires i < frames && d != c
    ensures !(c * frames <= At(d, frames, i) < c * frames + frames)
  {
    if d < c {
      assert (d + 1) * frames <= c * frames;
    } else {
      assert (c + 1) * frames <= d * frames;
    }
  }
}
