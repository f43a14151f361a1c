/** The startup delay and the ring together, over any schedule of writes, output blocks and discards,
    and the smoother behind them. */
module BridgeStream {
  import opened AudioRing
  import Control = TransitionControl
  import Runs = TransitionRuns

  class AudioBridgeLatencyController {
    var latencyFrames: nat
    var remainingFrames: nat

    constructor ()
      ensures latencyFrames == remainingFrames == 0
    {
      latencyFrames, remainingFrames := 0, 0;
    }

    method Configure(frames: nat)
      modifies this
      ensures latencyFrames == remainingFrames == frames
    {
      latencyFrames, remainingFrames := frames, frames;
    }

    method Reset()
      modifies this`remainingFrames
      ensures remainingFrames == latencyFrames
    {
      remainingFrames := latencyFrames;
    }

    method ConsumePrefixFrames(frames: nat) returns (prefix: nat)
      modifies this`remainingFrames
      ensures prefix == Min(frames, old(remainingFrames)) && remainingFrames == old(remainingFrames) - prefix
    {
      prefix := Min(frames, remainingFrames);
      remainingFrames := remainingFrames - prefix;
    }
  }

  /** What an output frame carries: intentional delay, an accepted frame, or a missing one. */
  datatype Heard = Delay | Played(index: nat) | Missing

  datatype Op = Offer(frames: seq<QueuedFrame>) | Request(count: nat) | Discard

  /** The whole history since the delay was (re)started. */
  datatype Stream = Stream(remaining: nat, accepted: seq<QueuedFrame>, taken: nat, output: seq<Heard>,
                           offered: nat, overrun: nat, underrun: nat, discarded: nat) {
    predicate Valid(capacity: nat) { taken <= |accepted| <= taken + capacity }

    function Queue(): seq<QueuedFrame>
      requires taken <= |accepted|
    {
      accepted[taken..]
    }
  }

  function Begin(latency: nat, queue: seq<QueuedFrame>): Stream {
    Stream(latency, queue, 0, [], |queue|, 0, 0, 0)
  }

  /** One output block: delay, queued frames in order, missing tail. */
  function Block(prefix: nat, first: nat, copied: nat, missing: nat): (b: seq<Heard>)
    ensures |b| == prefix + copied + missing
    ensures forall i | 0 <= i < |b| :: b[i] == if i < prefix then Delay
                                               else if i < prefix + copied then Played(first + i - prefix) else Missing
  {
    seq(prefix, _ => Delay) + seq(copied, i requires i >= 0 => Played(first + i)) + seq(missing, _ => Missing)
  }

  function Extend(s: Stream, prefix: nat, copied: nat, missing: nat): Stream
    requires prefix <= s.remaining
  {
    s.(remaining := s.remaining - prefix, taken := s.taken + copied,
       output := s.output + Block(prefix, s.taken, copied, missing), underrun := s.underrun + missing)
  }

  /** One call: exactly the state change the ring's `Write`, `ReadWithSilencePrefix` (with the prefix the
      latency controller hands out) and `DiscardQueuedFrames` promise. */
  function Step(s: Stream, capacity: nat, op: Op): (r: Stream)
    requires s.Valid(capacity)
    ensures r.Valid(capacity)
  {
    match op
    case Offer(frames) =>
      var n := Min(|frames|, capacity - |s.Queue()|);
      s.(accepted := s.accepted + frames[..n], offered := s.offered + |frames|,
         overrun := s.overrun + (|frames| - n))
    case Request(count) =>
      var prefix := Min(count, s.remaining);
      var copied := Min(count - prefix, |s.Queue()|);
      Extend(s, prefix, copied, count - prefix - copied)
    case Discard =>
      s.(taken := |s.accepted|, discarded := s.discarded + |s.Queue()|)
  }

  function Run(s: Stream, capacity: nat, ops: seq<Op>): (r: Stream)
    requires s.Valid(capacity)
    ensures r.Valid(capacity)
    decreases |ops|
  {
    if ops == [] then s else Step(Run(s, capacity, ops[..|ops| - 1]), capacity, ops[|ops| - 1])
  }

  /** Frames of the output that played an accepted frame. */
  function PlayedCount(output: seq<Heard>): (n: nat)
    ensures n <= |output|
  {
    if output == [] then 0
    else PlayedCount(output[..|output| - 1]) + if output[|output| - 1].Played? then 1 else 0
  }

  lemma {:induction false} PlayedCountAppend(a: seq<Heard>, b: seq<Heard>)
    ensures PlayedCount(a + b) == PlayedCount(a) + PlayedCount(b)
  {
    if b == [] {
      assert a + b == a;
    } else {
      var b' := b[..|b| - 1];
      assert (a + b)[..|a + b| - 1] == a + b';
      PlayedCountAppend(a, b');
    }
  }

  lemma {:induction false} PlayedCountBlock(prefix: nat, first: nat, copied: nat, missing: nat)
    ensures PlayedCount(Block(prefix, first, copied, missing)) == copied
    decreases prefix + copied + missing
  {
    var b := Block(prefix, first, copied, missing);
    if missing > 0 {
      assert b[..|b| - 1] == Block(prefix, first, copied, missing - 1);
      PlayedCountBlock(prefix, first, copied, missing - 1);
    } else if copied > 0 {
      assert b[..|b| - 1] == Block(prefix, first, copied - 1, 0);
      PlayedCountBlock(prefix, first, copied - 1, 0);
    } else if prefix > 0 {
      assert b[..|b| - 1] == Block(prefix - 1, first, 0, 0);
      PlayedCountBlock(prefix - 1, first, 0, 0);
    }
  }

  /** The delay comes first, once, and lasts exactly `latency` frames; after it every accepted frame
      plays at most once, in order, and nothing plays that was not accepted. */
  ghost predicate DelayThenFifo(s: Stream, latency: nat) {
    && s.remaining == latency - Min(latency, |s.output|)
    && (forall i | 0 <= i < |s.output| :: s.output[i].Delay? <==> i < latency)
    && (forall i | 0 <= i < |s.output| && s.output[i].Played? :: s.output[i].index < s.taken)
    && (forall i, j | 0 <= i < j < |s.output| && s.output[i].Played? && s.output[j].Played? ::
          s.output[i].index < s.output[j].index)
  }

  /** Every frame is accounted for. */
  ghost predicate Conserved(s: Stream, latency: nat) {
    && s.offered == |s.accepted| + s.overrun
    && s.taken <= |s.accepted|
    && |s.accepted| == PlayedCount(s.output) + s.discarded + |s.Queue()|
    && |s.output| - Min(latency, |s.output|) == PlayedCount(s.output) + s.underrun
  }

  lemma {:induction false} StreamHolds(latency: nat, queue: seq<QueuedFrame>, capacity: nat, ops: seq<Op>)
    requires |queue| <= capacity
    ensures DelayThenFifo(Run(Begin(latency, queue), capacity, ops), latency)
    ensures Conserved(Run(Begin(latency, queue), capacity, ops), latency)
    decreases |ops|
  {
    if ops != [] {
      var s := Run(Begin(latency, queue), capacity, ops[..|ops| - 1]);
      StreamHolds(latency, queue, capacity, ops[..|ops| - 1]);
      StepHolds(s, latency, capacity, ops[|ops| - 1]);
    }
  }

  lemma StepHolds(s: Stream, latency: nat, capacity: nat, op: Op)
    requires s.Valid(capacity) && DelayThenFifo(s, latency) && Conserved(s, latency)
    ensures DelayThenFifo(Step(s, capacity, op), latency) && Conserved(Step(s, capacity, op), latency)
  {
    if op.Request? {
      hide DelayThenFifo, Conserved, Extend;
      var prefix := Min(op.count, s.remaining);
      var copied := Min(op.count - prefix, |s.Queue()|);
      ExtendDelays(s, latency, prefix, copied, op.count - prefix - copied);
      ExtendConserves(s, latency, prefix, copied, op.count - prefix - copied);
    }
  }

  lemma ExtendDelays(s: Stream, latency: nat, prefix: nat, copied: nat, missing: nat)
    requires DelayThenFifo(s, latency) && prefix <= s.remaining
    requires copied + missing > 0 ==> prefix == s.remaining
    ensures DelayThenFifo(Extend(s, prefix, copied, missing), latency)
  {
  }

  lemma ExtendConserves(s: Stream, latency: nat, prefix: nat, copied: nat, missing: nat)
    requires DelayThenFifo(s, latency) && Conserved(s, latency)
    requires prefix <= s.remaining && copied <= |s.Queue()|
    requires copied + missing > 0 ==> prefix == s.remaining
    ensures Conserved(Extend(s, prefix, copied, missing), latency)
  {
    PlayedCountAppend(s.output, Block(prefix, s.taken, copied, missing));
    PlayedCountBlock(prefix, s.taken, copied, missing);
  }

  /** The k-th played frame is the k-th accepted one. */
  ghost predicate InOrder(s: Stream) {
    && s.taken == PlayedCount(s.output)
    && forall i | 0 <= i < |s.output| && s.output[i].Played? :: s.output[i].index == PlayedCount(s.output[..i])
  }

  lemma {:induction false} ExtendInOrder(s: Stream, prefix: nat, copied: nat, missing: nat)
    requires InOrder(s) && prefix <= s.remaining
    ensures InOrder(Extend(s, prefix, copied, missing))
  {
    var b := Block(prefix, s.taken, copied, missing);
    PlayedCountAppend(s.output, b);
    PlayedCountBlock(prefix, s.taken, copied, missing);
    forall i | 0 <= i < |s.output + b| && (s.output + b)[i].Played?
      ensures (s.output + b)[i].index == PlayedCount((s.output + b)[..i])
    {
      if i < |s.output| {
        assert (s.output + b)[..i] == s.output[..i];
      } else {
        PlayedPosition(s.output, s.taken, prefix, copied, missing, i - |s.output|);
      }
    }
  }

  lemma TakeAppend<T>(a: seq<T>, b: seq<T>, k: nat)
    requires k <= |b|
    ensures (a + b)[..|a| + k] == a + b[..k]
  {
  }

  lemma BlockTake(prefix: nat, first: nat, copied: nat, missing: nat, k: nat)
    requires prefix <= k < prefix + copied
    ensures Block(prefix, first, copied, missing)[..k] == Block(prefix, first, k - prefix, 0)
  {
  }

  lemma {:induction false} PlayedPosition(output: seq<Heard>, first: nat, prefix: nat, copied: nat, missing: nat, k: nat)
    requires prefix <= k < prefix + copied
    ensures PlayedCount((output + Block(prefix, first, copied, missing))[..|output| + k])
         == PlayedCount(output) + (k - prefix)
  {
    TakeAppend(output, Block(prefix, first, copied, missing), k);
    BlockTake(prefix, first, copied, missing, k);
    PlayedCountAppend(output, Block(prefix, first, k - prefix, 0));
    PlayedCountBlock(prefix, first, k - prefix, 0);
  }

  /** Without discards the whole stream is heard in order and without gaps. */
  lemma {:induction false} PlaysInOrder(latency: nat, queue: seq<QueuedFrame>, capacity: nat, ops: seq<Op>)
    requires |queue| <= capacity && forall k | 0 <= k < |ops| :: !ops[k].Discard?
    ensures InOrder(Run(Begin(latency, queue), capacity, ops))
    decreases |ops|
  {
    if ops != [] {
      PlaysInOrder(latency, queue, capacity, ops[..|ops| - 1]);
      var s, op := Run(Begin(latency, queue), capacity, ops[..|ops| - 1]), ops[|ops| - 1];
      if op.Request? {
        var prefix := Min(op.count, s.remaining);
        var copied := Min(op.count - prefix, |s.Queue()|);
        ExtendInOrder(s, prefix, copied, op.count - prefix - copied);
      }
    }
  }

  lemma BlockJoin(first: nat, p: nat, c: nat, x: nat, q: nat, d: nat, y: nat)
    requires (q > 0 ==> c == x == 0) && (d > 0 ==> x == 0)
    ensures Block(p, first, c, x) + Block(q, first + c, d, y) == Block(p + q, first, c + d, x + y)
  {
  }

  lemma ExtendTwice(s: Stream, p: nat, c: nat, x: nat, q: nat, d: nat, y: nat)
    requires p + q <= s.remaining && (q > 0 ==> c == x == 0) && (d > 0 ==> x == 0)
    ensures Extend(Extend(s, p, c, x), q, d, y) == Extend(s, p + q, c + d, x + y)
  {
    hide Block;
    BlockJoin(s.taken, p, c, x, q, d, y);
    assert s.output + Block(p, s.taken, c, x) + Block(q, s.taken + c, d, y)
        == s.output + (Block(p, s.taken, c, x) + Block(q, s.taken + c, d, y));
  }

  /** Cutting one output block in two changes nothing at all. */
  lemma {:induction false} BlockPartition(s: Stream, capacity: nat, m: nat, n: nat)
    requires s.Valid(capacity)
    ensures Step(Step(s, capacity, Request(m)), capacity, Request(n)) == Step(s, capacity, Request(m + n))
  {
    hide Block, Step, Extend, Min, Counts;
    var t := Step(s, capacity, Request(m));
    var p, c, x := RequestExtends(s, capacity, m);
    QueueLeft(s, p, c, x);
    var q, d, y := RequestExtends(t, capacity, n);
    var all, copied, missing := RequestExtends(s, capacity, m + n);
    CountsAdd(s.remaining, |s.Queue()|, m, n, p, c, x, q, d, y, all, copied, missing);
    ExtendTwice(s, p, c, x, q, d, y);
  }

  lemma QueueLeft(s: Stream, prefix: nat, copied: nat, missing: nat)
    requires s.taken <= |s.accepted| && prefix <= s.remaining && copied <= |s.Queue()|
    ensures var t := Extend(s, prefix, copied, missing);
      t.taken <= |t.accepted| && |t.Queue()| == |s.Queue()| - copied && t.remaining == s.remaining - prefix
  {
  }

  /** How much of a request is delay, copied and missing. */
  predicate Counts(remaining: nat, queued: nat, count: nat, prefix: nat, copied: nat, missing: nat) {
    prefix == Min(count, remaining) && copied == Min(count - prefix, queued) && prefix + copied + missing == count
  }

  /** The counts of two requests add up to those of one. */
  lemma CountsAdd(remaining: nat, queued: nat, m: nat, n: nat, p: nat, c: nat, x: nat, q: nat, d: nat, y: nat,
                  all: nat, copied: nat, missing: nat)
    requires Counts(remaining, queued, m, p, c, x) && Counts(remaining - p, queued - c, n, q, d, y)
    requires Counts(remaining, queued, m + n, all, copied, missing)
    ensures all == p + q && copied == c + d && missing == x + y && p + q <= remaining
    ensures (q > 0 ==> c == x == 0) && (d > 0 ==> x == 0)
  {
  }

  lemma RequestExtends(s: Stream, capacity: nat, count: nat) returns (prefix: nat, copied: nat, missing: nat)
    requires s.Valid(capacity)
    ensures prefix <= s.remaining && copied <= |s.Queue()|
    ensures Counts(s.remaining, |s.Queue()|, count, prefix, copied, missing)
    ensures Step(s, capacity, Request(count)) == Extend(s, prefix, copied, missing)
  {
    prefix := Min(count, s.remaining);
    copied := Min(count - prefix, |s.Queue()|);
    missing := count - prefix - copied;
  }

  // ---------------------------------------------------------------- behind the bridge

  /** One channel of the block that a read hands to the smoother. */
  function ReadBlock(queue: seq<QueuedFrame>, frames: nat, prefix: nat, copied: nat, generation: nat, c: nat): (xs: seq<real>)
    requires copied <= |queue| && prefix + copied <= frames
    requires forall k | 0 <= k < copied :: c < |queue[k].samples|
    ensures |xs| == frames
    ensures forall f | 0 <= f < frames :: xs[f] == ReadSample(queue, prefix, copied, generation, c, f)
  {
    seq(frames, f requires 0 <= f < frames => ReadSample(queue, prefix, copied, generation, c, f))
  }

  /** The sample comes from a queued frame stamped with the active generation. */
  ghost predicate Stamped(y: real, queue: seq<QueuedFrame>, copied: nat, generation: nat, c: nat)
    requires copied <= |queue| && forall k | 0 <= k < copied :: c < |queue[k].samples|
  {
    exists k | 0 <= k < copied :: queue[k].generation == generation && Runs.ScaledCopy(y, queue[k].samples[c])
  }

  lemma ScaledZero(y: real)
    requires Runs.ScaledCopy(y, 0.0)
    ensures y == 0.0
  {
    var g :| Runs.UnitGain(g) && y == 0.0 * g;
  }

  lemma OutputIsNextEmission(es: seq<Runs.Event>, p: Control.Progress, xs: seq<real>, f: nat, available: nat,
                             silence: nat, fade: nat)
    requires p.line == Runs.Run(es) && f < |xs|
    ensures Runs.Accounted(Control.Output(p, xs, available, silence, fade)[f],
                           Runs.Emitted(es) + Control.Output(p, xs, available, silence, fade)[..f],
                           Runs.Frame(xs[f], f < available, silence, fade))
  {
    hide Control.After, Control.Tick, Runs.Run, Runs.Emitted, Runs.Accounted, Runs.BlockEvents;
    var before := es + Runs.BlockEvents(xs, f, available, silence, fade);
    Runs.BlockEmits(es, p, xs, f, available, silence, fade);
    Runs.BlockIsRun(es, p, xs, f + 1, available, silence, fade);
    Runs.BlockSnoc(es, xs, f, available, silence, fade);
    Runs.RunSnoc(before, Runs.Frame(xs[f], f < available, silence, fade));
    Runs.NoStaleAudio(before, Runs.Frame(xs[f], f < available, silence, fade));
  }

  /** Reading and smoothing under one generation: every output sample is zero, a faded copy of a sample
      already emitted since the last disconnect, or a gain in [0, 1] times a sample stamped with that
      very generation. */
  lemma NothingStaleLeavesTheBridge(es: seq<Runs.Event>, p: Control.Progress, queue: seq<QueuedFrame>,
                                    prefix: nat, copied: nat, generation: nat, c: nat, f: nat,
                                    xs: seq<real>, silence: nat, fade: nat)
    requires p.line == Runs.Run(es) && copied <= |queue| && prefix + copied <= |xs| && f < |xs|
    requires forall k | 0 <= k < copied :: c < |queue[k].samples|
    requires xs == ReadBlock(queue, |xs|, prefix, copied, generation, c)
    ensures var ys := Control.Output(p, xs, prefix + copied, silence, fade);
            || ys[f] == 0.0
            || (exists k | 0 <= k < |Runs.Emitted(es) + ys[..f]| ::
                  Runs.ScaledCopy(ys[f], (Runs.Emitted(es) + ys[..f])[k]))
            || (f < prefix + copied && Stamped(ys[f], queue, copied, generation, c))
  {
    hide Runs.Run, Runs.ScaledCopy, Control.Output, Runs.Emitted;
    OutputIsNextEmission(es, p, xs, f, prefix + copied, silence, fade);
    var y := Control.Output(p, xs, prefix + copied, silence, fade)[f];
    if f < prefix + copied && Runs.ScaledCopy(y, xs[f]) {
      if prefix <= f && queue[f - prefix].generation == generation {
        assert xs[f] == queue[f - prefix].samples[c];
      } else {
        ScaledZero(y);
      }
    }
  }
}
