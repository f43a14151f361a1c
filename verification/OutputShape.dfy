/** The shape of whole buffers: what one call of the smoother, and one output block behind the ring, hold sample by sample
    while audio is there. */
module OutputShape {
  import opened AudioRing
  import opened Planar
  import opened TransitionShape
  import Control = TransitionControl
  import Path = OutputPath
  import Bridge = BridgeStream
  import Smoother = Silencer

  /** Frame `k` of a transition that begins with a buffer of the input `x`, the last sample before it being `held`. */
  function Transition(held: real, x: real, silence: nat, fade: nat, k: nat): real {
    if k < fade then Gained(held, fade - 1 - k, fade)
    else if k < fade + silence then 0.0
    else if k < fade + silence + fade then Gained(x, k + 1 - fade - silence, fade)
    else x
  }

  lemma ChannelPlaysOut(l: Control.Line, xs: seq<real>, k: nat, silence: nat, fade: nat)
    requires l.control.Valid() && k < |xs|
    ensures Control.Output(Control.Progress(Control.Begin(l, silence, fade), 0), xs, |xs|, silence, fade)[k]
         == Transition(l.last, xs[k], silence, fade, k)
  {
    hide Control.After, Gained;
    TransitionPlaysOut(l, xs, k, silence, silence, fade);
  }

  lemma ChannelCounts(l: Control.Line, xs: seq<real>, silence: nat, fade: nat)
    requires l.control.Valid()
    ensures Control.After(Control.Progress(Control.Begin(l, silence, fade), 0), xs, |xs|, |xs|, silence, fade).adjusted
         == Least(|xs|, fade + silence + fade)
  {
    if xs != [] {
      hide Control.After, Gained;
      TransitionPlaysOut(l, xs, |xs| - 1, silence, silence, fade);
    }
  }

  lemma ChannelPasses(l: Control.Line, xs: seq<real>, k: nat, silence: nat, fade: nat)
    requires l.control.Valid() && l.control.phase.Steady? && k <= |xs|
    ensures var p := Control.After(Control.Progress(l, 0), xs, k, |xs|, silence, fade);
      p.adjusted == 0 && p.line.control.phase.Steady? && (k > 0 ==> p.line.last == xs[k - 1])
  {
    hide Control.After;
    EveryStateRecovers(l, xs, k, silence, fade);
    if k == 0 {
      NothingYet(l, xs, silence, fade);
    }
  }

  lemma NothingYet(l: Control.Line, xs: seq<real>, silence: nat, fade: nat)
    requires l.control.Valid()
    ensures Control.After(Control.Progress(l, 0), xs, 0, |xs|, silence, fade) == Control.Progress(l, 0)
  {
  }

  /** A buffer under a new generation, audio in all of it: on every channel the last sample dies away over the fade, the
      silence follows, the new audio rises over the fade, and then it passes; so many frames are counted. */
  method ApplyNewGeneration(silencer: Smoother.AudioTransitionSilencer, planar: array<real>, channels: nat, frames: nat,
                            generation: nat, silence: nat, fade: nat) returns (adjusted: nat)
    requires silencer.Valid() && generation != silencer.observedGeneration && silencer.Accepts(planar, channels, frames, frames)
    requires planar != silencer.lastOutput && planar != silencer.fadeStart
    modifies silencer, silencer.lastOutput, silencer.fadeStart, planar
    ensures adjusted == Least(frames, fade + silence + fade) && silencer.observedGeneration == generation
    ensures forall c: nat, k: nat | c < channels && k < frames ::
              At(c, frames, k) < planar.Length && c < silencer.lastOutput.Length &&
              planar[At(c, frames, k)] ==
                Transition(old(silencer.lastOutput[c]), old(planar[At(c, frames, k)]), silence, fade, k)
  {
    ghost var lines, given := silencer.Lines(), planar[..];
    ghost var opening := silencer.OpeningLines(generation, silence, fade);
    silencer.ValidLines();
    adjusted := silencer.Apply(planar, channels, frames, frames, generation, silence, fade);
    ghost var xs, ys := Channels(given, channels, frames), Channels(planar[..], channels, frames);
    AllInRange(channels, frames);
    hide Control.After, Control.Output, Control.Begin, Transition;
    forall c: nat, k: nat | c < channels && k < frames
      ensures planar[At(c, frames, k)] == Transition(lines[c].last, given[At(c, frames, k)], silence, fade, k)
    {
      ChannelPlaysOut(lines[c], xs[c], k, silence, fade);
      assert ys[c][k] == planar[At(c, frames, k)] && xs[c][k] == given[At(c, frames, k)];
    }
    ChannelCounts(lines[0], xs[0], silence, fade);
  }

  /** In the steady phase, under the same generation, a buffer full of audio is left exactly as it is. */
  method ApplySteady(silencer: Smoother.AudioTransitionSilencer, planar: array<real>, channels: nat, frames: nat,
                     generation: nat, silence: nat, fade: nat) returns (adjusted: nat)
    requires silencer.Valid() && silencer.phase.Steady? && generation == silencer.observedGeneration
    requires silencer.Accepts(planar, channels, frames, frames) && planar != silencer.lastOutput && planar != silencer.fadeStart
    modifies silencer, silencer.lastOutput, silencer.fadeStart, planar
    ensures adjusted == 0 && silencer.phase.Steady?
    ensures forall c: nat, k: nat | c < channels && k < frames ::
              At(c, frames, k) < planar.Length && planar[At(c, frames, k)] == old(planar[At(c, frames, k)])
  {
    ghost var lines, given := silencer.Lines(), planar[..];
    silencer.ValidLines();
    adjusted := silencer.Apply(planar, channels, frames, frames, generation, silence, fade);
    ghost var xs, ys := Channels(given, channels, frames), Channels(planar[..], channels, frames);
    AllInRange(channels, frames);
    hide Control.After, Control.Output;
    forall c: nat, k: nat | c < channels && k < frames ensures planar[At(c, frames, k)] == given[At(c, frames, k)] {
      ChannelPasses(lines[c], xs[c], k + 1, silence, fade);
      assert ys[c][k] == planar[At(c, frames, k)] && xs[c][k] == given[At(c, frames, k)];
    }
    ChannelPasses(lines[0], xs[0], frames, silence, fade);
    assert silencer.Lines()[0].control.phase.Steady?;
  }

  /** Channels that a buffer does not carry follow the others, but keep the last sample they played. */
  lemma {:induction false} UnheardFollows(l: Control.Line, xs: seq<real>, k: nat, available: nat, silence: nat, fade: nat)
    requires l.control.Valid() && k <= |xs|
    ensures Smoother.UnheardAfter(l, k, available, silence, fade).last == l.last
    ensures Smoother.UnheardAfter(l, k, available, silence, fade).control
         == Control.After(Control.Progress(l, 0), xs, k, available, silence, fade).line.control
  {
    if k > 0 {
      hide Control.Dispatch;
      UnheardFollows(l, xs, k - 1, available, silence, fade);
    }
  }

  // ---------------------------------------------------------------- behind the ring

  lemma SteadyChannel(l: Control.Line, xs: seq<real>, silence: nat, fade: nat)
    requires l.control.Valid() && l.control.phase.Steady?
    ensures Control.Output(Control.Progress(l, 0), xs, |xs|, silence, fade) == xs
    ensures var p := Control.After(Control.Progress(l, 0), xs, |xs|, |xs|, silence, fade);
      p.adjusted == 0 && p.line.control.phase.Steady?
  {
    var ys := Control.Output(Control.Progress(l, 0), xs, |xs|, silence, fade);
    hide Control.After;
    forall k | 0 <= k < |xs| ensures ys[k] == xs[k] {
      ChannelPasses(l, xs, k + 1, silence, fade);
    }
    ChannelPasses(l, xs, |xs|, silence, fade);
  }

  lemma SteadyFill(queue: seq<QueuedFrame>, delay: nat, channels: nat, frames: nat, generation: nat, c: nat)
    requires Path.Wide(queue, channels) && c < channels && frames <= delay + |queue|
    requires forall k | 0 <= k < |queue| :: queue[k].generation == generation
    ensures Path.Available(delay, |queue|, frames, true) == frames
    ensures Path.Copied(delay, |queue|, frames, true) == if frames < delay then 0 else frames - delay
    ensures var xs := Path.Filled(queue, delay, channels, frames, generation, true, c);
      forall f | 0 <= f < frames :: xs[f] == if f < delay then 0.0 else queue[f - delay].samples[c]
  {
  }

  /** A processed block, one channel of it. */
  lemma ProcessedChannel(s: Bridge.Stream, capacity: nat, lines: seq<Control.Line>, channels: nat, frames: nat,
                         generation: nat, ready: bool, silence: nat, fade: nat,
                         r: Bridge.Stream, after: seq<Control.Line>, ys: seq<seq<real>>, adjusted: nat, c: nat)
    requires Path.Processed(s, capacity, lines, channels, frames, generation, ready, silence, fade, r, after, ys, adjusted)
    requires c < channels
    ensures c < |lines| && c < |after| && c < |ys| && s.taken <= |s.accepted|
    ensures Path.Wide(s.Queue(), channels) && lines[c].control.Valid()
    ensures var xs := Path.Filled(s.Queue(), s.remaining, channels, frames, generation, ready, c);
      var available := Path.Available(s.remaining, |s.Queue()|, frames, ready);
      && ys[c] == Control.Output(Control.Progress(lines[c], 0), xs, available, silence, fade)
      && Control.After(Control.Progress(lines[c], 0), xs, frames, available, silence, fade) == Control.Progress(after[c], adjusted)
  {
    hide Control.After, Control.Output, Path.NextStream, Path.Filled, Path.Available;
  }

  /** Behind a steady smoother the output is what was written to the ring: the rest of the delay as silence and then the
      queued frames of the active generation, sample for sample, as long as there are enough; they leave the queue. */
  lemma SteadyPathIsTransparent(s: Bridge.Stream, capacity: nat, lines: seq<Control.Line>, channels: nat, frames: nat,
                                generation: nat, silence: nat, fade: nat,
                                r: Bridge.Stream, after: seq<Control.Line>, ys: seq<seq<real>>, adjusted: nat, c: nat)
    requires Path.Processed(s, capacity, lines, channels, frames, generation, true, silence, fade, r, after, ys, adjusted)
    requires c < channels && lines[c].control.phase.Steady? && frames <= s.remaining + |s.Queue()|
    requires forall k | 0 <= k < |s.Queue()| :: s.Queue()[k].generation == generation
    ensures adjusted == 0 && after[c].control.phase.Steady? && |ys[c]| == frames
    ensures Path.Wide(s.Queue(), channels) && forall f | 0 <= f < frames ::
              ys[c][f] == if f < s.remaining then 0.0 else s.Queue()[f - s.remaining].samples[c]
    ensures r.Queue() == s.Queue()[if frames < s.remaining then 0 else frames - s.remaining..]
  {
    hide *;
    ProcessedChannel(s, capacity, lines, channels, frames, generation, true, silence, fade, r, after, ys, adjusted, c);
    ProcessedStream(s, capacity, lines, channels, frames, generation, true, silence, fade, r, after, ys, adjusted);
    SteadyFill(s.Queue(), s.remaining, channels, frames, generation, c);
    SteadyChannel(lines[c], Path.Filled(s.Queue(), s.remaining, channels, frames, generation, true, c), silence, fade);
  }

  lemma ProcessedStream(s: Bridge.Stream, capacity: nat, lines: seq<Control.Line>, channels: nat, frames: nat,
                        generation: nat, ready: bool, silence: nat, fade: nat,
                        r: Bridge.Stream, after: seq<Control.Line>, ys: seq<seq<real>>, adjusted: nat)
    requires Path.Processed(s, capacity, lines, channels, frames, generation, ready, silence, fade, r, after, ys, adjusted)
    ensures s.taken <= |s.accepted| && r.taken <= |r.accepted|
    ensures r.Queue() == s.Queue()[Path.Copied(s.remaining, |s.Queue()|, frames, ready)..]
  {
    Path.NextQueue(s, capacity, frames, ready);
    hide Smoother.Smoothed, Path.AllFilled, Path.NextStream, Path.Copied;
  }

  lemma WaitingFill(queue: seq<QueuedFrame>, delay: nat, channels: nat, frames: nat, generation: nat, c: nat)
    requires Path.Wide(queue, channels) && c < channels
    ensures Path.Available(delay, |queue|, frames, false) == frames
    ensures var xs := Path.Filled(queue, delay, channels, frames, generation, false, c);
      forall f | 0 <= f < frames :: xs[f] == 0.0
  {
  }

  lemma NotReadyStays(s: Bridge.Stream, capacity: nat, frames: nat)
    requires s.Valid(capacity)
    ensures Path.NextStream(s, capacity, frames, false) == s
  {
  }

  /** While the bridge is not ready a steady path plays silence, and neither the queue nor the delay moves. */
  lemma WaitingPathIsSilent(s: Bridge.Stream, capacity: nat, lines: seq<Control.Line>, channels: nat, frames: nat,
                            generation: nat, silence: nat, fade: nat,
                            r: Bridge.Stream, after: seq<Control.Line>, ys: seq<seq<real>>, adjusted: nat, c: nat)
    requires Path.Processed(s, capacity, lines, channels, frames, generation, false, silence, fade, r, after, ys, adjusted)
    requires c < channels && lines[c].control.phase.Steady?
    ensures r == s && adjusted == 0 && |ys[c]| == frames && forall f | 0 <= f < frames :: ys[c][f] == 0.0
  {
    ProcessedChannel(s, capacity, lines, channels, frames, generation, false, silence, fade, r, after, ys, adjusted, c);
    NotReadyStays(s, capacity, frames);
    hide Control.After, Control.Output, Path.AllFilled, Smoother.Smoothed, Path.NextStream, Path.Filled, Path.Available, Path.Copied;
    WaitingFill(s.Queue(), s.remaining, channels, frames, generation, c);
    SteadyChannel(lines[c], Path.Filled(s.Queue(), s.remaining, channels, frames, generation, false, c), silence, fade);
  }
}
