/** The output transition smoother, one frame at a time.

    `Control` is everything that decides WHAT is emitted (phase and counters); `Line` adds the
    last and held sample of one channel, which decide the VALUE.  Channels share one control and
    never influence each other, so every sample property is stated for one `Line`. */
module TransitionControl {

  datatype Phase = Steady | FadingOut | Silent | AwaitingAudio | FadingIn

  datatype Control = Control(phase: Phase, remaining: nat, pending: nat, fade: nat) {
    predicate Valid() {
      && (remaining == 0 <==> phase.Steady? || phase.AwaitingAudio?)
      && (pending != 0 ==> phase.FadingOut?)
      && (phase.FadingOut? || phase.FadingIn? ==> remaining <= fade)
    }
  }

  /** What one frame becomes: the input, the held sample decayed, zero, or the input scaled. */
  datatype Emission = Pass | Decay(steps: nat, fade: nat) | Mute | Rise(steps: nat, fade: nat)

  /** `x` after `steps` of a fade of `fade` frames, built up one fade step at a time. */
  function Faded(x: real, steps: nat, fade: nat): real {
    if fade == 0 || steps == 0 then 0.0 else Faded(x, steps - 1, fade) + x / fade as real
  }

  /** It is the product with the gain `steps / fade`. */
  lemma {:induction false} FadedIsGain(x: real, steps: nat, fade: nat)
    requires fade != 0
    ensures Faded(x, steps, fade) == x * (steps as real / fade as real)
  {
    if steps != 0 {
      FadedIsGain(x, steps - 1, fade);
      OneStepOfGain(x, (steps - 1) as real, fade as real);
    }
  }

  lemma OneStepOfGain(x: real, k: real, f: real)
    requires f >= 1.0
    ensures x * (k / f) + x / f == x * ((k + 1.0) / f)
  {
    assert (k + 1.0) / f == k / f + 1.0 / f;
    assert x * (k / f + 1.0 / f) == x * (k / f) + x * (1.0 / f);
    assert x * (1.0 / f) == x / f;
  }

  /** The product as the buffer loop computes it, a zero-length fade being silent. */
  function Scaled(x: real, steps: nat, fade: nat): (y: real)
    ensures y == Faded(x, steps, fade)
  {
    if fade == 0 then 0.0
    else
      FadedIsGain(x, steps, fade);
      x * (steps as real / fade as real)
  }

  datatype Outcome = Outcome(control: Control, emission: Emission, begun: bool)

  predicate Audible(e: Emission) { e.Pass? || e.Rise? }

  function BeginTransition(silence: nat, fade: nat): (c: Control)
    ensures c.Valid()
    ensures c.fade == fade && (c.phase.FadingOut? <==> fade != 0)
  {
    if fade != 0 then Control(FadingOut, fade, silence, fade)
    else if silence != 0 then Control(Silent, silence, 0, fade)
    else Control(AwaitingAudio, 0, 0, fade)
  }

  function ResetControl(silence: nat, fade: nat): (c: Control)
    ensures c.Valid()
    ensures c.phase.Silent? || c.phase.AwaitingAudio?
  {
    if silence == 0 then Control(AwaitingAudio, 0, 0, fade) else Control(Silent, silence, 0, fade)
  }

  /** The phase that finally emits the frame, after the switch has reconsidered it. */
  function Settle(c: Control, available: bool, silence: nat, fade: nat): (r: Control)
    requires c.Valid()
    ensures r.Valid()
    ensures !Reconsidered(r.phase, available)
  {
    match c.phase
    case Steady => if available then c else BeginTransition(silence, fade)
    case FadingOut => c
    case Silent => c
    case AwaitingAudio =>
      if !available then c
      else if fade == 0 then c.(phase := Steady)
      else Control(FadingIn, fade, c.pending, fade)
    case FadingIn => if available then c else BeginTransition(silence, fade)
  }

  /** The phases that do not emit but choose another phase for the same frame. */
  predicate Reconsidered(phase: Phase, available: bool) {
    if available then phase.AwaitingAudio? else phase.Steady? || phase.FadingIn?
  }

  /** The emitting part of the switch. */
  function Emit(c: Control, available: bool): (r: (Control, Emission))
    requires c.Valid() && !Reconsidered(c.phase, available)
    ensures r.0.Valid()
  {
    match c.phase
    case Steady => (c, Pass)
    case FadingOut =>
      var rest := c.remaining - 1;
      (if rest != 0 then c.(remaining := rest)
       else if c.pending == 0 then Control(AwaitingAudio, 0, 0, c.fade)
       else Control(Silent, c.pending, 0, c.fade), Decay(rest, c.fade))
    case Silent =>
      var rest := if available then c.remaining - 1 else c.remaining;
      (if rest == 0 then c.(phase := AwaitingAudio, remaining := 0) else c.(remaining := rest), Mute)
    case AwaitingAudio => (c, Mute)
    case FadingIn =>
      var rest := c.remaining - 1;
      (if rest == 0 then c.(phase := Steady, remaining := 0) else c.(remaining := rest),
       Rise(c.fade - rest, c.fade))
  }

  function Dispatch(c: Control, available: bool, silence: nat, fade: nat): (r: Outcome)
    requires c.Valid()
    ensures r.control.Valid()
  {
    var (next, emission) := Emit(Settle(c, available, silence, fade), available);
    Outcome(next, emission, !available && (c.phase.Steady? || c.phase.FadingIn?))
  }

  /** One channel: the shared control, its last emitted sample and the sample a fade-out decays. */
  datatype Line = Line(control: Control, last: real, held: real)

  const Fresh := Line(Control(Steady, 0, 0, 0), 0.0, 0.0)

  function Sample(e: Emission, held: real, x: real): real {
    match e
    case Pass => x
    case Decay(steps, fade) => Faded(held, steps, fade)
    case Mute => 0.0
    case Rise(steps, fade) => Faded(x, steps, fade)
  }

  function Begin(l: Line, silence: nat, fade: nat): Line {
    Line(BeginTransition(silence, fade), l.last, l.last)
  }

  function Reset(silence: nat, fade: nat): Line {
    Line(ResetControl(silence, fade), 0.0, 0.0)
  }

  /** The line after one frame; the emitted sample is its `last`. */
  function Tick(l: Line, x: real, available: bool, silence: nat, fade: nat): (r: Line)
    requires l.control.Valid()
    ensures r.control.Valid()
  {
    var o := Dispatch(l.control, available, silence, fade);
    var held := if o.begun then l.last else l.held;
    Line(o.control, Sample(o.emission, held, x), held)
  }

  /** A frame of an unavailable tail is never looked at. */
  lemma TickIgnoresUnavailable(l: Line, x: real, y: real, silence: nat, fade: nat)
    requires l.control.Valid()
    ensures Tick(l, x, false, silence, fade) == Tick(l, y, false, silence, fade)
  {
    assert !Audible(Dispatch(l.control, false, silence, fade).emission);
  }

  /** An underrun while audio is passing is exactly an explicit `start` before that frame. */
  lemma UnderrunIsBegin(l: Line, x: real, silence: nat, fade: nat)
    requires l.control.Valid() && (l.control.phase.Steady? || l.control.phase.FadingIn?)
    ensures Tick(l, x, false, silence, fade) == Tick(Begin(l, silence, fade), x, false, silence, fade)
  {
  }

  // ---------------------------------------------------------------- one block

  /** A generation change opens a transition in front of the block. */
  function Opened(l: Line, changed: bool, silence: nat, fade: nat): (r: Line)
    requires l.control.Valid()
    ensures r.control.Valid()
  {
    if changed then Begin(l, silence, fade) else l
  }

  /** A line and the number of frames so far that were not passed through unchanged. */
  datatype Progress = Progress(line: Line, adjusted: nat)

  function Advance(p: Progress, x: real, available: bool, silence: nat, fade: nat): (r: Progress)
    requires p.line.control.Valid()
    ensures r.line.control.Valid()
  {
    var passed := Dispatch(p.line.control, available, silence, fade).emission.Pass?;
    Progress(Tick(p.line, x, available, silence, fade), if passed then p.adjusted else p.adjusted + 1)
  }

  /** Progress after the first `k` frames of a block whose first `available` frames carry PCM. */
  function After(p: Progress, xs: seq<real>, k: nat, available: int, silence: nat, fade: nat): (r: Progress)
    requires p.line.control.Valid() && k <= |xs|
    ensures r.line.control.Valid()
  {
    if k == 0 then p
    else Advance(After(p, xs, k - 1, available, silence, fade), xs[k - 1], k - 1 < available, silence, fade)
  }

  /** Every sample of the processed block. */
  function Output(p: Progress, xs: seq<real>, available: int, silence: nat, fade: nat): (ys: seq<real>)
    requires p.line.control.Valid()
    ensures |ys| == |xs|
    ensures forall k | 0 <= k < |xs| :: ys[k] == After(p, xs, k + 1, available, silence, fade).line.last
  {
    seq(|xs|, k requires 0 <= k < |xs| => After(p, xs, k + 1, available, silence, fade).line.last)
  }

  lemma {:induction false} PartitionPrefix(p: Progress, xs: seq<real>, ys: seq<real>, k: nat, available: int,
                                           silence: nat, fade: nat)
    requires p.line.control.Valid() && k <= |xs|
    ensures After(p, xs + ys, k, available, silence, fade) == After(p, xs, k, available, silence, fade)
  {
    if k != 0 {
      hide Tick, Dispatch;
      PartitionPrefix(p, xs, ys, k - 1, available, silence, fade);
    }
  }

  lemma {:induction false} PartitionSuffix(p: Progress, xs: seq<real>, ys: seq<real>, mid: Progress, k: nat,
                                           available: int, silence: nat, fade: nat)
    requires p.line.control.Valid() && k <= |ys|
    requires mid == After(p, xs, |xs|, available, silence, fade)
    ensures After(p, xs + ys, |xs| + k, available, silence, fade)
         == After(mid, ys, k, available - |xs|, silence, fade)
  {
    hide Advance;
    if k == 0 {
      PartitionPrefix(p, xs, ys, |xs|, available, silence, fade);
    } else {
      PartitionSuffix(p, xs, ys, mid, k - 1, available, silence, fade);
    }
  }

  lemma PartitionSample(p: Progress, xs: seq<real>, ys: seq<real>, mid: Progress, k: nat, available: int,
                        silence: nat, fade: nat)
    requires p.line.control.Valid() && k < |xs| + |ys|
    requires mid == After(p, xs, |xs|, available, silence, fade)
    ensures Output(p, xs + ys, available, silence, fade)[k]
         == (Output(p, xs, available, silence, fade) + Output(mid, ys, available - |xs|, silence, fade))[k]
  {
    hide Advance, Tick;
    if k < |xs| {
      PartitionPrefix(p, xs, ys, k + 1, available, silence, fade);
    } else {
      PartitionSuffix(p, xs, ys, mid, k - |xs| + 1, available, silence, fade);
    }
  }

  lemma {:induction false} PartitionOutput(p: Progress, xs: seq<real>, ys: seq<real>, mid: Progress, available: int,
                        silence: nat, fade: nat)
    requires p.line.control.Valid()
    requires mid == After(p, xs, |xs|, available, silence, fade)
    ensures Output(p, xs + ys, available, silence, fade)
         == Output(p, xs, available, silence, fade) + Output(mid, ys, available - |xs|, silence, fade)
  {
    var whole := Output(p, xs + ys, available, silence, fade);
    var parts := Output(p, xs, available, silence, fade) + Output(mid, ys, available - |xs|, silence, fade);
    forall k | 0 <= k < |whole| ensures whole[k] == parts[k] {
      PartitionSample(p, xs, ys, mid, k, available, silence, fade);
    }
  }

  /** Cutting a block in two at any frame changes neither the output, nor the final state, nor the
      adjusted total. */
  lemma {:induction false} PartitionIndependence(p: Progress, xs: seq<real>, ys: seq<real>, mid: Progress, available: int,
                              silence: nat, fade: nat)
    requires p.line.control.Valid()
    requires mid == After(p, xs, |xs|, available, silence, fade)
    ensures Output(p, xs + ys, available, silence, fade)
         == Output(p, xs, available, silence, fade) + Output(mid, ys, available - |xs|, silence, fade)
    ensures After(p, xs + ys, |xs| + |ys|, available, silence, fade)
         == After(mid, ys, |ys|, available - |xs|, silence, fade)
  {
    hide Advance;
    PartitionOutput(p, xs, ys, mid, available, silence, fade);
    PartitionSuffix(p, xs, ys, mid, |ys|, available, silence, fade);
  }

  function Clip(available: int, frames: nat): nat {
    if available < 0 then 0 else if available > frames then frames else available
  }

  /** The availability of each part may be clipped to the part: only `k < available` is ever asked. */
  lemma {:induction false} AvailabilityClips(p: Progress, xs: seq<real>, k: nat, a: int, b: int,
                                             silence: nat, fade: nat)
    requires p.line.control.Valid() && k <= |xs|
    requires Clip(a, |xs|) == Clip(b, |xs|)
    ensures After(p, xs, k, a, silence, fade) == After(p, xs, k, b, silence, fade)
  {
    if k != 0 {
      AvailabilityClips(p, xs, k - 1, a, b, silence, fade);
    }
  }

  /** Whatever the buffer holds past the available frames reaches neither the output nor the state. */
  lemma {:induction false} TailIsNeverHeard(p: Progress, xs: seq<real>, ys: seq<real>, k: nat, available: int,
                                            silence: nat, fade: nat)
    requires p.line.control.Valid() && |xs| == |ys| && k <= |xs|
    requires forall i | 0 <= i < |xs| && i < available :: xs[i] == ys[i]
    ensures After(p, xs, k, available, silence, fade) == After(p, ys, k, available, silence, fade)
  {
    if k != 0 {
      TailIsNeverHeard(p, xs, ys, k - 1, available, silence, fade);
      if available <= k - 1 {
        TickIgnoresUnavailable(After(p, xs, k - 1, available, silence, fade).line, xs[k - 1], ys[k - 1], silence, fade);
      }
    }
  }

  /** A count that starts at `adjusted` is that much ahead; the line does not depend on it. */
  lemma {:induction false} CountShifts(l: Line, adjusted: nat, xs: seq<real>, k: nat, available: int, silence: nat, fade: nat)
    requires l.control.Valid() && k <= |xs|
    ensures var counted := After(Progress(l, 0), xs, k, available, silence, fade);
            After(Progress(l, adjusted), xs, k, available, silence, fade) == Progress(counted.line, adjusted + counted.adjusted)
  {
    if k != 0 {
      hide Tick, Dispatch;
      CountShifts(l, adjusted, xs, k - 1, available, silence, fade);
    }
  }

  lemma OutputIgnoresCount(l: Line, adjusted: nat, xs: seq<real>, a: int, b: int, silence: nat, fade: nat)
    requires l.control.Valid() && Clip(a, |xs|) == Clip(b, |xs|)
    ensures Output(Progress(l, adjusted), xs, a, silence, fade) == Output(Progress(l, 0), xs, b, silence, fade)
  {
    hide After;
    var u, v := Output(Progress(l, adjusted), xs, a, silence, fade), Output(Progress(l, 0), xs, b, silence, fade);
    forall k | 0 <= k < |xs| ensures u[k] == v[k] {
      CountShifts(l, adjusted, xs, k + 1, a, silence, fade);
      AvailabilityClips(Progress(l, 0), xs, k + 1, a, b, silence, fade);
    }
  }

  /** Two calls, each with its own count from zero and its own clipped availability, do what one call does: the same
      samples, the same final line, and counts that add up. */
  lemma TwoCallsAreOne(l: Line, xs: seq<real>, ys: seq<real>, available: nat, silence: nat, fade: nat)
    requires l.control.Valid() && available <= |xs| + |ys|
    ensures var a, b := Clip(available, |xs|), Clip(available - |xs|, |ys|);
            var first := After(Progress(l, 0), xs, |xs|, a, silence, fade);
            var second := After(Progress(first.line, 0), ys, |ys|, b, silence, fade);
            && a + b == available
            && After(Progress(l, 0), xs + ys, |xs| + |ys|, available, silence, fade)
               == Progress(second.line, first.adjusted + second.adjusted)
            && Output(Progress(l, 0), xs + ys, available, silence, fade)
               == Output(Progress(l, 0), xs, a, silence, fade) + Output(Progress(first.line, 0), ys, b, silence, fade)
  {
    hide After, Output;
    var p := Progress(l, 0);
    var a, b := Clip(available, |xs|), Clip(available - |xs|, |ys|);
    var mid := After(p, xs, |xs|, available, silence, fade);
    PartitionIndependence(p, xs, ys, mid, available, silence, fade);
    AvailabilityClips(p, xs, |xs|, available, a, silence, fade);
    OutputIgnoresCount(l, 0, xs, available, a, silence, fade);
    AvailabilityClips(mid, ys, |ys|, available - |xs|, b, silence, fade);
    CountShifts(mid.line, mid.adjusted, ys, |ys|, b, silence, fade);
    OutputIgnoresCount(mid.line, mid.adjusted, ys, available - |xs|, b, silence, fade);
  }
}
