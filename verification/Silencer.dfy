/** The output transition smoother as it runs: fields and planar buffers updated in place. */
module Silencer {
  import opened TransitionControl
  import opened Planar

  const MAX_CHANNELS := 16

  /** A line of a channel the buffer does not carry: the control moves on, nothing is emitted. */
  function Unheard(l: Line, available: bool, silence: nat, fade: nat): (r: Line)
    requires l.control.Valid()
    ensures r.control.Valid()
  {
    var o := Dispatch(l.control, available, silence, fade);
    Line(o.control, l.last, if o.begun then l.last else l.held)
  }

  function UnheardAfter(l: Line, k: nat, available: nat, silence: nat, fade: nat): (r: Line)
    requires l.control.Valid()
    ensures r.control.Valid()
  {
    if k == 0 then l else Unheard(UnheardAfter(l, k - 1, available, silence, fade), k - 1 < available, silence, fade)
  }

  lemma UnheardUnfolds(l: Line, k: nat, available: nat, silence: nat, fade: nat)
    requires l.control.Valid()
    ensures UnheardAfter(l, 0, available, silence, fade) == l
    ensures UnheardAfter(l, k + 1, available, silence, fade)
         == Unheard(UnheardAfter(l, k, available, silence, fade), k < available, silence, fade)
  {
  }

  lemma AfterUnfolds(p: Progress, xs: seq<real>, k: nat, available: nat, silence: nat, fade: nat)
    requires p.line.control.Valid() && k <= |xs|
    ensures After(p, xs, 0, available, silence, fade) == p
    ensures k < |xs| ==> (
              After(p, xs, k + 1, available, silence, fade)
              == Advance(After(p, xs, k, available, silence, fade), xs[k], k < available, silence, fade))
  {
  }

  lemma {:induction false} UnheardPartition(l: Line, m: nat, n: nat, available: nat, a: nat, b: nat, silence: nat, fade: nat)
    requires l.control.Valid() && a == Clip(available, m) && b == Clip(available - m, n)
    ensures UnheardAfter(l, m + n, available, silence, fade)
         == UnheardAfter(UnheardAfter(l, m, a, silence, fade), n, b, silence, fade)
  {
    hide Unheard;
    if n == 0 {
      UnheardClips(l, m, available, a, silence, fade);
    } else {
      UnheardPartition(l, m, n - 1, available, a, Clip(available - m, n - 1), silence, fade);
      UnheardClips(UnheardAfter(l, m, a, silence, fade), n - 1, Clip(available - m, n - 1), b, silence, fade);
    }
  }

  lemma {:induction false} UnheardClips(l: Line, k: nat, a: nat, b: nat, silence: nat, fade: nat)
    requires l.control.Valid() && Clip(a, k) == Clip(b, k)
    ensures UnheardAfter(l, k, a, silence, fade) == UnheardAfter(l, k, b, silence, fade)
  {
    hide Unheard;
    if k != 0 {
      UnheardClips(l, k - 1, a, b, silence, fade);
    }
  }

  predicate AllOfLength(xs: seq<seq<real>>, n: nat) { forall c | 0 <= c < |xs| :: |xs[c]| == n }

  predicate AllValid(lines: seq<Line>) { |lines| == MAX_CHANNELS && forall c | 0 <= c < MAX_CHANNELS :: lines[c].control.Valid() }

  /** What `Apply` does to the sixteen lines and the channels of an accepted block, from the lines the block starts
      with. */
  ghost predicate Smoothed(lines: seq<Line>, input: seq<seq<real>>, available: nat, silence: nat, fade: nat,
                           after: seq<Line>, output: seq<seq<real>>, adjusted: nat)
    requires AllValid(lines) && |after| == MAX_CHANNELS && |input| == |output| <= MAX_CHANNELS
  {
    && (forall c | 0 <= c < |input| ::
          && After(Progress(lines[c], 0), input[c], |input[c]|, available, silence, fade) == Progress(after[c], adjusted)
          && output[c] == Output(Progress(lines[c], 0), input[c], available, silence, fade))
    && forall c | |input| <= c < MAX_CHANNELS && input != [] ::
         after[c] == UnheardAfter(lines[c], |input[0]|, available, silence, fade)
  }

  /** Two parts of a block, channel by channel. */
  function Joined(us: seq<seq<real>>, vs: seq<seq<real>>): (ws: seq<seq<real>>)
    requires |us| == |vs|
    ensures |ws| == |us| && forall c | 0 <= c < |us| :: ws[c] == us[c] + vs[c]
  {
    seq(|us|, c requires 0 <= c < |us| => us[c] + vs[c])
  }

  /** One call on a block, or two on its parts with the availability split: the same samples on every channel, the same
      line on all sixteen, and counts that add up. */
  lemma ApplyPartition(lines: seq<Line>, xs: seq<seq<real>>, ys: seq<seq<real>>, m: nat, n: nat, available: nat,
                       silence: nat, fade: nat, mid: seq<Line>, end: seq<Line>, us: seq<seq<real>>, vs: seq<seq<real>>,
                       i: nat, j: nat)
    requires AllValid(lines) && AllValid(mid) && |end| == MAX_CHANNELS && 1 <= |xs| == |ys| == |us| == |vs| <= MAX_CHANNELS
    requires available <= m + n && AllOfLength(xs, m) && AllOfLength(ys, n)
    requires Smoothed(lines, xs, Clip(available, m), silence, fade, mid, us, i)
    requires Smoothed(mid, ys, Clip(available - m, n), silence, fade, end, vs, j)
    ensures Smoothed(lines, Joined(xs, ys), available, silence, fade, end, Joined(us, vs), i + j)
  {
    hide After, Output, UnheardAfter;
    forall c | 0 <= c < |xs|
      ensures After(Progress(lines[c], 0), xs[c] + ys[c], m + n, available, silence, fade) == Progress(end[c], i + j)
      ensures us[c] + vs[c] == Output(Progress(lines[c], 0), xs[c] + ys[c], available, silence, fade)
    {
      TwoCallsAreOne(lines[c], xs[c], ys[c], available, silence, fade);
    }
    forall c | |xs| <= c < MAX_CHANNELS ensures end[c] == UnheardAfter(lines[c], m + n, available, silence, fade) {
      UnheardPartition(lines[c], m, n, available, Clip(available, m), Clip(available - m, n), silence, fade);
    }
  }

  /** One frame in all channels: every carried channel ticks and its sample is replaced by the new last one. */
  ghost predicate FrameEmitted(lines: seq<Line>, xs: seq<seq<real>>, frame: nat, available: bool, silence: nat, fade: nat,
                               after: seq<Line>, ys: seq<seq<real>>, adjusted: bool)
    requires AllValid(lines) && |after| == MAX_CHANNELS && |xs| == |ys| <= MAX_CHANNELS
    requires forall c | 0 <= c < |xs| :: frame < |xs[c]|
  {
    && (forall c | 0 <= c < |xs| ::
          && after[c] == Tick(lines[c], xs[c][frame], available, silence, fade)
          && ys[c] == xs[c][frame := after[c].last]
          && (adjusted <==> !Dispatch(lines[c].control, available, silence, fade).emission.Pass?))
    && forall c | |xs| <= c < MAX_CHANNELS :: after[c] == Unheard(lines[c], available, silence, fade)
  }

  /** One carried channel after `k` frames: its progress, and the samples processed so far in front of the others. */
  ghost predicate ChannelDone(start: Line, xs: seq<real>, k: nat, available: nat, silence: nat, fade: nat,
                              now: Line, ys: seq<real>, adjusted: nat)
    requires start.control.Valid() && k <= |xs|
  {
    && After(Progress(start, 0), xs, k, available, silence, fade) == Progress(now, adjusted)
    && ys == Output(Progress(start, 0), xs, available, silence, fade)[..k] + xs[k..]
  }

  ghost predicate FramesDone(start: seq<Line>, input: seq<seq<real>>, n: nat, k: nat, available: nat, silence: nat, fade: nat,
                             now: seq<Line>, ys: seq<seq<real>>, adjusted: nat)
    requires AllValid(start) && |now| == MAX_CHANNELS && |input| == |ys| <= MAX_CHANNELS && AllOfLength(input, n) && k <= n
  {
    && (forall c | 0 <= c < |input| ::
          ChannelDone(start[c], input[c], k, available, silence, fade, now[c], ys[c], adjusted))
    && forall c | |input| <= c < MAX_CHANNELS :: now[c] == UnheardAfter(start[c], k, available, silence, fade)
  }

  lemma FramesStart(start: seq<Line>, input: seq<seq<real>>, n: nat, available: nat, silence: nat, fade: nat)
    requires AllValid(start) && |input| <= MAX_CHANNELS && AllOfLength(input, n)
    ensures FramesDone(start, input, n, 0, available, silence, fade, start, input, 0)
  {
    hide Output;
    forall c | 0 <= c < |input|
      ensures ChannelDone(start[c], input[c], 0, available, silence, fade, start[c], input[c], 0)
    {
      AfterUnfolds(Progress(start[c], 0), input[c], 0, available, silence, fade);
    }
  }

  lemma ChannelStep(start: Line, xs: seq<real>, k: nat, available: nat, silence: nat, fade: nat,
                    now: Line, ys: seq<real>, adjusted: nat, next: Line, moved: bool)
    requires start.control.Valid() && now.control.Valid() && k < |xs|
    requires ChannelDone(start, xs, k, available, silence, fade, now, ys, adjusted)
    requires next == Tick(now, xs[k], k < available, silence, fade)
    requires moved <==> !Dispatch(now.control, k < available, silence, fade).emission.Pass?
    ensures |ys| == |xs| && ys[k] == xs[k]
    ensures ChannelDone(start, xs, k + 1, available, silence, fade, next, ys[k := next.last], if moved then adjusted + 1 else adjusted)
  {
    hide Tick, Dispatch;
    var out := Output(Progress(start, 0), xs, available, silence, fade);
    AfterUnfolds(Progress(start, 0), xs, k, available, silence, fade);
    hide After, Output;
    assert out[k] == next.last;
    assert ys[k := next.last] == out[..k + 1] + xs[k + 1..];
  }

  lemma FramesStep(start: seq<Line>, input: seq<seq<real>>, n: nat, k: nat, available: nat, silence: nat, fade: nat,
                   now: seq<Line>, ys: seq<seq<real>>, adjusted: nat, next: seq<Line>, zs: seq<seq<real>>, moved: bool)
    requires AllValid(start) && AllValid(now) && |next| == MAX_CHANNELS && |input| == |ys| == |zs| <= MAX_CHANNELS
    requires AllOfLength(input, n) && AllOfLength(ys, n) && k < n
    requires FramesDone(start, input, n, k, available, silence, fade, now, ys, adjusted)
    requires FrameEmitted(now, ys, k, k < available, silence, fade, next, zs, moved)
    ensures FramesDone(start, input, n, k + 1, available, silence, fade, next, zs, if moved then adjusted + 1 else adjusted)
  {
    hide ChannelDone, Tick, Dispatch, Unheard, UnheardAfter;
    forall c | 0 <= c < |input|
      ensures ChannelDone(start[c], input[c], k + 1, available, silence, fade, next[c], zs[c],
                          if moved then adjusted + 1 else adjusted)
    {
      ChannelDoneAt(start[c], input[c], k, available, silence, fade, now[c], ys[c], adjusted);
      ChannelStep(start[c], input[c], k, available, silence, fade, now[c], ys[c], adjusted, next[c], moved);
    }
    forall c | |input| <= c < MAX_CHANNELS ensures next[c] == UnheardAfter(start[c], k + 1, available, silence, fade) {
      UnheardUnfolds(start[c], k, available, silence, fade);
    }
  }

  /** A sample not reached yet is still the input's. */
  lemma ChannelDoneAt(start: Line, xs: seq<real>, k: nat, available: nat, silence: nat, fade: nat,
                      now: Line, ys: seq<real>, adjusted: nat)
    requires start.control.Valid() && k < |xs|
    requires ChannelDone(start, xs, k, available, silence, fade, now, ys, adjusted)
    ensures |ys| == |xs| && ys[k] == xs[k]
  {
    hide After, Output;
  }

  lemma FramesEnd(start: seq<Line>, input: seq<seq<real>>, n: nat, available: nat, silence: nat, fade: nat,
                  now: seq<Line>, ys: seq<seq<real>>, adjusted: nat)
    requires AllValid(start) && |now| == MAX_CHANNELS && |input| == |ys| <= MAX_CHANNELS && AllOfLength(input, n)
    requires FramesDone(start, input, n, n, available, silence, fade, now, ys, adjusted)
    ensures Smoothed(start, input, available, silence, fade, now, ys, adjusted)
  {
    hide After, Output, UnheardAfter;
    forall c | 0 <= c < |input| ensures ys[c] == Output(Progress(start[c], 0), input[c], available, silence, fade) {
      var out := Output(Progress(start[c], 0), input[c], available, silence, fade);
      assert ChannelDone(start[c], input[c], n, available, silence, fade, now[c], ys[c], adjusted);
      assert out[..n] == out && input[c][n..] == [];
    }
  }

  class AudioTransitionSilencer {
    var observedGeneration: nat
    const lastOutput: array<real>
    const fadeStart: array<real>
    var phase: Phase
    var remaining: nat
    var pending: nat
    var fadeFrames: nat

    ghost predicate Valid()
      reads this, lastOutput, fadeStart
    {
      && lastOutput.Length == fadeStart.Length == MAX_CHANNELS && lastOutput != fadeStart
      && State().Valid()
    }

    ghost function State(): Control
      reads this
    {
      Control(phase, remaining, pending, fadeFrames)
    }

    ghost function LineAt(c: nat): Line
      requires Valid() && c < MAX_CHANNELS
      reads this, lastOutput, fadeStart
    {
      Line(State(), lastOutput[c], fadeStart[c])
    }

    constructor (initialGeneration: nat)
      ensures Valid() && fresh(lastOutput) && fresh(fadeStart) && observedGeneration == initialGeneration
      ensures forall c: nat | c < MAX_CHANNELS :: LineAt(c) == Fresh
    {
      observedGeneration := initialGeneration;
      lastOutput := new real[MAX_CHANNELS](_ => 0.0);
      fadeStart := new real[MAX_CHANNELS](_ => 0.0);
      phase, remaining, pending, fadeFrames := Steady, 0, 0, 0;
    }

    method BeginTransition(silence: nat, fade: nat)
      requires Valid()
      modifies this, fadeStart
      ensures Valid() && observedGeneration == old(observedGeneration)
      ensures State() == TransitionControl.BeginTransition(silence, fade)
      ensures forall c: nat | c < MAX_CHANNELS :: fadeStart[c] == lastOutput[c]
      ensures forall c: nat | c < MAX_CHANNELS :: LineAt(c) == Begin(old(LineAt(c)), silence, fade)
    {
      forall c | 0 <= c < MAX_CHANNELS {
        fadeStart[c] := lastOutput[c];
      }
      pending, fadeFrames := silence, fade;
      if fade != 0 {
        phase, remaining := FadingOut, fade;
      } else if silence != 0 {
        phase, remaining, pending := Silent, silence, 0;
      } else {
        phase, remaining := AwaitingAudio, 0;
      }
    }

    method Start(silence: nat, fade: nat)
      requires Valid()
      modifies this, fadeStart
      ensures Valid() && observedGeneration == old(observedGeneration)
      ensures State() == TransitionControl.BeginTransition(silence, fade)
      ensures forall c: nat | c < MAX_CHANNELS :: fadeStart[c] == lastOutput[c]
      ensures forall c: nat | c < MAX_CHANNELS :: LineAt(c) == Begin(old(LineAt(c)), silence, fade)
    {
      BeginTransition(silence, fade);
    }

    method Reset(silence: nat, fade: nat)
      requires Valid()
      modifies this, lastOutput, fadeStart
      ensures Valid() && observedGeneration == old(observedGeneration)
      ensures forall c: nat | c < MAX_CHANNELS :: LineAt(c) == TransitionControl.Reset(silence, fade)
    {
      forall c | 0 <= c < MAX_CHANNELS {
        lastOutput[c] := 0.0;
      }
      forall c | 0 <= c < MAX_CHANNELS {
        fadeStart[c] := 0.0;
      }
      pending, fadeFrames := 0, fade;
      if silence == 0 {
        phase, remaining := AwaitingAudio, 0;
      } else {
        phase, remaining := Silent, silence;
      }
    }

    /** The buffer belongs to the caller and has one slot per channel and frame. */
    ghost predicate Carries(planar: array<real>, channels: nat, frames: nat)
      reads this, lastOutput, fadeStart
    {
      && Valid() && 1 <= channels <= MAX_CHANNELS && planar.Length == channels * frames
      && planar != lastOutput && planar != fadeStart
    }

    /** Writes column `frame`: the held samples scaled, zero, or the column itself scaled. */
    method WriteColumn(planar: array<real>, channels: nat, frames: nat, frame: nat, emission: Emission)
      requires Carries(planar, channels, frames) && frame < frames && !emission.Pass?
      modifies planar
      ensures Valid()
      ensures forall c: nat | c < channels ::
                At(c, frames, frame) < planar.Length &&
                planar[At(c, frames, frame)] == Sample(emission, fadeStart[c], old(planar[At(c, frames, frame)]))
      ensures forall c: nat, f: nat | c < channels && f < frames && f != frame ::
                At(c, frames, f) < planar.Length && planar[At(c, frames, f)] == old(planar[At(c, frames, f)])
    {
      hide Faded, Scaled;
      AllInRange(channels, frames);
      for c := 0 to channels
        invariant forall d: nat | d < c ::
          planar[At(d, frames, frame)] == Sample(emission, fadeStart[d], old(planar[At(d, frames, frame)]))
        invariant forall d: nat, f: nat | d < channels && f < frames && (d >= c || f != frame) ::
          planar[At(d, frames, f)] == old(planar[At(d, frames, f)])
      {
        AllDistinctFrom(frames, c, frame);
        match emission {
          case Decay(steps, fade) =>
            planar[At(c, frames, frame)] := Scaled(fadeStart[c], steps, fade);
          case Mute =>
            planar[At(c, frames, frame)] := 0.0;
          case Rise(steps, fade) =>
            planar[At(c, frames, frame)] := Scaled(planar[At(c, frames, frame)], steps, fade);
        }
      }
    }

    /** The half of the phase switch that picks another phase for the same frame. */
    method Reconsider(available: bool, silence: nat, fade: nat) returns (again: bool)
      requires Valid()
      modifies this, fadeStart
      ensures Valid() && observedGeneration == old(observedGeneration)
      ensures again <==> Reconsidered(old(phase), available)
      ensures State() == Settle(old(State()), available, silence, fade)
      ensures forall c: nat | c < MAX_CHANNELS ::
                fadeStart[c] == if again && !available then lastOutput[c] else old(fadeStart[c])
    {
      again := false;
      match phase {
        case Steady =>
          if !available {
            BeginTransition(silence, fade);
            again := true;
          }
        case AwaitingAudio =>
          if available {
            if fade == 0 {
              phase := Steady;
            } else {
              phase, fadeFrames, remaining := FadingIn, fade, fade;
            }
            again := true;
          }
        case FadingIn =>
          if !available {
            BeginTransition(silence, fade);
            again := true;
          }
        case FadingOut =>
        case Silent =>
      }
    }

    /** The half of the phase switch that emits the frame. */
    method EmitSettled(planar: array<real>, channels: nat, frames: nat, frame: nat, available: bool)
      returns (adjusted: bool)
      requires Carries(planar, channels, frames) && frame < frames && !Reconsidered(phase, available)
      modifies this, planar
      ensures Valid() && observedGeneration == old(observedGeneration)
      ensures State() == Emit(old(State()), available).0
      ensures adjusted <==> !Emit(old(State()), available).1.Pass?
      ensures forall c: nat | c < channels ::
                At(c, frames, frame) < planar.Length && planar[At(c, frames, frame)]
                == Sample(Emit(old(State()), available).1, fadeStart[c], old(planar[At(c, frames, frame)]))
      ensures forall c: nat, f: nat | c < channels && f < frames && f != frame ::
                At(c, frames, f) < planar.Length && planar[At(c, frames, f)] == old(planar[At(c, frames, f)])
    {
      AllInRange(channels, frames);
      adjusted := true;
      match phase {
        case Steady =>
          adjusted := false;
        case FadingOut =>
          WriteColumn(planar, channels, frames, frame, Decay(remaining - 1, fadeFrames));
          remaining := remaining - 1;
          if remaining == 0 {
            if pending == 0 {
              phase := AwaitingAudio;
            } else {
              phase, remaining, pending := Silent, pending, 0;
            }
          }
        case Silent =>
          WriteColumn(planar, channels, frames, frame, Mute);
          if available {
            remaining := remaining - 1;
            if remaining == 0 {
              phase := AwaitingAudio;
            }
          }
        case AwaitingAudio =>
          WriteColumn(planar, channels, frames, frame, Mute);
        case FadingIn =>
          WriteColumn(planar, channels, frames, frame, Rise(fadeFrames - remaining + 1, fadeFrames));
          remaining := remaining - 1;
          if remaining == 0 {
            phase := Steady;
          }
      }
    }

    /** The phase is reconsidered, at most once, until it can emit. */
    method SettlePhase(available: bool, silence: nat, fade: nat)
      requires Valid()
      modifies this, fadeStart
      ensures Valid() && observedGeneration == old(observedGeneration)
      ensures State() == Settle(old(State()), available, silence, fade)
      ensures forall c: nat | c < MAX_CHANNELS ::
                fadeStart[c] == if Reconsidered(old(phase), available) && !available then lastOutput[c]
                                else old(fadeStart[c])
    {
      var reconsider := true;
      while reconsider
        invariant Valid() && observedGeneration == old(observedGeneration)
        invariant reconsider && Reconsidered(phase, available) ==>
          State() == old(State()) && fadeStart[..] == old(fadeStart[..])
        invariant !(reconsider && Reconsidered(phase, available)) ==>
          && State() == Settle(old(State()), available, silence, fade)
          && forall c: nat | c < MAX_CHANNELS ::
               fadeStart[c] == if Reconsidered(old(phase), available) && !available then lastOutput[c]
                               else old(fadeStart[c])
        decreases reconsider, Reconsidered(phase, available)
      {
        assert fadeStart[..] == old(fadeStart[..]) ==>
                 forall c: nat | c < MAX_CHANNELS :: fadeStart[c] == old(fadeStart[..])[c];
        reconsider := Reconsider(available, silence, fade);
      }
    }

    method RememberColumn(planar: array<real>, channels: nat, frames: nat, frame: nat)
      requires Carries(planar, channels, frames) && frame < frames
      modifies lastOutput
      ensures Valid()
      ensures forall c: nat | c < channels ::
                At(c, frames, frame) < planar.Length && lastOutput[c] == planar[At(c, frames, frame)]
      ensures forall c: nat | channels <= c < MAX_CHANNELS :: lastOutput[c] == old(lastOutput[c])
    {
      AllInRange(channels, frames);
      for c := 0 to channels
        invariant forall d: nat | d < c :: lastOutput[d] == planar[At(d, frames, frame)]
        invariant forall d: nat | c <= d < MAX_CHANNELS :: lastOutput[d] == old(lastOutput[d])
      {
        lastOutput[c] := planar[At(c, frames, frame)];
      }
    }

    /** One frame: afterwards every carried channel has ticked once and the column holds the new
        last samples; no other column changed. */
    method EmitFrame(planar: array<real>, channels: nat, frames: nat, frame: nat, available: bool,
                     silence: nat, fade: nat) returns (adjusted: bool)
      requires Carries(planar, channels, frames) && frame < frames
      modifies this, lastOutput, fadeStart, planar
      ensures Valid() && observedGeneration == old(observedGeneration)
      ensures adjusted <==> !Dispatch(old(State()), available, silence, fade).emission.Pass?
      ensures State() == Dispatch(old(State()), available, silence, fade).control
      ensures forall c: nat | c < channels ::
                At(c, frames, frame) < planar.Length
                && LineAt(c) == Tick(old(LineAt(c)), old(planar[At(c, frames, frame)]), available, silence, fade)
                && planar[At(c, frames, frame)] == LineAt(c).last
      ensures forall c: nat | channels <= c < MAX_CHANNELS ::
                LineAt(c) == Unheard(old(LineAt(c)), available, silence, fade)
      ensures forall c: nat, f: nat | c < channels && f < frames && f != frame ::
                At(c, frames, f) < planar.Length && planar[At(c, frames, f)] == old(planar[At(c, frames, f)])
    {
      AllInRange(channels, frames);
      SettlePhase(available, silence, fade);
      adjusted := EmitSettled(planar, channels, frames, frame, available);
      RememberColumn(planar, channels, frames, frame);
    }

    /** The progress of channel `c` when the block starts. */
    ghost function Opening(c: nat, generation: nat, silence: nat, fade: nat): (p: Progress)
      requires Valid() && c < MAX_CHANNELS
      reads this, lastOutput, fadeStart
      ensures p.line.control.Valid()
    {
      Progress(Opened(LineAt(c), generation != observedGeneration, silence, fade), 0)
    }

    /** All sixteen lines, and the lines a block of this generation starts with. */
    ghost function Lines(): (ls: seq<Line>)
      requires Valid()
      reads this, lastOutput, fadeStart
      ensures |ls| == MAX_CHANNELS && forall c: nat | c < MAX_CHANNELS :: ls[c] == LineAt(c)
    {
      seq(MAX_CHANNELS, c requires 0 <= c < MAX_CHANNELS && Valid() reads this, lastOutput, fadeStart => LineAt(c))
    }

    ghost function OpeningLines(generation: nat, silence: nat, fade: nat): (ls: seq<Line>)
      requires Valid()
      reads this, lastOutput, fadeStart
      ensures |ls| == MAX_CHANNELS && forall c: nat | c < MAX_CHANNELS :: ls[c] == Opening(c, generation, silence, fade).line
      ensures forall c: nat | c < MAX_CHANNELS :: ls[c].control.Valid()
    {
      seq(MAX_CHANNELS, c requires 0 <= c < MAX_CHANNELS && Valid() reads this, lastOutput, fadeStart =>
        Opening(c, generation, silence, fade).line)
    }

    predicate Accepts(planar: array<real>, channels: nat, frames: nat, available: nat) {
      1 <= channels <= MAX_CHANNELS && available <= frames && planar.Length == channels * frames
    }

    /** One frame, as a change of the lines and of the channels. */
    method StepFrame(planar: array<real>, channels: nat, frames: nat, frame: nat, available: bool,
                     silence: nat, fade: nat) returns (adjusted: bool)
      requires Carries(planar, channels, frames) && frame < frames
      modifies this, lastOutput, fadeStart, planar
      ensures Valid() && observedGeneration == old(observedGeneration)
      ensures FrameEmitted(old(Lines()), Channels(old(planar[..]), channels, frames), frame, available, silence, fade,
                           Lines(), Channels(planar[..], channels, frames), adjusted)
    {
      hide Tick, Dispatch, Unheard;
      ghost var before := planar[..];
      adjusted := EmitFrame(planar, channels, frames, frame, available, silence, fade);
      ghost var xs, ys := Channels(before, channels, frames), Channels(planar[..], channels, frames);
      forall c | 0 <= c < channels ensures ys[c] == xs[c][frame := LineAt(c).last] {
        assert forall f: nat | f < frames :: ys[c][f] == planar[At(c, frames, f)] && xs[c][f] == before[At(c, frames, f)];
      }
    }

    /** The frames of a block, one after the other. */
    method ApplyFrames(planar: array<real>, channels: nat, frames: nat, available: nat, silence: nat, fade: nat)
      returns (adjusted: nat)
      requires Carries(planar, channels, frames)
      modifies this, lastOutput, fadeStart, planar
      ensures Valid() && observedGeneration == old(observedGeneration)
      ensures Smoothed(old(Lines()), Channels(old(planar[..]), channels, frames), available, silence, fade,
                       Lines(), Channels(planar[..], channels, frames), adjusted)
    {
      hide FramesDone, FrameEmitted, Smoothed, Channels, LineAt;
      ghost var start, input := Lines(), Channels(planar[..], channels, frames);
      ValidLines();
      FramesStart(start, input, frames, available, silence, fade);
      adjusted := 0;
      for frame := 0 to frames
        invariant Carries(planar, channels, frames) && observedGeneration == old(observedGeneration)
        invariant FramesDone(start, input, frames, frame, available, silence, fade, Lines(),
                             Channels(planar[..], channels, frames), adjusted)
      {
        ValidLines();
        ghost var lines, ys := Lines(), Channels(planar[..], channels, frames);
        var changed := StepFrame(planar, channels, frames, frame, frame < available, silence, fade);
        FramesStep(start, input, frames, frame, available, silence, fade, lines, ys, adjusted, Lines(),
                   Channels(planar[..], channels, frames), changed);
        if changed {
          adjusted := adjusted + 1;
        }
      }
      FramesEnd(start, input, frames, available, silence, fade, Lines(), Channels(planar[..], channels, frames), adjusted);
    }

    lemma ValidLines()
      requires Valid()
      ensures AllValid(Lines())
    {
    }

    /** A block in place.  A malformed call changes nothing and returns zero.  Otherwise every channel
        has gone through the whole block and the buffer holds exactly the specified output. */
    method Apply(planar: array<real>, channels: nat, frames: nat, available: nat, generation: nat,
                 silence: nat, fade: nat) returns (adjusted: nat)
      requires Valid() && planar != lastOutput && planar != fadeStart
      modifies this, lastOutput, fadeStart, planar
      ensures Valid()
      ensures !Accepts(planar, channels, frames, available) ==>
                && adjusted == 0 && observedGeneration == old(observedGeneration)
                && planar[..] == old(planar[..]) && Lines() == old(Lines())
      ensures Accepts(planar, channels, frames, available) ==>
                && observedGeneration == generation
                && Smoothed(old(OpeningLines(generation, silence, fade)), Channels(old(planar[..]), channels, frames),
                            available, silence, fade, Lines(), Channels(planar[..], channels, frames), adjusted)
    {
      hide Smoothed, Channels;
      adjusted := 0;
      if !Accepts(planar, channels, frames, available) {
        return;
      }
      Observe(generation, silence, fade);
      adjusted := ApplyFrames(planar, channels, frames, available, silence, fade);
    }

    /** A changed generation opens a transition on every line. */
    method Observe(generation: nat, silence: nat, fade: nat)
      requires Valid()
      modifies this, fadeStart
      ensures Valid() && observedGeneration == generation
      ensures Lines() == old(OpeningLines(generation, silence, fade))
    {
      if generation != observedGeneration {
        observedGeneration := generation;
        BeginTransition(silence, fade);
      }
    }
  }
}
