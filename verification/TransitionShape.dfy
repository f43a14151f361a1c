/** The shape of a whole transition while audio keeps coming: which sample leaves at which frame, and when the audio is
    back unchanged. */
module TransitionShape {
  import opened TransitionControl

  function Least(a: nat, b: nat): nat { if a < b then a else b }

  /** A sample at the gain `steps / fade`. */
  function Gained(x: real, steps: nat, fade: nat): real
    requires fade != 0
  {
    x * (steps as real / fade as real)
  }

  lemma FadedIsGained(x: real, steps: nat, fade: nat)
    requires fade != 0
    ensures Faded(x, steps, fade) == Gained(x, steps, fade)
  {
    FadedIsGain(x, steps, fade);
  }

  /** How many frames of fade-out, and of silence after it, are still to come. */
  function FadeLeft(c: Control): nat { if c.phase.FadingOut? then c.remaining else 0 }

  function SilenceLeft(c: Control): nat {
    if c.phase.FadingOut? then c.pending else if c.phase.Silent? then c.remaining else 0
  }

  predicate Withheld(c: Control) { c.phase.FadingOut? || c.phase.Silent? || c.phase.AwaitingAudio? }

  /** Where `k` available frames under one fade length lead from a control that withholds the audio. */
  predicate Reached(start: Control, fade: nat, k: nat, c: Control) {
    var out, quiet := FadeLeft(start), FadeLeft(start) + SilenceLeft(start);
    && c.Valid()
    && if k < out then c == start.(remaining := out - k)
       else if k < quiet then c.phase.Silent? && c.remaining == quiet - k
       else if k == quiet then c.phase.AwaitingAudio?
       else if k < quiet + fade then c.phase.FadingIn? && c.remaining == quiet + fade - k && c.fade == fade
       else c.phase.Steady?
  }

  /** What frame `k` becomes. */
  function Emitted(start: Control, fade: nat, k: nat): Emission
    requires start.Valid()
  {
    var out, quiet := FadeLeft(start), FadeLeft(start) + SilenceLeft(start);
    if k < out then Decay(out - 1 - k, start.fade)
    else if k < quiet then Mute
    else if k < quiet + fade then Rise(k + 1 - quiet, fade)
    else Pass
  }

  lemma ReachedNext(start: Control, fade: nat, k: nat, c: Control, silence: nat)
    requires start.Valid() && Withheld(start) && Reached(start, fade, k, c)
    ensures var o := Dispatch(c, true, silence, fade);
      Reached(start, fade, k + 1, o.control) && o.emission == Emitted(start, fade, k) && !o.begun
  {
  }

  lemma {:induction false} Progresses(l: Line, xs: seq<real>, k: nat, silence: nat, fade: nat)
    requires l.control.Valid() && Withheld(l.control) && k <= |xs|
    ensures var p := After(Progress(l, 0), xs, k, |xs|, silence, fade);
      && Reached(l.control, fade, k, p.line.control) && p.line.held == l.held
      && p.adjusted == Least(k, FadeLeft(l.control) + SilenceLeft(l.control) + fade)
      && (k > 0 ==> p.line.last == Sample(Emitted(l.control, fade, k - 1), l.held, xs[k - 1]))
  {
    hide Dispatch, Sample, Reached;
    if k == 0 {
      assert Reached(l.control, fade, 0, l.control) by { StartIsReached(l.control, fade); }
    } else {
      Progresses(l, xs, k - 1, silence, fade);
      ReachedNext(l.control, fade, k - 1, After(Progress(l, 0), xs, k - 1, |xs|, silence, fade).line.control, silence);
    }
  }

  lemma StartIsReached(c: Control, fade: nat)
    requires c.Valid() && Withheld(c)
    ensures Reached(c, fade, 0, c)
  {
  }

  /** The audio comes back: from a line that waits for audio, k available frames under a fade of F frames rise by 1/F each,
      and from frame F on every sample is its input, unadjusted, in the steady phase. */
  lemma AudioComesBack(l: Line, xs: seq<real>, k: nat, silence: nat, fade: nat)
    requires l.control.Valid() && l.control.phase.AwaitingAudio? && k < |xs|
    ensures var p := After(Progress(l, 0), xs, k + 1, |xs|, silence, fade);
      && p.line.last == (if k < fade then Gained(xs[k], k + 1, fade) else xs[k])
      && p.adjusted == Least(k + 1, fade)
      && (k + 1 >= fade ==> p.line.control.phase.Steady?)
  {
    hide Gained, Faded, After;
    Progresses(l, xs, k + 1, silence, fade);
    if k < fade {
      FadedIsGained(xs[k], k + 1, fade);
    }
  }

  /** A whole transition while audio keeps coming: F frames of the last sample dying away, the silence, F frames of the
      input rising, and then the input unchanged. */
  lemma TransitionPlaysOut(l: Line, xs: seq<real>, k: nat, silence: nat, later: nat, fade: nat)
    requires l.control.Valid() && k < |xs|
    ensures var p := After(Progress(Begin(l, silence, fade), 0), xs, k + 1, |xs|, later, fade);
      && p.line.last == (if k < fade then Gained(l.last, fade - 1 - k, fade)
                         else if k < fade + silence then 0.0
                         else if k < fade + silence + fade then Gained(xs[k], k + 1 - fade - silence, fade)
                         else xs[k])
      && p.adjusted == Least(k + 1, fade + silence + fade)
      && (k + 1 >= fade + silence + fade && k >= fade + silence ==> p.line.control.phase.Steady?)
  {
    hide Gained, Faded, After;
    Progresses(Begin(l, silence, fade), xs, k + 1, later, fade);
    if k < fade {
      FadedIsGained(l.last, fade - 1 - k, fade);
    } else if fade + silence <= k < fade + silence + fade {
      FadedIsGained(xs[k], k + 1 - fade - silence, fade);
    }
  }

  /** After a reset nothing dies away: the silence asked for, the rise, and the input. */
  lemma ResetPlaysOut(xs: seq<real>, k: nat, silence: nat, before: nat, later: nat, fade: nat)
    requires k < |xs|
    ensures var p := After(Progress(Reset(silence, before), 0), xs, k + 1, |xs|, later, fade);
      && p.line.last == (if k < silence then 0.0
                         else if k < silence + fade then Gained(xs[k], k + 1 - silence, fade)
                         else xs[k])
      && p.adjusted == Least(k + 1, silence + fade)
  {
    hide Gained, Faded, After;
    Progresses(Reset(silence, before), xs, k + 1, later, fade);
    if silence <= k < silence + fade {
      FadedIsGained(xs[k], k + 1 - silence, fade);
    }
  }

  // ---------------------------------------------------------------- from any state

  /** Available frames until the input passes again. */
  function Owing(c: Control, fade: nat): nat {
    match c.phase
    case Steady => 0
    case FadingIn => c.remaining
    case AwaitingAudio => fade
    case Silent => c.remaining + fade
    case FadingOut => c.remaining + c.pending + fade
  }

  lemma OwingFalls(l: Line, x: real, silence: nat, fade: nat)
    requires l.control.Valid()
    ensures var t := Tick(l, x, true, silence, fade);
      && Owing(t.control, fade) == (if Owing(l.control, fade) == 0 then 0 else Owing(l.control, fade) - 1)
      && (Owing(l.control, fade) == 0 <==> Dispatch(l.control, true, silence, fade).emission.Pass?)
      && (Owing(l.control, fade) == 0 ==> t.last == x && t.control.phase.Steady?)
  {
  }

  /** Whatever state the smoother is in, the frames it withholds or shapes are exactly the first so many available ones. */
  lemma {:induction false} EveryStateRecovers(l: Line, xs: seq<real>, k: nat, silence: nat, fade: nat)
    requires l.control.Valid() && k <= |xs|
    ensures var p := After(Progress(l, 0), xs, k, |xs|, silence, fade);
      && p.adjusted == Least(k, Owing(l.control, fade))
      && Owing(p.line.control, fade) + Least(k, Owing(l.control, fade)) == Owing(l.control, fade)
      && (k > Owing(l.control, fade) ==> p.line.last == xs[k - 1] && p.line.control.phase.Steady?)
  {
    if k > 0 {
      hide Tick, Dispatch, Owing;
      EveryStateRecovers(l, xs, k - 1, silence, fade);
      OwingFalls(After(Progress(l, 0), xs, k - 1, |xs|, silence, fade).line, xs[k - 1], silence, fade);
    }
  }
}
