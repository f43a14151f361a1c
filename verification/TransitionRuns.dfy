/** What one channel of the smoother guarantees over every run of starts, disconnects and frames. */
module TransitionRuns {
  import opened Options
  import opened TransitionControl

  /** A generation change inside a block is a `Start` in front of the block's frames. */
  datatype Event =
    | Start(silence: nat, fade: nat)
    | Disconnect(silence: nat, fade: nat)
    | Frame(x: real, available: bool, silence: nat, fade: nat)

  function Step(l: Line, e: Event): (r: Line)
    requires l.control.Valid()
    ensures r.control.Valid()
  {
    match e
    case Start(silence, fade) => Begin(l, silence, fade)
    case Disconnect(silence, fade) => Reset(silence, fade)
    case Frame(x, available, silence, fade) => Tick(l, x, available, silence, fade)
  }

  function Init(es: seq<Event>): seq<Event> requires es != [] { es[..|es| - 1] }

  function Last(es: seq<Event>): Event requires es != [] { es[|es| - 1] }

  /** The line reached from a fresh smoother; every reachable control is valid, so no counter
      underflows and no fade divides by zero. */
  function Run(es: seq<Event>): (l: Line)
    ensures l.control.Valid()
  {
    if es == [] then Fresh else Step(Run(Init(es)), Last(es))
  }

  /** Samples emitted since the last disconnect. */
  function Emitted(es: seq<Event>): seq<real> {
    if es == [] then []
    else match Last(es)
      case Start(_, _) => Emitted(Init(es))
      case Disconnect(_, _) => []
      case Frame(_, _, _, _) => Emitted(Init(es)) + [Run(es).last]
  }

  /** The input frame behind the most recently emitted sample, if nothing disconnected since. */
  function LastFrame(es: seq<Event>): (e: Option<Event>)
    ensures e.Some? ==> e.value.Frame?
  {
    if es == [] then None
    else match Last(es)
      case Start(_, _) => LastFrame(Init(es))
      case Disconnect(_, _) => None
      case Frame(_, _, _, _) => Some(Last(es))
  }

  /** The events of the first `k` frames of one block. */
  function BlockEvents(xs: seq<real>, k: nat, available: int, silence: nat, fade: nat): (es: seq<Event>)
    requires k <= |xs|
    ensures |es| == k
  {
    seq(k, i requires 0 <= i < k => Frame(xs[i], i < available, silence, fade))
  }

  function Opening(changed: bool, silence: nat, fade: nat): seq<Event> {
    if changed then [Start(silence, fade)] else []
  }

  lemma RunSnoc(es: seq<Event>, e: Event)
    ensures Run(es + [e]) == Step(Run(es), e)
    ensures e.Frame? ==> Emitted(es + [e]) == Emitted(es) + [Run(es + [e]).last]
    ensures e.Start? ==> Emitted(es + [e]) == Emitted(es)
  {
    assert Init(es + [e]) == es && Last(es + [e]) == e;
  }

  lemma OpeningIsRun(es: seq<Event>, changed: bool, silence: nat, fade: nat)
    ensures Run(es + Opening(changed, silence, fade)) == Opened(Run(es), changed, silence, fade)
    ensures Emitted(es + Opening(changed, silence, fade)) == Emitted(es)
  {
    if changed {
      RunSnoc(es, Start(silence, fade));
    } else {
      assert es + [] == es;
    }
  }

  lemma BlockSnoc(es: seq<Event>, xs: seq<real>, k: nat, available: int, silence: nat, fade: nat)
    requires k < |xs|
    ensures es + BlockEvents(xs, k + 1, available, silence, fade)
         == (es + BlockEvents(xs, k, available, silence, fade)) + [Frame(xs[k], k < available, silence, fade)]
  {
  }

  lemma AfterLine(p: Progress, xs: seq<real>, k: nat, available: int, silence: nat, fade: nat)
    requires p.line.control.Valid() && k < |xs|
    ensures After(p, xs, k + 1, available, silence, fade).line
         == Tick(After(p, xs, k, available, silence, fade).line, xs[k], k < available, silence, fade)
  {
    hide Tick, Dispatch;
  }

  /** A processed block is the run of its frame events (after `OpeningIsRun` when the generation
      changed); so every statement about runs is one about any sequence of starts, resets and blocks. */
  lemma {:induction false} BlockIsRun(es: seq<Event>, p: Progress, xs: seq<real>, k: nat, available: int,
                                      silence: nat, fade: nat)
    requires k <= |xs| && p.line == Run(es)
    ensures Run(es + BlockEvents(xs, k, available, silence, fade)) == After(p, xs, k, available, silence, fade).line
  {
    hide *;
    if k == 0 {
      NoEvents(es, p, xs, available, silence, fade);
    } else {
      AfterLine(p, xs, k - 1, available, silence, fade);
      BlockIsRun(es, p, xs, k - 1, available, silence, fade);
      BlockSnoc(es, xs, k - 1, available, silence, fade);
      var before := es + BlockEvents(xs, k - 1, available, silence, fade);
      RunSnoc(before, Frame(xs[k - 1], k - 1 < available, silence, fade));
      StepIsTick(Run(before), xs[k - 1], k - 1 < available, silence, fade);
    }
  }

  lemma NoEvents(es: seq<Event>, p: Progress, xs: seq<real>, available: int, silence: nat, fade: nat)
    requires p.line.control.Valid()
    ensures es + BlockEvents(xs, 0, available, silence, fade) == es && After(p, xs, 0, available, silence, fade) == p
  {
  }

  lemma StepIsTick(l: Line, x: real, available: bool, silence: nat, fade: nat)
    requires l.control.Valid()
    ensures Step(l, Frame(x, available, silence, fade)) == Tick(l, x, available, silence, fade)
  {
  }

  lemma {:induction false} BlockEmits(es: seq<Event>, p: Progress, xs: seq<real>, k: nat, available: int,
                                      silence: nat, fade: nat)
    requires k <= |xs| && p.line == Run(es)
    ensures Emitted(es + BlockEvents(xs, k, available, silence, fade))
         == Emitted(es) + Output(p, xs, available, silence, fade)[..k]
  {
    if k == 0 {
      assert es + BlockEvents(xs, 0, available, silence, fade) == es;
    } else {
      hide Run, Emitted, Output, BlockEvents, After;
      BlockEmits(es, p, xs, k - 1, available, silence, fade);
      BlockEmitsOne(es, p, xs, k - 1, available, silence, fade);
      TakeSnoc(Emitted(es), Output(p, xs, available, silence, fade), k - 1);
    }
  }

  lemma BlockEmitsOne(es: seq<Event>, p: Progress, xs: seq<real>, k: nat, available: int,
                      silence: nat, fade: nat)
    requires k < |xs| && p.line == Run(es)
    ensures Emitted(es + BlockEvents(xs, k + 1, available, silence, fade))
         == Emitted(es + BlockEvents(xs, k, available, silence, fade))
            + [Output(p, xs, available, silence, fade)[k]]
  {
    hide Run, Emitted, BlockEvents;
    BlockIsRun(es, p, xs, k + 1, available, silence, fade);
    BlockSnoc(es, xs, k, available, silence, fade);
    RunSnoc(es + BlockEvents(xs, k, available, silence, fade), Frame(xs[k], k < available, silence, fade));
  }

  lemma TakeSnoc<T>(a: seq<T>, ys: seq<T>, k: nat)
    requires k < |ys|
    ensures a + ys[..k] + [ys[k]] == a + ys[..k + 1]
  {
  }

  function Abs(r: real): real { if r < 0.0 then -r else r }

  // ---------------------------------------------------------------- click bound

  /** Every fade lasts `fade` frames, available samples stay within `m`, and two available frames
      in a row differ by at most `d`. */
  predicate Tame(es: seq<Event>, m: real, d: real, fade: nat) {
    es == [] ||
    (&& Tame(Init(es), m, d, fade)
     && Last(es).fade == fade
     && (Last(es).Frame? && Last(es).available ==>
           && Abs(Last(es).x) <= m
           && var before := LastFrame(Init(es));
              before.Some? && before.value.available ==> Abs(Last(es).x - before.value.x) <= d))
  }

  /** What the line remembers, phase by phase, of the input behind the last emitted sample. */
  predicate Tracks(l: Line, before: Option<Event>, m: real, fade: nat)
  {
    && l.control.Valid()
    && (before.Some? ==> before.value.Frame?)
    && Abs(l.last) <= m
    && match l.control.phase
       case Steady => before.Some? ==> before.value.available && l.last == before.value.x
       case FadingIn =>
         && l.control.fade == fade && before.Some? && before.value.available
         && Abs(before.value.x) <= m
         && l.last == Faded(before.value.x, fade - l.control.remaining, fade)
       case FadingOut =>
         && l.control.fade == fade && Abs(l.held) <= m
         && l.last == Faded(l.held, l.control.remaining, fade)
       case Silent => l.last == 0.0
       case AwaitingAudio => l.last == 0.0
  }

  lemma DivideMonotone(a: real, b: real, f: real)
    requires a <= b && f > 0.0
    ensures a / f <= b / f
  {
  }

  /** One fade step is at most m/fade. */
  lemma FadeStep(x: real, m: real, fade: nat)
    requires fade >= 1 && Abs(x) <= m
    ensures Abs(x / fade as real) <= m / fade as real
  {
    DivideMonotone(x, m, fade as real);
    DivideMonotone(-m, x, fade as real);
  }

  /** A faded sample stays within the bound of the sample. */
  lemma FadedBound(x: real, m: real, steps: nat, fade: nat)
    requires fade >= 1 && steps <= fade && Abs(x) <= m
    ensures Abs(Faded(x, steps, fade)) <= m
    ensures Faded(x, 0, fade) == 0.0 && Faded(x, fade, fade) == x
  {
    FadedIsGain(x, steps, fade);
    FadedIsGain(x, fade, fade);
    GainIsUnit(steps, fade);
    ScaleBound(x, m, steps as real / fade as real);
  }

  lemma GainIsUnit(steps: nat, fade: nat)
    requires fade >= 1 && steps <= fade
    ensures 0.0 <= steps as real / fade as real <= 1.0
    ensures fade as real / fade as real == 1.0
  {
    DivideMonotone(0.0, steps as real, fade as real);
    DivideMonotone(steps as real, fade as real, fade as real);
    DivideByItself(fade as real);
  }

  lemma DivideByItself(f: real)
    requires f > 0.0
    ensures f / f == 1.0 && 0.0 / f == 0.0
  {
    assert f * (1.0 / f) == 1.0;
  }

  lemma ScaleBound(x: real, m: real, g: real)
    requires Abs(x) <= m && 0.0 <= g <= 1.0
    ensures Abs(x * g) <= m
  {
    if x >= 0.0 {
      ProductBound(x, g);
    } else {
      ProductBound(-x, g);
      assert x * g == -((-x) * g);
    }
  }

  lemma ProductBound(x: real, g: real)
    requires x >= 0.0 && 0.0 <= g <= 1.0
    ensures 0.0 <= x * g <= x
  {
  }

  lemma {:induction false} FadedDifference(x: real, y: real, steps: nat, fade: nat)
    requires fade >= 1
    ensures Faded(x, steps, fade) - Faded(y, steps, fade) == Faded(x - y, steps, fade)
  {
    if steps != 0 {
      FadedDifference(x, y, steps - 1, fade);
      assert (x - y) / fade as real == x / fade as real - y / fade as real;
    }
  }

  lemma BeginTracks(l: Line, before: Option<Event>, m: real, silence: nat, fade: nat)
    requires fade >= 1 && Tracks(l, before, m, fade)
    ensures Tracks(Begin(l, silence, fade), before, m, fade)
  {
    FadedBound(l.last, m, fade, fade);
  }

  /** One frame keeps the link to its input and moves by at most d + m/fade. */
  lemma TickTracks(l: Line, before: Option<Event>, frame: Event, m: real, d: real)
    requires frame.Frame? && frame.fade >= 1 && d >= 0.0 && Tracks(l, before, m, frame.fade)
    requires frame.available ==> Abs(frame.x) <= m
    requires frame.available && before.Some? && before.value.available ==> Abs(frame.x - before.value.x) <= d
    ensures Tracks(Step(l, frame), Some(frame), m, frame.fade)
    ensures before.Some? ==> Abs(Step(l, frame).last - l.last) <= d + m / frame.fade as real
  {
    var Frame(x, available, silence, fade) := frame;
    DivideMonotone(0.0, m, fade as real);
    match l.control.phase
    case Steady =>
      if !available {
        BeginTracks(l, before, m, silence, fade);
        UnderrunIsBegin(l, x, silence, fade);
        FadeOutTracks(Begin(l, silence, fade), before, frame, m, d);
      }
    case FadingOut => FadeOutTracks(l, before, frame, m, d);
    case Silent =>
    case AwaitingAudio =>
      if available {
        RiseTracks(l, before, frame, m, d);
      }
    case FadingIn =>
      if available {
        FadeInTracks(l, before, frame, m, d);
      } else {
        BeginTracks(l, before, m, silence, fade);
        UnderrunIsBegin(l, x, silence, fade);
        FadeOutTracks(Begin(l, silence, fade), before, frame, m, d);
      }
  }

  lemma FadeOutTracks(l: Line, before: Option<Event>, frame: Event, m: real, d: real)
    requires frame.Frame? && frame.fade >= 1 && d >= 0.0 && Tracks(l, before, m, frame.fade)
    requires l.control.phase.FadingOut?
    ensures Tracks(Step(l, frame), Some(frame), m, frame.fade)
    ensures Abs(Step(l, frame).last - l.last) <= d + m / frame.fade as real
  {
    var rest := l.control.remaining - 1;
    FadedBound(l.held, m, rest, frame.fade);
    FadeStep(l.held, m, frame.fade);
    assert Step(l, frame).last == Faded(l.held, rest, frame.fade);
  }

  lemma FadeInTracks(l: Line, before: Option<Event>, frame: Event, m: real, d: real)
    requires frame.Frame? && frame.fade >= 1 && d >= 0.0 && Tracks(l, before, m, frame.fade)
    requires l.control.phase.FadingIn? && frame.available
    requires Abs(frame.x) <= m && Abs(frame.x - before.value.x) <= d
    ensures Tracks(Step(l, frame), Some(frame), m, frame.fade)
    ensures Abs(Step(l, frame).last - l.last) <= d + m / frame.fade as real
  {
    var x, y := frame.x, before.value.x;
    var k := frame.fade - l.control.remaining;
    FadedBound(x, m, k + 1, frame.fade);
    FadeStep(x, m, frame.fade);
    FadedDifference(x, y, k, frame.fade);
    FadedBound(x - y, d, k, frame.fade);
    assert Step(l, frame).last == Faded(x, k + 1, frame.fade);
    assert k + 1 == frame.fade ==> Faded(x, k + 1, frame.fade) == x;
  }

  lemma RiseTracks(l: Line, before: Option<Event>, frame: Event, m: real, d: real)
    requires frame.Frame? && frame.fade >= 1 && d >= 0.0 && Tracks(l, before, m, frame.fade)
    requires l.control.phase.AwaitingAudio? && frame.available && Abs(frame.x) <= m
    ensures Tracks(Step(l, frame), Some(frame), m, frame.fade)
    ensures Abs(Step(l, frame).last - l.last) <= d + m / frame.fade as real
  {
    FadedBound(frame.x, m, 1, frame.fade);
    FadeStep(frame.x, m, frame.fade);
    assert Step(l, frame).last == Faded(frame.x, 1, frame.fade);
  }

  lemma {:induction false} RunTracks(es: seq<Event>, m: real, d: real, fade: nat)
    requires fade >= 1 && m >= 0.0 && d >= 0.0 && Tame(es, m, d, fade)
    ensures Tracks(Run(es), LastFrame(es), m, fade)
    ensures Emitted(es) != [] <==> LastFrame(es).Some?
    ensures Emitted(es) != [] ==> Emitted(es)[|Emitted(es)| - 1] == Run(es).last
    ensures forall k | 0 <= k < |Emitted(es)| :: Abs(Emitted(es)[k]) <= m
  {
    if es != [] {
      RunTracks(Init(es), m, d, fade);
      match Last(es)
      case Start(silence, _) => BeginTracks(Run(Init(es)), LastFrame(es), m, silence, fade);
      case Disconnect(_, _) =>
      case Frame(_, _, _, _) => TickTracks(Run(Init(es)), LastFrame(Init(es)), Last(es), m, d);
    }
  }

  lemma RunUnfolds(es: seq<Event>)
    requires es != []
    ensures Run(es) == Step(Run(Init(es)), Last(es))
  {
  }

  /** No run of transitions, however they interrupt each other, clicks: neighbouring emitted samples
      differ by at most the input's own step plus one fade step, and no sample exceeds the input. */
  lemma {:induction false} ClickBound(es: seq<Event>, m: real, d: real, fade: nat)
    requires fade >= 1 && m >= 0.0 && d >= 0.0 && Tame(es, m, d, fade)
    ensures forall k | 0 <= k < |Emitted(es)| :: Abs(Emitted(es)[k]) <= m
    ensures forall k | 0 < k < |Emitted(es)| ::
              Abs(Emitted(es)[k] - Emitted(es)[k - 1]) <= d + m / fade as real
  {
    hide Run, Step, Tracks, LastFrame;
    RunTracks(es, m, d, fade);
    if es != [] {
      RunUnfolds(es);
      ClickBound(Init(es), m, d, fade);
      RunTracks(Init(es), m, d, fade);
      if Last(es).Frame? {
        TickTracks(Run(Init(es)), LastFrame(Init(es)), Last(es), m, d);
      }
    }
  }

  // ---------------------------------------------------------------- guaranteed silence

  /** Number of available frames among `es[from..to]`. */
  function AvailableFrames(es: seq<Event>, from: nat, to: nat): (n: nat)
    requires from <= to <= |es|
    ensures n <= to - from
  {
    if from == to then 0
    else AvailableFrames(es, from, to - 1) + if es[to - 1].Frame? && es[to - 1].available then 1 else 0
  }

  /** The line after the first `k` events of `es`, from any line. */
  function RunFrom(l: Line, es: seq<Event>, k: nat): (r: Line)
    requires l.control.Valid() && k <= |es|
    ensures r.control.Valid()
  {
    if k == 0 then l else Step(RunFrom(l, es, k - 1), es[k - 1])
  }

  function EmissionAt(l: Line, es: seq<Event>, k: nat): Emission
    requires l.control.Valid() && k < |es| && es[k].Frame?
  {
    Dispatch(RunFrom(l, es, k).control, es[k].available, es[k].silence, es[k].fade).emission
  }

  predicate AllFrames(es: seq<Event>) { forall k | 0 <= k < |es| :: es[k].Frame? }

  /** What a transition owes before the first audible frame: the fade-out, then the silence that
      only available frames pay off. */
  function Owed(silence: nat, fade: nat, k: nat, paid: nat): Control {
    if k < fade then Control(FadingOut, fade - k, silence, fade)
    else if paid < silence then Control(Silent, silence - paid, 0, fade)
    else Control(AwaitingAudio, 0, 0, fade)
  }

  function Paid(es: seq<Event>, fade: nat, k: nat): nat
    requires k <= |es|
  {
    if k < fade then 0 else AvailableFrames(es, fade, k)
  }

  lemma RunFromFrame(l: Line, es: seq<Event>, k: nat)
    requires l.control.Valid() && k < |es| && es[k].Frame?
    ensures RunFrom(l, es, k + 1).control
         == Dispatch(RunFrom(l, es, k).control, es[k].available, es[k].silence, es[k].fade).control
    ensures EmissionAt(l, es, k) == Dispatch(RunFrom(l, es, k).control, es[k].available, es[k].silence, es[k].fade).emission
  {
    hide Dispatch;
  }

  lemma PaidStep(es: seq<Event>, fade: nat, k: nat)
    requires k < |es| && AllFrames(es)
    ensures k < fade ==> Paid(es, fade, k) == 0
    ensures Paid(es, fade, k + 1) == if k >= fade && es[k].available then Paid(es, fade, k) + 1 else Paid(es, fade, k)
  {
  }

  lemma OwedNext(silence: nat, fade: nat, k: nat, paid: nat, e: Event, before: Control, after: Control, emission: Emission)
    requires e.Frame? && before.Valid() && before == Owed(silence, fade, k, paid) && (k < fade ==> paid == 0)
    requires after == Dispatch(before, e.available, e.silence, e.fade).control
    requires emission == Dispatch(before, e.available, e.silence, e.fade).emission && !Audible(emission)
    ensures after == Owed(silence, fade, k + 1, if k >= fade && e.available then paid + 1 else paid)
  {
  }

  lemma {:induction false} OwedHolds(l: Line, silence: nat, fade: nat, es: seq<Event>, k: nat)
    requires l.control == BeginTransition(silence, fade) && AllFrames(es) && k <= |es|
    requires forall j | 0 <= j < k :: !Audible(EmissionAt(l, es, j))
    ensures RunFrom(l, es, k).control == Owed(silence, fade, k, Paid(es, fade, k))
  {
    hide *;
    if k == 0 {
      OwedStarts(l, silence, fade, es);
    } else {
      OwedHolds(l, silence, fade, es, k - 1);
      FrameAt(es, k - 1);
      assert !Audible(EmissionAt(l, es, k - 1));
      PaidStep(es, fade, k - 1);
      RunFromFrame(l, es, k - 1);
      OwedNext(silence, fade, k - 1, Paid(es, fade, k - 1), es[k - 1], RunFrom(l, es, k - 1).control, RunFrom(l, es, k).control,
               EmissionAt(l, es, k - 1));
    }
  }

  lemma FrameAt(es: seq<Event>, k: nat)
    requires AllFrames(es) && k < |es|
    ensures es[k].Frame?
  {
  }

  lemma OwedStarts(l: Line, silence: nat, fade: nat, es: seq<Event>)
    requires l.control == BeginTransition(silence, fade)
    ensures RunFrom(l, es, 0).control == Owed(silence, fade, 0, Paid(es, fade, 0))
  {
  }

  /** After a start, a generation change or an underrun, new PCM is heard at the first frame that is
      available once the fade-out is over and `silence` available frames have been muted, and at no
      earlier frame; everything before it is the fade-out and then exact zero. */
  lemma {:induction false} GuaranteedSilence(l: Line, silence: nat, fade: nat, es: seq<Event>, k: nat)
    requires l.control == BeginTransition(silence, fade) && AllFrames(es) && k < |es|
    requires forall j | 0 <= j < k :: !Audible(EmissionAt(l, es, j))
    ensures Audible(EmissionAt(l, es, k))
       <==> k >= fade && AvailableFrames(es, fade, k) >= silence && es[k].available
    ensures k < fade ==> EmissionAt(l, es, k) == Decay(fade - 1 - k, fade)
    ensures k >= fade && !Audible(EmissionAt(l, es, k)) ==> EmissionAt(l, es, k) == Mute
  {
    OwedHolds(l, silence, fade, es, k);
  }

  /** Hence at least `silence` available frames were emitted as exact zero before any new PCM. */
  lemma {:induction false} SilenceIsPaid(l: Line, silence: nat, fade: nat, es: seq<Event>, k: nat)
    requires l.control == BeginTransition(silence, fade) && AllFrames(es) && k < |es|
    requires Audible(EmissionAt(l, es, k))
    ensures exists j | fade <= j <= k :: AvailableFrames(es, fade, j) >= silence
              && forall i | fade <= i < j :: EmissionAt(l, es, i) == Mute
  {
    var first := 0;
    while !Audible(EmissionAt(l, es, first))
      invariant first <= k
      invariant forall j | 0 <= j < first :: !Audible(EmissionAt(l, es, j))
      decreases k - first
    {
      first := first + 1;
    }
    GuaranteedSilence(l, silence, fade, es, first);
    forall i | fade <= i < first ensures EmissionAt(l, es, i) == Mute {
      GuaranteedSilence(l, silence, fade, es, i);
    }
  }

  // ---------------------------------------------------------------- provenance

  predicate UnitGain(g: real) { 0.0 <= g <= 1.0 }

  ghost predicate ScaledCopy(y: real, x: real) { exists g | UnitGain(g) :: y == x * g }

  /** Zero, an already emitted sample faded, or the frame's own available sample scaled down. */
  ghost predicate Accounted(y: real, past: seq<real>, frame: Event)
    requires frame.Frame?
  {
    || y == 0.0
    || (exists k | 0 <= k < |past| :: ScaledCopy(y, past[k]))
    || (frame.available && ScaledCopy(y, frame.x))
  }

  lemma GainsAreUnit(c: Control, available: bool, silence: nat, fade: nat)
    requires c.Valid()
    ensures var e := Dispatch(c, available, silence, fade).emission;
            && (e.Decay? || e.Rise? ==> e.steps <= e.fade && e.fade >= 1)
            && (Audible(e) ==> available)
  {
  }

  lemma FadedIsScaled(x: real, steps: nat, fade: nat)
    requires fade >= 1 && steps <= fade
    ensures ScaledCopy(Faded(x, steps, fade), x)
  {
    FadedIsGain(x, steps, fade);
    GainIsUnit(steps, fade);
    assert UnitGain(steps as real / fade as real);
  }

  lemma CopyIsScaled(x: real)
    ensures ScaledCopy(x, x)
  {
    assert UnitGain(1.0) && x == x * 1.0;
  }

  /** The sample a fade-out decays is zero or was emitted since the last disconnect. */
  lemma {:induction false} HeldWasEmitted(es: seq<Event>)
    ensures Run(es).held == 0.0 || Run(es).held in Emitted(es)
    ensures Run(es).last == 0.0 || Run(es).last in Emitted(es)
  {
    if es != [] {
      HeldWasEmitted(Init(es));
    }
  }

  /** Nothing stale is ever heard: a frame emits zero, a decayed copy of a sample already emitted
      since the last disconnect, or its own available sample times a gain in [0, 1]. */
  lemma NoStaleAudio(es: seq<Event>, frame: Event)
    requires frame.Frame?
    ensures Accounted(Step(Run(es), frame).last, Emitted(es), frame)
  {
    var l := Run(es);
    var o := Dispatch(l.control, frame.available, frame.silence, frame.fade);
    HeldWasEmitted(es);
    GainsAreUnit(l.control, frame.available, frame.silence, frame.fade);
    var held := if o.begun then l.last else l.held;
    match o.emission
    case Pass => CopyIsScaled(frame.x);
    case Decay(steps, fade) =>
      if held != 0.0 {
        var k :| 0 <= k < |Emitted(es)| && Emitted(es)[k] == held;
        FadedIsScaled(held, steps, fade);
      } else {
        FadedBound(0.0, 0.0, steps, fade);
      }
    case Mute =>
    case Rise(steps, fade) => FadedIsScaled(frame.x, steps, fade);
  }
}
