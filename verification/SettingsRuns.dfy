/** What the settings transaction guarantees over every run of user actions and daemon messages. */
module SettingsRuns {
  import opened OutputRouting
  import opened Settings

  datatype Event =
    | EditEvent(desired: StartupConfig)
    | ChooseProfile(index: nat, profile: OutputProfileSelection)
    | StartNext
    | Reply(success: bool, confirmed: StartupConfig, revision: nat)
    | Lost
    | Reconnected(live: StartupConfig, revision: nat, profiles: Profiles)
    | Observed(live: StartupConfig, revision: nat, profiles: Profiles)
    | CancelEvent
    | DefaultsEvent(defaults: StartupConfig)
    | Apply(stored: bool)

  /** One event.  Apply persists only when it may, and the editor re-chooses a profile only for a card
      already listed and only while the dialog is editable. */
  function Step(t: Snapshot, e: Event): Snapshot {
    match e
    case EditEvent(desired) => Edit(t, desired)
    case ChooseProfile(index, profile) =>
      if t.connected && !t.cancelRequested && !t.conflict && index < |t.desiredProfiles|
         && t.desiredProfiles[index].card == profile.card
      then t.(desiredProfiles := t.desiredProfiles[index := profile]) else t
    case StartNext => BeginOperation(t, Next(t))
    case Reply(success, confirmed, revision) => Complete(t, success, confirmed, revision)
    case Lost => Disconnect(t)
    case Reconnected(live, revision, profiles) => Reconnect(t, live, revision, profiles)
    case Observed(live, revision, profiles) => Observe(t, live, revision, profiles)
    case CancelEvent => Cancel(t)
    case DefaultsEvent(defaults) => RestoreDefaults(t, defaults)
    case Apply(stored) => if CanApply(t) then CompletePersistence(t, stored) else t
  }

  function Run(t: Snapshot, es: seq<Event>): Snapshot {
    if es == [] then t else Step(Run(t, es[..|es| - 1]), es[|es| - 1])
  }

  // ---------------------------------------------------------------- invariants

  function Cards(ps: Profiles): (cs: seq<OutputCardIdentity>)
    ensures |cs| == |ps| && forall i | 0 <= i < |ps| :: cs[i] == ps[i].card
  {
    seq(|ps|, i requires 0 <= i < |ps| => ps[i].card)
  }

  predicate UniqueCards(ps: Profiles) { forall i, j | 0 <= i < j < |ps| :: ps[i].card != ps[j].card }

  /** An operation is in flight only while nothing stands in its way. */
  predicate FlightHolds(t: Snapshot) {
    t.inFlight != NoOperation ==> t.connected && !t.conflict && !t.liveChangeFailed
  }

  /** All profile lists name the same cards in the same order, each once. */
  predicate CardsHold(t: Snapshot) {
    && UniqueCards(t.baselineProfiles)
    && Cards(t.desiredProfiles) == Cards(t.baselineProfiles)
    && Cards(t.confirmedProfiles) == Cards(t.baselineProfiles)
  }

  predicate FlightCardsHold(t: Snapshot) {
    t.inFlight != NoOperation ==> Cards(t.inFlightProfiles) == Cards(t.baselineProfiles)
  }

  /** A cancelled transaction wants exactly its baseline back. */
  predicate RollbackHolds(t: Snapshot) {
    t.cancelRequested ==> t.desiredLive == t.baselineLive && t.desiredProfiles == t.baselineProfiles
  }

  predicate Inv(t: Snapshot) { FlightHolds(t) && CardsHold(t) && FlightCardsHold(t) && RollbackHolds(t) }

  lemma ObserveProfileHolds(t: Snapshot, p: OutputProfileSelection)
    requires CardsHold(t) && RollbackHolds(t)
    ensures CardsHold(ObserveProfile(t, p)) && RollbackHolds(ObserveProfile(t, p))
  {
    var k := Known(t.confirmedProfiles, p.card);
    if k == |t.confirmedProfiles| {
      assert forall i | 0 <= i < k :: Cards(t.confirmedProfiles)[i] == Cards(t.baselineProfiles)[i];
    } else {
      assert Cards(t.confirmedProfiles[k := p]) == Cards(t.confirmedProfiles);
    }
  }

  lemma {:induction false} ObserveProfilesHold(t: Snapshot, ps: Profiles)
    requires CardsHold(t) && RollbackHolds(t)
    ensures var u := ObserveProfiles(t, ps);
            && CardsHold(u) && RollbackHolds(u)
            && u == t.(baselineProfiles := u.baselineProfiles, desiredProfiles := u.desiredProfiles,
                       confirmedProfiles := u.confirmedProfiles)
            && t.baselineProfiles <= u.baselineProfiles
  {
    hide CardsHold, RollbackHolds;
    if ps != [] {
      ObserveProfilesHold(t, ps[..|ps| - 1]);
      ObserveProfileHolds(ObserveProfiles(t, ps[..|ps| - 1]), ps[|ps| - 1]);
    }
  }

  lemma StepHolds(t: Snapshot, e: Event)
    requires Inv(t)
    ensures Inv(Step(t, e))
    ensures !(e.Apply? && e.stored && CanApply(t)) ==>
              Step(t, e).baselineLive == t.baselineLive && t.baselineProfiles <= Step(t, e).baselineProfiles
  {
    match e
    case ChooseProfile(index, profile) => ChooseHolds(t, index, profile);
    case Reply(success, confirmed, revision) => ReplyHolds(t, success, confirmed, revision);
    case Reconnected(live, revision, profiles) => ReconnectHolds(t, live, revision, profiles);
    case Observed(live, revision, profiles) => ObserveHolds(t, live, revision, profiles);
    case Apply(stored) => ApplyHolds(t, stored);
    case _ => WishHolds(t, e);
  }

  lemma WishHolds(t: Snapshot, e: Event)
    requires Inv(t) && (e.EditEvent? || e.StartNext? || e.Lost? || e.CancelEvent? || e.DefaultsEvent?)
    ensures Inv(Step(t, e)) && Step(t, e).baselineLive == t.baselineLive && t.baselineProfiles <= Step(t, e).baselineProfiles
  {
    hide UniqueCards, Cards, Validates;
  }

  lemma ChooseHolds(t: Snapshot, index: nat, profile: OutputProfileSelection)
    requires Inv(t)
    ensures Inv(Step(t, ChooseProfile(index, profile)))
  {
    if index < |t.desiredProfiles| && t.desiredProfiles[index].card == profile.card {
      assert Cards(t.desiredProfiles[index := profile]) == Cards(t.desiredProfiles);
    }
    hide UniqueCards, Cards;
  }

  lemma ReplyHolds(t: Snapshot, success: bool, confirmed: StartupConfig, revision: nat)
    requires Inv(t)
    ensures Inv(Complete(t, success, confirmed, revision))
  {
    hide UniqueCards, Cards, OperationMatches;
  }

  lemma ApplyHolds(t: Snapshot, stored: bool)
    requires Inv(t)
    ensures Inv(Step(t, Apply(stored)))
  {
    UniqueCardsTransfer(t.baselineProfiles, t.confirmedProfiles);
    hide UniqueCards, Cards, ConfigMatches, ProfilesMatch, IsDirty;
  }

  lemma ReconnectHolds(t: Snapshot, live: StartupConfig, revision: nat, profiles: Profiles)
    requires Inv(t)
    ensures var u := Reconnect(t, live, revision, profiles);
            && Inv(u) && u.baselineLive == t.baselineLive && t.baselineProfiles <= u.baselineProfiles
            && u.cancelRequested == t.cancelRequested
  {
    ObserveProfilesHold(t, profiles);
  }

  lemma ObserveHolds(t: Snapshot, live: StartupConfig, revision: nat, profiles: Profiles)
    requires Inv(t)
    ensures var u := Observe(t, live, revision, profiles);
            && Inv(u) && u.baselineLive == t.baselineLive && t.baselineProfiles <= u.baselineProfiles
            && u.cancelRequested == t.cancelRequested
  {
    ObserveProfilesHold(t, profiles);
    ReconnectHolds(t, live, revision, profiles);
    hide ObserveProfiles, ProfilesChange;
  }

  lemma UniqueCardsTransfer(a: Profiles, b: Profiles)
    requires UniqueCards(a) && Cards(a) == Cards(b)
    ensures UniqueCards(b)
  {
    forall i, j | 0 <= i < j < |b| ensures b[i].card != b[j].card {
      assert Cards(a)[i] == Cards(b)[i] && Cards(a)[j] == Cards(b)[j];
    }
  }

  lemma {:induction false} RunHolds(t: Snapshot, es: seq<Event>)
    requires Inv(t)
    ensures Inv(Run(t, es))
  {
    hide Inv, Step;
    if es != [] {
      RunHolds(t, es[..|es| - 1]);
      StepHolds(Run(t, es[..|es| - 1]), es[|es| - 1]);
    }
  }

  lemma OpeningHolds(saved: StartupConfig, live: StartupConfig, revision: nat, connected: bool, profiles: Profiles)
    requires UniqueCards(profiles)
    ensures Inv(Begin(saved, live, revision, connected, profiles))
  {
  }

  // ---------------------------------------------------------------- rollback

  /** The live state and profiles at opening, or those confirmed when Apply last succeeded. */
  function Checkpoint(t: Snapshot, es: seq<Event>): (StartupConfig, Profiles) {
    if es == [] then (t.confirmedLive, t.confirmedProfiles)
    else
      var before, e := Run(t, es[..|es| - 1]), es[|es| - 1];
      if e.Apply? && e.stored && CanApply(before) then (before.confirmedLive, before.confirmedProfiles)
      else Checkpoint(t, es[..|es| - 1])
  }

  /** The baseline is the checkpoint; cards first seen later have only been appended. */
  lemma {:induction false} BaselineIsCheckpoint(t: Snapshot, es: seq<Event>)
    requires Inv(t) && t.baselineLive == t.confirmedLive && t.baselineProfiles == t.confirmedProfiles
    ensures Run(t, es).baselineLive == Checkpoint(t, es).0
    ensures Checkpoint(t, es).1 <= Run(t, es).baselineProfiles
  {
    if es != [] {
      hide Inv, CanApply;
      BaselineIsCheckpoint(t, es[..|es| - 1]);
      RunHolds(t, es[..|es| - 1]);
      StepHolds(Run(t, es[..|es| - 1]), es[|es| - 1]);
    }
  }

  /** Lists of the same cards, each once, that match as multisets are the same list. */
  lemma MatchingProfilesAreEqual(a: Profiles, b: Profiles)
    requires UniqueCards(a) && Cards(a) == Cards(b) && ProfilesMatch(a, b)
    ensures a == b
  {
    forall i | 0 <= i < |a| ensures a[i] == b[i] {
      assert a[i] in multiset(b);
      var j :| 0 <= j < |b| && b[j] == a[i];
      assert Cards(a)[j] == Cards(b)[j] && Cards(a)[i] == Cards(b)[i];
    }
  }

  /** Whenever a cancelled dialog may close, the daemon has confirmed the checkpoint again: every compared
      field, and for every card that was there the very profile it had. */
  lemma CloseMeansRestored(t: Snapshot, es: seq<Event>)
    requires Inv(t) && t.baselineLive == t.confirmedLive && t.baselineProfiles == t.confirmedProfiles
    requires ShouldClose(Run(t, es))
    ensures ConfigMatches(Run(t, es).confirmedLive, Checkpoint(t, es).0)
    ensures Checkpoint(t, es).1 <= Run(t, es).confirmedProfiles
  {
    RunHolds(t, es);
    BaselineIsCheckpoint(t, es);
    var u := Run(t, es);
    UniqueCardsTransfer(u.baselineProfiles, u.confirmedProfiles);
    MatchingProfilesAreEqual(u.confirmedProfiles, u.baselineProfiles);
  }

  /** After Cancel, whatever happens short of restoring defaults, the transaction keeps wanting exactly the
      baseline of that moment (cards first seen later keep the profile they came with). */
  lemma {:induction false} CancelIsKept(t: Snapshot, es: seq<Event>)
    requires Inv(t) && t.cancelRequested && forall k | 0 <= k < |es| :: !es[k].DefaultsEvent?
    ensures var u := Run(t, es);
            && u.cancelRequested && u.desiredLive == u.baselineLive == t.baselineLive
            && u.desiredProfiles == u.baselineProfiles && t.baselineProfiles <= u.baselineProfiles
  {
    if es != [] {
      hide Inv, CanApply;
      var init, e := es[..|es| - 1], es[|es| - 1];
      CancelIsKept(t, init);
      RunHolds(t, init);
      StepHolds(Run(t, init), e);
      CancelStays(Run(t, init), e);
    }
    RunHolds(t, es);
    CancelledWantsBaseline(Run(t, es));
  }

  lemma CancelledWantsBaseline(t: Snapshot)
    requires Inv(t) && t.cancelRequested
    ensures t.desiredLive == t.baselineLive && t.desiredProfiles == t.baselineProfiles
  {
  }

  lemma CancelStays(t: Snapshot, e: Event)
    requires Inv(t) && t.cancelRequested && !e.DefaultsEvent?
    ensures Step(t, e).cancelRequested && !CanApply(t)
  {
    match e
    case Reconnected(live, revision, profiles) => ReconnectHolds(t, live, revision, profiles);
    case Observed(live, revision, profiles) => ObserveHolds(t, live, revision, profiles);
    case _ =>
  }

  // ---------------------------------------------------------------- no silent overwrite

  /** The events that end a conflict. */
  predicate Recovers(t: Snapshot, e: Event) {
    e.CancelEvent? || e.DefaultsEvent? || e.Reconnected? || (e.Observed? && !t.connected)
  }

  /** A report raises a conflict exactly when it arrives while idle, is no older than the last confirmed
      one, and changes a compared field or a known card's profile; a report arriving while an operation is
      in flight is never noticed. */
  lemma ConflictIsNoticed(t: Snapshot, live: StartupConfig, revision: nat, profiles: Profiles)
    requires Inv(t) && t.connected && !t.conflict
    ensures Observe(t, live, revision, profiles).conflict
       <==> && t.inFlight == NoOperation && revision >= t.confirmedRevision
            && (!ConfigMatches(t.confirmedLive, live) || ProfilesChange(t, profiles))
    ensures t.inFlight != NoOperation ==> Observe(t, live, revision, profiles) == t
  {
    ObserveProfilesHold(t, profiles);
  }

  lemma ConflictBlocks(t: Snapshot)
    requires Inv(t) && t.conflict
    ensures Next(t) == NoOperation && t.inFlight == NoOperation && !CanApply(t) && !ShouldClose(t)
    ensures forall op :: BeginOperation(t, op) == t
  {
  }

  lemma ConflictStays(t: Snapshot, e: Event)
    requires Inv(t) && t.conflict && !Recovers(t, e)
    ensures Step(t, e).conflict
  {
    hide Inv;
    ConflictBlocks(t);
    if e.Observed? {
      ConflictStaysObserved(t, e.live, e.revision, e.profiles);
    }
  }

  lemma ConflictStaysObserved(t: Snapshot, live: StartupConfig, revision: nat, profiles: Profiles)
    requires Inv(t) && t.conflict && t.connected
    ensures Observe(t, live, revision, profiles).conflict
  {
    ObserveProfilesHold(t, profiles);
  }

  /** Once a conflict is noticed, no operation begins and Apply and closing are refused until Cancel,
      defaults or a reconnection, whatever else happens. */
  lemma {:induction false} NoSilentOverwrite(t: Snapshot, es: seq<Event>)
    requires Inv(t) && t.conflict
    requires forall k | 0 <= k < |es| :: !Recovers(Run(t, es[..k]), es[k])
    ensures var u := Run(t, es);
            && u.conflict && Next(u) == NoOperation && u.inFlight == NoOperation
            && !CanApply(u) && !ShouldClose(u)
  {
    hide Inv, Step, Next, CanApply, ShouldClose, Recovers;
    if es != [] {
      var init := es[..|es| - 1];
      forall k | 0 <= k < |init| ensures !Recovers(Run(t, init[..k]), init[k]) {
        assert init[..k] == es[..k];
      }
      NoSilentOverwrite(t, init);
      RunHolds(t, init);
      assert !Recovers(Run(t, es[..|es| - 1]), es[|es| - 1]);
      ConflictStays(Run(t, init), es[|es| - 1]);
    }
    RunHolds(t, es);
    ConflictBlocks(Run(t, es));
  }

  /** What Apply stores is what the daemon confirmed, and a stored Apply leaves nothing to apply. */
  lemma ApplyIsConfirmed(t: Snapshot)
    requires CanApply(t)
    ensures var u := Step(t, Apply(true));
            && ConfigMatches(u.saved, t.confirmedLive) && u.saved == t.desiredLive
            && !IsDirty(u) && !CanApply(u)
    ensures Step(t, Apply(false)) == t
  {
  }

  /** A disconnected transaction has nothing in flight. */
  lemma DisconnectedIsIdle(t: Snapshot, es: seq<Event>)
    requires Inv(t)
    ensures !Run(t, es).connected ==> Run(t, es).inFlight == NoOperation
  {
    RunHolds(t, es);
  }

  // ---------------------------------------------------------------- convergence

  function Rank(op: Operation): nat {
    match op
    case NoOperation => 0
    case Rate => 1
    case DspBackend => 2
    case DspIdle => 3
    case Output => 4
    case Processing => 5
  }

  /** The live state after the daemon carried out one operation and nothing else. */
  function Carried(op: Operation, before: StartupConfig, target: StartupConfig): StartupConfig {
    match op
    case NoOperation => before
    case Rate => before.(ratePolicy := target.ratePolicy)
    case DspBackend => before.(dspBackend := target.dspBackend, dspSimdVariant := target.dspSimdVariant)
    case DspIdle => before.(dspIdlePolicy := target.dspIdlePolicy)
    case Output => before.(outputConfiguration := target.outputConfiguration,
                           presetFound := target.presetFound, presetPath := target.presetPath)
    case Processing => before.(presetFound := target.presetFound, presetPath := target.presetPath)
  }

  /** A successful reply of a daemon that honours the request. */
  datatype Answer = Answer(live: StartupConfig, revision: nat)

  predicate Honours(op: Operation, t: Snapshot, target: StartupConfig, r: Answer) {
    ConfigMatches(r.live, Carried(op, t.confirmedLive, target))
  }

  /** Take the next operation and receive an honest reply. */
  function Drive(t: Snapshot, r: Answer): Snapshot {
    Complete(BeginOperation(t, Next(t)), true, r.live, r.revision)
  }

  predicate Matches(t: Snapshot) {
    ConfigMatches(t.confirmedLive, t.desiredLive) && ProfilesMatch(t.confirmedProfiles, t.desiredProfiles)
  }

  /** Nothing is left to do exactly when every compared field and the profiles match. */
  lemma DoneWhenMatched(t: Snapshot)
    requires Free(t) && Validates(t.desiredLive.outputConfiguration)
    ensures Next(t) == NoOperation <==> Matches(t)
  {
  }

  /** An honoured operation settles its own fields for good: the next one comes strictly later, and after
      the joint output operation nothing remains. */
  lemma DriveAdvances(t: Snapshot, r: Answer)
    requires Free(t) && Validates(t.desiredLive.outputConfiguration)
    requires Next(t) != NoOperation && Honours(Next(t), t, t.desiredLive, r)
    ensures var u := Drive(t, r);
            && Free(u) && u.desiredLive == t.desiredLive && u.desiredProfiles == t.desiredProfiles
            && u.confirmedLive == r.live
            && (Next(u) == NoOperation || Rank(Next(u)) > Rank(Next(t)))
            && (Next(t) == Output ==> Next(u) == NoOperation)
  {
  }

  predicate Chain(ts: seq<Snapshot>, rs: seq<Answer>) {
    && |ts| == |rs| + 1
    && forall k | 0 <= k < |rs| ::
         Next(ts[k]) != NoOperation && Honours(Next(ts[k]), ts[k], ts[k].desiredLive, rs[k])
         && ts[k + 1] == Drive(ts[k], rs[k])
  }

  /** From any idle state, with an honest daemon: the operations taken come in strictly increasing
      dependency order, there are at most four, and when none is left everything matches. */
  lemma {:induction false} Converges(ts: seq<Snapshot>, rs: seq<Answer>)
    requires Chain(ts, rs) && Free(ts[0]) && Validates(ts[0].desiredLive.outputConfiguration)
    ensures |rs| <= 4
    ensures forall j, k | 0 <= j < k < |rs| :: Rank(Next(ts[j])) < Rank(Next(ts[k]))
    ensures Next(ts[|rs|]) == NoOperation <==> Matches(ts[|rs|])
    ensures ts[|rs|].desiredLive == ts[0].desiredLive && ts[|rs|].desiredProfiles == ts[0].desiredProfiles
  {
    ChainAdvances(ts, rs, |rs|);
    DoneWhenMatched(ts[|rs|]);
    if |rs| > 0 {
      RankBound(ts, rs, |rs| - 1);
    }
  }

  lemma {:induction false} ChainAdvances(ts: seq<Snapshot>, rs: seq<Answer>, n: nat)
    requires Chain(ts, rs) && Free(ts[0]) && Validates(ts[0].desiredLive.outputConfiguration) && n <= |rs|
    ensures Free(ts[n]) && ts[n].desiredLive == ts[0].desiredLive && ts[n].desiredProfiles == ts[0].desiredProfiles
    ensures forall k | 0 < k <= n && Next(ts[k]) != NoOperation ::
              Rank(Next(ts[k - 1])) < Rank(Next(ts[k])) && Next(ts[k - 1]) != Output
    ensures forall j, k | 0 <= j < k < n :: Rank(Next(ts[j])) < Rank(Next(ts[k]))
  {
    hide Next, Drive, Honours, Free, Validates;
    if n > 0 {
      ChainAdvances(ts, rs, n - 1);
      assert Next(ts[n - 1]) != NoOperation && ts[n] == Drive(ts[n - 1], rs[n - 1]);
      DriveAdvances(ts[n - 1], rs[n - 1]);
      forall j | 0 <= j < n - 1 ensures Rank(Next(ts[j])) < Rank(Next(ts[n - 1])) {
        assert Rank(Next(ts[n - 2])) < Rank(Next(ts[n - 1]));
        assert j < n - 2 ==> Rank(Next(ts[j])) < Rank(Next(ts[n - 2]));
      }
    }
  }

  /** The k-th operation taken has rank at least k + 1, and the fifth rank is never reached through the
      fourth: so there is no fifth operation. */
  lemma {:induction false} RankBound(ts: seq<Snapshot>, rs: seq<Answer>, k: nat)
    requires Chain(ts, rs) && Free(ts[0]) && Validates(ts[0].desiredLive.outputConfiguration) && k < |rs|
    ensures k + 1 <= Rank(Next(ts[k])) <= 5 && k <= 3
    ensures k == 3 ==> Rank(Next(ts[k])) >= 4
  {
    hide Next, Drive, Honours, Free, Validates;
    ChainAdvances(ts, rs, k);
    if k > 0 {
      RankBound(ts, rs, k - 1);
      assert Next(ts[k - 1]) != NoOperation && Next(ts[k]) != NoOperation;
    }
  }

  /** A pending operation, honoured against the target it was started with, leaves an idle state that can
      be driven on, even if the wishes changed meanwhile. */
  lemma PendingFinishes(t: Snapshot, r: Answer)
    requires Inv(t) && t.inFlight != NoOperation && Honours(t.inFlight, t, t.inFlightTarget, r)
    ensures var u := Complete(t, true, r.live, r.revision);
            Free(u) && u.desiredLive == t.desiredLive && u.desiredProfiles == t.desiredProfiles
  {
  }

  /** One operation in flight, honoured, and then the wishes driven to the end: the pending operation plus at most four
      more, from any state the dialog can be in. */
  lemma PendingThenConverges(saved: StartupConfig, live: StartupConfig, revision: nat, connected: bool, profiles: Profiles,
                             es: seq<Event>, r: Answer, ts: seq<Snapshot>, rs: seq<Answer>)
    requires UniqueCards(profiles)
    requires var t := Run(Begin(saved, live, revision, connected, profiles), es);
      && t.inFlight != NoOperation && Honours(t.inFlight, t, t.inFlightTarget, r)
      && Validates(t.desiredLive.outputConfiguration)
      && Chain(ts, rs) && ts[0] == Complete(t, true, r.live, r.revision)
    ensures var t := Run(Begin(saved, live, revision, connected, profiles), es);
      && |rs| <= 4
      && (forall j, k | 0 <= j < k < |rs| :: Rank(Next(ts[j])) < Rank(Next(ts[k])))
      && (Next(ts[|rs|]) == NoOperation <==> Matches(ts[|rs|]))
      && ts[|rs|].desiredLive == t.desiredLive && ts[|rs|].desiredProfiles == t.desiredProfiles
  {
    hide Run, Next, Drive, Validates, Matches;
    OpeningHolds(saved, live, revision, connected, profiles);
    RunHolds(Begin(saved, live, revision, connected, profiles), es);
    PendingFinishes(Run(Begin(saved, live, revision, connected, profiles), es), r);
    Converges(ts, rs);
  }

  // ---------------------------------------------------------------- changes made outside during an operation

  /** The daemon's state is not what the operation in flight alone would have made of the last confirmed one: somebody
      else changed the fields of `group`. */
  predicate ChangedOutside(t: Snapshot, live: StartupConfig, group: Operation) {
    !OperationMatches(group, live, Carried(t.inFlight, t.confirmedLive, t.inFlightTarget))
  }

  /** Whatever else a successful reply carries, it is adopted without a conflict as long as the operation's own fields
      are as asked; and more operations follow exactly when it is not all as wished. */
  lemma ReplyIsAdopted(t: Snapshot, r: Answer)
    requires Inv(t) && t.inFlight != NoOperation && OperationMatches(t.inFlight, r.live, t.inFlightTarget)
    requires Validates(t.desiredLive.outputConfiguration)
    ensures var u := Complete(t, true, r.live, r.revision);
      && !u.conflict && Free(u) && u.confirmedLive == r.live
      && u.desiredLive == t.desiredLive && u.desiredProfiles == t.desiredProfiles
      && (Next(u) != NoOperation <==> !Matches(u))
  {
    hide Validates, OperationMatches, Next, Matches;
    DoneWhenMatched(Complete(t, true, r.live, r.revision));
  }

  lemma MatchesEachGroup(a: StartupConfig, b: StartupConfig, group: Operation)
    requires ConfigMatches(a, b)
    ensures OperationMatches(group, a, b)
  {
  }

  /** What becomes of an outside change that a reply brings in: the operations driven from there, none of them refused
      and no conflict raised, end with the wish in every group. So the fields of a group keep what the outside change
      made of them if and only if that was the wish anyway; else they are overwritten without a word. */
  lemma OutsideChangeSurvivesIffWished(t: Snapshot, r: Answer, ts: seq<Snapshot>, rs: seq<Answer>, group: Operation)
    requires Inv(t) && t.inFlight != NoOperation && OperationMatches(t.inFlight, r.live, t.inFlightTarget)
    requires Validates(t.desiredLive.outputConfiguration)
    requires Chain(ts, rs) && ts[0] == Complete(t, true, r.live, r.revision) && Next(ts[|rs|]) == NoOperation
    ensures forall k | 0 <= k <= |rs| :: !ts[k].conflict
    ensures OperationMatches(group, ts[|rs|].confirmedLive, r.live) <==> OperationMatches(group, t.desiredLive, r.live)
    ensures |rs| == 0 <==> Matches(ts[0])
  {
    hide Next, Drive, Honours, Validates, Inv, Complete, ConfigMatches;
    ReplyIsAdopted(t, r);
    Converges(ts, rs);
    MatchesEachGroup(ts[|rs|].confirmedLive, t.desiredLive, group);
    forall k | 0 <= k <= |rs| ensures !ts[k].conflict {
      ChainAdvances(ts, rs, k);
    }
    if |rs| > 0 {
      assert Next(ts[0]) != NoOperation;
    }
  }

  const QUIET_LIVE: StartupConfig := StartupConfig(
    false, "", SampleRatePolicy(Automatic, 0, Suggest), Scalar, AutomaticVariant, DspIdlePolicy(1000),
    OutputConfiguration(Single, [], []), 256)

  /** The wish: another sample rate. The outside change: another idle timeout, while the rate is being set. */
  const FIXED_RATE: SampleRatePolicy := SampleRatePolicy(Fixed, 48000, Suggest)
  const OTHER_IDLE: DspIdlePolicy := DspIdlePolicy(5000)

  /** A concrete run in which the dialog overwrites a change made outside: the report of it is dropped because the rate
      operation is in flight, the reply brings it in unnoticed, and the next operation sets the old idle timeout again. */
  lemma OutsideChangeIsOverwritten()
    ensures var outside := QUIET_LIVE.(dspIdlePolicy := OTHER_IDLE);
      var begun := Begin(QUIET_LIVE, QUIET_LIVE, 0, true, []);
      var edited := Step(begun, EditEvent(QUIET_LIVE.(ratePolicy := FIXED_RATE)));
      var setting := Step(edited, StartNext);
      var reported := Step(setting, Observed(outside, 1, []));
      var replied := Step(reported, Reply(true, outside.(ratePolicy := FIXED_RATE), 2));
      var overwriting := Step(replied, StartNext);
      && setting.inFlight == Rate && reported == setting && ChangedOutside(reported, replied.confirmedLive, DspIdle)
      && !replied.conflict && replied.confirmedLive.dspIdlePolicy == OTHER_IDLE
      && overwriting.inFlight == DspIdle && overwriting.inFlightTarget.dspIdlePolicy == DspIdlePolicy(1000)
  {
    assert Validates(OutputConfiguration(Single, [], []));
    hide Validates;
  }
}
