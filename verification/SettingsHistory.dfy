/** The transaction read off its history: each field looked up in what the daemon last said and the user last asked,
    over every run from opening the dialog. */
module SettingsHistory {
  import opened Options
  import opened OutputRouting
  import opened Settings
  import opened SettingsRuns

  datatype Opening = Opening(saved: StartupConfig, live: StartupConfig, revision: nat, connected: bool, profiles: Profiles)

  function At(o: Opening, es: seq<Event>): Snapshot {
    Run(Begin(o.saved, o.live, o.revision, o.connected, o.profiles), es)
  }

  function Front(es: seq<Event>): seq<Event> requires es != [] { es[..|es| - 1] }

  function Latest(es: seq<Event>): Event requires es != [] { es[|es| - 1] }

  lemma AtUnfolds(o: Opening, es: seq<Event>)
    requires es != []
    ensures At(o, es) == Step(At(o, Front(es)), Latest(es))
  {
  }

  // ---------------------------------------------------------------- what the daemon last said

  /** A report that is taken over: the first after a lost connection, or one that is no older than what is known and
      arrives while nothing is in flight. */
  predicate TakenOver(before: Snapshot, e: Event) {
    e.Observed? && (!before.connected || (before.inFlight == NoOperation && e.revision >= before.confirmedRevision))
  }

  /** A successful reply with the fields of its own operation as asked. */
  predicate Granted(before: Snapshot, e: Event) {
    e.Reply? && e.success && before.inFlight != NoOperation && OperationMatches(before.inFlight, e.confirmed, before.inFlightTarget)
  }

  datatype Word = Word(live: StartupConfig, revision: nat)

  /** The live state and revision of the last message taken over: the opening, a reconnection, a report or a reply. */
  function LastWord(o: Opening, es: seq<Event>): Word {
    if es == [] then Word(o.live, o.revision)
    else
      var e, before := Latest(es), At(o, Front(es));
      if e.Reconnected? then Word(e.live, e.revision)
      else if TakenOver(before, e) then Word(e.live, e.revision)
      else if Granted(before, e) then Word(e.confirmed, e.revision)
      else LastWord(o, Front(es))
  }

  /** A state but for the SFZ budget, which no daemon message decides. */
  function Compared(c: StartupConfig): StartupConfig { c.(sfzMaxSizeMiB := 0) }

  lemma StepWord(t: Snapshot, e: Event)
    ensures var u := Step(t, e);
      if e.Reconnected? || TakenOver(t, e) then
        u.confirmedRevision == e.revision && Compared(u.confirmedLive) == Compared(e.live)
      else if Granted(t, e) then u.confirmedRevision == e.revision && u.confirmedLive == e.confirmed
      else u.confirmedRevision == t.confirmedRevision && u.confirmedLive == t.confirmedLive
  {
    if e.Reconnected? || e.Observed? {
      ReportWord(t, e);
    } else {
      hide Observe, Reconnect, Next, OperationMatches, CanApply, Compared;
    }
  }

  lemma ReportWord(t: Snapshot, e: Event)
    requires e.Reconnected? || e.Observed?
    ensures var u := Step(t, e);
      if e.Reconnected? || TakenOver(t, e) then
        u.confirmedRevision == e.revision && Compared(u.confirmedLive) == Compared(e.live)
      else u.confirmedRevision == t.confirmedRevision && u.confirmedLive == t.confirmedLive
  {
    ProfilesOnly(t, e.profiles);
    MatchesIsCompared(t.confirmedLive, e.live);
    hide ObserveProfiles, ProfilesChange, ConfigMatches, Compared;
  }

  lemma MatchesIsCompared(a: StartupConfig, b: StartupConfig)
    ensures ConfigMatches(a, b) <==> Compared(a) == Compared(b)
  {
  }

  lemma {:induction false} ProfilesOnly(t: Snapshot, ps: Profiles)
    ensures var u := ObserveProfiles(t, ps);
      u == t.(baselineProfiles := u.baselineProfiles, desiredProfiles := u.desiredProfiles,
              confirmedProfiles := u.confirmedProfiles)
  {
    if ps != [] {
      ProfilesOnly(t, ps[..|ps| - 1]);
      ProfileOnly(ObserveProfiles(t, ps[..|ps| - 1]), ps[|ps| - 1]);
      hide ObserveProfile;
    }
  }

  lemma ProfileOnly(t: Snapshot, p: OutputProfileSelection)
    ensures var u := ObserveProfile(t, p);
      u == t.(baselineProfiles := u.baselineProfiles, desiredProfiles := u.desiredProfiles,
              confirmedProfiles := u.confirmedProfiles)
  {
    hide Known;
  }

  /** What counts as confirmed is what the daemon last said: no field is kept from before a message that was taken over,
      and none changes without one. */
  lemma {:induction false} ConfirmedIsLastWord(o: Opening, es: seq<Event>)
    ensures At(o, es).confirmedRevision == LastWord(o, es).revision
    ensures Compared(At(o, es).confirmedLive) == Compared(LastWord(o, es).live)
  {
    hide Step, TakenOver, Granted;
    if es != [] {
      ConfirmedIsLastWord(o, Front(es));
      AtUnfolds(o, es);
      StepWord(At(o, Front(es)), Latest(es));
    }
  }

  // ---------------------------------------------------------------- the profiles, card by card

  /** The last entry for a card. */
  function LastOf(ps: Profiles, card: OutputCardIdentity): Option<OutputProfileSelection> {
    if ps == [] then None
    else if ps[|ps| - 1].card == card then Some(ps[|ps| - 1])
    else LastOf(ps[..|ps| - 1], card)
  }

  /** The profile of a card that the daemon last named, or confirmed with the output operation. */
  function LastProfile(o: Opening, es: seq<Event>, card: OutputCardIdentity): Option<OutputProfileSelection> {
    if es == [] then LastOf(o.profiles, card)
    else
      var e, before := Latest(es), At(o, Front(es));
      if (e.Reconnected? || TakenOver(before, e)) && LastOf(e.profiles, card).Some? then LastOf(e.profiles, card)
      else if Granted(before, e) && before.inFlight == Output then LastOf(before.inFlightProfiles, card)
      else LastProfile(o, Front(es), card)
  }

  lemma {:induction false} LastOfAppend(ps: Profiles, p: OutputProfileSelection, card: OutputCardIdentity)
    ensures LastOf(ps + [p], card) == if p.card == card then Some(p) else LastOf(ps, card)
  {
    assert (ps + [p])[..|ps|] == ps;
  }

  /** Changing the one entry of a card. */
  lemma {:induction false} LastOfUpdate(ps: Profiles, k: nat, p: OutputProfileSelection, card: OutputCardIdentity)
    requires UniqueCards(ps) && k < |ps| && ps[k].card == p.card
    ensures LastOf(ps[k := p], card) == if p.card == card then Some(p) else LastOf(ps, card)
  {
    var n := |ps| - 1;
    if k < n {
      assert ps[k := p][..n] == ps[..n][k := p];
      LastOfUpdate(ps[..n], k, p, card);
      assert ps[k].card != ps[n].card;
    } else {
      assert ps[k := p][..n] == ps[..n];
    }
  }

  lemma ProfileByCard(t: Snapshot, p: OutputProfileSelection, card: OutputCardIdentity)
    requires UniqueCards(t.confirmedProfiles)
    ensures LastOf(ObserveProfile(t, p).confirmedProfiles, card)
         == if p.card == card then Some(p) else LastOf(t.confirmedProfiles, card)
  {
    var k := Known(t.confirmedProfiles, p.card);
    if k == |t.confirmedProfiles| {
      LastOfAppend(t.confirmedProfiles, p, card);
    } else {
      LastOfUpdate(t.confirmedProfiles, k, p, card);
    }
  }

  /** After a list of reports each card has its last reported profile. */
  lemma {:induction false} ProfilesByCard(t: Snapshot, ps: Profiles, card: OutputCardIdentity)
    requires CardsHold(t) && RollbackHolds(t)
    ensures LastOf(ObserveProfiles(t, ps).confirmedProfiles, card)
         == if LastOf(ps, card).Some? then LastOf(ps, card) else LastOf(t.confirmedProfiles, card)
  {
    hide CardsHold, RollbackHolds, ObserveProfile;
    if ps != [] {
      var front := ps[..|ps| - 1];
      ProfilesByCard(t, front, card);
      ObserveProfilesHold(t, front);
      ConfirmedIsUnique(ObserveProfiles(t, front));
      ProfileByCard(ObserveProfiles(t, front), ps[|ps| - 1], card);
    }
  }

  lemma ConfirmedIsUnique(t: Snapshot)
    requires CardsHold(t)
    ensures UniqueCards(t.confirmedProfiles)
  {
    UniqueCardsTransfer(t.baselineProfiles, t.confirmedProfiles);
  }

  lemma StepProfile(t: Snapshot, e: Event, card: OutputCardIdentity)
    requires CardsHold(t) && RollbackHolds(t)
    ensures var u := Step(t, e);
      LastOf(u.confirmedProfiles, card) ==
        if (e.Reconnected? || TakenOver(t, e)) && LastOf(e.profiles, card).Some? then LastOf(e.profiles, card)
        else if Granted(t, e) && t.inFlight == Output then LastOf(t.inFlightProfiles, card)
        else LastOf(t.confirmedProfiles, card)
  {
    hide LastOf, CardsHold, RollbackHolds, ObserveProfiles, ProfilesChange, ConfigMatches, OperationMatches;
    match e
    case Reconnected(live, revision, profiles) => ProfilesByCard(t, profiles, card);
    case Observed(live, revision, profiles) => ProfilesByCard(t, profiles, card);
    case _ =>
  }

  lemma OpeningRunHolds(o: Opening, es: seq<Event>)
    requires UniqueCards(o.profiles)
    ensures Inv(At(o, es))
  {
    OpeningHolds(o.saved, o.live, o.revision, o.connected, o.profiles);
    RunHolds(Begin(o.saved, o.live, o.revision, o.connected, o.profiles), es);
  }

  /** Every card's confirmed profile is the one the daemon last named for it, or last carried out. */
  lemma {:induction false} ConfirmedProfileIsLast(o: Opening, es: seq<Event>, card: OutputCardIdentity)
    requires UniqueCards(o.profiles)
    ensures LastOf(At(o, es).confirmedProfiles, card) == LastProfile(o, es, card)
  {
    hide Step, TakenOver, Granted, LastOf, UniqueCards, FlightHolds, FlightCardsHold, CardsHold, RollbackHolds;
    if es != [] {
      ConfirmedProfileIsLast(o, Front(es), card);
      AtUnfolds(o, es);
      OpeningRunHolds(o, Front(es));
      StepProfile(At(o, Front(es)), Latest(es), card);
    }
  }

  // ---------------------------------------------------------------- what the user last asked for

  /** The last edit before a cancellation, the defaults, or what was there when Apply last succeeded. */
  function Wish(o: Opening, es: seq<Event>): StartupConfig {
    if es == [] then o.live.(sfzMaxSizeMiB := o.saved.sfzMaxSizeMiB)
    else match Latest(es)
      case EditEvent(desired) => if At(o, Front(es)).cancelRequested then Wish(o, Front(es)) else desired
      case DefaultsEvent(defaults) => defaults
      case CancelEvent => Restored(o, Front(es))
      case _ => Wish(o, Front(es))
  }

  /** What Cancel goes back to: the live state at opening, or as confirmed when Apply last succeeded. */
  function Restored(o: Opening, es: seq<Event>): StartupConfig {
    if es == [] then o.live
    else if Latest(es).Apply? && Latest(es).stored && CanApply(At(o, Front(es))) then At(o, Front(es)).confirmedLive
    else Restored(o, Front(es))
  }

  /** What is on disk: the configuration the dialog was opened with, or the wish that Apply last stored. */
  function OnDisk(o: Opening, es: seq<Event>): StartupConfig {
    if es == [] then o.saved
    else if Latest(es).Apply? && Latest(es).stored && CanApply(At(o, Front(es))) then Wish(o, Front(es))
    else OnDisk(o, Front(es))
  }

  predicate Cancelled(es: seq<Event>) {
    es != [] && !Latest(es).DefaultsEvent? && (Latest(es).CancelEvent? || Cancelled(Front(es)))
  }

  predicate Connected(o: Opening, es: seq<Event>) {
    if es == [] then o.connected
    else match Latest(es)
      case Lost => false
      case Reconnected(_, _, _) => true
      case Observed(_, _, _) => true
      case _ => Connected(o, Front(es))
  }

  lemma StepWishes(t: Snapshot, e: Event)
    ensures var u := Step(t, e);
      && u.desiredLive == (match e
           case EditEvent(desired) => if t.cancelRequested then t.desiredLive else desired
           case DefaultsEvent(defaults) => defaults
           case CancelEvent => t.baselineLive
           case _ => t.desiredLive)
      && (u.cancelRequested <==> !e.DefaultsEvent? && (e.CancelEvent? || t.cancelRequested))
      && (u.connected <==> !e.Lost? && (e.Reconnected? || e.Observed? || t.connected))
      && (if e.Apply? && e.stored && CanApply(t) then u.saved == t.desiredLive && u.baselineLive == t.confirmedLive
          else u.saved == t.saved && u.baselineLive == t.baselineLive)
  {
    if e.Reconnected? || e.Observed? {
      ReportWishes(t, e);
    }
    hide CanApply, Next, OperationMatches, Observe, Reconnect;
  }

  lemma ReportWishes(t: Snapshot, e: Event)
    requires e.Reconnected? || e.Observed?
    ensures var u := Step(t, e);
      && u.desiredLive == t.desiredLive && u.cancelRequested == t.cancelRequested && u.connected
      && u.saved == t.saved && u.baselineLive == t.baselineLive
  {
    StepReports(t, e);
    ProfilesOnly(t, e.profiles);
    hide Step, ObserveProfiles, ProfilesChange, ConfigMatches;
  }

  lemma StepReports(t: Snapshot, e: Event)
    requires e.Reconnected? || e.Observed?
    ensures Step(t, e) == if e.Reconnected? then Reconnect(t, e.live, e.revision, e.profiles)
                          else Observe(t, e.live, e.revision, e.profiles)
  {
    hide Reconnect, Observe;
  }

  /** The wish, what is on disk, what Cancel goes back to, and whether the dialog is cancelled and connected are all read
      off the events. */
  lemma {:induction false} WishIsLastAsked(o: Opening, es: seq<Event>)
    ensures var t := At(o, es);
      && t.desiredLive == Wish(o, es) && t.saved == OnDisk(o, es) && t.baselineLive == Restored(o, es)
      && (t.cancelRequested <==> Cancelled(es)) && (t.connected <==> Connected(o, es))
  {
    hide Step, CanApply;
    if es != [] {
      WishIsLastAsked(o, Front(es));
      AtUnfolds(o, es);
      StepWishes(At(o, Front(es)), Latest(es));
    }
  }

  // ---------------------------------------------------------------- what stands in the way

  /** What was known of a card just before entry `i` of a report. */
  function KnownBefore(known: Profiles, ps: Profiles, i: nat): Option<OutputProfileSelection>
    requires i < |ps|
  {
    if LastOf(ps[..i], ps[i].card).Some? then LastOf(ps[..i], ps[i].card) else LastOf(known, ps[i].card)
  }

  predicate Contradicts(known: Profiles, ps: Profiles, i: nat)
    requires i < |ps|
  {
    KnownBefore(known, ps, i).Some? && KnownBefore(known, ps, i).value != ps[i]
  }

  /** The report differs from what is known, in a compared field or in the profile of a known card. */
  predicate Surprises(known: StartupConfig, knownProfiles: Profiles, live: StartupConfig, ps: Profiles) {
    Compared(known) != Compared(live) || exists i | 0 <= i < |ps| :: Contradicts(knownProfiles, ps, i)
  }

  lemma {:induction false} KnownIsLast(ps: Profiles, card: OutputCardIdentity)
    requires UniqueCards(ps)
    ensures var k := Known(ps, card);
      LastOf(ps, card) == if k < |ps| then Some(ps[k]) else None
  {
    if ps != [] {
      var n := |ps| - 1;
      KnownIsLast(ps[..n], card);
      var k := Known(ps, card);
      if k < n {
        KnownIs(ps[..n], card, k);
        assert ps[k].card != ps[n].card;
      } else {
        KnownIs(ps[..n], card, n);
      }
    }
  }

  lemma {:induction false} ChangesAreContradictions(t: Snapshot, ps: Profiles)
    requires CardsHold(t) && RollbackHolds(t)
    ensures ProfilesChange(t, ps) <==> exists i | 0 <= i < |ps| :: Contradicts(t.confirmedProfiles, ps, i)
  {
    hide CardsHold, RollbackHolds, ProfileChanges, ObserveProfiles, Contradicts;
    if ps != [] {
      var n := |ps| - 1;
      ChangesAreContradictions(t, ps[..n]);
      LastChange(t, ps);
      forall i | 0 <= i < n ensures Contradicts(t.confirmedProfiles, ps, i) <==> Contradicts(t.confirmedProfiles, ps[..n], i) {
        SameBefore(t.confirmedProfiles, ps, i);
      }
    }
  }

  lemma SameBefore(known: Profiles, ps: Profiles, i: nat)
    requires i < |ps| - 1
    ensures Contradicts(known, ps[..|ps| - 1], i) <==> Contradicts(known, ps, i)
  {
    assert ps[..|ps| - 1][..i] == ps[..i];
  }

  lemma LastChange(t: Snapshot, ps: Profiles)
    requires CardsHold(t) && RollbackHolds(t) && ps != []
    ensures ProfileChanges(ObserveProfiles(t, ps[..|ps| - 1]), ps[|ps| - 1]) <==> Contradicts(t.confirmedProfiles, ps, |ps| - 1)
  {
    hide CardsHold, RollbackHolds, LastOf, ObserveProfiles;
    var u, p := ObserveProfiles(t, ps[..|ps| - 1]), ps[|ps| - 1];
    ProfilesByCard(t, ps[..|ps| - 1], p.card);
    ObserveProfilesHold(t, ps[..|ps| - 1]);
    ConfirmedIsUnique(u);
    KnownIsLast(u.confirmedProfiles, p.card);
  }

  predicate Surprising(before: Snapshot, e: Event) {
    e.Observed? && before.connected && TakenOver(before, e)
    && Surprises(before.confirmedLive, before.confirmedProfiles, e.live, e.profiles)
  }

  /** The operation in flight: the last one begun and neither answered nor cut off. */
  function Pending(o: Opening, es: seq<Event>): Operation {
    if es == [] then NoOperation
    else
      var e, before := Latest(es), At(o, Front(es));
      match e
      case StartNext => if Next(before) != NoOperation then Next(before) else Pending(o, Front(es))
      case Reply(_, _, _) => NoOperation
      case Lost => NoOperation
      case Reconnected(_, _, _) => NoOperation
      case Observed(_, _, _) => if before.connected then Pending(o, Front(es)) else NoOperation
      case _ => Pending(o, Front(es))
  }

  /** An outside change was noticed and nothing has ended the conflict since. */
  predicate Alarmed(o: Opening, es: seq<Event>) {
    es != [] &&
    var e, before := Latest(es), At(o, Front(es));
    Surprising(before, e) || (Alarmed(o, Front(es)) && !Recovers(before, e))
  }

  /** The daemon refused an operation, or answered with other fields, and nothing has been tried or asked since. */
  predicate Refused(o: Opening, es: seq<Event>) {
    es != [] &&
    var e, before := Latest(es), At(o, Front(es));
    if e.Reply? && before.inFlight != NoOperation then !Granted(before, e)
    else Refused(o, Front(es)) && !Surprising(before, e) && !Recovers(before, e) && !e.Lost?
         && (e.EditEvent? ==> before.cancelRequested)
  }

  lemma SurpriseIsNoticed(t: Snapshot, live: StartupConfig, ps: Profiles)
    requires CardsHold(t) && RollbackHolds(t)
    ensures Surprises(t.confirmedLive, t.confirmedProfiles, live, ps) <==>
              ProfilesChange(t, ps) || !ConfigMatches(t.confirmedLive, live)
  {
    ChangesAreContradictions(t, ps);
    MatchesIsCompared(t.confirmedLive, live);
    hide CardsHold, RollbackHolds, ProfilesChange, Contradicts, ConfigMatches, Compared;
  }

  lemma StepFlags(t: Snapshot, e: Event)
    requires CardsHold(t) && RollbackHolds(t)
    ensures var u := Step(t, e);
      && u.inFlight == (match e
           case StartNext => if Next(t) != NoOperation then Next(t) else t.inFlight
           case Reply(_, _, _) => NoOperation
           case Lost => NoOperation
           case Reconnected(_, _, _) => NoOperation
           case Observed(_, _, _) => if t.connected then t.inFlight else NoOperation
           case _ => t.inFlight)
      && (u.conflict <==> Surprising(t, e) || (t.conflict && !Recovers(t, e)))
      && (u.liveChangeFailed <==>
            if e.Reply? && t.inFlight != NoOperation then !Granted(t, e)
            else t.liveChangeFailed && !Surprising(t, e) && !Recovers(t, e) && !e.Lost? && (e.EditEvent? ==> t.cancelRequested))
  {
    hide CardsHold, RollbackHolds, OperationMatches, ConfigMatches, ProfilesChange, ObserveProfiles, Validates, Surprises, ProfilesMatch;
    match e
    case Reconnected(live, revision, profiles) => ProfilesOnly(t, profiles);
    case Observed(live, revision, profiles) =>
      ProfilesOnly(t, profiles);
      SurpriseIsNoticed(t, live, profiles);
    case _ =>
  }

  /** Over every run: what is in flight, whether a conflict stands and whether the last change was refused are read off the
      events. */
  lemma {:induction false} ObstaclesAreHistory(o: Opening, es: seq<Event>)
    requires UniqueCards(o.profiles)
    ensures var t := At(o, es);
      && t.inFlight == Pending(o, es) && (t.conflict <==> Alarmed(o, es)) && (t.liveChangeFailed <==> Refused(o, es))
  {
    hide Step, Next, Surprising, Granted, Recovers, UniqueCards, FlightHolds, FlightCardsHold, CardsHold, RollbackHolds;
    if es != [] {
      ObstaclesAreHistory(o, Front(es));
      AtUnfolds(o, es);
      OpeningRunHolds(o, Front(es));
      StepFlags(At(o, Front(es)), Latest(es));
    }
  }

  // ---------------------------------------------------------------- the dialog can always be finished

  /** A connected dialog at rest that is cancelled and driven by an honest daemon may close as soon as nothing is left to
      do, and then the checkpoint is confirmed. */
  lemma CancelledCloses(t: Snapshot, ts: seq<Snapshot>, rs: seq<Answer>)
    requires t.connected && t.inFlight == NoOperation && Validates(t.baselineLive.outputConfiguration)
    requires Chain(ts, rs) && ts[0] == Cancel(t) && Next(ts[|rs|]) == NoOperation
    ensures ShouldClose(ts[|rs|])
  {
    hide Validates, Next, Drive, Honours, ConfigMatches, ProfilesMatch;
    Converges(ts, rs);
    ChainAdvances(ts, rs, |rs|);
    ChainKeeps(ts, rs, |rs|);
    hide Chain;
    MatchesCancelled(ts[|rs|]);
  }

  lemma MatchesCancelled(t: Snapshot)
    requires Free(t) && Matches(t) && t.cancelRequested && t.desiredLive == t.baselineLive && t.desiredProfiles == t.baselineProfiles
    ensures ShouldClose(t)
  {
  }

  /** Driving changes neither the checkpoint nor whether the dialog is cancelled, nor what is saved. */
  lemma {:induction false} ChainKeeps(ts: seq<Snapshot>, rs: seq<Answer>, n: nat)
    requires Chain(ts, rs) && n <= |rs|
    ensures ts[n].cancelRequested == ts[0].cancelRequested && ts[n].saved == ts[0].saved
    ensures ts[n].baselineLive == ts[0].baselineLive && ts[n].baselineProfiles == ts[0].baselineProfiles
  {
    hide Next, Drive, Honours;
    if n > 0 {
      ChainKeeps(ts, rs, n - 1);
      assert ts[n] == Drive(ts[n - 1], rs[n - 1]);
      DriveKeeps(ts[n - 1], rs[n - 1]);
    }
  }

  lemma DriveKeeps(t: Snapshot, r: Answer)
    ensures var u := Drive(t, r);
      && u.cancelRequested == t.cancelRequested && u.saved == t.saved
      && u.baselineLive == t.baselineLive && u.baselineProfiles == t.baselineProfiles
  {
    hide Next, OperationMatches;
  }

  /** A wish that differs from what is saved, driven to the end, can be applied, and applying it makes it the saved
      configuration and the new checkpoint. */
  lemma DrivenCanBeApplied(t: Snapshot, ts: seq<Snapshot>, rs: seq<Answer>)
    requires Free(t) && !t.cancelRequested && Validates(t.desiredLive.outputConfiguration)
    requires Chain(ts, rs) && ts[0] == t && Next(ts[|rs|]) == NoOperation
    ensures var u := ts[|rs|];
      && (CanApply(u) <==> t.desiredLive != t.saved || multiset(t.desiredProfiles) != multiset(t.baselineProfiles))
      && (CanApply(u) ==> Step(u, Apply(true)).saved == t.desiredLive && Step(u, Apply(true)).baselineLive == u.confirmedLive)
  {
    hide Validates, Next, Drive, Honours, ConfigMatches, ProfilesMatch;
    Converges(ts, rs);
    ChainAdvances(ts, rs, |rs|);
    ChainKeeps(ts, rs, |rs|);
    hide Chain;
    MatchesApplies(t, ts[|rs|]);
  }

  lemma MatchesApplies(t: Snapshot, u: Snapshot)
    requires Free(u) && Matches(u) && !u.cancelRequested && u.desiredLive == t.desiredLive && u.desiredProfiles == t.desiredProfiles
    requires u.saved == t.saved && u.baselineProfiles == t.baselineProfiles
    ensures CanApply(u) <==> t.desiredLive != t.saved || multiset(t.desiredProfiles) != multiset(t.baselineProfiles)
    ensures CanApply(u) ==> Step(u, Apply(true)).saved == t.desiredLive && Step(u, Apply(true)).baselineLive == u.confirmedLive
  {
  }
}
