/** The dialog-wide settings transaction: pure decisions, state changes as functions on a snapshot, and
    the class whose methods update the fields in place. */
module Settings {
  import opened OutputRouting

  datatype SampleRateMode = Automatic | Fixed
  datatype SampleRateEnforcement = Suggest | Force
  datatype SampleRatePolicy = SampleRatePolicy(mode: SampleRateMode, fixedRate: nat, enforcement: SampleRateEnforcement)
  datatype DspBackendKind = Scalar | Simd
  datatype DspSimdVariant = AutomaticVariant | Baseline | X86V3 | X86V4 | Arm64Sve
  datatype DspIdlePolicy = DspIdlePolicy(timeoutMilliseconds: nat)

  datatype StartupConfig = StartupConfig(
    presetFound: bool, presetPath: string, ratePolicy: SampleRatePolicy, dspBackend: DspBackendKind,
    dspSimdVariant: DspSimdVariant, dspIdlePolicy: DspIdlePolicy, outputConfiguration: OutputConfiguration,
    sfzMaxSizeMiB: nat)

  type Profiles = seq<OutputProfileSelection>

  datatype Operation = NoOperation | Rate | DspBackend | DspIdle | Output | Processing

  datatype Snapshot = Snapshot(
    saved: StartupConfig, baselineLive: StartupConfig, desiredLive: StartupConfig, confirmedLive: StartupConfig,
    confirmedRevision: nat, inFlight: Operation, inFlightTarget: StartupConfig,
    connected: bool, cancelRequested: bool, conflict: bool, liveChangeFailed: bool,
    baselineProfiles: Profiles, desiredProfiles: Profiles, confirmedProfiles: Profiles, inFlightProfiles: Profiles)

  // ---------------------------------------------------------------- decisions

  predicate ProfilesMatch(a: Profiles, b: Profiles) { multiset(a) == multiset(b) }

  predicate SamePreset(a: StartupConfig, b: StartupConfig) {
    a.presetFound == b.presetFound && a.presetPath == b.presetPath
  }

  predicate ConfigMatches(a: StartupConfig, b: StartupConfig) {
    && SamePreset(a, b) && a.ratePolicy == b.ratePolicy && a.dspBackend == b.dspBackend
    && a.dspSimdVariant == b.dspSimdVariant && a.dspIdlePolicy == b.dspIdlePolicy
    && a.outputConfiguration == b.outputConfiguration
  }

  predicate OperationMatches(op: Operation, a: StartupConfig, b: StartupConfig) {
    match op
    case NoOperation => true
    case Rate => a.ratePolicy == b.ratePolicy
    case DspBackend => a.dspBackend == b.dspBackend && a.dspSimdVariant == b.dspSimdVariant
    case DspIdle => a.dspIdlePolicy == b.dspIdlePolicy
    case Output => a.outputConfiguration == b.outputConfiguration && SamePreset(a, b)
    case Processing => SamePreset(a, b)
  }

  predicate Free(t: Snapshot) {
    t.connected && t.inFlight.NoOperation? && !t.conflict && !t.liveChangeFailed
  }

  function Next(t: Snapshot): Operation {
    if !Free(t) || !Validates(t.desiredLive.outputConfiguration) then NoOperation
    else if !OperationMatches(Rate, t.confirmedLive, t.desiredLive) then Rate
    else if !OperationMatches(DspBackend, t.confirmedLive, t.desiredLive) then DspBackend
    else if !OperationMatches(DspIdle, t.confirmedLive, t.desiredLive) then DspIdle
    else if t.confirmedLive.outputConfiguration != t.desiredLive.outputConfiguration
            || !ProfilesMatch(t.confirmedProfiles, t.desiredProfiles) then Output
    else if !OperationMatches(Processing, t.confirmedLive, t.desiredLive) then Processing
    else NoOperation
  }

  predicate IsDirty(t: Snapshot) {
    || !ConfigMatches(t.desiredLive, t.saved)
    || !ProfilesMatch(t.desiredProfiles, t.baselineProfiles)
    || t.desiredLive.sfzMaxSizeMiB != t.saved.sfzMaxSizeMiB
  }

  predicate CanApply(t: Snapshot) {
    && Free(t) && !t.cancelRequested && ConfigMatches(t.desiredLive, t.confirmedLive)
    && ProfilesMatch(t.desiredProfiles, t.confirmedProfiles) && IsDirty(t)
  }

  predicate ShouldClose(t: Snapshot) {
    && t.cancelRequested && Free(t) && ConfigMatches(t.confirmedLive, t.baselineLive)
    && ProfilesMatch(t.confirmedProfiles, t.baselineProfiles)
  }

  // ---------------------------------------------------------------- state changes

  function Begin(saved: StartupConfig, live: StartupConfig, revision: nat, connected: bool, profiles: Profiles): Snapshot {
    Snapshot(saved, live, live.(sfzMaxSizeMiB := saved.sfzMaxSizeMiB), live, revision, NoOperation, live,
             connected, false, false, false, profiles, profiles, profiles, [])
  }

  function RestoreDefaults(t: Snapshot, defaults: StartupConfig): Snapshot {
    t.(desiredLive := defaults, cancelRequested := false, conflict := false, liveChangeFailed := false)
  }

  function Edit(t: Snapshot, desired: StartupConfig): Snapshot {
    if t.cancelRequested then t else t.(desiredLive := desired, liveChangeFailed := false)
  }

  function BeginOperation(t: Snapshot, op: Operation): Snapshot {
    if op.NoOperation? || Next(t) != op then t
    else t.(inFlight := op, inFlightTarget := t.desiredLive, inFlightProfiles := t.desiredProfiles)
  }

  function Complete(t: Snapshot, success: bool, confirmed: StartupConfig, revision: nat): Snapshot {
    if t.inFlight.NoOperation? then t
    else if !success || !OperationMatches(t.inFlight, confirmed, t.inFlightTarget) then
      t.(inFlight := NoOperation, liveChangeFailed := true)
    else
      t.(inFlight := NoOperation, confirmedLive := confirmed, confirmedRevision := revision, liveChangeFailed := false,
         confirmedProfiles := if t.inFlight.Output? then t.inFlightProfiles else t.confirmedProfiles)
  }

  function Disconnect(t: Snapshot): Snapshot {
    t.(connected := false, inFlight := NoOperation, liveChangeFailed := false)
  }

  /** The first entry for this card, or the number of entries. */
  function Known(profiles: Profiles, card: OutputCardIdentity): (k: nat)
    ensures k <= |profiles|
    ensures k < |profiles| ==> profiles[k].card == card
    ensures forall i | 0 <= i < k :: profiles[i].card != card
  {
    if profiles == [] || profiles[0].card == card then 0 else 1 + Known(profiles[1..], card)
  }

  /** A card first seen now enters all three lists; a known card's confirmed profile is updated. */
  function ObserveProfile(t: Snapshot, p: OutputProfileSelection): Snapshot {
    var k := Known(t.confirmedProfiles, p.card);
    if k == |t.confirmedProfiles| then
      t.(baselineProfiles := t.baselineProfiles + [p], desiredProfiles := t.desiredProfiles + [p],
         confirmedProfiles := t.confirmedProfiles + [p])
    else t.(confirmedProfiles := t.confirmedProfiles[k := p])
  }

  predicate ProfileChanges(t: Snapshot, p: OutputProfileSelection) {
    var k := Known(t.confirmedProfiles, p.card);
    k < |t.confirmedProfiles| && t.confirmedProfiles[k] != p
  }

  function ObserveProfiles(t: Snapshot, profiles: Profiles): Snapshot {
    if profiles == [] then t
    else ObserveProfile(ObserveProfiles(t, profiles[..|profiles| - 1]), profiles[|profiles| - 1])
  }

  predicate ProfilesChange(t: Snapshot, profiles: Profiles) {
    profiles != [] &&
    (|| ProfilesChange(t, profiles[..|profiles| - 1])
     || ProfileChanges(ObserveProfiles(t, profiles[..|profiles| - 1]), profiles[|profiles| - 1]))
  }

  function Reconnect(t: Snapshot, live: StartupConfig, revision: nat, profiles: Profiles): Snapshot {
    ObserveProfiles(t, profiles).(
      connected := true, confirmedLive := live, confirmedRevision := revision, inFlight := NoOperation,
      inFlightTarget := live, conflict := false, liveChangeFailed := false)
  }

  function Observe(t: Snapshot, live: StartupConfig, revision: nat, profiles: Profiles): Snapshot {
    if !t.connected then Reconnect(t, live, revision, profiles)
    else if !t.inFlight.NoOperation? || revision < t.confirmedRevision then t
    else
      var u := ObserveProfiles(t, profiles);
      if !ProfilesChange(t, profiles) && ConfigMatches(t.confirmedLive, live) then u.(confirmedRevision := revision)
      else u.(confirmedLive := live, confirmedRevision := revision, conflict := true, liveChangeFailed := false)
  }

  function Cancel(t: Snapshot): Snapshot {
    t.(desiredLive := t.baselineLive, desiredProfiles := t.baselineProfiles, cancelRequested := true,
       conflict := false, liveChangeFailed := false)
  }

  function CompletePersistence(t: Snapshot, success: bool): Snapshot {
    if !success then t
    else t.(saved := t.desiredLive, baselineLive := t.confirmedLive, baselineProfiles := t.confirmedProfiles,
            conflict := false)
  }

  // ---------------------------------------------------------------- the transaction in place

  class SettingsTransaction {
    var saved: StartupConfig
    var baselineLive: StartupConfig
    var desiredLive: StartupConfig
    var confirmedLive: StartupConfig
    var confirmedRevision: nat
    var inFlight: Operation
    var inFlightTarget: StartupConfig
    var connected: bool
    var cancelRequested: bool
    var conflict: bool
    var liveChangeFailed: bool
    var baselineOutputProfiles: Profiles
    var desiredOutputProfiles: Profiles
    var confirmedOutputProfiles: Profiles
    var inFlightOutputProfiles: Profiles

    function Now(): Snapshot
      reads this
    {
      Snapshot(saved, baselineLive, desiredLive, confirmedLive, confirmedRevision, inFlight, inFlightTarget,
               connected, cancelRequested, conflict, liveChangeFailed,
               baselineOutputProfiles, desiredOutputProfiles, confirmedOutputProfiles, inFlightOutputProfiles)
    }

    constructor (savedConfig: StartupConfig, live: StartupConfig, liveRevision: nat, isConnected: bool, profiles: Profiles)
      ensures Now() == Begin(savedConfig, live, liveRevision, isConnected, profiles)
    {
      saved, baselineLive, confirmedLive, inFlightTarget := savedConfig, live, live, live;
      desiredLive := live.(sfzMaxSizeMiB := savedConfig.sfzMaxSizeMiB);
      confirmedRevision, inFlight, connected := liveRevision, NoOperation, isConnected;
      cancelRequested, conflict, liveChangeFailed := false, false, false;
      baselineOutputProfiles, desiredOutputProfiles, confirmedOutputProfiles := profiles, profiles, profiles;
      inFlightOutputProfiles := [];
    }

    method RestoreSettingsDefaults(defaults: StartupConfig)
      modifies this
      ensures Now() == RestoreDefaults(old(Now()), defaults)
    {
      desiredLive, cancelRequested, conflict, liveChangeFailed := defaults, false, false, false;
    }

    method EditSettingsTransaction(desired: StartupConfig)
      modifies this
      ensures Now() == Edit(old(Now()), desired)
    {
      if cancelRequested {
        return;
      }
      desiredLive, liveChangeFailed := desired, false;
    }

    method BeginSettingsOperation(op: Operation) returns (accepted: bool)
      modifies this
      ensures Now() == BeginOperation(old(Now()), op)
      ensures accepted <==> !op.NoOperation? && Next(old(Now())) == op
    {
      if op.NoOperation? || Next(Now()) != op {
        return false;
      }
      inFlight, inFlightTarget, inFlightOutputProfiles := op, desiredLive, desiredOutputProfiles;
      return true;
    }

    method CompleteSettingsOperation(success: bool, confirmed: StartupConfig, revision: nat)
      modifies this
      ensures Now() == Complete(old(Now()), success, confirmed, revision)
    {
      hide OperationMatches;
      var op := inFlight;
      if op.NoOperation? {
        return;
      }
      inFlight := NoOperation;
      if !success {
        liveChangeFailed := true;
        return;
      }
      if !OperationMatches(op, confirmed, inFlightTarget) {
        liveChangeFailed := true;
        return;
      }
      confirmedLive, confirmedRevision := confirmed, revision;
      if op.Output? {
        confirmedOutputProfiles := inFlightOutputProfiles;
      }
      liveChangeFailed := false;
    }

    method MarkSettingsDisconnected()
      modifies this
      ensures Now() == Disconnect(old(Now()))
    {
      connected, inFlight, liveChangeFailed := false, NoOperation, false;
    }

    method ObserveOutputProfiles(profiles: Profiles) returns (changed: bool)
      modifies this`baselineOutputProfiles, this`desiredOutputProfiles, this`confirmedOutputProfiles
      ensures Now() == ObserveProfiles(old(Now()), profiles)
      ensures changed <==> ProfilesChange(old(Now()), profiles)
    {
      hide ObserveProfile, ProfileChanges;
      changed := false;
      for i := 0 to |profiles|
        invariant Now() == ObserveProfiles(old(Now()), profiles[..i])
        invariant changed <==> ProfilesChange(old(Now()), profiles[..i])
      {
        assert profiles[..i + 1][..i] == profiles[..i];
        var differs := ObserveOutputProfile(profiles[i]);
        changed := changed || differs;
      }
      assert profiles[..|profiles|] == profiles;
    }

    method ObserveOutputProfile(profile: OutputProfileSelection) returns (changed: bool)
      modifies this`baselineOutputProfiles, this`desiredOutputProfiles, this`confirmedOutputProfiles
      ensures Now() == ObserveProfile(old(Now()), profile)
      ensures changed <==> ProfileChanges(old(Now()), profile)
    {
      changed := false;
      var known := 0;
      while known < |confirmedOutputProfiles| && confirmedOutputProfiles[known].card != profile.card
        invariant known <= |confirmedOutputProfiles|
        invariant forall j | 0 <= j < known :: confirmedOutputProfiles[j].card != profile.card
      {
        known := known + 1;
      }
      KnownIs(confirmedOutputProfiles, profile.card, known);
      if known == |confirmedOutputProfiles| {
        baselineOutputProfiles := baselineOutputProfiles + [profile];
        desiredOutputProfiles := desiredOutputProfiles + [profile];
        confirmedOutputProfiles := confirmedOutputProfiles + [profile];
      } else if confirmedOutputProfiles[known] != profile {
        confirmedOutputProfiles := confirmedOutputProfiles[known := profile];
        changed := true;
      }
    }

    method ReconnectSettingsTransaction(live: StartupConfig, revision: nat, profiles: Profiles)
      modifies this
      ensures Now() == Reconnect(old(Now()), live, revision, profiles)
    {
      hide ObserveProfiles, ProfilesChange;
      var _ := ObserveOutputProfiles(profiles);
      connected, confirmedLive, confirmedRevision := true, live, revision;
      inFlight, inFlightTarget := NoOperation, live;
      conflict, liveChangeFailed := false, false;
    }

    method ObserveSettingsRuntime(live: StartupConfig, revision: nat, profiles: Profiles)
      modifies this
      ensures Now() == Observe(old(Now()), live, revision, profiles)
    {
      hide ObserveProfiles, ProfilesChange, ConfigMatches;
      if !connected {
        ReconnectSettingsTransaction(live, revision, profiles);
        return;
      }
      if !inFlight.NoOperation? || revision < confirmedRevision {
        return;
      }
      var profilesChanged := ObserveOutputProfiles(profiles);
      if !profilesChanged && ConfigMatches(confirmedLive, live) {
        confirmedRevision := revision;
        return;
      }
      confirmedLive, confirmedRevision := live, revision;
      conflict, liveChangeFailed := true, false;
    }

    method RequestSettingsCancel()
      modifies this
      ensures Now() == Cancel(old(Now()))
    {
      desiredLive, desiredOutputProfiles := baselineLive, baselineOutputProfiles;
      cancelRequested, conflict, liveChangeFailed := true, false, false;
    }

    method CompleteSettingsPersistence(success: bool)
      modifies this
      ensures Now() == CompletePersistence(old(Now()), success)
    {
      if !success {
        return;
      }
      saved, baselineLive, baselineOutputProfiles := desiredLive, confirmedLive, confirmedOutputProfiles;
      conflict := false;
    }
  }

  lemma KnownIs(profiles: Profiles, card: OutputCardIdentity, k: nat)
    requires k <= |profiles| && (k < |profiles| ==> profiles[k].card == card)
    requires forall i | 0 <= i < k :: profiles[i].card != card
    ensures Known(profiles, card) == k
  {
  }
}
