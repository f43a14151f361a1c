/** What the mapping edits promise for every valid draft and over every sequence of edits. */
module OutputMappingLaws {
  import opened OutputRouting
  import opened OutputMapping

  // ---------------------------------------------------------------- remove

  /** Where output `i` of the shortened list was before. */
  function Unshift(i: nat, k: nat): nat { if i < k then i else i + 1 }

  lemma RemoveOutputsOk(c: OutputConfiguration, k: nat)
    requires DraftValid(c) && k < |c.outputs|
    ensures OutputsOk(RemoveCandidate(c, k).outputs)
  {
    hide OutputOk, SameProfile, SlotsOk;
    var outputs := RemoveCandidate(c, k).outputs;
    assert forall i | 0 <= i < |outputs| :: outputs[i] == c.outputs[Unshift(i, k)];
  }

  lemma RemoveSlotsOk(c: OutputConfiguration, k: nat)
    requires DraftValid(c) && k < |c.outputs|
    ensures SlotsOk(RemoveCandidate(c, k).channels, RemoveCandidate(c, k).outputs)
  {
    hide OutputOk, SlotOk, DistinctDevices, HasSlot;
    var outputs, channels := RemoveCandidate(c, k).outputs, RemoveCandidate(c, k).channels;
    forall s | 0 <= s < |channels| ensures SlotOk(channels[s], outputs) {
      ReleasedSlotOk(c.channels[s], c.outputs, k);
    }
    forall i: nat, ch: nat | i < |outputs| && ch < outputs[i].Width() ensures HasSlot(channels, outputs[i].id, ch) {
      var o := Unshift(i, k);
      assert outputs[i] == c.outputs[o] && HasSlot(c.channels, c.outputs[o].id, ch);
      KeptSlot(c.channels, c.outputs[k].id, c.outputs[o].id, ch);
    }
  }

  lemma ReleasedSlotOk(slot: OutputChannelSlot, outputs: seq<ConfiguredOutput>, k: nat)
    requires SlotOk(slot, outputs) && k < |outputs| && UniqueIds(outputs)
    ensures SlotOk(Released(slot, outputs[k].id), outputs[..k] + outputs[k + 1..])
  {
    if slot.Assigned() && slot.outputId != outputs[k].id {
      var o :| 0 <= o < |outputs| && outputs[o].id == slot.outputId && slot.deviceChannel < outputs[o].Width();
      assert (outputs[..k] + outputs[k + 1..])[if o < k then o else o - 1] == outputs[o];
    }
  }

  /** The slot of another device survives a removal. */
  lemma KeptSlot(channels: seq<OutputChannelSlot>, removed: string, id: string, ch: nat)
    requires HasSlot(channels, id, ch) && id != removed
    ensures HasSlot(ReleasedAll(channels, removed)[..KeptLength(channels, removed)], id, ch)
  {
    var s :| 0 <= s < |channels| && channels[s].outputId == id && channels[s].deviceChannel == ch;
    assert ReleasedAll(channels, removed)[..KeptLength(channels, removed)][s] == channels[s];
  }

  /** Removing a configured device never fails on a valid draft; every other slot keeps its number and
      contents, the removed device's slots stay reserved with their label, and only the maximal trailing
      run it owned disappears. */
  lemma RemoveLaw(c: OutputConfiguration, id: string)
    requires DraftValid(c) && Find(c.outputs, id) < |c.outputs|
    ensures var r := Remove(c, id);
            var kept := |r.configuration.channels|;
            && r.error == NoError && DraftValid(r.configuration) && r.configuration.mode == c.mode
            && kept <= |c.channels|
            && (forall s | 0 <= s < kept && c.channels[s].outputId != id :: r.configuration.channels[s] == c.channels[s])
            && (forall s | 0 <= s < kept && c.channels[s].outputId == id ::
                  r.configuration.channels[s] == OutputChannelSlot("", 0, c.channels[s].purpose))
            && (forall s | kept <= s < |c.channels| :: c.channels[s].outputId == id)
            && (kept > 0 ==> c.channels[kept - 1].outputId != id)
            && forall o :: (o in r.configuration.outputs) <==> (o in c.outputs && o.id != id)
  {
    hide OutputsOk, SlotsOk;
    var k := Find(c.outputs, id);
    RemoveOutputsOk(c, k);
    RemoveSlotsOk(c, k);
    RemovedOutputs(c.outputs, k);
  }

  lemma RemovedOutputs(outputs: seq<ConfiguredOutput>, k: nat)
    requires OutputsOk(outputs) && k < |outputs|
    ensures forall o :: (o in outputs[..k] + outputs[k + 1..]) <==> (o in outputs && o.id != outputs[k].id)
  {
    forall o | o in outputs && o.id != outputs[k].id ensures o in outputs[..k] + outputs[k + 1..] {
      var i :| 0 <= i < |outputs| && outputs[i] == o;
      assert if i < k then outputs[..k][i] == o else outputs[k + 1..][i - k - 1] == o;
    }
  }

  // ---------------------------------------------------------------- compact

  lemma {:induction false} CompactDistributes(a: seq<OutputChannelSlot>, b: seq<OutputChannelSlot>)
    ensures AssignedOnly(a + b) == AssignedOnly(a) + AssignedOnly(b)
  {
    if b == [] {
      assert a + b == a;
    } else {
      var init := b[..|b| - 1];
      assert (a + b)[..|a + b| - 1] == a + init;
      CompactDistributes(a, init);
    }
  }

  lemma {:induction false} CompactKeepsAssigned(channels: seq<OutputChannelSlot>)
    requires forall s | 0 <= s < |channels| :: channels[s].Assigned()
    ensures AssignedOnly(channels) == channels
  {
    if channels != [] {
      CompactKeepsAssigned(channels[..|channels| - 1]);
    }
  }

  /** Every compacted slot is an old one, further right by the reserved slots in between: the order-
      preserving embedding of the result into the original. */
  function Source(channels: seq<OutputChannelSlot>, s: nat): (t: nat)
    requires s < |AssignedOnly(channels)|
    ensures s <= t < |channels| && channels[t] == AssignedOnly(channels)[s]
  {
    if s < |AssignedOnly(channels[..|channels| - 1])| then Source(channels[..|channels| - 1], s) else |channels| - 1
  }

  lemma {:induction false} SourceIncreases(channels: seq<OutputChannelSlot>, s: nat, t: nat)
    requires s < t < |AssignedOnly(channels)|
    ensures Source(channels, s) < Source(channels, t)
  {
    if t < |AssignedOnly(channels[..|channels| - 1])| {
      SourceIncreases(channels[..|channels| - 1], s, t);
    }
  }

  /** No assigned slot is lost: it is found behind the assigned slots before it. */
  lemma {:induction false} SourceCovers(channels: seq<OutputChannelSlot>, t: nat)
    requires t < |channels| && channels[t].Assigned()
    ensures |AssignedOnly(channels[..t])| < |AssignedOnly(channels)|
    ensures Source(channels, |AssignedOnly(channels[..t])|) == t
  {
    var init := channels[..|channels| - 1];
    if t < |init| {
      assert init[..t] == channels[..t];
      SourceCovers(init, t);
    }
  }

  lemma CompactSlotsOk(channels: seq<OutputChannelSlot>, outputs: seq<ConfiguredOutput>)
    requires SlotsOk(channels, outputs) && OutputsOk(outputs)
    ensures SlotsOk(AssignedOnly(channels), outputs)
  {
    var compacted := AssignedOnly(channels);
    forall s | 0 <= s < |compacted| ensures SlotOk(compacted[s], outputs) {
      assert compacted[s] == channels[Source(channels, s)];
    }
    forall s, t | 0 <= s < t < |compacted| && compacted[s].Assigned()
      ensures compacted[s].outputId != compacted[t].outputId || compacted[s].deviceChannel != compacted[t].deviceChannel
    {
      SourceIncreases(channels, s, t);
      assert compacted[s] == channels[Source(channels, s)] && compacted[t] == channels[Source(channels, t)];
    }
    forall o: nat, ch: nat | o < |outputs| && ch < outputs[o].Width() ensures HasSlot(compacted, outputs[o].id, ch) {
      assert HasSlot(channels, outputs[o].id, ch) && OutputOk(outputs[o]);
      var t :| 0 <= t < |channels| && channels[t].outputId == outputs[o].id && channels[t].deviceChannel == ch;
      SourceCovers(channels, t);
      assert compacted[|AssignedOnly(channels[..t])|] == channels[t];
    }
  }

  /** Compaction never fails on a valid draft, keeps the devices, and compacting again changes nothing. */
  lemma CompactLaw(c: OutputConfiguration)
    requires DraftValid(c)
    ensures var r := Compact(c);
            && r.error == NoError && DraftValid(r.configuration)
            && r.configuration == c.(channels := AssignedOnly(c.channels))
            && Compact(r.configuration) == r
  {
    CompactSlotsOk(c.channels, c.outputs);
    CompactKeepsAssigned(AssignedOnly(c.channels));
  }

  // ---------------------------------------------------------------- move

  /** Where slot `s` of the moved sequence came from. */
  function MovedFrom(s: nat, from: nat, to: nat): nat {
    if s == to then from
    else if from < to && from <= s < to then s + 1
    else if to < from && to < s <= from then s - 1
    else s
  }

  lemma MovedAt<T>(xs: seq<T>, from: nat, to: nat, s: nat)
    requires from < |xs| && to < |xs| && s < |xs|
    ensures MovedFrom(s, from, to) < |xs| && Moved(xs, from, to)[s] == xs[MovedFrom(s, from, to)]
  {
    var e := Erased(xs, from);
    assert forall i | 0 <= i < |e| :: e[i] == xs[if i < from then i else i + 1];
  }

  /** A move renumbers slots without losing, duplicating or altering any. */
  lemma MovedIsRenumbering<T>(xs: seq<T>, from: nat, to: nat)
    requires from < |xs| && to < |xs|
    ensures forall s: nat | s < |xs| ::
              MovedFrom(s, from, to) < |xs| && Moved(xs, from, to)[s] == xs[MovedFrom(s, from, to)]
    ensures forall s: nat | s < |xs| :: MovedFrom(MovedFrom(s, to, from), from, to) == s
    ensures Moved(Moved(xs, from, to), to, from) == xs
  {
    forall s: nat | s < |xs|
      ensures MovedFrom(s, from, to) < |xs| && Moved(xs, from, to)[s] == xs[MovedFrom(s, from, to)]
      ensures Moved(Moved(xs, from, to), to, from)[s] == xs[s]
    {
      MovedAt(xs, from, to, s);
      MovedAt(Moved(xs, from, to), to, from, s);
      MovedAt(xs, from, to, MovedFrom(s, to, from));
    }
  }

  /** Beside the moved slot the others keep their order. */
  lemma MoveKeepsOrder<T>(xs: seq<T>, from: nat, to: nat)
    requires from < |xs| && to < |xs|
    ensures Moved(xs, from, to)[..to] + Moved(xs, from, to)[to + 1..] == xs[..from] + xs[from + 1..]
  {
    var rest := xs[..from] + xs[from + 1..];
    assert Moved(xs, from, to)[..to] == rest[..to] && Moved(xs, from, to)[to + 1..] == rest[to..];
  }

  lemma MoveSlotsOk(channels: seq<OutputChannelSlot>, outputs: seq<ConfiguredOutput>, from: nat, to: nat)
    requires SlotsOk(channels, outputs) && from < |channels| && to < |channels|
    ensures SlotsOk(Moved(channels, from, to), outputs)
  {
    hide Moved;
    var moved := Moved(channels, from, to);
    MovedIsRenumbering(channels, from, to);
    forall s, t | 0 <= s < t < |moved| && moved[s].Assigned()
      ensures moved[s].outputId != moved[t].outputId || moved[s].deviceChannel != moved[t].deviceChannel
    {
      assert moved[s] == channels[MovedFrom(s, from, to)] && moved[t] == channels[MovedFrom(t, from, to)];
    }
    forall o: nat, ch: nat | o < |outputs| && ch < outputs[o].Width() ensures HasSlot(moved, outputs[o].id, ch) {
      assert HasSlot(channels, outputs[o].id, ch);
      var t: nat :| t < |channels| && channels[t].outputId == outputs[o].id && channels[t].deviceChannel == ch;
      assert moved[MovedFrom(t, to, from)] == channels[t];
    }
  }

  /** A move within range never fails on a valid draft, labels travel with their assignment, and the
      inverse move restores the whole configuration. */
  lemma MoveLaw(c: OutputConfiguration, from: nat, to: nat)
    requires DraftValid(c) && from < |c.channels| && to < |c.channels|
    ensures var r := Move(c, from, to);
            && r.error == NoError && DraftValid(r.configuration)
            && r.configuration == c.(channels := Moved(c.channels, from, to))
            && r.configuration.channels[to] == c.channels[from]
            && r.configuration.channels[..to] + r.configuration.channels[to + 1..] == c.channels[..from] + c.channels[from + 1..]
            && Move(r.configuration, to, from) == EditResult(c, NoError)
  {
    hide Moved, SlotsOk;
    MoveSlotsOk(c.channels, c.outputs, from, to);
    MovedIsRenumbering(c.channels, from, to);
    MoveKeepsOrder(c.channels, from, to);
    assert MovedFrom(to, from, to) == from;
  }

  // ---------------------------------------------------------------- replace

  /** How many channels a device of `width` channels has beyond the first `was`. */
  function Added(was: nat, width: nat): nat { if was < width then width - was else 0 }

  /** What a caller can check before replacing output `k`. */
  predicate Replaceable(c: OutputConfiguration, k: nat, device: OutputDeviceDescription)
    requires k < |c.outputs|
  {
    var o := c.outputs[k];
    && DeviceOk(device)
    && (o.profileIntent.Some? ==> IntentOk(o.profileIntent.value, device.identity))
    && (forall i | 0 <= i < |c.outputs| && i != k :: !SameProfile(c.outputs[i].device, device))
    && |c.channels| + Added(o.Width(), |device.channelPositions|) <= MAX_CHANNELS
  }

  lemma ReplaceOutputsOk(c: OutputConfiguration, k: nat, device: OutputDeviceDescription)
    requires DraftValid(c) && k < |c.outputs|
    ensures OutputsOk(ReplaceCandidate(c, k, device).outputs) <==>
            && OutputOk(c.outputs[k].(device := device))
            && forall i | 0 <= i < |c.outputs| && i != k :: !SameProfile(c.outputs[i].device, device)
  {
    hide OutputOk, SlotsOk;
    var outputs := ReplaceCandidate(c, k, device).outputs;
    assert UniqueIds(outputs);
    assert forall i | 0 <= i < |outputs| :: outputs[i] == if i == k then c.outputs[k].(device := device) else c.outputs[i];
    if OutputsOk(outputs) {
      assert OutputOk(outputs[k]);
      forall i | 0 <= i < |c.outputs| && i != k ensures !SameProfile(c.outputs[i].device, device) {
        assert DistinctDevices(outputs);
        if i < k {
          assert !SameProfile(outputs[i].device, outputs[k].device);
        } else {
          assert !SameProfile(outputs[k].device, outputs[i].device);
        }
      }
    }
  }

  lemma NarrowedSlotOk(slot: OutputChannelSlot, outputs: seq<ConfiguredOutput>, k: nat, device: OutputDeviceDescription)
    requires SlotOk(slot, outputs) && k < |outputs| && UniqueIds(outputs)
    ensures SlotOk(Narrowed(slot, outputs[k].id, |device.channelPositions|),
                   outputs[k := outputs[k].(device := device)])
  {
    var next := outputs[k := outputs[k].(device := device)];
    if slot.Assigned() {
      var o :| 0 <= o < |outputs| && outputs[o].id == slot.outputId && slot.deviceChannel < outputs[o].Width();
      assert next[o].id == slot.outputId;
    }
  }

  lemma ReplaceSlotsOk(c: OutputConfiguration, k: nat, device: OutputDeviceDescription)
    requires DraftValid(c) && k < |c.outputs|
    requires |ReplaceCandidate(c, k, device).channels| <= MAX_CHANNELS
    ensures SlotsOk(ReplaceCandidate(c, k, device).channels, ReplaceCandidate(c, k, device).outputs)
  {
    hide SlotOk, DistinctDevices, HasSlot, DeviceOk;
    var o, width := c.outputs[k], |device.channelPositions|;
    var outputs, channels := ReplaceCandidate(c, k, device).outputs, ReplaceCandidate(c, k, device).channels;
    assert OutputOk(o);
    forall s | 0 <= s < |channels| ensures SlotOk(channels[s], outputs) {
      if s < |c.channels| {
        NarrowedSlotOk(c.channels[s], c.outputs, k, device);
      } else {
        FreshSlotOk(outputs, k, o.Width() + s - |c.channels|);
      }
    }
    ReplaceUnique(c, k, device);
    forall i: nat, ch: nat | i < |outputs| && ch < outputs[i].Width() ensures HasSlot(channels, outputs[i].id, ch) {
      ReplaceCovers(c, k, device, i, ch);
    }
  }

  lemma FreshSlotOk(outputs: seq<ConfiguredOutput>, k: nat, ch: nat)
    requires k < |outputs| && outputs[k].id != "" && NoNul(outputs[k].id) && ch < outputs[k].Width()
    ensures SlotOk(OutputChannelSlot(outputs[k].id, ch, ""), outputs)
  {
  }

  lemma ReplaceUnique(c: OutputConfiguration, k: nat, device: OutputDeviceDescription)
    requires DraftValid(c) && k < |c.outputs|
    ensures UniqueChannels(ReplaceCandidate(c, k, device).channels)
  {
    hide OutputOk, DistinctDevices, FullyAssigned;
    var channels := ReplaceCandidate(c, k, device).channels;
    forall s, t | 0 <= s < t < |channels| && channels[s].Assigned()
      ensures channels[s].outputId != channels[t].outputId || channels[s].deviceChannel != channels[t].deviceChannel
    {
      if s < |c.channels| <= t && channels[s].outputId == c.outputs[k].id {
        OwnedBelowWidth(c, k, s);
      }
    }
  }

  lemma OwnedBelowWidth(c: OutputConfiguration, k: nat, s: nat)
    requires DraftValid(c) && k < |c.outputs| && s < |c.channels| && c.channels[s].outputId == c.outputs[k].id
    ensures c.channels[s].deviceChannel < c.outputs[k].Width()
  {
    assert SlotOk(c.channels[s], c.outputs) && OutputOk(c.outputs[k]);
  }

  lemma ReplaceCovers(c: OutputConfiguration, k: nat, device: OutputDeviceDescription, i: nat, ch: nat)
    requires DraftValid(c) && k < |c.outputs|
    requires i < |c.outputs| && ch < ReplaceCandidate(c, k, device).outputs[i].Width()
    ensures HasSlot(ReplaceCandidate(c, k, device).channels, c.outputs[i].id, ch)
  {
    hide OutputOk, DistinctDevices, SlotOk;
    var o, width, channels := c.outputs[k], |device.channelPositions|, ReplaceCandidate(c, k, device).channels;
    if ch < c.outputs[i].Width() {
      assert HasSlot(c.channels, c.outputs[i].id, ch);
      var s :| 0 <= s < |c.channels| && c.channels[s].outputId == c.outputs[i].id && c.channels[s].deviceChannel == ch;
      assert channels[s] == c.channels[s];
    } else {
      assert channels[|c.channels| + ch - o.Width()] == OutputChannelSlot(o.id, ch, "");
    }
  }

  /** Replacing a configured device succeeds exactly when the new device is well formed, used nowhere
      else and fits; then every other slot keeps its number and contents, surviving channels keep theirs
      with their label, vanished channels stay reserved, and new channels follow at the end. */
  lemma ReplaceLaw(c: OutputConfiguration, id: string, device: OutputDeviceDescription)
    requires DraftValid(c) && Find(c.outputs, id) < |c.outputs|
    ensures var k, r := Find(c.outputs, id), Replace(c, id, device);
            && (r.error == NoError <==> Replaceable(c, k, device))
            && (r.error != NoError ==> r.configuration == c)
            && (r.error == NoError ==>
                  && DraftValid(r.configuration) && r.configuration.mode == c.mode
                  && |r.configuration.channels| == |c.channels| + Added(c.outputs[k].Width(), |device.channelPositions|)
                  && (forall s | 0 <= s < |c.channels| && c.channels[s].outputId != id ::
                        r.configuration.channels[s] == c.channels[s])
                  && (forall s | 0 <= s < |c.channels| && c.channels[s].outputId == id ::
                        r.configuration.channels[s] ==
                          if c.channels[s].deviceChannel < |device.channelPositions| then c.channels[s]
                          else OutputChannelSlot("", 0, c.channels[s].purpose))
                  && (forall s | |c.channels| <= s < |r.configuration.channels| ::
                        r.configuration.channels[s] == OutputChannelSlot(id, c.outputs[k].Width() + s - |c.channels|, ""))
                  && r.configuration.outputs == c.outputs[k := c.outputs[k].(device := device)])
  {
    hide OutputsOk, SlotsOk, SameProfile, DeviceOk, IntentOk;
    var k := Find(c.outputs, id);
    ReplaceOutputsOk(c, k, device);
    ReplacedOutputOk(c, k, device);
    if |ReplaceCandidate(c, k, device).channels| <= MAX_CHANNELS {
      ReplaceSlotsOk(c, k, device);
    } else {
      TooManySlots(ReplaceCandidate(c, k, device));
    }
    WidthOk(device);
  }

  lemma WidthOk(device: OutputDeviceDescription)
    ensures DeviceOk(device) ==> 1 <= |device.channelPositions| <= MAX_CHANNELS
  {
  }

  lemma TooManySlots(c: OutputConfiguration)
    requires |c.channels| > MAX_CHANNELS
    ensures !DraftValid(c)
  {
  }

  lemma ReplacedOutputOk(c: OutputConfiguration, k: nat, device: OutputDeviceDescription)
    requires DraftValid(c) && k < |c.outputs|
    ensures OutputOk(c.outputs[k].(device := device)) <==>
            && DeviceOk(device)
            && (c.outputs[k].profileIntent.Some? ==> IntentOk(c.outputs[k].profileIntent.value, device.identity))
  {
    assert OutputOk(c.outputs[k]);
  }

  // ---------------------------------------------------------------- sequences of edits

  datatype Edit =
    | RemoveEdit(id: string)
    | CompactEdit
    | MoveEdit(from: nat, to: nat)
    | ReplaceEdit(id: string, device: OutputDeviceDescription)

  function Perform(c: OutputConfiguration, e: Edit): EditResult {
    match e
    case RemoveEdit(id) => Remove(c, id)
    case CompactEdit => Compact(c)
    case MoveEdit(from, to) => Move(c, from, to)
    case ReplaceEdit(id, device) => Replace(c, id, device)
  }

  function PerformAll(c: OutputConfiguration, edits: seq<Edit>): OutputConfiguration
    decreases |edits|
  {
    if edits == [] then c else PerformAll(Perform(c, edits[0]).configuration, edits[1..])
  }

  /** The draft stays valid after any sequence of edits, so every channel of every configured device has exactly one
      slot throughout. */
  lemma {:induction false} EditsKeepDraft(c: OutputConfiguration, edits: seq<Edit>)
    requires DraftValid(c)
    ensures DraftValid(PerformAll(c, edits))
    decreases |edits|
  {
    hide DraftValid, Reviewed;
    if edits != [] {
      EditKeepsDraft(c, edits[0]);
      EditsKeepDraft(Perform(c, edits[0]).configuration, edits[1..]);
    }
  }

  /** A failed edit changes nothing, and on a valid draft only a replacement can be turned down by validation. */
  lemma EditKeepsDraft(c: OutputConfiguration, e: Edit)
    requires DraftValid(c)
    ensures DraftValid(Perform(c, e).configuration)
    ensures Perform(c, e).error != NoError ==> Perform(c, e).configuration == c
    ensures Perform(c, e).error == Rejected ==> e.ReplaceEdit?
  {
    hide OutputsOk, SlotsOk;
    match e
    case RemoveEdit(id) =>
      if Find(c.outputs, id) < |c.outputs| {
        RemoveLaw(c, id);
      }
    case CompactEdit => CompactLaw(c);
    case MoveEdit(from, to) =>
      if from < |c.channels| && to < |c.channels| {
        MoveLaw(c, from, to);
      }
    case ReplaceEdit(_, _) =>
  }
}
