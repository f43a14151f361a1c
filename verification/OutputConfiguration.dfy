/** Saved output routing: devices with their channel layouts, and the fixed DSP channel slots. */
module OutputRouting {
  import opened Options

  datatype OutputMode = Single | Multiple

  datatype OutputDeviceIdentity = OutputDeviceIdentity(
    api: string, location: string, port: string, vendor: string, product: string, serial: string)

  datatype OutputCardIdentity = OutputCardIdentity(
    api: string, location: string, vendor: string, product: string, serial: string)

  datatype OutputProfileIntent = OutputProfileIntent(card: OutputCardIdentity, outputKey: string)

  datatype OutputDeviceDescription = OutputDeviceDescription(
    identity: OutputDeviceIdentity, name: string, profile: string, channelPositions: seq<string>)

  datatype ConfiguredOutput = ConfiguredOutput(
    id: string, enabled: bool, device: OutputDeviceDescription, profileIntent: Option<OutputProfileIntent>)
  {
    function Width(): nat { |device.channelPositions| }
  }

  datatype OutputChannelSlot = OutputChannelSlot(outputId: string, deviceChannel: nat, purpose: string) {
    predicate Assigned() { outputId != "" }
  }

  datatype OutputConfiguration = OutputConfiguration(
    mode: OutputMode, outputs: seq<ConfiguredOutput>, channels: seq<OutputChannelSlot>)

  datatype OutputProfileSelection = OutputProfileSelection(
    card: OutputCardIdentity, cardProfileName: string, outputKey: string, allowMissingForRestore: bool)

  const MAX_CHANNELS := 16

  predicate NoNul(s: string) { '\0' !in s }

  predicate IdentityOk(i: OutputDeviceIdentity) {
    && NoNul(i.api) && NoNul(i.location) && NoNul(i.port) && NoNul(i.vendor) && NoNul(i.product) && NoNul(i.serial)
    && i.api != "" && i.location != "" && i.port != ""
  }

  predicate DeviceOk(d: OutputDeviceDescription) {
    && NoNul(d.name) && NoNul(d.profile) && IdentityOk(d.identity) && d.name != ""
    && 1 <= |d.channelPositions| <= MAX_CHANNELS
    && forall k | 0 <= k < |d.channelPositions| :: d.channelPositions[k] != "" && NoNul(d.channelPositions[k])
  }

  predicate IntentOk(intent: OutputProfileIntent, i: OutputDeviceIdentity) {
    && intent.outputKey != "" && NoNul(intent.outputKey)
    && intent.card == OutputCardIdentity(i.api, i.location, i.vendor, i.product, i.serial)
  }

  predicate OutputOk(o: ConfiguredOutput) {
    && o.id != "" && NoNul(o.id) && DeviceOk(o.device)
    && (o.profileIntent.Some? ==> IntentOk(o.profileIntent.value, o.device.identity))
  }

  predicate SameProfile(a: OutputDeviceDescription, b: OutputDeviceDescription) {
    a.identity == b.identity && a.profile == b.profile
  }

  predicate UniqueIds(outputs: seq<ConfiguredOutput>) {
    forall i, j | 0 <= i < j < |outputs| :: outputs[i].id != outputs[j].id
  }

  predicate DistinctDevices(outputs: seq<ConfiguredOutput>) {
    forall i, j | 0 <= i < j < |outputs| :: !SameProfile(outputs[i].device, outputs[j].device)
  }

  predicate OutputsOk(outputs: seq<ConfiguredOutput>) {
    && (forall i | 0 <= i < |outputs| :: OutputOk(outputs[i]))
    && UniqueIds(outputs) && DistinctDevices(outputs)
  }

  /** The slot is reserved, or names an existing channel of a configured output. */
  predicate SlotOk(slot: OutputChannelSlot, outputs: seq<ConfiguredOutput>) {
    && NoNul(slot.outputId) && NoNul(slot.purpose)
    && if slot.Assigned()
       then exists o | 0 <= o < |outputs| :: outputs[o].id == slot.outputId && slot.deviceChannel < outputs[o].Width()
       else slot.deviceChannel == 0
  }

  /** No physical channel has two slots. */
  predicate UniqueChannels(channels: seq<OutputChannelSlot>) {
    forall i, j | 0 <= i < j < |channels| && channels[i].Assigned() ::
      channels[i].outputId != channels[j].outputId || channels[i].deviceChannel != channels[j].deviceChannel
  }

  predicate HasSlot(channels: seq<OutputChannelSlot>, id: string, ch: nat) {
    exists s | 0 <= s < |channels| :: channels[s].outputId == id && channels[s].deviceChannel == ch
  }

  /** Every channel of every configured output has a slot. */
  predicate FullyAssigned(channels: seq<OutputChannelSlot>, outputs: seq<ConfiguredOutput>) {
    forall o: nat, ch: nat | o < |outputs| && ch < outputs[o].Width() :: HasSlot(channels, outputs[o].id, ch)
  }

  predicate SlotsOk(channels: seq<OutputChannelSlot>, outputs: seq<ConfiguredOutput>) {
    && |channels| <= MAX_CHANNELS
    && (forall s | 0 <= s < |channels| :: SlotOk(channels[s], outputs))
    && UniqueChannels(channels) && FullyAssigned(channels, outputs)
  }

  /** Everything the validation checks except that a device is enabled: what every draft keeps. */
  predicate DraftValid(c: OutputConfiguration) {
    OutputsOk(c.outputs) && SlotsOk(c.channels, c.outputs)
  }

  /** `validateOutputConfiguration` reports no error. */
  predicate Validates(c: OutputConfiguration) {
    DraftValid(c) && (c.mode.Multiple? ==> exists o | 0 <= o < |c.outputs| :: c.outputs[o].enabled)
  }
}
