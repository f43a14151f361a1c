/** The edits of the channel mapping editor: each copies the configuration, edits the copy in place and
    returns it only if it is still a valid draft. */
module OutputMapping {
  import opened OutputRouting

  datatype EditError = NoError | UnknownOutput | OutOfRange | BadWidth | Rejected

  datatype EditResult = EditResult(configuration: OutputConfiguration, error: EditError)

  /** The index of the first output with this id, or the number of outputs. */
  function Find(outputs: seq<ConfiguredOutput>, id: string): (k: nat)
    ensures k <= |outputs|
    ensures k < |outputs| ==> outputs[k].id == id
    ensures forall i | 0 <= i < k :: outputs[i].id != id
  {
    if outputs == [] || outputs[0].id == id then 0 else 1 + Find(outputs[1..], id)
  }

  function Reviewed(original: OutputConfiguration, candidate: OutputConfiguration): EditResult {
    if DraftValid(candidate) then EditResult(candidate, NoError) else EditResult(original, Rejected)
  }

  method Review(original: OutputConfiguration, candidate: OutputConfiguration) returns (r: EditResult)
    ensures r == Reviewed(original, candidate)
  {
    // A draft may have no enabled output: the mode-dependent check is left to confirmation.
    r := if Validates(candidate.(mode := Single)) then EditResult(candidate, NoError) else EditResult(original, Rejected);
  }

  // ---------------------------------------------------------------- remove

  function Released(slot: OutputChannelSlot, id: string): OutputChannelSlot {
    if slot.outputId == id then OutputChannelSlot("", 0, slot.purpose) else slot
  }

  function ReleasedAll(channels: seq<OutputChannelSlot>, id: string): (r: seq<OutputChannelSlot>)
    ensures |r| == |channels| && forall s | 0 <= s < |r| :: r[s] == Released(channels[s], id)
  {
    seq(|channels|, s requires 0 <= s < |channels| => Released(channels[s], id))
  }

  /** The length left after the maximal trailing run of slots owned by `id`. */
  function KeptLength(channels: seq<OutputChannelSlot>, id: string): (n: nat)
    ensures n <= |channels|
    ensures forall s | n <= s < |channels| :: channels[s].outputId == id
    ensures n > 0 ==> channels[n - 1].outputId != id
  {
    if channels == [] then 0
    else if channels[|channels| - 1].outputId == id then KeptLength(channels[..|channels| - 1], id)
    else |channels|
  }

  function RemoveCandidate(c: OutputConfiguration, k: nat): OutputConfiguration
    requires k < |c.outputs|
  {
    var id := c.outputs[k].id;
    c.(outputs := c.outputs[..k] + c.outputs[k + 1..],
       channels := ReleasedAll(c.channels, id)[..KeptLength(c.channels, id)])
  }

  function Remove(c: OutputConfiguration, id: string): EditResult {
    var k := Find(c.outputs, id);
    if k == |c.outputs| then EditResult(c, UnknownOutput) else Reviewed(c, RemoveCandidate(c, k))
  }

  method RemoveOutputDevice(c: OutputConfiguration, id: string) returns (r: EditResult)
    ensures r == Remove(c, id)
  {
    hide Reviewed, KeptLength;
    var found := FindOutput(c.outputs, id);
    if found == |c.outputs| {
      return EditResult(c, UnknownOutput);
    }
    var channels := c.channels;
    for s := 0 to |channels|
      invariant |channels| == |c.channels|
      invariant forall t | 0 <= t < s :: channels[t] == Released(c.channels[t], id)
      invariant forall t | s <= t < |channels| :: channels[t] == c.channels[t]
    {
      if channels[s].outputId == id {
        channels := channels[s := channels[s].(outputId := "", deviceChannel := 0)];
      }
    }
    assert channels == ReleasedAll(c.channels, id);
    channels := TrimOwned(channels, c.channels, id);
    r := Review(c, c.(outputs := c.outputs[..found] + c.outputs[found + 1..], channels := channels));
  }

  /** Drops trailing slots as long as the original configuration gave them to `id`. */
  method TrimOwned(candidate: seq<OutputChannelSlot>, original: seq<OutputChannelSlot>, id: string)
    returns (channels: seq<OutputChannelSlot>)
    requires |candidate| == |original|
    ensures channels == candidate[..KeptLength(original, id)]
  {
    channels := candidate;
    assert original[..|original|] == original;
    while channels != [] && original[|channels| - 1].outputId == id
      invariant |channels| <= |original|
      invariant KeptLength(original[..|channels|], id) == KeptLength(original, id)
      invariant channels == candidate[..|channels|]
    {
      assert original[..|channels|][..|channels| - 1] == original[..|channels| - 1];
      channels := channels[..|channels| - 1];
    }
  }

  method FindOutput(outputs: seq<ConfiguredOutput>, id: string) returns (k: nat)
    ensures k == Find(outputs, id)
  {
    k := 0;
    while k < |outputs| && outputs[k].id != id
      invariant k <= |outputs|
      invariant forall i | 0 <= i < k :: outputs[i].id != id
    {
      k := k + 1;
    }
    FindIsFirst(outputs, id, k);
  }

  lemma FindIsFirst(outputs: seq<ConfiguredOutput>, id: string, k: nat)
    requires k <= |outputs| && (k < |outputs| ==> outputs[k].id == id)
    requires forall i | 0 <= i < k :: outputs[i].id != id
    ensures Find(outputs, id) == k
  {
  }

  // ---------------------------------------------------------------- compact

  function AssignedOnly(channels: seq<OutputChannelSlot>): (r: seq<OutputChannelSlot>)
    ensures |r| <= |channels|
    ensures forall s | 0 <= s < |r| :: r[s].Assigned()
  {
    if channels == [] then []
    else AssignedOnly(channels[..|channels| - 1])
         + if channels[|channels| - 1].Assigned() then [channels[|channels| - 1]] else []
  }

  function Compact(c: OutputConfiguration): EditResult {
    Reviewed(c, c.(channels := AssignedOnly(c.channels)))
  }

  method CompactOutputChannels(c: OutputConfiguration) returns (r: EditResult)
    ensures r == Compact(c)
  {
    var channels: seq<OutputChannelSlot> := [];
    for s := 0 to |c.channels|
      invariant channels == AssignedOnly(c.channels[..s])
    {
      assert c.channels[..s + 1][..s] == c.channels[..s];
      if c.channels[s].Assigned() {
        channels := channels + [c.channels[s]];
      }
    }
    assert c.channels[..|c.channels|] == c.channels;
    r := Review(c, c.(channels := channels));
  }

  // ---------------------------------------------------------------- move

  function Erased<T>(s: seq<T>, i: nat): seq<T> requires i < |s| { s[..i] + s[i + 1..] }

  function Inserted<T>(s: seq<T>, i: nat, x: T): seq<T> requires i <= |s| { s[..i] + [x] + s[i..] }

  function Moved<T>(s: seq<T>, from: nat, to: nat): (r: seq<T>)
    requires from < |s| && to < |s|
    ensures |r| == |s|
  {
    Inserted(Erased(s, from), to, s[from])
  }

  function Move(c: OutputConfiguration, from: nat, to: nat): EditResult {
    if from >= |c.channels| || to >= |c.channels| then EditResult(c, OutOfRange)
    else Reviewed(c, c.(channels := Moved(c.channels, from, to)))
  }

  method MoveOutputChannel(c: OutputConfiguration, from: nat, to: nat) returns (r: EditResult)
    ensures r == Move(c, from, to)
  {
    if from >= |c.channels| || to >= |c.channels| {
      return EditResult(c, OutOfRange);
    }
    var slot := c.channels[from];
    var channels := c.channels[..from] + c.channels[from + 1..];
    channels := channels[..to] + [slot] + channels[to..];
    r := Review(c, c.(channels := channels));
  }

  // ---------------------------------------------------------------- replace

  function Narrowed(slot: OutputChannelSlot, id: string, width: nat): OutputChannelSlot {
    if slot.outputId == id && slot.deviceChannel >= width then OutputChannelSlot("", 0, slot.purpose) else slot
  }

  function NarrowedAll(channels: seq<OutputChannelSlot>, id: string, width: nat): (r: seq<OutputChannelSlot>)
    ensures |r| == |channels| && forall s | 0 <= s < |r| :: r[s] == Narrowed(channels[s], id, width)
  {
    seq(|channels|, s requires 0 <= s < |channels| => Narrowed(channels[s], id, width))
  }

  /** Slots for the channels `from..width` of an output. */
  function Fresh(id: string, from: nat, width: nat): (r: seq<OutputChannelSlot>)
    ensures |r| == if from < width then width - from else 0
    ensures forall k | 0 <= k < |r| :: r[k] == OutputChannelSlot(id, from + k, "")
  {
    seq(if from < width then width - from else 0, k requires 0 <= k => OutputChannelSlot(id, from + k, ""))
  }

  function ReplaceCandidate(c: OutputConfiguration, k: nat, device: OutputDeviceDescription): OutputConfiguration
    requires k < |c.outputs|
  {
    var o := c.outputs[k];
    var width := |device.channelPositions|;
    c.(outputs := c.outputs[k := o.(device := device)],
       channels := NarrowedAll(c.channels, o.id, width) + Fresh(o.id, o.Width(), width))
  }

  function Replace(c: OutputConfiguration, id: string, device: OutputDeviceDescription): EditResult {
    var k := Find(c.outputs, id);
    if k == |c.outputs| then EditResult(c, UnknownOutput)
    else if !(1 <= |device.channelPositions| <= MAX_CHANNELS) then EditResult(c, BadWidth)
    else Reviewed(c, ReplaceCandidate(c, k, device))
  }

  method ReplaceOutputDevice(c: OutputConfiguration, id: string, device: OutputDeviceDescription) returns (r: EditResult)
    ensures r == Replace(c, id, device)
  {
    var found := FindOutput(c.outputs, id);
    if found == |c.outputs| {
      return EditResult(c, UnknownOutput);
    }
    var width := |device.channelPositions|;
    if width == 0 || width > MAX_CHANNELS {
      return EditResult(c, BadWidth);
    }
    var previousWidth := c.outputs[found].Width();
    var channels := c.channels;
    for s := 0 to |channels|
      invariant |channels| == |c.channels|
      invariant forall t | 0 <= t < s :: channels[t] == Narrowed(c.channels[t], id, width)
      invariant forall t | s <= t < |channels| :: channels[t] == c.channels[t]
    {
      if channels[s].outputId == id && channels[s].deviceChannel >= width {
        channels := channels[s := channels[s].(outputId := "", deviceChannel := 0)];
      }
    }
    ghost var narrowed := NarrowedAll(c.channels, id, width);
    assert channels == narrowed;
    var channel := previousWidth;
    while channel < width
      invariant previousWidth <= channel
      invariant channel <= width || channel == previousWidth
      invariant channels == narrowed + Fresh(id, previousWidth, if channel < width then channel else width)
    {
      assert Fresh(id, previousWidth, channel + 1)
          == Fresh(id, previousWidth, channel) + [OutputChannelSlot(id, channel, "")];
      channels := channels + [OutputChannelSlot(c.outputs[found].id, channel, "")];
      channel := channel + 1;
    }
    r := Review(c, c.(outputs := c.outputs[found := c.outputs[found].(device := device)], channels := channels));
  }
}
