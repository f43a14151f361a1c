/** The order in which configured devices are shown: by their lowest DSP channel. */
module OutputOrder {
  import opened OutputRouting

  // ---------------------------------------------------------------- keys

  /** The lowest slot of this output, or the number of slots. */
  function FirstSlot(channels: seq<OutputChannelSlot>, id: string): (s: nat)
    ensures s <= |channels|
    ensures s < |channels| ==> channels[s].outputId == id
    ensures forall t | 0 <= t < s :: channels[t].outputId != id
  {
    if channels == [] || channels[0].outputId == id then 0 else 1 + FirstSlot(channels[1..], id)
  }

  /** How many of the first `n` slots belong to this output. */
  function SlotsOf(channels: seq<OutputChannelSlot>, n: nat, id: string): (k: nat)
    requires n <= |channels|
  {
    if n == 0 then 0 else SlotsOf(channels, n - 1, id) + if channels[n - 1].outputId == id then 1 else 0
  }

  /** How many of the first `n` outputs have this identifier. */
  function Namesakes(outputs: seq<ConfiguredOutput>, n: nat, id: string): (k: nat)
    requires n <= |outputs|
  {
    if n == 0 then 0 else Namesakes(outputs, n - 1, id) + if outputs[n - 1].id == id then 1 else 0
  }

  /** How many namesakes come before an output. */
  function Turn(outputs: seq<ConfiguredOutput>, o: nat): nat
    requires o < |outputs|
  {
    Namesakes(outputs, o, outputs[o].id)
  }

  /** The key after the first `n` slots were looked at: the slot with `turn` slots of the same identifier before it, or
      the number of slots while there is none. */
  predicate KeyAfter(channels: seq<OutputChannelSlot>, n: nat, id: string, turn: nat, key: nat)
    requires n <= |channels|
  {
    if key < |channels| then key < n && channels[key].outputId == id && SlotsOf(channels, key, id) == turn
    else key == |channels| && SlotsOf(channels, n, id) <= turn
  }

  lemma {:induction false} SlotsGrow(channels: seq<OutputChannelSlot>, m: nat, n: nat, id: string)
    requires m <= n <= |channels|
    ensures SlotsOf(channels, m, id) <= SlotsOf(channels, n, id)
    ensures m < n && channels[m].outputId == id ==> SlotsOf(channels, m, id) < SlotsOf(channels, n, id)
  {
    if m < n {
      SlotsGrow(channels, m, n - 1, id);
    }
  }

  lemma {:induction false} NoSlots(channels: seq<OutputChannelSlot>, n: nat, id: string)
    requires n <= |channels|
    ensures SlotsOf(channels, n, id) == 0 <==> forall t | 0 <= t < n :: channels[t].outputId != id
  {
    if n > 0 {
      NoSlots(channels, n - 1, id);
    }
  }

  /** For the first output of its name the key is its lowest slot. */
  lemma FirstKeyIsFirstSlot(channels: seq<OutputChannelSlot>, id: string, key: nat)
    requires KeyAfter(channels, |channels|, id, 0, key)
    ensures key == FirstSlot(channels, id)
  {
    NoSlots(channels, key, id);
  }

  lemma {:induction false} UniqueHasNoNamesakes(outputs: seq<ConfiguredOutput>, o: nat, n: nat)
    requires UniqueIds(outputs) && n <= o < |outputs|
    ensures Namesakes(outputs, n, outputs[o].id) == 0
  {
    if n > 0 {
      UniqueHasNoNamesakes(outputs, o, n - 1);
      assert outputs[n - 1].id != outputs[o].id;
    }
  }

  lemma {:induction false} NamesakesGrow(outputs: seq<ConfiguredOutput>, m: nat, n: nat, id: string)
    requires m <= n <= |outputs|
    ensures Namesakes(outputs, m, id) <= Namesakes(outputs, n, id)
    ensures m < n && outputs[m].id == id ==> Namesakes(outputs, m, id) < Namesakes(outputs, n, id)
  {
    if m < n {
      NamesakesGrow(outputs, m, n - 1, id);
    }
  }

  /** The namesake just before the turn of somebody with one. */
  lemma {:induction false} PreviousNamesake(outputs: seq<ConfiguredOutput>, n: nat, id: string) returns (e: nat)
    requires n <= |outputs| && Namesakes(outputs, n, id) > 0
    ensures e < n && outputs[e].id == id && Namesakes(outputs, e, id) == Namesakes(outputs, n, id) - 1
  {
    if outputs[n - 1].id == id {
      e := n - 1;
    } else {
      e := PreviousNamesake(outputs, n - 1, id);
    }
  }

  /** Every key is the one its output has after `n` slots. */
  ghost predicate KeysAfter(c: OutputConfiguration, n: nat, keys: seq<nat>)
    requires n <= |c.channels|
  {
    && |keys| == |c.outputs|
    && forall o | 0 <= o < |c.outputs| :: KeyAfter(c.channels, n, c.outputs[o].id, Turn(c.outputs, o), keys[o])
  }

  lemma KeysStart(c: OutputConfiguration)
    ensures KeysAfter(c, 0, seq(|c.outputs|, _ => |c.channels|))
  {
  }

  predicate Waiting(c: OutputConfiguration, n: nat, keys: seq<nat>, o: nat)
    requires n < |c.channels| && o < |c.outputs| == |keys|
  {
    c.channels[n].outputId == c.outputs[o].id && keys[o] == |c.channels|
  }

  /** The first output waiting for the next slot is the one whose turn it is. */
  lemma TurnOfFirstWaiting(c: OutputConfiguration, n: nat, keys: seq<nat>, o: nat)
    requires n < |c.channels| && KeysAfter(c, n, keys) && o < |c.outputs|
    requires Waiting(c, n, keys, o) && forall e | 0 <= e < o :: !Waiting(c, n, keys, e)
    ensures Turn(c.outputs, o) == SlotsOf(c.channels, n, c.outputs[o].id)
  {
    var id := c.outputs[o].id;
    assert KeyAfter(c.channels, n, id, Turn(c.outputs, o), keys[o]);
    if Turn(c.outputs, o) > 0 {
      var e := PreviousNamesake(c.outputs, o, id);
      assert !Waiting(c, n, keys, e) && KeyAfter(c.channels, n, id, Turn(c.outputs, e), keys[e]);
      SlotsGrow(c.channels, keys[e], n, id);
    }
  }

  /** Giving the slot to the first one waiting, or to nobody, keeps every key right. */
  lemma KeysStep(c: OutputConfiguration, n: nat, keys: seq<nat>, o: nat)
    requires n < |c.channels| && KeysAfter(c, n, keys) && o <= |c.outputs|
    requires forall e | 0 <= e < o :: !Waiting(c, n, keys, e)
    requires o < |c.outputs| ==> Waiting(c, n, keys, o)
    ensures KeysAfter(c, n + 1, if o < |c.outputs| then keys[o := n] else keys)
  {
    var next := if o < |c.outputs| then keys[o := n] else keys;
    if o < |c.outputs| {
      TurnOfFirstWaiting(c, n, keys, o);
    }
    forall p | 0 <= p < |c.outputs|
      ensures KeyAfter(c.channels, n + 1, c.outputs[p].id, Turn(c.outputs, p), next[p])
    {
      assert KeyAfter(c.channels, n, c.outputs[p].id, Turn(c.outputs, p), keys[p]);
      if p != o && keys[p] == |c.channels| && c.channels[n].outputId == c.outputs[p].id {
        assert Waiting(c, n, keys, p) && o < p;
        NamesakesGrow(c.outputs, o, p, c.outputs[p].id);
      }
    }
  }

  // ---------------------------------------------------------------- the order

  /** `a` comes before `b`: smaller key, or the same key and the earlier position. */
  predicate Precedes(keys: seq<nat>, a: nat, b: nat)
    requires a < |keys| && b < |keys|
  {
    keys[a] < keys[b] || (keys[a] == keys[b] && a < b)
  }

  predicate InRange(order: seq<nat>, n: nat) { forall i | 0 <= i < |order| :: order[i] < n }

  predicate Ordered(order: seq<nat>, keys: seq<nat>)
    requires InRange(order, |keys|)
  {
    forall i, j | 0 <= i < j < |order| :: Precedes(keys, order[i], order[j])
  }

  /** A stable sorted permutation of 0, 1, ..., |keys| - 1. */
  predicate StableOrder(order: seq<nat>, keys: seq<nat>) {
    && |order| == |keys| && InRange(order, |keys|) && Ordered(order, keys)
    && forall k: nat | k < |keys| :: k in order
  }

  /** There is only one, so a stable order is determined by the keys alone. */
  lemma {:induction false} StableOrderIsUnique(a: seq<nat>, b: seq<nat>, keys: seq<nat>, i: nat)
    requires StableOrder(a, keys) && StableOrder(b, keys) && i <= |keys|
    ensures a[..i] == b[..i]
    ensures i == |keys| ==> a == b
  {
    if i > 0 {
      StableOrderIsUnique(a, b, keys, i - 1);
      NoLaterThan(a, b, keys, i - 1);
      NoLaterThan(b, a, keys, i - 1);
      assert a[..i] == a[..i - 1] + [a[i - 1]] && b[..i] == b[..i - 1] + [b[i - 1]];
    }
  }

  /** After a common prefix, `a` continues with nothing later than `b` does. */
  lemma NoLaterThan(a: seq<nat>, b: seq<nat>, keys: seq<nat>, i: nat)
    requires StableOrder(a, keys) && StableOrder(b, keys)
    requires i < |keys| && a[..i] == b[..i]
    ensures a[i] == b[i] || Precedes(keys, a[i], b[i])
  {
    assert b[i] in a;
    var j :| 0 <= j < |a| && a[j] == b[i];
    forall x | 0 <= x < i ensures a[x] != b[i] {
      assert a[x] == a[..i][x] == b[..i][x] == b[x];
      assert Precedes(keys, b[x], b[i]);
    }
  }

  /** The first output with the slot's identifier that has no slot yet takes it: among namesakes, the k-th output gets
      the k-th slot; where identifiers are unique, every output gets its lowest one. */
  method FirstChannels(c: OutputConfiguration) returns (firstChannel: seq<nat>)
    ensures KeysAfter(c, |c.channels|, firstChannel)
    ensures UniqueIds(c.outputs) ==>
              forall o | 0 <= o < |c.outputs| :: firstChannel[o] == FirstSlot(c.channels, c.outputs[o].id)
  {
    hide KeysAfter, Waiting, UniqueIds;
    firstChannel := seq(|c.outputs|, _ => |c.channels|);
    KeysStart(c);
    for slot := 0 to |c.channels|
      invariant |firstChannel| == |c.outputs| && KeysAfter(c, slot, firstChannel)
    {
      var output := FirstWaiting(c, slot, firstChannel);
      KeysStep(c, slot, firstChannel, output);
      if output < |c.outputs| {
        firstChannel := firstChannel[output := slot];
      }
    }
    if UniqueIds(c.outputs) {
      UniqueKeys(c, firstChannel);
    }
  }

  lemma UniqueKeys(c: OutputConfiguration, keys: seq<nat>)
    requires UniqueIds(c.outputs) && KeysAfter(c, |c.channels|, keys)
    ensures forall o | 0 <= o < |c.outputs| :: keys[o] == FirstSlot(c.channels, c.outputs[o].id)
  {
    forall o | 0 <= o < |c.outputs| ensures keys[o] == FirstSlot(c.channels, c.outputs[o].id) {
      UniqueHasNoNamesakes(c.outputs, o, o);
      FirstKeyIsFirstSlot(c.channels, c.outputs[o].id, keys[o]);
    }
  }

  method FirstWaiting(c: OutputConfiguration, slot: nat, firstChannel: seq<nat>) returns (output: nat)
    requires slot < |c.channels| && |firstChannel| == |c.outputs|
    ensures output <= |c.outputs| && forall e | 0 <= e < output :: !Waiting(c, slot, firstChannel, e)
    ensures output < |c.outputs| ==> Waiting(c, slot, firstChannel, output)
  {
    output := 0;
    while output < |c.outputs|
      && !(c.channels[slot].outputId == c.outputs[output].id && firstChannel[output] == |c.channels|)
      invariant output <= |c.outputs| && forall e | 0 <= e < output :: !Waiting(c, slot, firstChannel, e)
    {
      output := output + 1;
    }
  }

  predicate AllPrecede(order: seq<nat>, x: nat, keys: seq<nat>) {
    x < |keys| && forall i | 0 <= i < |order| :: order[i] < |keys| && Precedes(keys, order[i], x)
  }

  lemma AppendOrdered(order: seq<nat>, x: nat, keys: seq<nat>)
    requires InRange(order, |keys|) && x < |keys| && Ordered(order, keys)
    requires AllPrecede(order, x, keys)
    ensures InRange(order + [x], |keys|) && Ordered(order + [x], keys)
  {
  }

  lemma InitOrdered(order: seq<nat>, keys: seq<nat>)
    requires InRange(order, |keys|) && Ordered(order, keys) && order != []
    ensures InRange(order[..|order| - 1], |keys|) && Ordered(order[..|order| - 1], keys)
    ensures AllPrecede(order[..|order| - 1], order[|order| - 1], keys)
  {
    var init, last := order[..|order| - 1], order[|order| - 1];
    forall i | 0 <= i < |init| ensures init[i] < |keys| && Precedes(keys, init[i], last) {
      assert Precedes(keys, order[i], order[|order| - 1]);
    }
  }

  /** Index `k` goes behind every smaller index whose key is no larger. */
  function Insert(order: seq<nat>, k: nat, keys: seq<nat>): (r: seq<nat>)
    requires k < |keys| && InRange(order, |keys|) && Ordered(order, keys) && InRange(order, k)
    ensures |r| == |order| + 1 && InRange(r, k + 1) && Ordered(r, keys)
    ensures forall x | AllPrecede(order, x, keys) && Precedes(keys, k, x) :: AllPrecede(r, x, keys)
    ensures forall j :: j in r <==> j in order || j == k
  {
    if order == [] || keys[order[|order| - 1]] <= keys[k] then
      FollowsLast(order, k, keys);
      AppendOrdered(order, k, keys);
      order + [k]
    else
      var init, last := order[..|order| - 1], order[|order| - 1];
      InitOrdered(order, keys);
      assert order == init + [last];
      var front := Insert(init, k, keys);
      AppendOrdered(front, last, keys);
      front + [last]
  }

  lemma FollowsLast(order: seq<nat>, k: nat, keys: seq<nat>)
    requires k < |keys| && InRange(order, |keys|) && Ordered(order, keys) && InRange(order, k)
    requires order == [] || keys[order[|order| - 1]] <= keys[k]
    ensures AllPrecede(order, k, keys)
  {
    if order != [] {
      var last := order[|order| - 1];
      forall i | 0 <= i < |order| ensures Precedes(keys, order[i], k) {
        assert i < |order| - 1 ==> Precedes(keys, order[i], last);
      }
    }
  }

  /** The first `n` indices, sorted by key with equals in their old order. */
  function SortedFirst(keys: seq<nat>, n: nat): (order: seq<nat>)
    requires n <= |keys|
    ensures |order| == n && InRange(order, n) && Ordered(order, keys)
    ensures forall j: nat :: j in order <==> j < n
  {
    if n == 0 then [] else Insert(SortedFirst(keys, n - 1), n - 1, keys)
  }

  /** A stable sort of the indices by key. */
  function StableSort(keys: seq<nat>): (order: seq<nat>)
    ensures StableOrder(order, keys)
  {
    SortedFirst(keys, |keys|)
  }

  /** Devices by their keys, unassigned ones last, equals in saved order. */
  method ConfiguredOutputOrder(c: OutputConfiguration) returns (order: seq<nat>, ghost firstChannel: seq<nat>)
    ensures KeysAfter(c, |c.channels|, firstChannel) && StableOrder(order, firstChannel)
    ensures |order| == |c.outputs| && forall o: nat | o < |c.outputs| :: o in order
    ensures UniqueIds(c.outputs) ==>
              forall o | 0 <= o < |c.outputs| :: firstChannel[o] == FirstSlot(c.channels, c.outputs[o].id)
  {
    var keys := FirstChannels(c);
    order, firstChannel := StableSort(keys), keys;
  }
}
