/** The strict `set-output` request of the control protocol: making the JSON document and parsing it back. */
module SetOutputCodec {
  import opened JsonValue
  import opened Options
  import opened OutputRouting
  import opened TextLayer

  type Revision = x: int | 0 <= x < UINT64_LIMIT

  datatype Request = Request(
    configuration: OutputConfiguration, expectedRevision: Option<Revision>, preset: Option<string>,
    selections: seq<OutputProfileSelection>, expectedInventory: Option<Revision>)

  datatype Error =
    | NotSetOutput | UnknownOrDuplicate | BadRevision | BadPreset | PresetHasNul | BadInventory
    | TooManySelections | BadSelection | MissingOutputKey | BadConfiguration

  datatype Result<+T> = Ok(value: T) | Err(error: Error)

  /** The encoding of the configuration itself, which lives elsewhere. */
  datatype ConfigurationCodec = ConfigurationCodec(
    make: OutputConfiguration -> Option<Json>, read: Json -> Option<OutputConfiguration>)

  /** Only valid configurations are written or read, reading gives back what was written, and invents no text. */
  ghost predicate InversePair(codec: ConfigurationCodec) {
    && (forall c :: codec.make(c).Some? <==> Validates(c))
    && (forall c :: codec.make(c).Some? ==> codec.read(codec.make(c).value) == Some(c))
    && (forall j :: codec.read(j).Some? ==> Validates(codec.read(j).value))
    && (forall j :: codec.read(j).Some? && WellEncodedJson(j) ==> WellEncodedJson(codec.make(codec.read(j).value).value))
  }

  const MAX_SELECTIONS := 16

  // ---------------------------------------------------------------- making

  predicate CardHasNoNul(c: OutputCardIdentity) {
    NoNul(c.api) && NoNul(c.location) && NoNul(c.vendor) && NoNul(c.product) && NoNul(c.serial)
  }

  /** The text by which repeated cards are noticed: the fields separated by NUL. */
  function SeenKey(c: OutputCardIdentity): string {
    c.api + ("\0" + (c.location + ("\0" + (c.vendor + ("\0" + (c.product + ("\0" + c.serial)))))))
  }

  predicate SelectionOk(s: OutputProfileSelection) {
    && s.card.api != "" && s.card.location != "" && s.cardProfileName != ""
    && (s.outputKey != "" || s.allowMissingForRestore) && NoNul(s.cardProfileName) && NoNul(s.outputKey)
  }

  predicate SelectionsOk(ss: seq<OutputProfileSelection>) {
    && (forall i | 0 <= i < |ss| :: SelectionOk(ss[i]))
    && forall i, j | 0 <= i < j < |ss| :: SeenKey(ss[i].card) != SeenKey(ss[j].card)
  }

  function CardJson(c: OutputCardIdentity): Json {
    Object([("api", Text(c.api)), ("location", Text(c.location)), ("vendor", Text(c.vendor)),
            ("product", Text(c.product)), ("serial", Text(c.serial))])
  }

  function SelectionJson(s: OutputProfileSelection): Json {
    Object([("card", CardJson(s.card)), ("cardProfileName", Text(s.cardProfileName)),
            ("outputKey", Text(s.outputKey)), ("allowMissingForRestore", Bool(s.allowMissingForRestore))])
  }

  function SelectionItems(ss: seq<OutputProfileSelection>): seq<Json> {
    seq(|ss|, i requires 0 <= i < |ss| => SelectionJson(ss[i]))
  }

  /** A member that is left out when there is no value. */
  function Optional(key: string, value: Option<Json>): Members { if value.Some? then [(key, value.value)] else [] }

  function PresetJson(p: string): Json { if p == "" then Null else Text(p) }

  function RevisionMember(r: Request): Option<Json> {
    if r.expectedRevision.Some? then Some(Number(r.expectedRevision.value)) else None
  }

  function InventoryMember(r: Request): Option<Json> {
    if r.expectedInventory.Some? then Some(Number(r.expectedInventory.value)) else None
  }

  function PresetMember(r: Request): Option<Json> {
    if r.preset.Some? then Some(PresetJson(r.preset.value)) else None
  }

  function SelectionsMember(r: Request): Option<Json> {
    if r.selections != [] then Some(Array(SelectionItems(r.selections))) else None
  }

  function RootMembers(configuration: Json, r: Request): Members {
    [("command", Text("set-output")), ("configuration", configuration)]
    + Optional("expectedRevision", RevisionMember(r)) + Optional("expectedOutputInventoryRevision", InventoryMember(r))
    + Optional("preset", PresetMember(r)) + Optional("profileSelections", SelectionsMember(r))
  }

  predicate Sendable(r: Request) {
    && Validates(r.configuration) && (r.preset.Some? ==> NoNul(r.preset.value))
    && |r.selections| <= MAX_SELECTIONS && SelectionsOk(r.selections)
  }

  function Make(codec: ConfigurationCodec, r: Request): Option<Json> {
    var output := codec.make(r.configuration);
    if output.None? || (r.preset.Some? && !NoNul(r.preset.value)) || |r.selections| > MAX_SELECTIONS ||
       !SelectionsOk(r.selections) then None
    else Some(Object(RootMembers(output.value, r)))
  }

  method MakeSelections(ss: seq<OutputProfileSelection>) returns (r: Option<seq<Json>>)
    ensures r == if SelectionsOk(ss) then Some(SelectionItems(ss)) else None
  {
    hide SelectionOk, SeenKey, SelectionJson;
    var items, seen: set<string> := [], {};
    for k := 0 to |ss|
      invariant |items| == k && forall i | 0 <= i < k :: items[i] == SelectionJson(ss[i]) && SelectionOk(ss[i])
      invariant forall i, j | 0 <= i < j < k :: SeenKey(ss[i].card) != SeenKey(ss[j].card)
      invariant forall key :: key in seen <==> exists i | 0 <= i < k :: SeenKey(ss[i].card) == key
    {
      var selection := ss[k];
      var key := SeenKey(selection.card);
      if !SelectionOk(selection) || key in seen {
        return None;
      }
      seen := seen + {key};
      items := items + [SelectionJson(selection)];
    }
    assert items == SelectionItems(ss);
    r := Some(items);
  }

  lemma NoSelections()
    ensures SelectionsOk([])
  {
  }

  method MakeSetOutputControlRequest(codec: ConfigurationCodec, r: Request) returns (document: Option<Json>)
    ensures document == Make(codec, r)
  {
    hide SelectionItems, PresetJson, NoNul, SelectionsOk;
    NoSelections();
    var output := codec.make(r.configuration);
    if output.None? {
      return None;
    }
    var root: Members := [("command", Text("set-output")), ("configuration", output.value)];
    root := root + Optional("expectedRevision", RevisionMember(r));
    root := root + Optional("expectedOutputInventoryRevision", InventoryMember(r));
    if r.preset.Some? {
      if !NoNul(r.preset.value) {
        return None;
      }
      root := root + [("preset", PresetJson(r.preset.value))];
    }
    if r.selections != [] {
      if |r.selections| > MAX_SELECTIONS {
        return None;
      }
      var items := MakeSelections(r.selections);
      if items.None? {
        return None;
      }
      root := root + [("profileSelections", Array(items.value))];
    }
    assert root == RootMembers(output.value, r);
    document := Some(Object(root));
  }

  // ---------------------------------------------------------------- parsing

  function RequiredString(j: Json, key: string): Option<string> {
    var field := Get(j, key);
    if field.Some? && field.value.Text? && NoNul(field.value.s) then Some(field.value.s) else None
  }

  function OutputCard(j: Json): Option<OutputCardIdentity> {
    if !j.Object? || |j.members| != 5 then None
    else
      var api, location := RequiredString(j, "api"), RequiredString(j, "location");
      var vendor, product, serial := RequiredString(j, "vendor"), RequiredString(j, "product"), RequiredString(j, "serial");
      if api.None? || location.None? || vendor.None? || product.None? || serial.None? || api.value == "" || location.value == ""
      then None
      else Some(OutputCardIdentity(api.value, location.value, vendor.value, product.value, serial.value))
  }

  predicate HasCard(ss: seq<OutputProfileSelection>, card: OutputCardIdentity) {
    exists i | 0 <= i < |ss| :: ss[i].card == card
  }

  /** One element of the array, after the `earlier` ones. */
  function Selection(item: Json, earlier: seq<OutputProfileSelection>): Result<OutputProfileSelection> {
    var allowMissing, cardValue := Get(item, "allowMissingForRestore"), Get(item, "card");
    if !item.Object? || |item.members| != 4 || cardValue.None? then Err(BadSelection)
    else
      var card := OutputCard(cardValue.value);
      var name, key := RequiredString(item, "cardProfileName"), RequiredString(item, "outputKey");
      if card.None? || name.None? || key.None? || name.value == "" || allowMissing.None? || !allowMissing.value.Bool? ||
         HasCard(earlier, card.value) then Err(BadSelection)
      else if key.value == "" && !allowMissing.value.b then Err(MissingOutputKey)
      else Ok(OutputProfileSelection(card.value, name.value, key.value, allowMissing.value.b))
  }

  function Selections(items: seq<Json>): Result<seq<OutputProfileSelection>> {
    if items == [] then Ok([])
    else
      match Selections(items[..|items| - 1])
      case Err(e) => Err(e)
      case Ok(earlier) =>
        match Selection(items[|items| - 1], earlier)
        case Err(e) => Err(e)
        case Ok(s) => Ok(earlier + [s])
  }

  method ReadSelections(items: seq<Json>) returns (r: Result<seq<OutputProfileSelection>>)
    ensures r == Selections(items)
  {
    var selections: seq<OutputProfileSelection> := [];
    for k := 0 to |items|
      invariant Selections(items[..k]) == Ok(selections)
    {
      assert items[..k + 1][..k] == items[..k];
      var selection := Selection(items[k], selections);
      if selection.Err? {
        FirstErrorStays(items, k + 1, selection.error);
        return Err(selection.error);
      }
      selections := selections + [selection.value];
    }
    assert items[..|items|] == items;
    r := Ok(selections);
  }

  lemma {:induction false} FirstErrorStays(items: seq<Json>, k: nat, e: Error)
    requires k <= |items| && Selections(items[..k]) == Err(e)
    ensures Selections(items) == Err(e)
    decreases |items| - k
  {
    if k == |items| {
      assert items[..k] == items;
    } else {
      assert items[..k + 1][..k] == items[..k];
      FirstErrorStays(items, k + 1, e);
    }
  }

  function Count(value: Option<Json>): nat { if value.Some? then 1 else 0 }

  function Uint(value: Option<Json>): Option<Revision> {
    if value.Some? && IsUint(value.value) then Some(value.value.n) else None
  }

  function SelectionsOf(value: Option<Json>): Result<seq<OutputProfileSelection>> {
    if value.None? then Ok([])
    else if !value.value.Array? || |value.value.items| > MAX_SELECTIONS then Err(TooManySelections)
    else Selections(value.value.items)
  }

  /** `null` is bypass, which is the empty path. */
  function PresetOf(value: Option<Json>): Result<Option<string>> {
    if value.None? then Ok(None)
    else if value.value.Null? then Ok(Some(""))
    else if !value.value.Text? || value.value.s == "" then Err(BadPreset)
    else if !NoNul(value.value.s) then Err(PresetHasNul)
    else Ok(Some(value.value.s))
  }

  function Parse(codec: ConfigurationCodec, root: Json): Result<Request> {
    var revision, preset := Get(root, "expectedRevision"), Get(root, "preset");
    var selections, inventory := Get(root, "profileSelections"), Get(root, "expectedOutputInventoryRevision");
    var configuration := Get(root, "configuration");
    if !root.Object? || Get(root, "command") != Some(Text("set-output")) then Err(NotSetOutput)
    else if |root.members| != 2 + Count(revision) + Count(preset) + Count(selections) + Count(inventory) then
      Err(UnknownOrDuplicate)
    else if revision.Some? && Uint(revision).None? then Err(BadRevision)
    else
      match PresetOf(preset)
      case Err(e) => Err(e)
      case Ok(path) =>
        if inventory.Some? && Uint(inventory).None? then Err(BadInventory)
        else
          match SelectionsOf(selections)
          case Err(e) => Err(e)
          case Ok(ss) =>
            if configuration.None? || codec.read(configuration.value).None? then Err(BadConfiguration)
            else Ok(Request(codec.read(configuration.value).value, Uint(revision), path, ss, Uint(inventory)))
  }

  /** What the daemon makes of a request that was written: the document it parses is the one the reader delivers. */
  function ReadBack(codec: ConfigurationCodec, r: Request): Result<Request>
    requires Make(codec, r).Some?
  {
    Parse(codec, Received(Make(codec, r).value))
  }

  method ParseSetOutput(codec: ConfigurationCodec, root: Json) returns (r: Result<Request>)
    ensures r == Parse(codec, root)
  {
    if !root.Object? || Get(root, "command") != Some(Text("set-output")) {
      return Err(NotSetOutput);
    }
    var revision, preset := Get(root, "expectedRevision"), Get(root, "preset");
    var selections, inventory := Get(root, "profileSelections"), Get(root, "expectedOutputInventoryRevision");
    if |root.members| != 2 + Count(revision) + Count(preset) + Count(selections) + Count(inventory) {
      return Err(UnknownOrDuplicate);
    }
    if revision.Some? && !IsUint(revision.value) {
      return Err(BadRevision);
    }
    var path := PresetOf(preset);
    if path.Err? {
      return Err(path.error);
    }
    if inventory.Some? && !IsUint(inventory.value) {
      return Err(BadInventory);
    }
    var chosen: seq<OutputProfileSelection> := [];
    if selections.Some? {
      if !selections.value.Array? || |selections.value.items| > MAX_SELECTIONS {
        return Err(TooManySelections);
      }
      var read := ReadSelections(selections.value.items);
      if read.Err? {
        return Err(read.error);
      }
      chosen := read.value;
    }
    var configuration := Get(root, "configuration");
    if configuration.None? || codec.read(configuration.value).None? {
      return Err(BadConfiguration);
    }
    r := Ok(Request(codec.read(configuration.value).value, Uint(revision), path.value, chosen, Uint(inventory)));
  }
}
