/** What the `set-output` codec promises: round trips in both directions, and strictness. */
module SetOutputLaws {
  import opened JsonValue
  import opened Options
  import opened OutputRouting
  import opened SetOutputCodec
  import opened TextLayer

  // ---------------------------------------------------------------- the text that detects repeated cards

  lemma SplitAtNul(a: string, x: string, b: string, y: string)
    requires NoNul(a) && NoNul(b) && a + ("\0" + x) == b + ("\0" + y)
    ensures a == b && x == y
  {
    var s, t := a + ("\0" + x), b + ("\0" + y);
    assert s[..|a|] == a && t[..|b|] == b;
    assert s[|a|] == '\0' && t[|b|] == '\0';
    assert a == s[..|a|] && b == t[..|b|];
    assert x == s[|a| + 1..] && y == t[|b| + 1..];
  }

  /** Without NUL in the fields, two cards look repeated exactly when they are the same card. */
  lemma SeenKeyInjective(c: OutputCardIdentity, d: OutputCardIdentity)
    requires CardHasNoNul(c) && CardHasNoNul(d)
    ensures SeenKey(c) == SeenKey(d) <==> c == d
  {
    hide NoNul;
    if SeenKey(c) == SeenKey(d) {
      var x, y := c.product + ("\0" + c.serial), d.product + ("\0" + d.serial);
      SplitAtNul(c.api, c.location + ("\0" + (c.vendor + ("\0" + x))), d.api, d.location + ("\0" + (d.vendor + ("\0" + y))));
      SplitAtNul(c.location, c.vendor + ("\0" + x), d.location, d.vendor + ("\0" + y));
      SplitAtNul(c.vendor, x, d.vendor, y);
      SplitAtNul(c.product, c.serial, d.product, d.serial);
    }
  }

  /** A request is written exactly when its configuration validates, its preset has no NUL, and it selects at most
      sixteen well-formed profiles for cards that look different. */
  lemma MadeIffSendable(codec: ConfigurationCodec, r: Request)
    requires InversePair(codec)
    ensures Make(codec, r).Some? <==> Sendable(r)
  {
    hide Validates, SelectionsOk;
  }

  /** Spelled out: what a caller has to check before making a request. */
  lemma MadeIff(codec: ConfigurationCodec, r: Request)
    requires InversePair(codec)
    ensures Make(codec, r).Some? <==>
      && Validates(r.configuration) && (r.preset.Some? ==> '\0' !in r.preset.value) && |r.selections| <= 16
      && (forall i | 0 <= i < |r.selections| ::
            var s := r.selections[i];
            && s.card.api != "" && s.card.location != "" && s.cardProfileName != "" && '\0' !in s.cardProfileName
            && '\0' !in s.outputKey && (s.outputKey == "" ==> s.allowMissingForRestore))
      && forall i, j | 0 <= i < j < |r.selections| :: SeenKey(r.selections[i].card) != SeenKey(r.selections[j].card)
  {
    hide Validates, SeenKey;
  }

  /** The parser does not look at the order of the members: the same ones, each once, give the same answer. */
  lemma OrderDoesNotMatter(codec: ConfigurationCodec, a: Members, b: Members)
    requires DistinctKeys(a) && DistinctKeys(b) && multiset(a) == multiset(b)
    ensures Parse(codec, Object(a)) == Parse(codec, Object(b))
  {
    SameLength(a, b);
    SameGet(a, b, "command");
    SameGet(a, b, "configuration");
    SameGet(a, b, "expectedRevision");
    SameGet(a, b, "expectedOutputInventoryRevision");
    SameGet(a, b, "preset");
    SameGet(a, b, "profileSelections");
    hide DistinctKeys, Find, Get, Uint, PresetOf, SelectionsOf, Count;
    assert Object(a).members == a && Object(b).members == b;
  }

  lemma SameLength(a: Members, b: Members)
    requires multiset(a) == multiset(b)
    ensures |a| == |b|
  {
    assert |multiset(a)| == |a| && |multiset(b)| == |b|;
  }

  lemma SameGet(a: Members, b: Members, key: string)
    requires DistinctKeys(a) && DistinctKeys(b) && multiset(a) == multiset(b)
    ensures Get(Object(a), key) == Get(Object(b), key)
  {
    hide DistinctKeys, Find;
    assert forall m :: m in a <==> m in multiset(a);
    assert forall m :: m in b <==> m in multiset(b);
    if Find(a, key).Some? {
      FindSome(a, key);
      FindDistinct(b, (key, Find(a, key).value));
    }
    if Find(b, key).Some? {
      FindSome(b, key);
      FindDistinct(a, (key, Find(b, key).value));
    }
  }

  // ---------------------------------------------------------------- round trip

  lemma CardKeys(c: OutputCardIdentity)
    ensures DistinctKeys(CardJson(c).members)
  {
    var m := CardJson(c).members;
    assert |m[0].0| == 3 && |m[1].0| == 8 && |m[2].0| == 6 && |m[3].0| == 7 && |m[4].0| == 6;
    assert m[2].0[0] != m[4].0[0];
  }

  lemma CardRoundTrip(c: OutputCardIdentity)
    requires c.api != "" && c.location != ""
    ensures OutputCard(CardJson(c)) == if CardHasNoNul(c) then Some(c) else None
  {
    hide NoNul, DistinctKeys, Find;
    var m := CardJson(c).members;
    CardKeys(c);
    FindDistinct(m, m[0]);
    FindDistinct(m, m[1]);
    FindDistinct(m, m[2]);
    FindDistinct(m, m[3]);
    FindDistinct(m, m[4]);
  }

  lemma SelectionKeys(s: OutputProfileSelection)
    ensures DistinctKeys(SelectionJson(s).members)
  {
    hide CardJson;
    var m := SelectionJson(s).members;
    assert |m[0].0| == 4 && |m[1].0| == 15 && |m[2].0| == 9 && |m[3].0| == 22;
  }

  lemma SelectionRoundTrip(s: OutputProfileSelection, earlier: seq<OutputProfileSelection>)
    requires SelectionOk(s)
    ensures Selection(SelectionJson(s), earlier) ==
              if CardHasNoNul(s.card) && !HasCard(earlier, s.card) then Ok(s) else Err(BadSelection)
  {
    hide NoNul, DistinctKeys, Find, OutputCard, CardJson, CardHasNoNul;
    var m := SelectionJson(s).members;
    SelectionKeys(s);
    FindDistinct(m, m[0]);
    FindDistinct(m, m[1]);
    FindDistinct(m, m[2]);
    FindDistinct(m, m[3]);
    CardRoundTrip(s.card);
  }

  predicate CardsHaveNoNul(ss: seq<OutputProfileSelection>) { forall i | 0 <= i < |ss| :: CardHasNoNul(ss[i].card) }

  predicate DistinctCards(ss: seq<OutputProfileSelection>) { forall i, j | 0 <= i < j < |ss| :: ss[i].card != ss[j].card }

  predicate AllOk(ss: seq<OutputProfileSelection>) { forall i | 0 <= i < |ss| :: SelectionOk(ss[i]) }

  /** The array reads back exactly when no card has a NUL and none comes twice; otherwise the first such card is
      refused. */
  lemma {:induction false} SelectionsRoundTrip(ss: seq<OutputProfileSelection>)
    requires AllOk(ss)
    ensures Selections(SelectionItems(ss)) == if CardsHaveNoNul(ss) && DistinctCards(ss) then Ok(ss) else Err(BadSelection)
  {
    hide SelectionOk, SelectionJson, SeenKey, CardHasNoNul, Selection, HasCard;
    if ss != [] {
      var front, last := ss[..|ss| - 1], ss[|ss| - 1];
      SelectionsRoundTrip(front);
      assert SelectionItems(ss)[..|ss| - 1] == SelectionItems(front);
      SelectionRoundTrip(last, front);
      LastIsDistinct(ss);
      assert ss == front + [last];
    } else {
      assert SelectionItems(ss) == [];
    }
  }

  lemma LastIsDistinct(ss: seq<OutputProfileSelection>)
    requires ss != []
    ensures DistinctCards(ss) <==> DistinctCards(ss[..|ss| - 1]) && !HasCard(ss[..|ss| - 1], ss[|ss| - 1].card)
  {
    var front, last := ss[..|ss| - 1], ss[|ss| - 1];
    if DistinctCards(ss) {
      forall i | 0 <= i < |front| ensures front[i].card != last.card {
        assert ss[i].card != ss[|ss| - 1].card;
      }
    }
  }

  lemma {:induction false} FindAppend(a: Members, b: Members, key: string)
    ensures Find(a + b, key) == if Find(a, key).Some? then Find(a, key) else Find(b, key)
  {
    if a == [] {
      assert a + b == b;
    } else {
      assert (a + b)[1..] == a[1..] + b;
      FindAppend(a[1..], b, key);
    }
  }

  lemma OptionalFound(name: string, value: Option<Json>, key: string)
    ensures Find(Optional(name, value), key) == if name == key then value else None
  {
    if value.Some? {
      assert [(name, value.value)][1..] == [];
    }
  }

  /** What a reader finds in a made request under each name. */
  function Written(configuration: Json, r: Request, key: string): Option<Json> {
    if key == "command" then Some(Text("set-output"))
    else if key == "configuration" then Some(configuration)
    else if key == "expectedRevision" then RevisionMember(r)
    else if key == "expectedOutputInventoryRevision" then InventoryMember(r)
    else if key == "preset" then PresetMember(r)
    else if key == "profileSelections" then SelectionsMember(r)
    else None
  }

  lemma RootFound(configuration: Json, r: Request, key: string)
    ensures Find(RootMembers(configuration, r), key) == Written(configuration, r, key)
  {
    var a, b := Optional("expectedRevision", RevisionMember(r)), Optional("expectedOutputInventoryRevision", InventoryMember(r));
    var c, d := Optional("preset", PresetMember(r)), Optional("profileSelections", SelectionsMember(r));
    var first, second := ("command", Text("set-output")), ("configuration", configuration);
    OptionalFound("expectedRevision", RevisionMember(r), key);
    OptionalFound("expectedOutputInventoryRevision", InventoryMember(r), key);
    OptionalFound("preset", PresetMember(r), key);
    OptionalFound("profileSelections", SelectionsMember(r), key);
    FindAppend([first, second] + a + b + c, d, key);
    FindAppend([first, second] + a + b, c, key);
    FindAppend([first, second] + a, b, key);
    FindAppend([first, second], a, key);
    assert [first, second][1..] == [second] && [second][1..] == [];
    assert Find([second], key) == if key == "configuration" then Some(configuration) else None;
    hide Find, Optional, RevisionMember, InventoryMember, PresetMember, SelectionsMember;
    Names();
  }

  lemma Names()
    ensures |"command"| == 7 && |"configuration"| == 13 && |"expectedRevision"| == 16
    ensures |"expectedOutputInventoryRevision"| == 31 && |"preset"| == 6 && |"profileSelections"| == 17
  {
  }

  lemma RootFields(configuration: Json, r: Request)
    ensures var root := Object(RootMembers(configuration, r));
      && Get(root, "command") == Some(Text("set-output")) && Get(root, "configuration") == Some(configuration)
      && Get(root, "expectedRevision") == RevisionMember(r)
      && Get(root, "expectedOutputInventoryRevision") == InventoryMember(r)
      && Get(root, "preset") == PresetMember(r) && Get(root, "profileSelections") == SelectionsMember(r)
  {
    RootFound(configuration, r, "command");
    RootFound(configuration, r, "configuration");
    RootFound(configuration, r, "expectedRevision");
    RootFound(configuration, r, "expectedOutputInventoryRevision");
    RootFound(configuration, r, "preset");
    RootFound(configuration, r, "profileSelections");
    Names();
    hide Find, RootMembers, RevisionMember, InventoryMember, PresetMember, SelectionsMember;
  }

  /** How a document with the members of a request is parsed, whatever became of its texts. */
  lemma RootParses(codec: ConfigurationCodec, r: Request, output: Json)
    requires AllOk(r.selections) && |r.selections| <= MAX_SELECTIONS && (r.preset.Some? ==> NoNul(r.preset.value))
    ensures Parse(codec, Object(RootMembers(output, r))) ==
              if !CardsHaveNoNul(r.selections) || !DistinctCards(r.selections) then Err(BadSelection)
              else if codec.read(output).None? then Err(BadConfiguration)
              else Ok(r.(configuration := codec.read(output).value))
  {
    RootFields(output, r);
    RootSize(output, r);
    OptionsParse(r);
    SelectionsParse(r);
    hide Find, Get, Count, Uint, PresetOf, SelectionsOf, RevisionMember, InventoryMember, PresetMember, SelectionsMember,
         AllOk, NoNul, CardsHaveNoNul, DistinctCards, RootMembers;
    assert Object(RootMembers(output, r)).members == RootMembers(output, r);
  }

  lemma OptionsParse(r: Request)
    requires r.preset.Some? ==> NoNul(r.preset.value)
    ensures Uint(RevisionMember(r)) == r.expectedRevision && (RevisionMember(r).Some? <==> r.expectedRevision.Some?)
    ensures Uint(InventoryMember(r)) == r.expectedInventory && (InventoryMember(r).Some? <==> r.expectedInventory.Some?)
    ensures PresetOf(PresetMember(r)) == Ok(r.preset)
  {
  }

  lemma SelectionsParse(r: Request)
    requires AllOk(r.selections) && |r.selections| <= MAX_SELECTIONS
    ensures SelectionsOf(SelectionsMember(r)) ==
              if CardsHaveNoNul(r.selections) && DistinctCards(r.selections) then Ok(r.selections) else Err(BadSelection)
  {
    SelectionsRoundTrip(r.selections);
    hide AllOk, Selections, CardsHaveNoNul, DistinctCards;
    if r.selections == [] {
      assert SelectionItems(r.selections) == [];
      assert Selections([]) == Ok([]);
    }
  }

  lemma RootSize(configuration: Json, r: Request)
    ensures |RootMembers(configuration, r)| ==
              2 + Count(RevisionMember(r)) + Count(InventoryMember(r)) + Count(PresetMember(r)) + Count(SelectionsMember(r))
  {
  }

  // ---------------------------------------------------------------- the texts on their way

  function CarriedCard(c: OutputCardIdentity): OutputCardIdentity {
    OutputCardIdentity(Carried(c.api), Carried(c.location), Carried(c.vendor), Carried(c.product), Carried(c.serial))
  }

  function CarriedSelection(s: OutputProfileSelection): OutputProfileSelection {
    OutputProfileSelection(CarriedCard(s.card), Carried(s.cardProfileName), Carried(s.outputKey), s.allowMissingForRestore)
  }

  function CarriedSelections(ss: seq<OutputProfileSelection>): (r: seq<OutputProfileSelection>)
    ensures |r| == |ss| && forall i | 0 <= i < |ss| :: r[i] == CarriedSelection(ss[i])
  {
    seq(|ss|, i requires 0 <= i < |ss| => CarriedSelection(ss[i]))
  }

  /** The request with every text as it is read back; the configuration is read from its own document. */
  function CarriedRequest(r: Request): Request {
    r.(preset := if r.preset.Some? then Some(Carried(r.preset.value)) else None, selections := CarriedSelections(r.selections))
  }

  predicate CardWellEncoded(c: OutputCardIdentity) {
    WellEncoded(c.api) && WellEncoded(c.location) && WellEncoded(c.vendor) && WellEncoded(c.product) && WellEncoded(c.serial)
  }

  predicate SelectionWellEncoded(s: OutputProfileSelection) {
    CardWellEncoded(s.card) && WellEncoded(s.cardProfileName) && WellEncoded(s.outputKey)
  }

  predicate SelectionsWellEncoded(ss: seq<OutputProfileSelection>) {
    forall i | 0 <= i < |ss| :: SelectionWellEncoded(ss[i])
  }

  /** Every text of the request is well-formed, those of the configuration's document included. */
  predicate RequestWellEncoded(codec: ConfigurationCodec, r: Request) {
    && (r.preset.Some? ==> WellEncoded(r.preset.value)) && SelectionsWellEncoded(r.selections)
    && codec.make(r.configuration).Some? && WellEncodedJson(codec.make(r.configuration).value)
  }

  lemma CarriedSelectionLaws(s: OutputProfileSelection)
    ensures CarriedSelection(s) == s <==> SelectionWellEncoded(s)
    ensures SelectionOk(s) ==> SelectionOk(CarriedSelection(s))
    ensures CardHasNoNul(CarriedSelection(s).card) <==> CardHasNoNul(s.card)
  {
    TextLaws(s.card.api);
    TextLaws(s.card.location);
    TextLaws(s.card.vendor);
    TextLaws(s.card.product);
    TextLaws(s.card.serial);
    TextLaws(s.cardProfileName);
    TextLaws(s.outputKey);
    hide Carried, WellEncoded, NoNul;
  }

  lemma TextLaws(s: string)
    ensures Carried(s) == s <==> WellEncoded(s)
    ensures NoNul(Carried(s)) <==> NoNul(s)
    ensures Carried(s) == "" <==> s == ""
  {
    CarriedIffWellEncoded(s);
    CarriedKeepsNul(s);
  }

  lemma CarriedSelectionsLaws(ss: seq<OutputProfileSelection>)
    ensures CarriedSelections(ss) == ss <==> SelectionsWellEncoded(ss)
    ensures AllOk(ss) ==> AllOk(CarriedSelections(ss))
    ensures CardsHaveNoNul(CarriedSelections(ss)) <==> CardsHaveNoNul(ss)
  {
    hide CarriedSelection, SelectionWellEncoded, SelectionOk, CardHasNoNul;
    var cs := CarriedSelections(ss);
    forall i | 0 <= i < |ss|
      ensures (cs[i] == ss[i] <==> SelectionWellEncoded(ss[i])) && (SelectionOk(ss[i]) ==> SelectionOk(cs[i]))
      ensures CardHasNoNul(cs[i].card) <==> CardHasNoNul(ss[i].card)
    {
      CarriedSelectionLaws(ss[i]);
    }
  }

  lemma ReceivedSelection(s: OutputProfileSelection)
    ensures Received(SelectionJson(s)) == SelectionJson(CarriedSelection(s))
  {
    hide Carried;
    ReceivedCard(s.card);
    hide CardJson;
    var m := SelectionJson(s).members;
    var t := Received(SelectionJson(s)).members;
    assert forall i | 0 <= i < 4 :: t[i] == (m[i].0, Received(m[i].1));
    assert t == SelectionJson(CarriedSelection(s)).members;
  }

  lemma ReceivedCard(c: OutputCardIdentity)
    ensures Received(CardJson(c)) == CardJson(CarriedCard(c))
  {
    hide Carried;
    var m := CardJson(c).members;
    var t := Received(CardJson(c)).members;
    assert forall i | 0 <= i < 5 :: t[i] == (m[i].0, Received(m[i].1));
    assert t == CardJson(CarriedCard(c)).members;
  }

  lemma ReceivedItems(ss: seq<OutputProfileSelection>)
    ensures Received(Array(SelectionItems(ss))) == Array(SelectionItems(CarriedSelections(ss)))
  {
    hide SelectionJson, CarriedSelection;
    var t := Received(Array(SelectionItems(ss))).items;
    forall i | 0 <= i < |ss| ensures t[i] == SelectionItems(CarriedSelections(ss))[i] {
      ReceivedSelection(ss[i]);
      assert t[i] == Received(SelectionItems(ss)[i]);
    }
    assert t == SelectionItems(CarriedSelections(ss));
  }

  function ReceivedMembers(members: Members): (r: Members)
    ensures |r| == |members|
    ensures forall i | 0 <= i < |members| :: r[i] == (members[i].0, Received(members[i].1))
  {
    seq(|members|, i requires 0 <= i < |members| => (members[i].0, Received(members[i].1)))
  }

  lemma ReceivedAppend(a: Members, b: Members)
    ensures ReceivedMembers(a + b) == ReceivedMembers(a) + ReceivedMembers(b)
  {
    hide Received;
  }

  function ReceivedOption(value: Option<Json>): Option<Json> {
    if value.Some? then Some(Received(value.value)) else None
  }

  lemma ReceivedOptional(name: string, value: Option<Json>)
    ensures ReceivedMembers(Optional(name, value)) == Optional(name, ReceivedOption(value))
  {
    hide Received;
  }

  lemma ReceivedParts(r: Request)
    ensures ReceivedOption(RevisionMember(r)) == RevisionMember(CarriedRequest(r))
    ensures ReceivedOption(InventoryMember(r)) == InventoryMember(CarriedRequest(r))
    ensures ReceivedOption(PresetMember(r)) == PresetMember(CarriedRequest(r))
    ensures ReceivedOption(SelectionsMember(r)) == SelectionsMember(CarriedRequest(r))
  {
    hide Carried, SelectionItems;
    if r.preset.Some? {
      TextLaws(r.preset.value);
    }
    ReceivedItems(r.selections);
  }

  /** The document that arrives has the members of the request with carried texts. */
  lemma ReceivedRoot(output: Json, r: Request)
    ensures Received(Object(RootMembers(output, r))) == Object(RootMembers(Received(output), CarriedRequest(r)))
  {
    hide Received, ReceivedMembers, ReceivedOption, CarriedRequest;
    var head := Head(output);
    ReceivedHead(output);
    ReceivedParts(r);
    ReceivedObject(RootMembers(output, r));
    var a, b, c, d := RevisionMember(r), InventoryMember(r), PresetMember(r), SelectionsMember(r);
    hide Optional, RevisionMember, InventoryMember, PresetMember, SelectionsMember;
    ReceivedFour(head, a, b, c, d);
  }

  function Head(output: Json): Members { [("command", Text("set-output")), ("configuration", output)] }

  lemma CommandIsPlain()
    ensures Carried("set-output") == "set-output"
  {
    PlainIsWellEncoded("set-output");
    CarriedIffWellEncoded("set-output");
  }

  lemma ReceivedHead(output: Json)
    ensures ReceivedMembers(Head(output)) == Head(Received(output))
  {
    CommandIsPlain();
    hide Carried;
    assert Received(Text("set-output")) == Text("set-output");
  }

  lemma ReceivedFour(head: Members, a: Option<Json>, b: Option<Json>, c: Option<Json>, d: Option<Json>)
    ensures ReceivedMembers(head + Optional("expectedRevision", a) + Optional("expectedOutputInventoryRevision", b)
                            + Optional("preset", c) + Optional("profileSelections", d))
         == ReceivedMembers(head) + Optional("expectedRevision", ReceivedOption(a))
            + Optional("expectedOutputInventoryRevision", ReceivedOption(b)) + Optional("preset", ReceivedOption(c))
            + Optional("profileSelections", ReceivedOption(d))
  {
    hide Optional, ReceivedOption, ReceivedMembers;
    ReceivedNext(head, "expectedRevision", a);
    var one := head + Optional("expectedRevision", a);
    ReceivedNext(one, "expectedOutputInventoryRevision", b);
    var two := one + Optional("expectedOutputInventoryRevision", b);
    ReceivedNext(two, "preset", c);
    ReceivedNext(two + Optional("preset", c), "profileSelections", d);
  }

  lemma ReceivedNext(members: Members, name: string, value: Option<Json>)
    ensures ReceivedMembers(members + Optional(name, value)) == ReceivedMembers(members) + Optional(name, ReceivedOption(value))
  {
    ReceivedAppend(members, Optional(name, value));
    ReceivedOptional(name, value);
    hide *;
  }

  lemma ReceivedObject(members: Members)
    ensures Received(Object(members)) == Object(ReceivedMembers(members))
  {
    assert Received(Object(members)).members == ReceivedMembers(members);
  }

  /** What becomes of a request that was written. */
  lemma ReadBackIs(codec: ConfigurationCodec, r: Request)
    requires InversePair(codec) && Make(codec, r).Some?
    ensures var output, cs := Received(codec.make(r.configuration).value), CarriedSelections(r.selections);
            ReadBack(codec, r) ==
              if !CardsHaveNoNul(r.selections) || !DistinctCards(cs) then Err(BadSelection)
              else if codec.read(output).None? then Err(BadConfiguration)
              else Ok(CarriedRequest(r).(configuration := codec.read(output).value))
  {
    MadeIffSendable(codec, r);
    assert AllOk(r.selections);
    CarriedSelectionsLaws(r.selections);
    if r.preset.Some? {
      TextLaws(r.preset.value);
    }
    var output := codec.make(r.configuration).value;
    ReceivedRoot(output, r);
    hide Received, Carried, CardsHaveNoNul, DistinctCards, AllOk, RootMembers, Parse, NoNul, SelectionsOk;
    RootParses(codec, CarriedRequest(r), Received(output));
  }

  /** Cards that look different and have no NUL are different. */
  lemma SendableIsDistinct(ss: seq<OutputProfileSelection>)
    requires SelectionsOk(ss) && CardsHaveNoNul(ss)
    ensures DistinctCards(ss)
  {
    hide SelectionOk, SeenKey, CardHasNoNul;
    forall i, j | 0 <= i < j < |ss| ensures ss[i].card != ss[j].card {
      SeenKeyInjective(ss[i].card, ss[j].card);
    }
  }

  /** A request that could be written reads back as itself if and only if no card has a NUL in a field and every text is
      well-formed; a card with a NUL is refused. */
  lemma RoundTrip(codec: ConfigurationCodec, r: Request)
    requires InversePair(codec) && Make(codec, r).Some?
    ensures ReadBack(codec, r) == Ok(r) <==> CardsHaveNoNul(r.selections) && RequestWellEncoded(codec, r)
    ensures !CardsHaveNoNul(r.selections) ==> ReadBack(codec, r) == Err(BadSelection)
  {
    ReadBackIs(codec, r);
    MadeIffSendable(codec, r);
    CarriedSelectionsLaws(r.selections);
    if r.preset.Some? {
      TextLaws(r.preset.value);
    }
    var output := codec.make(r.configuration).value;
    ReceivedIffWellEncoded(output);
    if CardsHaveNoNul(r.selections) {
      SendableIsDistinct(r.selections);
    }
    hide Received, Carried, WellEncoded, WellEncodedJson, CardsHaveNoNul, DistinctCards, SelectionsWellEncoded, ReadBack,
         SelectionsOk, Validates, NoNul;
  }

  /** A card whose location holds a NUL can be put in a request, but the daemon will not take it. */
  lemma NulCardIsMadeButRefused(codec: ConfigurationCodec, configuration: OutputConfiguration)
    requires InversePair(codec) && Validates(configuration)
    ensures var r := Request(configuration, None, None,
        [OutputProfileSelection(OutputCardIdentity("alsa", "pci\0", "", "", ""), "stereo", "out", false)], None);
      Make(codec, r).Some? && ReadBack(codec, r) == Err(BadSelection)
  {
    hide Validates, ReadBack;
    var r := Request(configuration, None, None,
        [OutputProfileSelection(OutputCardIdentity("alsa", "pci\0", "", "", ""), "stereo", "out", false)], None);
    var card := r.selections[0].card;
    assert card.location[3] == '\0';
    assert !CardHasNoNul(card);
    assert SelectionOk(r.selections[0]);
    MadeIffSendable(codec, r);
    RoundTrip(codec, r);
  }

  lemma StrayByte()
    ensures Carried("/p\U{FF}") == "/p" + REPLACEMENT
    ensures Carried("\U{FE}") == REPLACEMENT == Carried("\U{FF}")
  {
    assert "/p\U{FF}"[1..] == "p\U{FF}" && "p\U{FF}"[1..] == "\U{FF}" && "\U{FF}"[1..] == "" && "\U{FE}"[1..] == "";
    assert Carried("\U{FF}") == REPLACEMENT + Carried("");
    assert Carried("\U{FE}") == REPLACEMENT + Carried("");
    assert "p\U{FF}"[..1] == "p" && "/p\U{FF}"[..1] == "/";
    assert Carried("p\U{FF}") == "p" + Carried("\U{FF}");
  }

  /** A preset path with a stray byte is written and accepted, but as another path. */
  lemma StrayByteIsAltered(codec: ConfigurationCodec, configuration: OutputConfiguration)
    requires InversePair(codec) && Validates(configuration) && WellEncodedJson(codec.make(configuration).value)
    ensures var r := Request(configuration, None, Some("/p\U{FF}"), [], None);
      && Make(codec, r).Some? && ReadBack(codec, r) == Ok(r.(preset := Some("/p" + REPLACEMENT)))
      && ReadBack(codec, r) != Ok(r)
  {
    hide Validates, ReadBack, Received, WellEncodedJson;
    var r := Request(configuration, None, Some("/p\U{FF}"), [], None);
    MadeIffSendable(codec, r);
    ReadBackIs(codec, r);
    ReceivedIffWellEncoded(codec.make(configuration).value);
    StrayByte();
    hide Carried;
    assert |"/p" + REPLACEMENT| == 5 && |"/p\U{FF}"| == 3;
  }

  /** Two cards told apart only by a stray byte are written as different and arrive as the same, so both are refused. */
  lemma StrayBytesCollide(codec: ConfigurationCodec, configuration: OutputConfiguration)
    requires InversePair(codec) && Validates(configuration)
    ensures var r := Request(configuration, None, None,
        [OutputProfileSelection(OutputCardIdentity("alsa", "pci", "", "", "\U{FE}"), "stereo", "out", false),
         OutputProfileSelection(OutputCardIdentity("alsa", "pci", "", "", "\U{FF}"), "stereo", "out", false)], None);
      Make(codec, r).Some? && ReadBack(codec, r) == Err(BadSelection)
  {
    var a := OutputProfileSelection(OutputCardIdentity("alsa", "pci", "", "", "\U{FE}"), "stereo", "out", false);
    var b := OutputProfileSelection(OutputCardIdentity("alsa", "pci", "", "", "\U{FF}"), "stereo", "out", false);
    StrayCards(a, b);
    hide *;
    var r := Request(configuration, None, None, [a, b], None);
    SendableTwo(configuration, a, b);
    MadeIffSendable(codec, r);
    ReadBackIs(codec, r);
    var cs := CarriedSelections(r.selections);
    NotDistinct(cs);
  }

  lemma StrayCards(a: OutputProfileSelection, b: OutputProfileSelection)
    requires a == OutputProfileSelection(OutputCardIdentity("alsa", "pci", "", "", "\U{FE}"), "stereo", "out", false)
    requires b == OutputProfileSelection(OutputCardIdentity("alsa", "pci", "", "", "\U{FF}"), "stereo", "out", false)
    ensures SelectionOk(a) && SelectionOk(b) && SeenKey(a.card) != SeenKey(b.card)
    ensures CarriedSelection(a).card == CarriedSelection(b).card
  {
    StrayByte();
    hide Carried, SeenKey;
    assert a.card.serial[0] != b.card.serial[0];
    SeenKeyInjective(a.card, b.card);
  }

  lemma SendableTwo(configuration: OutputConfiguration, a: OutputProfileSelection, b: OutputProfileSelection)
    requires Validates(configuration) && SelectionOk(a) && SelectionOk(b) && SeenKey(a.card) != SeenKey(b.card)
    ensures Sendable(Request(configuration, None, None, [a, b], None))
  {
    hide Validates, SelectionOk, SeenKey;
  }

  lemma NotDistinct(ss: seq<OutputProfileSelection>)
    requires |ss| == 2 && ss[0].card == ss[1].card
    ensures !DistinctCards(ss)
  {
  }

  // ---------------------------------------------------------------- strictness

  const ITEM_KEYS: set<string> := {"card", "cardProfileName", "outputKey", "allowMissingForRestore"}
  const CARD_KEYS: set<string> := {"api", "location", "vendor", "product", "serial"}

  /** The object has exactly these members, each once. */
  ghost predicate Exactly(j: Json, names: set<string>) { j.Object? && DistinctKeys(j.members) && Keys(j.members) == names }

  lemma Required(j: Json, key: string)
    requires Get(j, key).Some?
    ensures j.Object? && key in Keys(j.members)
  {
    FindSome(j.members, key);
  }

  lemma CardIsStrict(j: Json)
    requires OutputCard(j).Some?
    ensures Exactly(j, CARD_KEYS) && CardHasNoNul(OutputCard(j).value)
    ensures OutputCard(j).value.api != "" && OutputCard(j).value.location != ""
  {
    hide Find, Keys, DistinctKeys, NoNul;
    Required(j, "api");
    Required(j, "location");
    Required(j, "vendor");
    Required(j, "product");
    Required(j, "serial");
    KeySizes();
    CountedKeys(j.members, CARD_KEYS);
  }

  lemma KeySizes()
    ensures |CARD_KEYS| == 5 && |ITEM_KEYS| == 4
  {
    assert |"api"| == 3 && |"location"| == 8 && |"vendor"| == 6 && |"product"| == 7 && |"serial"| == 6;
    assert "vendor"[0] != "serial"[0];
    assert CARD_KEYS == {"api", "location", "vendor", "product"} + {"serial"};
    assert |"card"| == 4 && |"cardProfileName"| == 15 && |"outputKey"| == 9 && |"allowMissingForRestore"| == 22;
  }

  ghost predicate StrictItem(item: Json) {
    Exactly(item, ITEM_KEYS) && Get(item, "card").Some? && Exactly(Get(item, "card").value, CARD_KEYS)
  }

  lemma ItemIsStrict(item: Json, earlier: seq<OutputProfileSelection>)
    requires Selection(item, earlier).Ok?
    ensures StrictItem(item)
    ensures var s := Selection(item, earlier).value;
      SelectionOk(s) && CardHasNoNul(s.card) && !HasCard(earlier, s.card)
  {
    hide Find, Keys, DistinctKeys, NoNul, CardHasNoNul, OutputCard, HasCard;
    Required(item, "card");
    Required(item, "cardProfileName");
    Required(item, "outputKey");
    Required(item, "allowMissingForRestore");
    KeySizes();
    CountedKeys(item.members, ITEM_KEYS);
    CardIsStrict(Get(item, "card").value);
  }

  ghost predicate StrictItems(j: Json) { j.Array? && forall item | item in j.items :: StrictItem(item) }

  lemma {:induction false} SelectionsAreStrict(items: seq<Json>)
    requires Selections(items).Ok?
    ensures forall i | 0 <= i < |items| :: StrictItem(items[i])
    ensures var ss := Selections(items).value; |ss| == |items| && SelectionsOk(ss) && CardsHaveNoNul(ss)
  {
    hide StrictItem, SelectionOk, CardHasNoNul, Selection, SeenKey;
    if items != [] {
      var front, last := items[..|items| - 1], items[|items| - 1];
      SelectionsAreStrict(front);
      var earlier := Selections(front).value;
      ItemIsStrict(last, earlier);
      var s := Selection(last, earlier).value;
      forall i | 0 <= i < |earlier| ensures SeenKey(earlier[i].card) != SeenKey(s.card) {
        SeenKeyInjective(earlier[i].card, s.card);
      }
      assert items == front + [last];
    }
  }

  lemma AddName(names: set<string>, m: Members, name: string) returns (all: set<string>)
    requires name !in names && names <= Keys(m)
    ensures all <= Keys(m) && |all| == |names| + Count(Find(m, name))
    ensures forall x | x in all :: x in names || x == name
  {
    FindSome(m, name);
    all := if Find(m, name).Some? then names + {name} else names;
  }

  const ROOT_KEYS: set<string> := {"command", "configuration", "expectedRevision", "expectedOutputInventoryRevision", "preset",
                                   "profileSelections"}

  /** By counting members alone the parser keeps out every unknown and every repeated one, at all three levels of an
      accepted request. */
  lemma AcceptedIsStrict(codec: ConfigurationCodec, root: Json)
    requires Parse(codec, root).Ok?
    ensures root.Object? && DistinctKeys(root.members)
    ensures {"command", "configuration"} <= Keys(root.members) <= ROOT_KEYS
    ensures Get(root, "profileSelections").Some? ==> StrictItems(Get(root, "profileSelections").value)
  {
    hide Find, Keys, DistinctKeys, Selections, Validates, StrictItem;
    Required(root, "command");
    Required(root, "configuration");
    RootIsCounted(root.members);
    var selections := Get(root, "profileSelections");
    if selections.Some? {
      SelectionsAreStrict(selections.value.items);
    }
  }

  lemma RootIsCounted(m: Members)
    requires {"command", "configuration"} <= Keys(m)
    requires |m| == 2 + Count(Find(m, "expectedRevision")) + Count(Find(m, "preset")) + Count(Find(m, "profileSelections"))
                  + Count(Find(m, "expectedOutputInventoryRevision"))
    ensures DistinctKeys(m) && Keys(m) <= ROOT_KEYS
  {
    hide Find, Keys, DistinctKeys;
    Names();
    FoundNames(m, "command", "configuration", "expectedRevision", "expectedOutputInventoryRevision", "preset", "profileSelections");
  }

  lemma FoundNames(m: Members, m1: string, m2: string, n1: string, n2: string, n3: string, n4: string)
    requires m1 in Keys(m) && m2 in Keys(m) && m1 != m2
    requires m1 != n1 && m1 != n2 && m1 != n3 && m1 != n4 && m2 != n1 && m2 != n2 && m2 != n3 && m2 != n4
    requires n1 != n2 && n1 != n3 && n1 != n4 && n2 != n3 && n2 != n4 && n3 != n4
    requires |m| == 2 + Count(Find(m, n1)) + Count(Find(m, n2)) + Count(Find(m, n3)) + Count(Find(m, n4))
    ensures DistinctKeys(m) && Keys(m) <= {m1, m2, n1, n2, n3, n4}
  {
    hide *;
    var a := {m1, m2};
    assert |a| == 2;
    var b := AddName(a, m, n1);
    var c := AddName(b, m, n2);
    var d := AddName(c, m, n3);
    var e := AddName(d, m, n4);
    CountedKeys(m, e);
  }

  lemma AcceptedFields(codec: ConfigurationCodec, root: Json)
    requires InversePair(codec) && Parse(codec, root).Ok?
    ensures Sendable(Parse(codec, root).value) && CardsHaveNoNul(Parse(codec, root).value.selections)
  {
    hide Find, Validates, SelectionsOk, Selections, WellEncodedJson;
    var selections := Get(root, "profileSelections");
    if selections.Some? {
      SelectionsAreStrict(selections.value.items);
    } else {
      NoSelections();
      assert CardsHaveNoNul([]);
    }
  }

  lemma GetWellEncoded(j: Json, key: string)
    requires WellEncodedJson(j) && Get(j, key).Some?
    ensures WellEncodedJson(Get(j, key).value)
  {
    FindSome(j.members, key);
    var i :| 0 <= i < |j.members| && j.members[i] == (key, Get(j, key).value);
  }

  lemma StringWellEncoded(j: Json, key: string)
    requires WellEncodedJson(j) && RequiredString(j, key).Some?
    ensures WellEncoded(RequiredString(j, key).value)
  {
    GetWellEncoded(j, key);
  }

  lemma CardIsWellEncoded(j: Json)
    requires WellEncodedJson(j) && OutputCard(j).Some?
    ensures CardWellEncoded(OutputCard(j).value)
  {
    StringWellEncoded(j, "api");
    StringWellEncoded(j, "location");
    StringWellEncoded(j, "vendor");
    StringWellEncoded(j, "product");
    StringWellEncoded(j, "serial");
    hide RequiredString, WellEncoded, WellEncodedJson;
  }

  lemma SelectionIsWellEncoded(item: Json, earlier: seq<OutputProfileSelection>)
    requires WellEncodedJson(item) && Selection(item, earlier).Ok?
    ensures SelectionWellEncoded(Selection(item, earlier).value)
  {
    GetWellEncoded(item, "card");
    CardIsWellEncoded(Get(item, "card").value);
    StringWellEncoded(item, "cardProfileName");
    StringWellEncoded(item, "outputKey");
    hide RequiredString, WellEncoded, WellEncodedJson, CardWellEncoded, OutputCard, HasCard;
  }

  lemma {:induction false} SelectionsAreWellEncoded(items: seq<Json>)
    requires Selections(items).Ok? && forall i | 0 <= i < |items| :: WellEncodedJson(items[i])
    ensures SelectionsWellEncoded(Selections(items).value)
  {
    hide WellEncodedJson, Selection, SelectionWellEncoded;
    if items != [] {
      var front, last := items[..|items| - 1], items[|items| - 1];
      SelectionsAreWellEncoded(front);
      SelectionIsWellEncoded(last, Selections(front).value);
    }
  }

  lemma AcceptedIsWellEncoded(codec: ConfigurationCodec, root: Json)
    requires InversePair(codec) && Parse(codec, root).Ok? && WellEncodedJson(root)
    ensures RequestWellEncoded(codec, Parse(codec, root).value)
  {
    var preset, selections := Get(root, "preset"), Get(root, "profileSelections");
    GetWellEncoded(root, "configuration");
    if preset.Some? {
      GetWellEncoded(root, "preset");
    }
    if selections.Some? {
      GetWellEncoded(root, "profileSelections");
      SelectionsAreWellEncoded(selections.value.items);
    }
    hide Find, Validates, Selections, Get;
  }

  /** Every accepted request could have been sent; made again, it reads back the same if and only if its texts are
      well-formed, as they are when it came from a reader that takes only well-formed text. */
  lemma AcceptedIsSendable(codec: ConfigurationCodec, root: Json)
    requires InversePair(codec) && Parse(codec, root).Ok?
    ensures var r := Parse(codec, root).value;
      && Sendable(r) && CardsHaveNoNul(r.selections) && Make(codec, r).Some?
      && (ReadBack(codec, r) == Ok(r) <==> RequestWellEncoded(codec, r))
      && (WellEncodedJson(root) ==> ReadBack(codec, r) == Ok(r))
  {
    AcceptedFields(codec, root);
    hide *;
    var r := Parse(codec, root).value;
    MadeIffSendable(codec, r);
    RoundTrip(codec, r);
    if WellEncodedJson(root) {
      AcceptedIsWellEncoded(codec, root);
    }
  }
}
