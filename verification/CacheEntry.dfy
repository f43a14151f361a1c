/** The checksummed binary format of one asset cache entry: a header of eighty bytes, a JSON text and the
    payload. The JSON library and the digest are given; everything around them is modelled byte by byte. */
module CacheEntry {
  import opened JsonValue
  import opened Options

  type Byte = x: int | 0 <= x < 256

  type Bytes = seq<Byte>

  type Word = x: int | 0 <= x < 0x1_0000_0000

  const HEADER_BYTES: nat := 80
  const METADATA_LIMIT: nat := 65536
  const PAYLOAD_LIMIT: nat := 1024 * 1024 * 1024
  const MAGIC: Bytes := [80, 84, 65, 67, 48, 48, 48, 49]
  const FIELDS: nat := 14

  /** The functions of the libraries. Writing fails for text that is not UTF-8. */
  datatype Library = Library(write: Json -> Option<Bytes>, read: Bytes -> Option<Json>, digest: Bytes -> Bytes)

  ghost predicate Faithful(lib: Library) {
    && (forall j :: lib.write(j).Some? ==> lib.read(lib.write(j).value) == Some(j))
    && (forall b :: |lib.digest(b)| == 64)
  }

  datatype Info = Info(
    channels: Word, frames: Word, topology: Word, headBlock: Word, rateDivider: Word, pathCount: Word,
    inputCount: Word, processingChannels: Word, footprintBytes: Word, byteSize: Word,
    formatTag: Word, bandCount: Word, filterDelaySamples: Word, warmupFrames: Word)

  datatype Asset = Asset(payload: Bytes, info: Info)

  datatype Cached = Cached(asset: Asset, diagnostics: seq<string>)

  datatype Error =
    Obsolete | BadLengths | BadChecksum | BadMetadata | BadField | BadSize | BadDiagnostic |
    BadEntry | EmptyDiagnostic | CannotWrite | MetadataTooLong

  datatype Result<+T> = Ok(value: T) | Err(error: Error)

  // ---------------------------------------------------------------- little-endian words

  function FourBytes(v: Word): (b: Bytes)
    ensures |b| == 4
  {
    [v % 256, v / 256 % 256, v / 0x1_0000 % 256, v / 0x100_0000]
  }

  function Little(b: Bytes): nat { if b == [] then 0 else b[0] + 256 * Little(b[1..]) }

  lemma LittleOfFour(a: Byte, b: Byte, c: Byte, d: Byte)
    ensures Little([a, b, c, d]) == a + 256 * b + 0x1_0000 * c + 0x100_0000 * d
  {
    assert [a, b, c, d][1..] == [b, c, d] && [b, c, d][1..] == [c, d] && [c, d][1..] == [d] && [d][1..] == [];
    assert Little([d]) == d + 256 * Little([]);
    assert Little([c, d]) == c + 256 * Little([d]);
    assert Little([b, c, d]) == b + 256 * Little([c, d]);
    assert Little([a, b, c, d]) == a + 256 * Little([b, c, d]);
  }

  lemma LittleRoundTrip(v: Word)
    ensures Little(FourBytes(v)) == v
  {
    var v1 := v / 256;
    var v2 := v1 / 256;
    var v3 := v2 / 256;
    Quarters(v);
    LowByte(v);
    LowByte(v1);
    LowByte(v2);
    assert v3 < 256;
    LittleOfFour(v % 256, v1 % 256, v2 % 256, v3);
  }

  lemma LowByte(x: nat)
    ensures x == x % 256 + 256 * (x / 256)
  {
  }

  /** Four bytes determine a word, and the word gives back the same four bytes. */
  lemma FourRoundTrip(b: Bytes)
    requires |b| == 4
    ensures Little(b) < 0x1_0000_0000 && FourBytes(Little(b)) == b
  {
    assert b == [b[0], b[1], b[2], b[3]];
    LittleOfFour(b[0], b[1], b[2], b[3]);
    var b2: nat, b3: nat := b[2], b[3];
    var v2 := b2 + 256 * b3;
    var v1 := b[1] + 256 * v2;
    var v := b[0] + 256 * v1;
    ShiftOut(b[2], b3);
    ShiftOut(b[1], v2);
    ShiftOut(b[0], v1);
    Quarters(v);
    hide *;
    Assembled(v, v1, v2, b);
  }

  /** Four digits in base 256. */
  lemma Assembled(v: Word, v1: nat, v2: nat, b: Bytes)
    requires |b| == 4 && FourBytes(v) == [v % 256, v / 256 % 256, v / 256 / 256 % 256, v / 256 / 256 / 256 % 256]
    requires v % 256 == b[0] && v / 256 == v1 && v1 % 256 == b[1] && v1 / 256 == v2 && v2 % 256 == b[2] && v2 / 256 == b[3]
    ensures FourBytes(v) == b
  {
    hide *;
    assert b[3] % 256 == b[3];
  }

  lemma ShiftOut(low: Byte, rest: nat)
    ensures (low + 256 * rest) % 256 == low && (low + 256 * rest) / 256 == rest
  {
  }

  lemma Quarters(v: Word)
    ensures FourBytes(v) == [v % 256, v / 256 % 256, v / 256 / 256 % 256, v / 256 / 256 / 256 % 256]
  {
    assert v / 0x1_0000 == v / 256 / 256 && v / 0x100_0000 == v / 256 / 256 / 256 < 256;
  }

  /** `value` shifted right by `count` bytes. */
  function Shifted(value: Word, count: nat): Word { if count == 0 then value else Shifted(value, count - 1) / 256 }

  lemma Shifts(value: Word)
    ensures Shifted(value, 0) == value && Shifted(value, 1) == value / 256
    ensures Shifted(value, 2) == value / 256 / 256 && Shifted(value, 3) == value / 256 / 256 / 256
  {
    assert Shifted(value, 1) == Shifted(value, 0) / 256;
    assert Shifted(value, 2) == Shifted(value, 1) / 256;
    assert Shifted(value, 3) == Shifted(value, 2) / 256;
  }

  method Put(header: array<Byte>, offset: nat, value: Word)
    requires offset + 4 <= header.Length
    modifies header
    ensures header[..] == old(header[..offset]) + FourBytes(value) + old(header[offset + 4..])
  {
    for k := 0 to 4
      invariant forall j | 0 <= j < header.Length && !(offset <= j < offset + k) :: header[j] == old(header[j])
      invariant forall j | 0 <= j < k :: header[offset + j] == Shifted(value, j) % 256
    {
      header[offset + k] := Shifted(value, k) % 256;
    }
    Shifts(value);
    Quarters(value);
    forall j | 0 <= j < 4 ensures header[offset..offset + 4][j] == FourBytes(value)[j] {
      assert header[offset + j] == Shifted(value, j) % 256;
    }
    assert header[offset..offset + 4] == FourBytes(value);
  }

  function Place(k: nat): nat { if k == 0 then 1 else 256 * Place(k - 1) }

  lemma Distribute(x: nat, last: nat, place: nat)
    ensures 256 * (x + last * place) == 256 * x + last * (256 * place)
  {
  }

  lemma {:induction false} LittleSnoc(b: Bytes, last: Byte)
    ensures Little(b + [last]) == Little(b) + last * Place(|b|)
  {
    if b != [] {
      LittleSnoc(b[1..], last);
      assert (b + [last])[1..] == b[1..] + [last];
      Distribute(Little(b[1..]), last, Place(|b| - 1));
    } else {
      assert [last][1..] == [];
      assert b + [last] == [last];
    }
  }

  method GetWord(bytes: Bytes, offset: nat) returns (value: nat)
    requires offset + 4 <= |bytes|
    ensures value == Little(bytes[offset..offset + 4])
  {
    value := 0;
    for k := 0 to 4
      invariant value == Little(bytes[offset..offset + k])
    {
      LittleSnoc(bytes[offset..offset + k], bytes[offset + k]);
      assert bytes[offset..offset + k + 1] == bytes[offset..offset + k] + [bytes[offset + k]];
      value := value + bytes[offset + k] * Place(k);
    }
  }

  // ---------------------------------------------------------------- writing an entry

  function Header(lib: Library, text: Bytes, payload: Bytes): Bytes
    requires |text| <= METADATA_LIMIT && |payload| <= PAYLOAD_LIMIT
  {
    MAGIC + FourBytes(|text|) + FourBytes(|payload|) + lib.digest(text + payload)
  }

  method MakeHeader(lib: Library, text: Bytes, payload: Bytes) returns (header: array<Byte>)
    requires Faithful(lib) && |text| <= METADATA_LIMIT && |payload| <= PAYLOAD_LIMIT
    ensures fresh(header) && header.Length == HEADER_BYTES && header[..] == Header(lib, text, payload)
  {
    header := new Byte[HEADER_BYTES](_ => 0);
    forall i | 0 <= i < 8 { header[i] := MAGIC[i]; }
    assert header[..8] == MAGIC;
    Put(header, 8, |text|);
    assert header[..12] == MAGIC + FourBytes(|text|);
    Put(header, 12, |payload|);
    assert header[..16] == MAGIC + FourBytes(|text|) + FourBytes(|payload|);
    var digest := lib.digest(text + payload);
    forall i | 0 <= i < 64 { header[16 + i] := digest[i]; }
    assert header[16..] == digest;
    assert header[..] == header[..16] + header[16..];
  }

  function FieldList(i: Info): (r: seq<Word>)
    ensures |r| == FIELDS
  {
    [i.channels, i.frames, i.topology, i.headBlock, i.rateDivider, i.pathCount, i.inputCount, i.processingChannels,
     i.footprintBytes, i.byteSize, i.formatTag, i.bandCount, i.filterDelaySamples, i.warmupFrames]
  }

  function Numbers(words: seq<Word>): seq<Json> { seq(|words|, i requires 0 <= i < |words| => Number(words[i])) }

  function Texts(messages: seq<string>): seq<Json> { seq(|messages|, i requires 0 <= i < |messages| => Text(messages[i])) }

  function Document(info: Info, key: string, diagnostics: seq<string>): Json {
    Object([("key", Text(key)), ("info", Array(Numbers(FieldList(info)))), ("diagnostics", Array(Texts(diagnostics)))])
  }

  /** The text of an entry's metadata, unless it cannot be written or is too long. */
  function Metadata(lib: Library, info: Info, key: string, diagnostics: seq<string>): (r: Result<Bytes>)
    ensures r.Ok? ==> |r.value| <= METADATA_LIMIT
  {
    match lib.write(Document(info, key, diagnostics))
    case None => Err(CannotWrite)
    case Some(text) => if |text| > METADATA_LIMIT then Err(MetadataTooLong) else Ok(text)
  }

  function Encode(lib: Library, asset: Asset, key: string, diagnostics: seq<string>): Result<Bytes> {
    if asset.payload == [] || |asset.payload| > PAYLOAD_LIMIT || asset.info.byteSize != |asset.payload| then Err(BadEntry)
    else if [] in diagnostics then Err(EmptyDiagnostic)
    else
      match Metadata(lib, asset.info, key, diagnostics)
      case Err(e) => Err(e)
      case Ok(text) => Ok(Header(lib, text, asset.payload) + text + asset.payload)
  }

  method MakeMetadata(lib: Library, info: Info, key: string, diagnostics: seq<string>) returns (r: Result<Bytes>)
    ensures [] in diagnostics ==> r == Err(EmptyDiagnostic)
    ensures [] !in diagnostics ==> r == Metadata(lib, info, key, diagnostics)
  {
    var fields, numbers := FieldList(info), [];
    for k := 0 to FIELDS
      invariant numbers == Numbers(fields[..k])
    {
      numbers := numbers + [Number(fields[k])];
    }
    var messages := [];
    for k := 0 to |diagnostics|
      invariant [] !in diagnostics[..k] && messages == Texts(diagnostics[..k])
    {
      if diagnostics[k] == [] {
        return Err(EmptyDiagnostic);
      }
      messages := messages + [Text(diagnostics[k])];
    }
    assert fields[..FIELDS] == fields && diagnostics[..|diagnostics|] == diagnostics;
    var text := lib.write(Object([("key", Text(key)), ("info", Array(numbers)), ("diagnostics", Array(messages))]));
    if text.None? {
      return Err(CannotWrite);
    }
    r := if |text.value| > METADATA_LIMIT then Err(MetadataTooLong) else Ok(text.value);
  }

  method EncodeEntry(lib: Library, asset: Asset, key: string, diagnostics: seq<string>) returns (r: Result<Bytes>)
    requires Faithful(lib)
    ensures r == Encode(lib, asset, key, diagnostics)
  {
    if asset.payload == [] || |asset.payload| > PAYLOAD_LIMIT || asset.info.byteSize != |asset.payload| {
      return Err(BadEntry);
    }
    var text := MakeMetadata(lib, asset.info, key, diagnostics);
    if text.Err? {
      return Err(text.error);
    }
    var header := MakeHeader(lib, text.value, asset.payload);
    r := Ok(header[..] + text.value + asset.payload);
  }

  // ---------------------------------------------------------------- reading an entry

  function Fields(items: seq<Json>): Result<seq<Word>> {
    if items == [] then Ok([])
    else
      match Fields(items[..|items| - 1])
      case Err(e) => Err(e)
      case Ok(front) =>
        var last := items[|items| - 1];
        if last.Number? && 0 <= last.n < 0x1_0000_0000 then Ok(front + [last.n]) else Err(BadField)
  }

  function Messages(items: seq<Json>): Result<seq<string>> {
    if items == [] then Ok([])
    else
      match Messages(items[..|items| - 1])
      case Err(e) => Err(e)
      case Ok(front) =>
        var last := items[|items| - 1];
        if last.Text? && last.s != [] then Ok(front + [last.s]) else Err(BadDiagnostic)
  }

  function FromFields(f: seq<Word>): Info
    requires |f| == FIELDS
  {
    Info(f[0], f[1], f[2], f[3], f[4], f[5], f[6], f[7], f[8], f[9], f[10], f[11], f[12], f[13])
  }

  lemma {:induction false} FieldsKeepLength(items: seq<Json>)
    requires Fields(items).Ok?
    ensures |Fields(items).value| == |items|
  {
    if items != [] {
      FieldsKeepLength(items[..|items| - 1]);
    }
  }

  predicate HasItems(j: Option<Json>) { j.Some? && j.value.Array? }

  function Interpret(doc: Option<Json>, key: string, payload: Bytes): Result<Cached> {
    var root := if doc.Some? then doc.value else Null;
    var storedKey, info, messages := Get(root, "key"), Get(root, "info"), Get(root, "diagnostics");
    if storedKey != Some(Text(key)) || !HasItems(info) || |info.value.items| != FIELDS || !HasItems(messages) then
      Err(BadMetadata)
    else
      match Fields(info.value.items)
      case Err(e) => Err(e)
      case Ok(fields) =>
        FieldsKeepLength(info.value.items);
        var value := FromFields(fields);
        if value.byteSize != |payload| then Err(BadSize)
        else
          match Messages(messages.value.items)
          case Err(e) => Err(e)
          case Ok(diagnostics) => Ok(Cached(Asset(payload, value), diagnostics))
  }

  function Decode(lib: Library, bytes: Bytes, key: string, maximum: nat): Result<Cached> {
    if |bytes| < HEADER_BYTES || bytes[..8] != MAGIC then Err(Obsolete)
    else
      var metadataBytes, payloadBytes := Little(bytes[8..12]), Little(bytes[12..16]);
      if metadataBytes > METADATA_LIMIT || payloadBytes == 0 || payloadBytes > maximum ||
         HEADER_BYTES + metadataBytes + payloadBytes != |bytes| then Err(BadLengths)
      else if lib.digest(bytes[HEADER_BYTES..]) != bytes[16..HEADER_BYTES] then Err(BadChecksum)
      else
        Interpret(lib.read(bytes[HEADER_BYTES..HEADER_BYTES + metadataBytes]), key, bytes[HEADER_BYTES + metadataBytes..])
  }

  method ReadFields(items: seq<Json>) returns (r: Result<seq<Word>>)
    ensures r == Fields(items)
  {
    var fields: seq<Word> := [];
    for k := 0 to |items|
      invariant Fields(items[..k]) == Ok(fields)
    {
      assert items[..k + 1][..k] == items[..k];
      var field := items[k];
      if !field.Number? || field.n < 0 || field.n >= 0x1_0000_0000 {
        FieldErrorStays(items, k + 1);
        return Err(BadField);
      }
      fields := fields + [field.n];
    }
    assert items[..|items|] == items;
    r := Ok(fields);
  }

  lemma {:induction false} FieldErrorStays(items: seq<Json>, k: nat)
    requires k <= |items| && Fields(items[..k]) == Err(BadField)
    ensures Fields(items) == Err(BadField)
    decreases |items| - k
  {
    if k == |items| {
      assert items[..k] == items;
    } else {
      assert items[..k + 1][..k] == items[..k];
      FieldErrorStays(items, k + 1);
    }
  }

  method ReadMessages(items: seq<Json>) returns (r: Result<seq<string>>)
    ensures r == Messages(items)
  {
    var messages: seq<string> := [];
    for k := 0 to |items|
      invariant Messages(items[..k]) == Ok(messages)
    {
      assert items[..k + 1][..k] == items[..k];
      var message := items[k];
      if !message.Text? || message.s == [] {
        MessageErrorStays(items, k + 1);
        return Err(BadDiagnostic);
      }
      messages := messages + [message.s];
    }
    assert items[..|items|] == items;
    r := Ok(messages);
  }

  lemma {:induction false} MessageErrorStays(items: seq<Json>, k: nat)
    requires k <= |items| && Messages(items[..k]) == Err(BadDiagnostic)
    ensures Messages(items) == Err(BadDiagnostic)
    decreases |items| - k
  {
    if k == |items| {
      assert items[..k] == items;
    } else {
      assert items[..k + 1][..k] == items[..k];
      MessageErrorStays(items, k + 1);
    }
  }

  method DecodeEntry(lib: Library, bytes: Bytes, key: string, maximum: nat) returns (r: Result<Cached>)
    ensures r == Decode(lib, bytes, key, maximum)
  {
    if |bytes| < HEADER_BYTES || bytes[..8] != MAGIC {
      return Err(Obsolete);
    }
    var metadataBytes := GetWord(bytes, 8);
    var payloadBytes := GetWord(bytes, 12);
    if metadataBytes > METADATA_LIMIT || payloadBytes == 0 || payloadBytes > maximum ||
       HEADER_BYTES + metadataBytes + payloadBytes != |bytes| {
      return Err(BadLengths);
    }
    if lib.digest(bytes[HEADER_BYTES..]) != bytes[16..HEADER_BYTES] {
      return Err(BadChecksum);
    }
    var doc := lib.read(bytes[HEADER_BYTES..HEADER_BYTES + metadataBytes]);
    var root := if doc.Some? then doc.value else Null;
    var storedKey, info, messages := Get(root, "key"), Get(root, "info"), Get(root, "diagnostics");
    if storedKey != Some(Text(key)) || !HasItems(info) || |info.value.items| != FIELDS || !HasItems(messages) {
      return Err(BadMetadata);
    }
    var fields := ReadFields(info.value.items);
    if fields.Err? {
      return Err(fields.error);
    }
    FieldsKeepLength(info.value.items);
    var value := FromFields(fields.value);
    if value.byteSize != payloadBytes {
      return Err(BadSize);
    }
    var diagnostics := ReadMessages(messages.value.items);
    if diagnostics.Err? {
      return Err(diagnostics.error);
    }
    r := Ok(Cached(Asset(bytes[HEADER_BYTES + metadataBytes..], value), diagnostics.value));
  }

  // ---------------------------------------------------------------- laws

  lemma {:induction false} FieldsOfNumbers(words: seq<Word>)
    ensures Fields(Numbers(words)) == Ok(words)
  {
    if words != [] {
      var front := words[..|words| - 1];
      FieldsOfNumbers(front);
      assert Numbers(words)[..|words| - 1] == Numbers(front);
      assert words == front + [words[|words| - 1]];
    } else {
      assert Numbers(words) == [];
    }
  }

  lemma {:induction false} MessagesOfTexts(messages: seq<string>)
    requires [] !in messages
    ensures Messages(Texts(messages)) == Ok(messages)
  {
    if messages != [] {
      var front := messages[..|messages| - 1];
      MessagesOfTexts(front);
      assert Texts(messages)[..|messages| - 1] == Texts(front);
      assert messages == front + [messages[|messages| - 1]];
    } else {
      assert Texts(messages) == [];
    }
  }

  lemma DocumentMembers(info: Info, key: string, diagnostics: seq<string>)
    ensures Get(Document(info, key, diagnostics), "key") == Some(Text(key))
    ensures Get(Document(info, key, diagnostics), "info") == Some(Array(Numbers(FieldList(info))))
    ensures Get(Document(info, key, diagnostics), "diagnostics") == Some(Array(Texts(diagnostics)))
  {
    hide FieldList, Numbers, Texts;
    var a, b, c := ("key", Text(key)), ("info", Array(Numbers(FieldList(info)))), ("diagnostics", Array(Texts(diagnostics)));
    assert "key" != "info" && "key" != "diagnostics" && "info" != "diagnostics" by {
      assert |"key"| == 3 && |"info"| == 4 && |"diagnostics"| == 11;
    }
    FindDistinct([a, b, c], a);
    FindDistinct([a, b, c], b);
    FindDistinct([a, b, c], c);
  }

  lemma InterpretDocument(info: Info, key: string, diagnostics: seq<string>, payload: Bytes)
    requires [] !in diagnostics && info.byteSize == |payload|
    ensures Interpret(Some(Document(info, key, diagnostics)), key, payload) == Ok(Cached(Asset(payload, info), diagnostics))
    ensures forall other :: other != key ==> Interpret(Some(Document(info, key, diagnostics)), other, payload) == Err(BadMetadata)
  {
    DocumentMembers(info, key, diagnostics);
    FieldsOfNumbers(FieldList(info));
    MessagesOfTexts(diagnostics);
    hide Document, Fields, Messages, Texts, Get;
    assert |Numbers(FieldList(info))| == FIELDS;
  }

  /** Any entry with a given text and payload splits back into its parts. */
  lemma FrameParts(lib: Library, text: Bytes, payload: Bytes)
    requires Faithful(lib) && |text| <= METADATA_LIMIT && |payload| <= PAYLOAD_LIMIT
    ensures var bytes := Header(lib, text, payload) + text + payload;
      && |bytes| == HEADER_BYTES + |text| + |payload|
      && bytes[..8] == MAGIC && bytes[8..12] == FourBytes(|text|) && bytes[12..16] == FourBytes(|payload|)
      && bytes[16..HEADER_BYTES] == lib.digest(text + payload) && bytes[HEADER_BYTES..] == text + payload
      && bytes[HEADER_BYTES..HEADER_BYTES + |text|] == text && bytes[HEADER_BYTES + |text|..] == payload
  {
    hide FourBytes;
  }

  /** An entry is written exactly for a payload of one byte to the limit whose size the fields state, with no empty
      diagnostic, and metadata that can be written and is not too long; it is then its header and the two parts long. */
  lemma EncodedIff(lib: Library, asset: Asset, key: string, diagnostics: seq<string>)
    requires Faithful(lib)
    ensures var text := lib.write(Document(asset.info, key, diagnostics));
      var r := Encode(lib, asset, key, diagnostics);
      && (r.Ok? <==> 0 < |asset.payload| == asset.info.byteSize <= PAYLOAD_LIMIT
                     && (forall k | 0 <= k < |diagnostics| :: |diagnostics[k]| > 0)
                     && text.Some? && |text.value| <= METADATA_LIMIT)
      && (r.Ok? ==> |r.value| == HEADER_BYTES + |text.value| + |asset.payload|)
  {
    hide Document, FourBytes;
    if k :| 0 <= k < |diagnostics| && |diagnostics[k]| == 0 {
      assert diagnostics[k] == [];
    }
  }

  /** Reading a written entry gives back its payload, every field and every diagnostic, whenever the caller's limit
      admits the payload; a reader with another key, or a smaller limit, gets nothing. */
  lemma RoundTrip(lib: Library, asset: Asset, key: string, diagnostics: seq<string>, maximum: nat, other: string)
    requires Faithful(lib) && Encode(lib, asset, key, diagnostics).Ok?
    ensures var bytes := Encode(lib, asset, key, diagnostics).value;
      && |bytes| <= HEADER_BYTES + METADATA_LIMIT + PAYLOAD_LIMIT
      && Decode(lib, bytes, key, maximum) ==
           (if |asset.payload| <= maximum then Ok(Cached(asset, diagnostics)) else Err(BadLengths))
      && (other != key ==> Decode(lib, bytes, other, maximum).Err?)
  {
    hide FourBytes, Little, Header, Document, Interpret;
    var text := lib.write(Document(asset.info, key, diagnostics)).value;
    FrameParts(lib, text, asset.payload);
    LittleRoundTrip(|text|);
    LittleRoundTrip(|asset.payload|);
    InterpretDocument(asset.info, key, diagnostics, asset.payload);
  }

  /** Whatever is accepted is exactly a header for some text and the returned payload, followed by the two. */
  lemma AcceptedIsFramed(lib: Library, bytes: Bytes, key: string, maximum: nat) returns (text: Bytes)
    requires Faithful(lib) && maximum <= PAYLOAD_LIMIT && Decode(lib, bytes, key, maximum).Ok?
    ensures var c := Decode(lib, bytes, key, maximum).value;
      && |text| <= METADATA_LIMIT && 0 < |c.asset.payload| <= maximum
      && c.asset.info.byteSize == |c.asset.payload| && [] !in c.diagnostics
      && bytes == Header(lib, text, c.asset.payload) + text + c.asset.payload
  {
    var m := Little(bytes[8..12]);
    text := bytes[HEADER_BYTES..HEADER_BYTES + m];
    var payload := bytes[HEADER_BYTES + m..];
    FourRoundTrip(bytes[8..12]);
    FourRoundTrip(bytes[12..16]);
    InterpretKeeps(lib.read(text), key, payload);
    hide FourBytes, Little, Interpret;
    Reassembled(bytes, m);
  }

  lemma Reassembled(bytes: Bytes, m: nat)
    requires HEADER_BYTES + m <= |bytes|
    ensures bytes[HEADER_BYTES..] == bytes[HEADER_BYTES..HEADER_BYTES + m] + bytes[HEADER_BYTES + m..]
    ensures bytes == bytes[..8] + bytes[8..12] + bytes[12..16] + bytes[16..HEADER_BYTES]
                     + bytes[HEADER_BYTES..HEADER_BYTES + m] + bytes[HEADER_BYTES + m..]
  {
  }

  lemma InterpretKeeps(doc: Option<Json>, key: string, payload: Bytes)
    requires Interpret(doc, key, payload).Ok?
    ensures var c := Interpret(doc, key, payload).value;
      c.asset.payload == payload && c.asset.info.byteSize == |payload| && [] !in c.diagnostics
  {
    hide Fields;
    NoEmptyMessage(Get(if doc.Some? then doc.value else Null, "diagnostics").value.items);
  }

  lemma {:induction false} NoEmptyMessage(items: seq<Json>)
    requires Messages(items).Ok?
    ensures [] !in Messages(items).value
  {
    if items != [] {
      NoEmptyMessage(items[..|items| - 1]);
    }
  }

  /** The number four bytes stand for, the lowest first. */
  function LowFirst(a: int, b: int, c: int, d: int): int { a + 256 * b + 0x1_0000 * c + 0x100_0000 * d }

  /** The layout on disk: the magic, two little-endian lengths, the digest of everything behind the header, the text and the
      payload. */
  lemma EntryLayout(lib: Library, asset: Asset, key: string, diagnostics: seq<string>)
    requires Faithful(lib) && Encode(lib, asset, key, diagnostics).Ok?
    ensures var bytes := Encode(lib, asset, key, diagnostics).value;
      var text := lib.write(Document(asset.info, key, diagnostics)).value;
      && |bytes| == 80 + |text| + |asset.payload|
      && bytes[..8] == [80, 84, 65, 67, 48, 48, 48, 49]
      && |text| == LowFirst(bytes[8], bytes[9], bytes[10], bytes[11])
      && |asset.payload| == LowFirst(bytes[12], bytes[13], bytes[14], bytes[15])
      && bytes[16..80] == lib.digest(bytes[80..])
      && bytes[80..80 + |text|] == text && bytes[80 + |text|..] == asset.payload
  {
    hide FourBytes, Little, Header, Document;
    var bytes := Encode(lib, asset, key, diagnostics).value;
    var text := lib.write(Document(asset.info, key, diagnostics)).value;
    FrameParts(lib, text, asset.payload);
    hide *;
    WordAt(bytes, 8, |text|);
    WordAt(bytes, 12, |asset.payload|);
  }

  lemma WordAt(bytes: Bytes, offset: nat, v: Word)
    requires offset + 4 <= |bytes| && bytes[offset..offset + 4] == FourBytes(v)
    ensures v == LowFirst(bytes[offset], bytes[offset + 1], bytes[offset + 2], bytes[offset + 3])
  {
    LittleRoundTrip(v);
    assert bytes[offset..offset + 4] == [bytes[offset], bytes[offset + 1], bytes[offset + 2], bytes[offset + 3]];
    hide *;
    FourAreLowFirst(bytes[offset], bytes[offset + 1], bytes[offset + 2], bytes[offset + 3]);
  }

  lemma FourAreLowFirst(a: Byte, b: Byte, c: Byte, d: Byte)
    ensures Little([a, b, c, d]) == LowFirst(a, b, c, d)
  {
    LittleOfFour(a, b, c, d);
    hide Little;
  }

  /** Nothing is accepted whose text or payload was altered so that the digest shows it. */
  lemma AlteredIsRejected(lib: Library, bytes: Bytes, key: string, maximum: nat)
    requires |bytes| >= 80 && lib.digest(bytes[80..]) != bytes[16..80]
    ensures Decode(lib, bytes, key, maximum).Err?
  {
    hide Interpret, Little;
  }

  /** No file whose length differs from a written entry's, but which starts with the same lengths, is accepted:
      in particular no strict prefix left by an interrupted write, and no entry with bytes appended. */
  lemma OtherLengthIsRejected(lib: Library, asset: Asset, key: string, diagnostics: seq<string>, bytes: Bytes,
                              reader: string, maximum: nat)
    requires Faithful(lib) && Encode(lib, asset, key, diagnostics).Ok?
    requires var entry := Encode(lib, asset, key, diagnostics).value;
      |bytes| != |entry| && (|bytes| >= 16 ==> bytes[8..16] == entry[8..16])
    ensures Decode(lib, bytes, reader, maximum).Err?
  {
    hide FourBytes, Little, Header, Document, Interpret;
    var entry := Encode(lib, asset, key, diagnostics).value;
    var text := lib.write(Document(asset.info, key, diagnostics)).value;
    FrameParts(lib, text, asset.payload);
    LittleRoundTrip(|text|);
    LittleRoundTrip(|asset.payload|);
    if |bytes| >= HEADER_BYTES {
      assert bytes[8..12] == bytes[8..16][..4] == entry[8..12];
      assert bytes[12..16] == bytes[8..16][4..] == entry[12..16];
    }
  }

  /** An interrupted write leaves a strict prefix, which no reader accepts. */
  lemma TruncatedIsRejected(lib: Library, asset: Asset, key: string, diagnostics: seq<string>, n: nat, reader: string, maximum: nat)
    requires Faithful(lib) && Encode(lib, asset, key, diagnostics).Ok?
    requires n < |Encode(lib, asset, key, diagnostics).value|
    ensures Decode(lib, Encode(lib, asset, key, diagnostics).value[..n], reader, maximum).Err?
  {
    hide Encode, Decode;
    OtherLengthIsRejected(lib, asset, key, diagnostics, Encode(lib, asset, key, diagnostics).value[..n], reader, maximum);
  }
}
