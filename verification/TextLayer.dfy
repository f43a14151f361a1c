/** How text crosses the JSON writer and reader. A character here is one byte. The writer escapes a document to ASCII and
    puts the replacement character for every byte that starts no well-formed UTF-8 sequence (the Unicode Standard, table
    3-7); the reader takes only well-formed text. */
module TextLayer {
  import opened JsonValue

  const REPLACEMENT: string := "\U{EF}\U{BF}\U{BD}"

  predicate Byte(c: char, low: int, high: int) { low <= c as int <= high }

  predicate Tail(c: char) { Byte(c, 0x80, 0xBF) }

  /** The length of the well-formed sequence at the start of the text, or zero. */
  function UnitLength(s: string): (n: nat)
    requires s != ""
    ensures n <= 4 && n <= |s|
  {
    if s[0] as int < 0x80 then 1
    else if |s| >= 2 && Byte(s[0], 0xC2, 0xDF) && Tail(s[1]) then 2
    else if |s| >= 3 && Second3(s[0], s[1]) && Tail(s[2]) then 3
    else if |s| >= 4 && Second4(s[0], s[1]) && Tail(s[2]) && Tail(s[3]) then 4
    else 0
  }

  predicate Second3(a: char, b: char) {
    || (a as int == 0xE0 && Byte(b, 0xA0, 0xBF)) || (a as int == 0xED && Byte(b, 0x80, 0x9F))
    || ((Byte(a, 0xE1, 0xEC) || Byte(a, 0xEE, 0xEF)) && Tail(b))
  }

  predicate Second4(a: char, b: char) {
    || (a as int == 0xF0 && Byte(b, 0x90, 0xBF)) || (Byte(a, 0xF1, 0xF3) && Tail(b))
    || (a as int == 0xF4 && Byte(b, 0x80, 0x8F))
  }

  predicate WellEncoded(s: string)
    decreases |s|
  {
    s == "" || (UnitLength(s) > 0 && WellEncoded(s[UnitLength(s)..]))
  }

  /** The text as it is read back. */
  function Carried(s: string): string
    decreases |s|
  {
    if s == "" then ""
    else if UnitLength(s) > 0 then s[..UnitLength(s)] + Carried(s[UnitLength(s)..])
    else REPLACEMENT + Carried(s[1..])
  }

  /** A sequence is recognised whatever follows it. */
  lemma UnitIsLocal(unit: string, rest: string)
    requires unit != "" && UnitLength(unit) == |unit|
    ensures UnitLength(unit + rest) == |unit|
  {
  }

  lemma UnitOf(s: string)
    requires s != "" && UnitLength(s) > 0
    ensures UnitLength(s[..UnitLength(s)]) == UnitLength(s)
  {
  }

  lemma UnitThen(unit: string, rest: string)
    requires unit != "" && UnitLength(unit) == |unit| && WellEncoded(rest)
    ensures WellEncoded(unit + rest)
  {
    UnitIsLocal(unit, rest);
    hide UnitLength;
    assert (unit + rest)[|unit|..] == rest;
  }

  /** What is read back is always well-formed; well-formed text is read back unchanged, and no other text is. */
  lemma {:induction false} CarriedIsWellEncoded(s: string)
    ensures WellEncoded(Carried(s))
    decreases |s|
  {
    if s != "" {
      if UnitLength(s) > 0 {
        UnitOf(s);
        CarriedIsWellEncoded(s[UnitLength(s)..]);
        UnitThen(s[..UnitLength(s)], Carried(s[UnitLength(s)..]));
      } else {
        CarriedIsWellEncoded(s[1..]);
        UnitThen(REPLACEMENT, Carried(s[1..]));
      }
    }
  }

  lemma {:induction false} CarriedIffWellEncoded(s: string)
    ensures Carried(s) == s <==> WellEncoded(s)
    decreases |s|
  {
    CarriedIsWellEncoded(s);
    if WellEncoded(s) && s != "" {
      CarriedIffWellEncoded(s[UnitLength(s)..]);
      assert s == s[..UnitLength(s)] + s[UnitLength(s)..];
    }
  }

  /** A NUL stays and none appears; only the empty text is read back empty. */
  lemma {:induction false} CarriedKeepsNul(s: string)
    ensures '\0' in Carried(s) <==> '\0' in s
    ensures Carried(s) == "" <==> s == ""
    decreases |s|
  {
    if s != "" {
      var n := UnitLength(s);
      if n > 0 {
        CarriedKeepsNul(s[n..]);
        assert s == s[..n] + s[n..];
      } else {
        CarriedKeepsNul(s[1..]);
        assert s == [s[0]] + s[1..];
        assert '\0' !in REPLACEMENT;
      }
    }
  }

  lemma {:induction false} PlainIsWellEncoded(s: string)
    requires forall i | 0 <= i < |s| :: s[i] as int < 0x80
    ensures WellEncoded(s)
    decreases |s|
  {
    if s != "" {
      PlainIsWellEncoded(s[1..]);
    }
  }

  // ---------------------------------------------------------------- documents

  /** The document as it is read back; the names of members are fixed and plain. */
  function Received(j: Json): Json {
    match j
    case Text(s) => Text(Carried(s))
    case Array(items) => Array(seq(|items|, i requires 0 <= i < |items| => Received(items[i])))
    case Object(members) =>
      Object(seq(|members|, i requires 0 <= i < |members| => (members[i].0, Received(members[i].1))))
    case _ => j
  }

  predicate WellEncodedJson(j: Json) {
    match j
    case Text(s) => WellEncoded(s)
    case Array(items) => forall i | 0 <= i < |items| :: WellEncodedJson(items[i])
    case Object(members) => forall i | 0 <= i < |members| :: WellEncodedJson(members[i].1)
    case _ => true
  }

  lemma {:induction false} ReceivedIffWellEncoded(j: Json)
    ensures Received(j) == j <==> WellEncodedJson(j)
    ensures WellEncodedJson(Received(j))
  {
    hide Carried, WellEncoded;
    match j
    case Text(s) =>
      CarriedIffWellEncoded(s);
      CarriedIsWellEncoded(s);
    case Array(items) =>
      var r := Received(j).items;
      forall i | 0 <= i < |items| ensures (r[i] == items[i] <==> WellEncodedJson(items[i])) && WellEncodedJson(r[i]) {
        ReceivedIffWellEncoded(items[i]);
      }
      assert Received(j) == j <==> r == items;
    case Object(members) =>
      var r := Received(j).members;
      forall i | 0 <= i < |members|
        ensures (r[i] == members[i] <==> WellEncodedJson(members[i].1)) && WellEncodedJson(r[i].1)
      {
        ReceivedIffWellEncoded(members[i].1);
      }
      assert Received(j) == j <==> r == members;
    case _ =>
  }
}
