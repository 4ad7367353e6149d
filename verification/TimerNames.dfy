/** What the members of a stored timer are called, what they may hold, and what the escapes of its strings mean
    (main/timers.c:157-248, 282-351). */
module TimerNames {
  import opened Bytes
  import opened TimerText
  import opened TimerLaws
  import opened TimerRoundTrip

  // ---------- escapes ----------

  /** The escapes of one letter (section 7 of RFC 8259). */
  lemma EscapesMeaning(rest: string)
    ensures Unit("\\\"" + rest) == Some(([0x22 as char], 2)) && Unit("\\\\" + rest) == Some(([0x5C as char], 2))
    ensures Unit("\\/" + rest) == Some(([0x2F as char], 2)) && Unit("\\b" + rest) == Some(([0x08 as char], 2))
    ensures Unit("\\f" + rest) == Some(([0x0C as char], 2)) && Unit("\\n" + rest) == Some(([0x0A as char], 2))
    ensures Unit("\\r" + rest) == Some(([0x0D as char], 2)) && Unit("\\t" + rest) == Some(([0x09 as char], 2))
  {}

  /** Any other letter is refused, but for 'u'. */
  lemma OtherEscapesFail(e: char, rest: string)
    requires e !in "\"\\/bfnrtu"
    ensures Unit(['\\', e] + rest) == None
  {
    assert At(['\\', e] + rest, 1) == e;
  }

  /** Hex digits of either case, and no others. */
  lemma HexMeaning(h: char, v: nat)
    ensures HexValue(h) == Some(v) <==> v < 0x10 && (h == "0123456789abcdef"[v] || h == "0123456789ABCDEF"[v])
  {}

  /** The bytes of a code point of up to sixteen bits in UTF-8 (section 3 of RFC 3629). */
  lemma Utf8Meaning(cp: nat)
    requires cp < 0x1_0000
    ensures var u := Utf8(cp);
            && (cp < 0x80 ==> |u| == 1 && u[0] as int == cp)
            && (0x80 <= cp < 0x800 ==>
                  && |u| == 2 && 0xC0 <= u[0] as int < 0xE0 && 0x80 <= u[1] as int < 0xC0
                  && cp == 0x40 * (u[0] as int - 0xC0) + (u[1] as int - 0x80))
            && (0x800 <= cp ==>
                  && |u| == 3 && 0xE0 <= u[0] as int < 0xF0 && 0x80 <= u[1] as int < 0xC0 && 0x80 <= u[2] as int < 0xC0
                  && cp == 0x1000 * (u[0] as int - 0xE0) + 0x40 * (u[1] as int - 0x80) + (u[2] as int - 0x80))
  {}

  /** An escape of four hex digits is its code point in UTF-8. */
  lemma CodePointMeaning(a: char, b: char, c: char, d: char, rest: string)
    ensures var p, q, r, s := HexValue(a), HexValue(b), HexValue(c), HexValue(d);
            Unit(['\\', 'u', a, b, c, d] + rest) ==
            if p.Some? && q.Some? && r.Some? && s.Some?
            then Some((Utf8(0x1000 * p.value + 0x100 * q.value + 0x10 * r.value + s.value), 6)) else None
  {
    var t := ['\\', 'u', a, b, c, d] + rest;
    assert t[2..] == [a, b, c, d] + rest;
    assert At(t[2..], 0) == a && At(t[2..], 1) == b && At(t[2..], 2) == c && At(t[2..], 3) == d;
    hide Utf8, HexValue;
  }

  // ---------- names ----------

  /** The short and the long name of every field, and that no other text names it. */
  lemma NamesMeaning(key: string)
    ensures FieldOf(key) == Arm <==> key == "a" || key == "arm"
    ensures FieldOf(key) == Repeat <==> key == "r" || key == "repeat"
    ensures FieldOf(key) == Retain <==> key == "rt" || key == "retain"
    ensures FieldOf(key) == Qos <==> key == "q" || key == "qos"
    ensures FieldOf(key) == Window <==> key == "w" || key == "window"
    ensures FieldOf(key) == Minute <==> key == "hm" || key == "min"
    ensures FieldOf(key) == Days <==> key == "d" || key == "days"
    ensures FieldOf(key) == Topic <==> key == "tp" || key == "topic"
    ensures FieldOf(key) == Payload <==> key == "pl" || key == "payload"
    ensures FieldOf(key) == Label <==> key == "l" || key == "label"
  {
    if |key| == 1 {
      assert key == [key[0]];
    }
  }

  // ---------- one member by itself ----------

  /** What a slot of one number member holds, None for one that is refused. */
  function NumberSlot(key: string, n: nat): Option<Timer> {
    if key in ["a", "arm"] then Some(EMPTY.(arm := n != 0))
    else if key in ["r", "repeat"] then Some(EMPTY.(repeat := n != 0))
    else if key in ["rt", "retain"] then Some(EMPTY.(retain := n != 0))
    else if key in ["q", "qos"] then (if n <= 1 then Some(EMPTY.(qos := n)) else None)
    else if key in ["w", "window"] then (if n <= 15 then Some(EMPTY.(window := n)) else None)
    else if n <= 1439 then Some(EMPTY.(minute := n)) else None
  }

  const NUMBERS := ["a", "arm", "r", "repeat", "rt", "retain", "q", "qos", "w", "window", "hm", "min"]

  lemma NumberNames(key: string)
    requires key in NUMBERS
    ensures 1 <= |key| <= 6 && forall i | 0 <= i < |key| :: 'a' <= key[i] <= 'z'
    ensures Numeric(FieldOf(key))
    ensures forall n: nat :: SetNumber(EMPTY, FieldOf(key), n) == NumberSlot(key, n)
  {}

  lemma PlainName(key: string)
    requires |key| < KEY_SIZE && forall i | 0 <= i < |key| :: 'a' <= key[i] <= 'z'
    ensures Bytewise(key) && Terminated(key) == key && Quote(key) == ['"'] + key + ['"']
  {
    TerminatedIs(key);
    EscapePlain(key);
  }

  /** A slot of one number member, by either name: the number is stored in that field alone, or refused when it is out
      of the field's range. */
  lemma OneNumber(key: string, n: nat, rest: string)
    requires key in NUMBERS && n <= LONG_MAX
    ensures ParseSlot("{\"" + key + "\":" + Decimal(n) + "}" + rest) ==
            match NumberSlot(key, n)
            case Some(t) => Some((t, rest))
            case None => None
  {
    NumberNames(key);
    PlainName(key);
    var value := Decimal(n) + ("}" + rest);
    DigitsOfDecimal(n, "}" + rest);
    NumberField(key, n, rest);
    OneMember(key, Decimal(n), rest);
    AfterValue(rest);
    assert !Space(value[0]) && value != [];
    hide *;
    SlotOfOne(key, value, "{\"" + key + "\":" + Decimal(n) + "}" + rest);
  }

  lemma NumberField(key: string, n: nat, rest: string)
    requires Numeric(FieldOf(key)) && n <= LONG_MAX && SetNumber(EMPTY, FieldOf(key), n) == NumberSlot(key, n)
    ensures ParseField(Decimal(n) + ("}" + rest), FieldOf(key), EMPTY) ==
            match NumberSlot(key, n)
            case Some(t) => Some((t, "}" + rest))
            case None => None
  {
    NumberRoundTrip(n, "}" + rest);
    hide Decimal, ParseInt, FieldOf, NumberSlot, SetNumber;
  }

  lemma OneMember(key: string, value: string, rest: string)
    requires Quote(key) == ['"'] + key + ['"']
    ensures "{\"" + key + "\":" + value + "}" + rest == "{" + (Quote(key) + [':'] + (value + ("}" + rest)))
  {}

  lemma AfterValue(rest: string)
    ensures SkipWs("}" + rest) == "}" + rest && At("}" + rest, 0) == '}' && ("}" + rest)[1..] == rest
  {}

  /** A slot with a first member of this name: what its value gives. */
  lemma SlotOfOne(key: string, value: string, text: string)
    requires |key| < KEY_SIZE && forall i | 0 <= i < |key| :: 'a' <= key[i] <= 'z'
    requires value != [] && !Space(value[0]) && text == "{" + (Quote(key) + [':'] + value)
    ensures var r := ParseField(value, FieldOf(key), EMPTY);
            && (r.None? ==> ParseSlot(text) == None)
            && (r.Some? && At(SkipWs(r.value.1), 0) == '}' ==>
                  ParseSlot(text) == Some((r.value.0, SkipWs(r.value.1)[1..])))
  {
    var v := Quote(key) + [':'] + value;
    PlainName(key);
    assert v[0] == '"' && text[0] == '{' && text[1..] == v;
    MemberOfOne(key, value);
    hide ParseField, FieldOf, Quote, ParseKey, ParseMembers;
    assert SkipWs(text) == text && SkipWs(v) == v;
  }

  lemma MemberOfOne(key: string, value: string)
    requires |key| < KEY_SIZE && forall i | 0 <= i < |key| :: 'a' <= key[i] <= 'z'
    requires value != [] && !Space(value[0])
    ensures var v, r := Quote(key) + [':'] + value, ParseField(value, FieldOf(key), EMPTY);
            && (r.None? ==> ParseMembers(v, EMPTY) == None)
            && (r.Some? && At(SkipWs(r.value.1), 0) == '}' ==>
                  ParseMembers(v, EMPTY) == Some((r.value.0, SkipWs(r.value.1)[1..])))
  {
    hide ParseField, FieldOf, Quote, ParseKey, Terminated;
    PlainName(key);
    var v := Quote(key) + [':'] + value;
    KeyStep("", key, "", "", value);
    assert "" + Quote(key) + "" + [':'] + "" + value == v && v[0] == '"';
    hide SkipWs;
  }

  // ---------- texts ----------

  /** A string that does not fit its buffer is refused. */
  lemma {:induction false} LongBodyFails(s: string, rest: string, acc: string, size: nat)
    requires Bytewise(s) && |acc| < size <= |acc| + |s|
    ensures Body(Escape(s) + ['"'] + rest, acc, size) == None
    decreases |s|
  {
    var c, tail := s[0], Escape(s[1..]) + ['"'] + rest;
    UnitOfEscape(c, tail);
    EscapeCons(s, rest);
    assert Bytewise(s[1..]);
    if |acc| + 1 < size {
      LongBodyFails(s[1..], rest, acc + [c], size);
      hide *;
      BodyStep(EscapeChar(c) + tail, acc, size, [c], |EscapeChar(c)|);
      DropFront(EscapeChar(c), tail);
    } else {
      hide Escape, EscapeChar, Unit;
    }
  }

  lemma LongStringFails(s: string, rest: string, size: nat)
    requires Bytewise(s) && 0 < size <= |s|
    ensures ParseString(Quote(s) + rest, size) == None
  {
    assert (Quote(s) + rest)[1..] == Escape(s) + ['"'] + rest;
    LongBodyFails(s, rest, [], size);
  }

  const TEXTS := ["d", "days", "tp", "topic", "pl", "payload", "l", "label"]

  /** What a slot of one text member holds, None for one that is refused. */
  function TextSlot(key: string, v: string): Option<Timer> {
    if key in ["d", "days"] then (if |v| == 7 then Some(EMPTY.(days := MaskOf(v))) else None)
    else if key in ["tp", "topic"] then (if |v| <= 128 then Some(EMPTY.(topic := v)) else None)
    else if key in ["pl", "payload"] then (if |v| <= 256 then Some(EMPTY.(payload := v)) else None)
    else if |v| <= 24 then Some(EMPTY.(caption := v)) else None
  }

  lemma TextNames(key: string, v: string)
    requires key in TEXTS && (key in ["pl", "payload"] || '\0' !in v)
    ensures 1 <= |key| <= 7 && forall i | 0 <= i < |key| :: 'a' <= key[i] <= 'z'
    ensures Textual(FieldOf(key)) && Room(FieldOf(key)) > 0
    ensures TextSlot(key, v) == if |v| < Room(FieldOf(key)) then SetText(EMPTY, FieldOf(key), v) else None
  {
    if '\0' !in v { TerminatedIs(v); }
    hide MaskOf, Terminated;
  }

  lemma TextField(key: string, v: string, rest: string)
    requires Bytewise(v) && Textual(FieldOf(key)) && Room(FieldOf(key)) > 0
    requires TextSlot(key, v) == if |v| < Room(FieldOf(key)) then SetText(EMPTY, FieldOf(key), v) else None
    ensures ParseField(Quote(v) + ("}" + rest), FieldOf(key), EMPTY) ==
            match TextSlot(key, v)
            case Some(t) => Some((t, "}" + rest))
            case None => None
  {
    if |v| < Room(FieldOf(key)) {
      StringRoundTrip(v, "}" + rest, Room(FieldOf(key)));
    } else {
      LongStringFails(v, "}" + rest, Room(FieldOf(key)));
    }
    hide Quote, ParseString, FieldOf, TextSlot, SetText, Room;
  }

  /** A slot of one text member, by either name: the text is stored in that field alone, days as their mask, or refused
      when it does not fit the field. */
  lemma OneText(key: string, v: string, rest: string)
    requires key in TEXTS && Bytewise(v) && (key in ["pl", "payload"] || '\0' !in v)
    ensures ParseSlot("{\"" + key + "\":" + Quote(v) + "}" + rest) ==
            match TextSlot(key, v)
            case Some(t) => Some((t, rest))
            case None => None
  {
    TextNames(key, v);
    PlainName(key);
    var value := Quote(v) + ("}" + rest);
    TextField(key, v, rest);
    OneMember(key, Quote(v), rest);
    AfterValue(rest);
    assert value[0] == '"' && !Space('"');
    hide *;
    SlotOfOne(key, value, "{\"" + key + "\":" + Quote(v) + "}" + rest);
  }

  // ---------- the store around the slots ----------

  /** The entries of the store: the master switch and the slots by either name; a version number changes nothing. */
  lemma EntriesMeaning(n: nat, t: string, rest: string, store: Store)
    requires n <= LONG_MAX && !Digit(At(rest, 0))
    ensures ParseEntryValue(Decimal(n) + rest, "me", store) == Some((store.(master := n != 0), rest))
    ensures ParseEntryValue(Decimal(n) + rest, "master", store) == Some((store.(master := n != 0), rest))
    ensures ParseEntryValue(Decimal(n) + rest, "v", store) == Some((store, rest))
    ensures ParseEntryValue(t, "timers", store) == ParseEntryValue(t, "t", store)
  {
    NumberRoundTrip(n, rest);
    hide Decimal, ParseInt, ParseSlots, SkipValue;
  }

  /** Slots beyond the last are read and dropped. */
  lemma {:induction false} ExtraSlotsAreDropped(t: string, i: nat, slots: seq<Timer>)
    requires i >= |slots| && ParseSlots(t, i, slots).Some?
    ensures ParseSlots(t, i, slots).value.0 == slots
    decreases |t|
  {
    hide ParseSlot;
    if At(t, 0) != '\0' {
      var (_, rest) := ParseInto(t, i, slots).value;
      if At(rest, 0) == ',' { ExtraSlotsAreDropped(SkipWs(rest[1..]), i + 1, slots); }
    }
  }
}
