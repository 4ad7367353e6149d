/** Parsing undoes printing for every store the timers can hold, and unknown members of a slot,
    wherever they stand, change nothing. */
module TimerRoundTrip {
  import opened Bytes
  import opened TimerText
  import opened TimerLaws

  // ---------- members ----------

  datatype ItemValue = Number(n: nat) | Chars(s: string) | Any(v: Json)

  /** One member of a slot object, with the white space around its parts. */
  datatype Item = Item(a: string, key: string, b: string, c: string, value: ItemValue, d: string)

  function RenderValue(v: ItemValue): string {
    match v
    case Number(n) => Decimal(n)
    case Chars(s) => Quote(s)
    case Any(j) => Render(j)
  }

  function RenderItem(m: Item): string {
    m.a + Quote(m.key) + m.b + [':'] + m.c + RenderValue(m.value) + m.d
  }

  function FieldFor(m: Item): Field {
    FieldOf(Terminated(m.key))
  }

  /** A member of a known name holds what that name asks for; one of an unknown name, of at most
      15 bytes, holds any well-formed value. */
  predicate WellTyped(m: Item) {
    && AllSpace(m.a) && AllSpace(m.b) && AllSpace(m.c) && AllSpace(m.d)
    && Bytewise(m.key) && |m.key| < KEY_SIZE
    && var f := FieldFor(m);
       if Numeric(f) then m.value.Number? && m.value.n <= LONG_MAX && SetNumber(EMPTY, f, m.value.n).Some?
       else if Textual(f) then
         m.value.Chars? && Bytewise(m.value.s) && |m.value.s| < Room(f) && SetText(EMPTY, f, m.value.s).Some?
       else m.value.Any? && WellFormed(m.value.v)
  }

  function Put(s: Timer, m: Item): Timer
    requires WellTyped(m)
  {
    var f := FieldFor(m);
    if Numeric(f) then SetNumber(s, f, m.value.n).value
    else if Textual(f) then SetText(s, f, m.value.s).value
    else s
  }

  lemma {:induction false} SkipBlank(s: string, rest: string)
    requires AllSpace(s) && rest != [] && !Space(rest[0])
    ensures SkipWs(s + rest) == rest
  {
    if s == [] {
      assert s + rest == rest;
    } else {
      assert (s + rest)[1..] == s[1..] + rest;
      SkipBlank(s[1..], rest);
    }
  }

  lemma {:induction false} SkipWsTwice(t: string)
    ensures SkipWs(SkipWs(t)) == SkipWs(t)
  {
    if t != [] && Space(t[0]) { SkipWsTwice(t[1..]); }
  }

  predicate Ends(rest: string) {
    rest != [] && (rest[0] == ',' || rest[0] == '}')
  }

  lemma ValueStep(m: Item, s: Timer, rest: string)
    requires WellTyped(m) && Ends(rest)
    ensures ParseField(RenderValue(m.value) + m.d + rest, FieldFor(m), s) == Some((Put(s, m), m.d + rest))
    ensures !Space(At(RenderValue(m.value) + m.d + rest, 0))
  {
    var f, after := FieldFor(m), m.d + rest;
    var t := RenderValue(m.value) + m.d + rest;
    assert t == RenderValue(m.value) + after;
    assert At(after, 0) == if m.d == [] then rest[0] else m.d[0];
    hide FieldOf, Terminated, WellFormed, Decimal, Escape, SkipValue, ParseInt, ParseString;
    if Numeric(f) {
      NumberRoundTrip(m.value.n, after);
      DigitsOfDecimal(m.value.n, after);
      assert t[0] == Decimal(m.value.n)[0];
    } else if Textual(f) {
      StringRoundTrip(m.value.s, after, Room(f));
      assert t[0] == '"';
    } else {
      SkipsOneValue(m.value.v, after);
      assert t[0] == Render(m.value.v)[0];
      if m.value.v.Scalar? { assert TokenChar(m.value.v.token[0]); }
    }
  }

  /** A key between white space, and the text after its colon. */
  lemma KeyStep(a: string, key: string, b: string, c: string, value: string)
    requires AllSpace(a) && AllSpace(b) && AllSpace(c) && Bytewise(key) && |key| < KEY_SIZE
    requires value != [] && !Space(value[0])
    ensures ParseKey(a + Quote(key) + b + [':'] + c + value) == Some((Terminated(key), value))
  {
    var colon := [':'] + (c + value);
    KeyLayout(a, key, b, c, value);
    SkipBlank(a, Quote(key) + (b + colon));
    StringRoundTrip(key, b + colon, KEY_SIZE);
    SkipBlank(b, colon);
    SkipBlank(c, value);
  }

  lemma KeyLayout(a: string, key: string, b: string, c: string, value: string)
    ensures a + Quote(key) + b + [':'] + c + value == a + (Quote(key) + (b + ([':'] + (c + value))))
    ensures ([':'] + (c + value))[1..] == c + value
  {}

  /** A well-typed member is stored and read to its end. */
  lemma ItemStep(m: Item, s: Timer, rest: string)
    requires WellTyped(m) && Ends(rest)
    ensures ParseMember(RenderItem(m) + rest, s) == Some((Put(s, m), rest))
  {
    var value := RenderValue(m.value) + m.d + rest;
    assert RenderItem(m) + rest == m.a + Quote(m.key) + m.b + [':'] + m.c + value;
    ValueStep(m, s, rest);
    KeyStep(m.a, m.key, m.b, m.c, value);
    SkipBlank(m.d, rest);
  }

  // ---------- objects ----------

  /** Members between commas, and what comes after them. */
  function RenderItems(ms: seq<Item>, end: string): string
    requires ms != []
  {
    RenderItem(ms[0]) + if |ms| == 1 then end else [','] + RenderItems(ms[1..], end)
  }

  function ObjectText(ms: seq<Item>): string {
    if ms == [] then "{}" else ['{'] + RenderItems(ms, ['}'])
  }

  predicate AllTyped(ms: seq<Item>) {
    forall i | 0 <= i < |ms| :: WellTyped(ms[i])
  }

  function Fold(s: Timer, ms: seq<Item>): Timer
    requires AllTyped(ms)
    decreases |ms|
  {
    if ms == [] then s else Fold(Put(s, ms[0]), ms[1..])
  }

  lemma {:induction false} RenderMore(ms: seq<Item>, end: string, rest: string)
    requires ms != []
    ensures RenderItems(ms, end) + rest == RenderItems(ms, end + rest)
  {
    if |ms| > 1 { RenderMore(ms[1..], end, rest); }
  }

  lemma ItemLayout(m: Item, rest: string)
    ensures RenderItem(m) + rest == m.a + (Quote(m.key) + (m.b + [':'] + m.c + RenderValue(m.value) + m.d + rest))
  {
    hide Quote, RenderValue;
  }

  lemma ItemStart(m: Item, rest: string)
    requires WellTyped(m)
    ensures var t := RenderItem(m) + rest;
            At(t, 0) != '\0' && At(SkipWs(t), 0) == '"'
  {
    hide RenderValue;
    var after := m.b + [':'] + m.c + RenderValue(m.value) + m.d + rest;
    ItemLayout(m, rest);
    assert Quote(m.key)[0] == '"';
    hide Quote, RenderItem;
    SkipBlank(m.a, Quote(m.key) + after);
  }

  lemma {:induction false} MembersStep(ms: seq<Item>, s: Timer, rest: string)
    requires ms != [] && AllTyped(ms)
    ensures ParseMembers(RenderItems(ms, ['}'] + rest), s) == Some((Fold(s, ms), rest))
    decreases |ms|
  {
    var next := if |ms| == 1 then ['}'] + rest else [','] + RenderItems(ms[1..], ['}'] + rest);
    ItemStart(ms[0], next);
    ItemStep(ms[0], s, next);
    if |ms| > 1 {
      MembersStep(ms[1..], Put(s, ms[0]), rest);
      assert next[1..] == RenderItems(ms[1..], ['}'] + rest);
    } else {
      assert next[1..] == rest;
    }
  }

  lemma MembersSkipWs(t: string, s: Timer)
    requires At(t, 0) != '\0' && At(SkipWs(t), 0) != '\0'
    ensures ParseMembers(SkipWs(t), s) == ParseMembers(t, s)
  {
    SkipWsTwice(t);
  }

  lemma ObjectLayout(ms: seq<Item>, rest: string)
    ensures var t := ObjectText(ms) + rest;
            t[0] == '{' && t[1..] == if ms == [] then ['}'] + rest else RenderItems(ms, ['}'] + rest)
  {
    if ms == [] {
      assert ("{}" + rest)[1..] == ['}'] + rest;
    } else {
      RenderMore(ms, ['}'], rest);
      hide RenderItems;
      assert (['{'] + RenderItems(ms, ['}']) + rest)[1..] == RenderItems(ms, ['}']) + rest;
    }
  }

  /** An object of well-typed members is read member by member. */
  lemma ObjectRoundTrip(ms: seq<Item>, rest: string)
    requires AllTyped(ms)
    ensures ParseSlot(ObjectText(ms) + rest) == Some((Fold(EMPTY, ms), rest))
  {
    ObjectLayout(ms, rest);
    if ms == [] {
      assert (['}'] + rest)[1..] == rest;
    } else {
      var body := RenderItems(ms, ['}'] + rest);
      ItemStart(ms[0], if |ms| == 1 then ['}'] + rest else [','] + RenderItems(ms[1..], ['}'] + rest));
      MembersSkipWs(body, EMPTY);
      MembersStep(ms, EMPTY, rest);
    }
  }

  lemma {:induction false} FoldAppend(s: Timer, ms: seq<Item>, more: seq<Item>)
    requires AllTyped(ms) && AllTyped(more)
    ensures AllTyped(ms + more) && Fold(s, ms + more) == Fold(Fold(s, ms), more)
    decreases |ms|
  {
    if ms == [] {
      assert ms + more == more;
    } else {
      assert (ms + more)[1..] == ms[1..] + more;
      FoldAppend(Put(s, ms[0]), ms[1..], more);
    }
  }

  /** Forward compatibility: a member of unknown name, put anywhere into a slot object, leaves the
      parsed slot and the rest of the text as they were. */
  lemma UnknownMemberIsInvisible(front: seq<Item>, unknown: Item, back: seq<Item>, rest: string)
    requires WellTyped(unknown) && FieldFor(unknown) == Unknown && AllTyped(front) && AllTyped(back)
    ensures ParseSlot(ObjectText(front + [unknown] + back) + rest) == ParseSlot(ObjectText(front + back) + rest)
    ensures ParseSlot(ObjectText(front + back) + rest).Some?
  {
    var more := [unknown] + back;
    assert front + [unknown] + back == front + more && more[1..] == back;
    FoldAppend(EMPTY, front, more);
    FoldAppend(EMPTY, front, back);
    ObjectRoundTrip(front + more, rest);
    ObjectRoundTrip(front + back, rest);
  }

  // ---------- slots ----------

  function Plain(key: string, v: ItemValue): Item {
    Item("", key, "", "", v, "")
  }

  function HeadItems(s: Timer): seq<Item> {
    [Plain("a", Number(Flag(s.arm)))]
    + ([Plain("r", Number(Flag(s.repeat)))]
       + ([Plain("rt", Number(Flag(s.retain)))]
          + ([Plain("q", Number(s.qos))]
             + ([Plain("w", Number(s.window))]
                + ([Plain("hm", Number(s.minute))] + [Plain("d", Chars(DayLetters(s.days, 0)))])))))
  }

  /** The text members, each only when it has something to say. */
  function Optional(key: string, v: string): seq<Item> {
    if v != [] then [Plain(key, Chars(v))] else []
  }

  function TailItems(s: Timer): seq<Item> {
    Optional("tp", s.topic) + (Optional("pl", s.payload) + Optional("l", s.caption))
  }

  /** A slot whose texts are bytes. */
  predicate ByteSlot(s: Timer) {
    Storable(s) && Bytewise(s.topic) && Bytewise(s.payload) && Bytewise(s.caption)
  }

  lemma {:induction false} EscapePlain(s: string)
    requires forall i | 0 <= i < |s| :: ' ' <= s[i] && s[i] != '"' && s[i] != '\\'
    ensures Escape(s) == s
  {
    if s != [] { EscapePlain(s[1..]); }
  }

  lemma {:induction false} TerminatedIs(s: string)
    requires '\0' !in s
    ensures Terminated(s) == s
  {
    if s != [] { TerminatedIs(s[1..]); }
  }

  /** An item stores its value into a field whatever the slot holds. */
  ghost predicate Stores(m: Item, f: Field, n: int) {
    WellTyped(m) && Numeric(f) && forall s: Timer :: SetNumber(s, f, n) == Some(Put(s, m))
  }

  ghost predicate StoresText(m: Item, f: Field, v: string) {
    WellTyped(m) && Textual(f) && forall s: Timer :: SetText(s, f, v) == Some(Put(s, m))
  }

  lemma NumberItem(key: string, f: Field, n: nat)
    requires Bytewise(key) && |key| < KEY_SIZE && FieldOf(Terminated(key)) == f
    requires Numeric(f) && n <= LONG_MAX && SetNumber(EMPTY, f, n).Some?
    ensures Stores(Plain(key, Number(n)), f, n)
  {}

  lemma TextItem(key: string, f: Field, v: string)
    requires Bytewise(key) && |key| < KEY_SIZE && FieldOf(Terminated(key)) == f
    requires Textual(f) && Bytewise(v) && |v| < Room(f) && SetText(EMPTY, f, v).Some?
    ensures StoresText(Plain(key, Chars(v)), f, v)
  {}

  lemma FoldCons(s: Timer, m: Item, ms: seq<Item>)
    requires WellTyped(m) && AllTyped(ms)
    ensures AllTyped([m] + ms) && Fold(s, [m] + ms) == Fold(Put(s, m), ms)
  {
    assert ([m] + ms)[1..] == ms;
  }

  lemma FoldOne(s: Timer, m: Item)
    requires WellTyped(m)
    ensures AllTyped([m]) && Fold(s, [m]) == Put(s, m)
  {
    FoldCons(s, m, []);
    assert [m] + [] == [m];
  }

  lemma LettersAreBytes(days: nat)
    requires days < 0x80
    ensures var v := DayLetters(days, 0); Bytewise(v) && '\0' !in v && |v| == 7 && DaysFrom(v) == Some(days)
    ensures var v := DayLetters(days, 0); forall i | 0 <= i < |v| :: ' ' <= v[i] && v[i] != '"' && v[i] != '\\'
  {
    DaysRoundTrip(days, 0);
    var v := DayLetters(days, 0);
    hide DayLetters, MaskOf;
    assert forall c | c in LETTERS :: 'A' <= c <= 'Z';
    forall i | 0 <= i < |v| ensures 'A' <= v[i] <= 'Z' || v[i] == '-' {
      assert v[i] in v;
    }
  }

  lemma DaysItem(days: nat)
    requires days < 0x80
    ensures StoresText(Plain("d", Chars(DayLetters(days, 0))), Days, DayLetters(days, 0))
    ensures forall s: Timer :: SetText(s, Days, DayLetters(days, 0)) == Some(s.(days := days))
  {
    LettersAreBytes(days);
    TerminatedIs(DayLetters(days, 0));
    hide DayLetters, DaysFrom;
    TextItem("d", Days, DayLetters(days, 0));
  }

  /** The first three members rebuild the flags, the next four the numbers and the days. */
  lemma FlagsRebuild(s: Timer, t: Timer, ms: seq<Item>)
    requires AllTyped(ms)
    ensures var a, r, rt := Plain("a", Number(Flag(s.arm))), Plain("r", Number(Flag(s.repeat))),
            Plain("rt", Number(Flag(s.retain)));
            && AllTyped([a] + ([r] + ([rt] + ms)))
            && Fold(t, [a] + ([r] + ([rt] + ms))) == Fold(t.(arm := s.arm, repeat := s.repeat, retain := s.retain), ms)
  {
    var a, r, rt := Plain("a", Number(Flag(s.arm))), Plain("r", Number(Flag(s.repeat))),
      Plain("rt", Number(Flag(s.retain)));
    TerminatedIs("rt");
    NumberItem("a", Arm, Flag(s.arm));
    NumberItem("r", Repeat, Flag(s.repeat));
    NumberItem("rt", Retain, Flag(s.retain));
    var t1, t2 := t.(arm := s.arm), t.(arm := s.arm, repeat := s.repeat);
    FoldCons(t2, rt, ms);
    FoldCons(t1, r, [rt] + ms);
    FoldCons(t, a, [r] + ([rt] + ms));
  }

  lemma FoldNumber(t: Timer, t': Timer, key: string, f: Field, n: nat, ms: seq<Item>)
    requires Bytewise(key) && |key| < KEY_SIZE && FieldOf(Terminated(key)) == f
    requires Numeric(f) && n <= LONG_MAX && SetNumber(EMPTY, f, n).Some? && SetNumber(t, f, n) == Some(t')
             && AllTyped(ms)
    ensures AllTyped([Plain(key, Number(n))] + ms) && Fold(t, [Plain(key, Number(n))] + ms) == Fold(t', ms)
  {
    NumberItem(key, f, n);
    FoldCons(t, Plain(key, Number(n)), ms);
  }

  lemma NumbersRebuild(s: Timer, t: Timer)
    requires Storable(s)
    ensures var q, w, hm := Plain("q", Number(s.qos)), Plain("w", Number(s.window)), Plain("hm", Number(s.minute));
            var d := Plain("d", Chars(DayLetters(s.days, 0)));
            && AllTyped([q] + ([w] + ([hm] + [d])))
            && Fold(t, [q] + ([w] + ([hm] + [d]))) ==
               t.(qos := s.qos, window := s.window, minute := s.minute, days := s.days)
  {
    hide AllTyped, Fold, DayLetters, WellTyped;
    var w, hm := Plain("w", Number(s.window)), Plain("hm", Number(s.minute));
    var d := Plain("d", Chars(DayLetters(s.days, 0)));
    var t1, t2 := t.(qos := s.qos), t.(qos := s.qos, window := s.window);
    var t3 := t2.(minute := s.minute);
    DaysRebuild(s, t3);
    TerminatedIs("hm");
    FoldNumber(t2, t3, "hm", Minute, s.minute, [d]);
    FoldNumber(t1, t2, "w", Window, s.window, [hm] + [d]);
    FoldNumber(t, t1, "q", Qos, s.qos, [w] + ([hm] + [d]));
  }

  lemma DaysRebuild(s: Timer, t: Timer)
    requires Storable(s)
    ensures var d := Plain("d", Chars(DayLetters(s.days, 0))); AllTyped([d]) && Fold(t, [d]) == t.(days := s.days)
  {
    DaysItem(s.days);
    hide DayLetters;
    FoldOne(t, Plain("d", Chars(DayLetters(s.days, 0))));
  }

  lemma HeadRebuilds(s: Timer)
    requires Storable(s)
    ensures AllTyped(HeadItems(s))
    ensures Fold(EMPTY, HeadItems(s)) == s.(topic := "", payload := "", caption := "")
  {
    var t := EMPTY.(arm := s.arm, repeat := s.repeat, retain := s.retain);
    NumbersRebuild(s, t);
    FlagsRebuild(s, EMPTY, [Plain("q", Number(s.qos))] + ([Plain("w", Number(s.window))]
      + ([Plain("hm", Number(s.minute))] + [Plain("d", Chars(DayLetters(s.days, 0)))])));
  }

  lemma OptionalRebuilds(key: string, f: Field, v: string, t: Timer, t': Timer)
    requires Bytewise(key) && |key| < KEY_SIZE && FieldOf(Terminated(key)) == f
    requires Textual(f) && Bytewise(v) && |v| < Room(f) && SetText(EMPTY, f, v).Some?
    requires if v == [] then t' == t else SetText(t, f, v) == Some(t')
    ensures AllTyped(Optional(key, v)) && Fold(t, Optional(key, v)) == t'
  {
    if v != [] {
      TextItem(key, f, v);
      FoldOne(t, Plain(key, Chars(v)));
    }
  }

  lemma TailNames()
    ensures FieldOf(Terminated("tp")) == Topic && FieldOf(Terminated("pl")) == Payload
    ensures FieldOf(Terminated("l")) == Label
  {
    TerminatedIs("tp");
    TerminatedIs("pl");
    TerminatedIs("l");
  }

  lemma TailRebuilds(s: Timer)
    requires ByteSlot(s)
    ensures AllTyped(TailItems(s))
    ensures Fold(s.(topic := "", payload := "", caption := ""), TailItems(s)) == s
  {
    TerminatedIs(s.topic);
    TerminatedIs(s.caption);
    TailNames();
    var t0, t1, t2 := s.(topic := "", payload := "", caption := ""), s.(payload := "", caption := ""),
      s.(caption := "");
    hide AllTyped, Fold, Terminated, FieldOf;
    OptionalRebuilds("tp", Topic, s.topic, t0, t1);
    OptionalRebuilds("pl", Payload, s.payload, t1, t2);
    OptionalRebuilds("l", Label, s.caption, t2, s);
    FoldAppend(t1, Optional("pl", s.payload), Optional("l", s.caption));
    FoldAppend(t0, Optional("tp", s.topic), Optional("pl", s.payload) + Optional("l", s.caption));
  }

  /** The members of a slot rebuild it. */
  lemma ItemsRebuild(s: Timer)
    requires ByteSlot(s)
    ensures AllTyped(HeadItems(s) + TailItems(s)) && Fold(EMPTY, HeadItems(s) + TailItems(s)) == s
  {
    HeadRebuilds(s);
    TailRebuilds(s);
    FoldAppend(EMPTY, HeadItems(s), TailItems(s));
  }

  // ---------- the printer's text is the text of those members ----------

  lemma {:induction false} RenderSnoc(ms: seq<Item>, m: Item, end: string)
    requires ms != []
    ensures RenderItems(ms + [m], end) == RenderItems(ms, [','] + (RenderItem(m) + end))
    decreases |ms|
  {
    if |ms| == 1 {
      assert (ms + [m])[1..] == [m];
    } else {
      assert (ms + [m])[1..] == ms[1..] + [m];
      RenderSnoc(ms[1..], m, end);
    }
  }

  /** `text` is an object up to and including these members. */
  ghost predicate Prints(text: string, ms: seq<Item>) {
    ms != [] && forall end: string :: ['{'] + RenderItems(ms, end) == text + end
  }

  lemma Regroup(text: string, item: string, lit: string, value: string, end: string)
    requires [','] + item == lit + value
    ensures text + ([','] + (item + end)) == text + lit + value + end
  {
    assert [','] + (item + end) == lit + value + end;
  }

  lemma PrintsMore(text: string, ms: seq<Item>, m: Item, lit: string, value: string)
    requires Prints(text, ms) && [','] + RenderItem(m) == lit + value
    ensures Prints(text + lit + value, ms + [m])
  {
    var item := RenderItem(m);
    forall end: string ensures ['{'] + RenderItems(ms + [m], end) == text + lit + value + end {
      RenderSnoc(ms, m, end);
      Regroup(text, item, lit, value, end);
    }
  }

  lemma PlainText(key: string, v: ItemValue)
    requires forall i | 0 <= i < |key| :: ' ' <= key[i] && key[i] != '"' && key[i] != '\\'
    ensures RenderItem(Plain(key, v)) == ['"'] + key + ['"', ':'] + RenderValue(v)
  {
    EscapePlain(key);
  }

  lemma FirstPrints(m: Item, s: Timer)
    requires m == Plain("a", Number(Flag(s.arm)))
    ensures Prints("{\"a\":" + Decimal(Flag(s.arm)), [m])
  {
    PlainText("a", m.value);
  }

  lemma NextPrints(text: string, ms: seq<Item>, key: string, lit: string, n: nat)
    requires Prints(text, ms) && lit == [',', '"'] + key + ['"', ':']
    requires forall i | 0 <= i < |key| :: ' ' <= key[i] && key[i] != '"' && key[i] != '\\'
    ensures Prints(text + lit + Decimal(n), ms + [Plain(key, Number(n))])
  {
    PlainText(key, Number(n));
    PrintsMore(text, ms, Plain(key, Number(n)), lit, Decimal(n));
  }

  lemma Seven<T>(a: T, b: T, c: T, d: T, e: T, f: T, g: T)
    ensures [a] + ([b] + ([c] + ([d] + ([e] + ([f] + [g]))))) == [a] + [b] + [c] + [d] + [e] + [f] + [g]
  {}

  lemma DaysText(v: string)
    requires forall i | 0 <= i < |v| :: ' ' <= v[i] && v[i] != '"' && v[i] != '\\'
    ensures [','] + RenderItem(Plain("d", Chars(v))) == ",\"d\":\"" + (v + "\"")
  {
    EscapePlain(v);
    PlainText("d", Chars(v));
  }

  lemma DaysPrints(text: string, ms: seq<Item>, days: nat)
    requires Prints(text, ms) && days < 0x80
    ensures Prints(text + ",\"d\":\"" + DayLetters(days, 0) + "\"", ms + [Plain("d", Chars(DayLetters(days, 0)))])
  {
    var v := DayLetters(days, 0);
    LettersAreBytes(days);
    hide DayLetters, RenderItem;
    DaysText(v);
    PrintsMore(text, ms, Plain("d", Chars(v)), ",\"d\":\"", v + "\"");
    Reassociate(text, ",\"d\":\"", v, "\"");
  }

  lemma Reassociate(a: string, b: string, c: string, d: string)
    ensures a + b + (c + d) == a + b + c + d
    ensures a + (b + c) == a + b + c
  {}

  lemma FlagsPrint(s: Timer)
    ensures var a, r, rt := Plain("a", Number(Flag(s.arm))), Plain("r", Number(Flag(s.repeat))),
                            Plain("rt", Number(Flag(s.retain)));
            Prints("{\"a\":" + Decimal(Flag(s.arm)) + ",\"r\":" + Decimal(Flag(s.repeat))
                   + ",\"rt\":" + Decimal(Flag(s.retain)), [a] + [r] + [rt])
  {
    var a, r := Plain("a", Number(Flag(s.arm))), Plain("r", Number(Flag(s.repeat)));
    var t1 := "{\"a\":" + Decimal(Flag(s.arm));
    FirstPrints(a, s);
    NextPrints(t1, [a], "r", ",\"r\":", Flag(s.repeat));
    NextPrints(t1 + ",\"r\":" + Decimal(Flag(s.repeat)), [a] + [r], "rt", ",\"rt\":", Flag(s.retain));
  }

  lemma HeadPrints(s: Timer)
    requires Storable(s)
    ensures Prints(HeadText(s), HeadItems(s))
  {
    var a, r, rt := Plain("a", Number(Flag(s.arm))), Plain("r", Number(Flag(s.repeat))),
      Plain("rt", Number(Flag(s.retain)));
    var q, w, hm := Plain("q", Number(s.qos)), Plain("w", Number(s.window)), Plain("hm", Number(s.minute));
    var d := Plain("d", Chars(DayLetters(s.days, 0)));
    var t1 := "{\"a\":" + Decimal(Flag(s.arm));
    var t2 := t1 + ",\"r\":" + Decimal(Flag(s.repeat));
    var t3 := t2 + ",\"rt\":" + Decimal(Flag(s.retain));
    var t4 := t3 + ",\"q\":" + Decimal(s.qos);
    var t5 := t4 + ",\"w\":" + Decimal(s.window);
    var t6 := t5 + ",\"hm\":" + Decimal(s.minute);
    FlagsPrint(s);
    NextPrints(t3, [a] + [r] + [rt], "q", ",\"q\":", s.qos);
    NextPrints(t4, [a] + [r] + [rt] + [q], "w", ",\"w\":", s.window);
    NextPrints(t5, [a] + [r] + [rt] + [q] + [w], "hm", ",\"hm\":", s.minute);
    DaysPrints(t6, [a] + [r] + [rt] + [q] + [w] + [hm], s.days);
    Seven(a, r, rt, q, w, hm, d);
  }

  lemma OptionalText(key: string, v: string, lit: string)
    requires lit == [',', '"'] + key + ['"', ':']
    requires forall i | 0 <= i < |key| :: ' ' <= key[i] && key[i] != '"' && key[i] != '\\'
    ensures [','] + RenderItem(Plain(key, Chars(v))) == lit + Quote(v)
  {
    PlainText(key, Chars(v));
    CommaFirst(key, Quote(v));
  }

  lemma CommaFirst(key: string, value: string)
    ensures [','] + (['"'] + key + ['"', ':'] + value) == [',', '"'] + key + ['"', ':'] + value
  {}

  lemma OptionalPrints(text: string, ms: seq<Item>, key: string, v: string, lit: string)
    requires Prints(text, ms) && lit == [',', '"'] + key + ['"', ':']
    requires forall i | 0 <= i < |key| :: ' ' <= key[i] && key[i] != '"' && key[i] != '\\'
    ensures Prints(text + if v != [] then lit + Quote(v) else "", ms + Optional(key, v))
  {
    if v != [] {
      OptionalText(key, v, lit);
      PrintsMore(text, ms, Plain(key, Chars(v)), lit, Quote(v));
      Reassociate(text, lit, Quote(v), "");
    } else {
      assert text + "" == text && ms + [] == ms;
    }
  }

  lemma EmptyObject()
    ensures ObjectText([]) == "{}"
  {}

  /** The text the printer makes of a slot is the object text of its members. */
  lemma SlotTextIsObject(s: Timer)
    requires ByteSlot(s)
    ensures SlotText(s) == if s == EMPTY then ObjectText([]) else ObjectText(HeadItems(s) + TailItems(s))
  {
    hide HeadText, HeadItems, Prints, Quote, ObjectText;
    if s == EMPTY { EmptyObject(); }
    var h, hs := HeadText(s), HeadItems(s);
    var tp := if s.topic != [] then ",\"tp\":" + Quote(s.topic) else "";
    var pl := if s.payload != [] then ",\"pl\":" + Quote(s.payload) else "";
    var l := if s.caption != [] then ",\"l\":" + Quote(s.caption) else "";
    HeadPrints(s);
    OptionalPrints(h, hs, "tp", s.topic, ",\"tp\":");
    OptionalPrints(h + tp, hs + Optional("tp", s.topic), "pl", s.payload, ",\"pl\":");
    OptionalPrints(h + tp + pl, hs + Optional("tp", s.topic) + Optional("pl", s.payload), "l", s.caption, ",\"l\":");
    SameObject(h, tp, pl, l, hs, Optional("tp", s.topic), Optional("pl", s.payload), Optional("l", s.caption));
  }

  lemma Grouped<T>(a: seq<T>, b: seq<T>, c: seq<T>, d: seq<T>)
    ensures a + (b + (c + d)) == a + b + c + d
  {}

  lemma SameObject(h: string, tp: string, pl: string, l: string, hs: seq<Item>, a: seq<Item>, b: seq<Item>,
                   c: seq<Item>)
    requires Prints(h + tp + pl + l, hs + a + b + c)
    ensures ObjectText(hs + (a + (b + c))) == h + (tp + pl + l) + "}"
  {
    hide RenderItems;
    Grouped(hs, a, b, c);
    assert ['{'] + RenderItems(hs + a + b + c, ['}']) == h + tp + pl + l + ['}'];
    Reassociate(h, tp, pl, l);
    assert h + (tp + pl + l) == h + tp + pl + l;
  }

  /** Parsing the printed slot gives it back, whatever text follows. */
  lemma SlotRoundTrip(s: Timer, rest: string)
    requires ByteSlot(s)
    ensures ParseSlot(SlotText(s) + rest) == Some((s, rest))
    ensures SlotText(s)[0] == '{'
  {
    SlotTextIsObject(s);
    ItemsRebuild(s);
    ObjectRoundTrip(if s == EMPTY then [] else HeadItems(s) + TailItems(s), rest);
  }

  // ---------- the whole store ----------

  /** The array from slot i on, with what closes it. */
  function Rest(slots: seq<Timer>, i: nat, end: string): string
    requires i < |slots|
    decreases |slots| - i
  {
    SlotText(slots[i]) + if i + 1 == |slots| then end else [','] + Rest(slots, i + 1, end)
  }

  lemma {:induction false} RestIs(slots: seq<Timer>, i: nat, end: string)
    requires i < |slots|
    ensures Rest(slots, i, end) == SlotText(slots[i]) + SlotsText(slots, i + 1) + end
    decreases |slots| - i
  {
    if i + 1 < |slots| {
      RestIs(slots, i + 1, end);
      CommaBetween(SlotText(slots[i]), SlotText(slots[i + 1]), SlotsText(slots, i + 2), end);
    } else {
      assert SlotText(slots[i]) + "" == SlotText(slots[i]);
    }
  }

  lemma CommaBetween(x: string, y: string, z: string, end: string)
    ensures x + ([','] + (y + z + end)) == x + ("," + y + z) + end
  {}

  /** One slot of the array, when the object at the cursor is known. */
  lemma SlotsStep(t: string, i: nat, acc: seq<Timer>, s: Timer, after: string)
    requires At(t, 0) != '\0' && ParseSlot(t) == Some((s, after)) && i < |acc| && after != [] && !Space(after[0])
    requires after[0] == ',' ==> |after| > 1 && !Space(after[1])
    ensures after[0] == ',' ==> ParseSlots(t, i, acc) == ParseSlots(after[1..], i + 1, acc[i := s])
    ensures after[0] == ']' ==> ParseSlots(t, i, acc) == Some((acc[i := s], after[1..]))
  {}

  lemma {:induction false} SlotsRoundTrip(slots: seq<Timer>, i: nat, acc: seq<Timer>, rest: string)
    requires i < |slots| == |acc| && forall k | 0 <= k < |slots| :: ByteSlot(slots[k])
    ensures ParseSlots(Rest(slots, i, [']'] + rest), i, acc) == Some((acc[..i] + slots[i..], rest))
    ensures Rest(slots, i, [']'] + rest)[0] == '{'
    decreases |slots| - i
  {
    var t, acc' := Rest(slots, i, [']'] + rest), acc[i := slots[i]];
    Splice(slots, acc, i);
    if i + 1 < |slots| {
      var next := Rest(slots, i + 1, [']'] + rest);
      SlotRoundTrip(slots[i], [','] + next);
      SlotsRoundTrip(slots, i + 1, acc', rest);
      assert ([','] + next)[1..] == next;
      SlotsStep(t, i, acc, slots[i], [','] + next);
    } else {
      SlotRoundTrip(slots[i], [']'] + rest);
      assert ([']'] + rest)[1..] == rest;
      SlotsStep(t, i, acc, slots[i], [']'] + rest);
    }
  }

  lemma Splice<T>(slots: seq<T>, acc: seq<T>, i: nat)
    requires i < |slots| == |acc|
    ensures acc[i := slots[i]][..i + 1] + slots[i + 1..] == acc[..i] + slots[i..]
    ensures i + 1 == |slots| ==> acc[i := slots[i]] == acc[..i] + slots[i..]
  {}

  /** A store the timers can hold: sixteen storable slots of bytes. */
  predicate ByteStore(store: Store) {
    |store.slots| == SLOT_COUNT && forall k | 0 <= k < SLOT_COUNT :: ByteSlot(store.slots[k])
  }

  lemma KeyText(key: string, value: string)
    ensures "" + (['"'] + key + ['"']) + "" + [':'] + "" + value == ['"'] + key + ['"', ':'] + value
  {}

  lemma EntryKey(key: string, value: string)
    requires Bytewise(key) && |key| < KEY_SIZE && value != [] && !Space(value[0])
    requires (forall i | 0 <= i < |key| :: ' ' <= key[i] && key[i] != '"' && key[i] != '\\') && '\0' !in key
    ensures ParseKey(['"'] + key + ['"', ':'] + value) == Some((key, value))
  {
    EscapePlain(key);
    TerminatedIs(key);
    KeyStep("", key, "", "", value);
    assert Quote(key) == ['"'] + key + ['"'];
    hide *;
    KeyText(key, value);
  }

  lemma ArrayValueIs(t: string, blank: Store, slots: seq<Timer>, rest: string)
    requires At(t, 0) == '[' && SkipWs(t[1..]) == t[1..] && At(t[1..], 0) != ']'
    requires ParseSlots(t[1..], 0, blank.slots) == Some((slots, rest))
    ensures ParseEntryValue(t, "t", blank) == Some((blank.(slots := slots), rest))
  {
    hide ParseSlots, SkipWs, ParseInt, SkipValue;
  }

  lemma ArrayValue(store: Store, blank: Store, rest: string)
    requires ByteStore(store) && |blank.slots| == SLOT_COUNT
    ensures ParseEntryValue(['['] + Rest(store.slots, 0, [']'] + rest), "t", blank) ==
            Some((blank.(slots := store.slots), rest))
  {
    var body := Rest(store.slots, 0, [']'] + rest);
    SlotsRoundTrip(store.slots, 0, blank.slots, rest);
    assert SkipWs(body) == body;
    hide Rest, ParseSlots, ParseEntryValue, SkipWs;
    assert (['['] + body)[1..] == body;
    assert blank.slots[..0] + store.slots[0..] == store.slots;
    ArrayValueIs(['['] + body, blank, store.slots, rest);
  }

  // The text of the store, entry by entry.

  function ThirdEntry(list: string): string {
    ['"'] + "t" + ['"', ':'] + (['['] + list)
  }

  function SecondEntry(flag: string, list: string): string {
    ['"'] + "me" + ['"', ':'] + (flag + ([','] + ThirdEntry(list)))
  }

  function FirstEntry(flag: string, list: string): string {
    ['"'] + "v" + ['"', ':'] + (Decimal(1) + ([','] + SecondEntry(flag, list)))
  }

  lemma LastEntry(t: string, key: string, value: string, store: Store, end: Store)
    requires At(t, 0) != '\0' && ParseKey(t) == Some((key, value))
             && ParseEntryValue(value, key, store) == Some((end, ['}']))
    ensures ParseEntries(t, store) == Some(end)
  {
    hide ParseKey, ParseEntryValue;
    assert SkipWs(['}']) == ['}'];
  }

  lemma ArrayEntry(store: Store, blank: Store)
    requires ByteStore(store) && |blank.slots| == SLOT_COUNT
    ensures ParseEntries(ThirdEntry(Rest(store.slots, 0, [']'] + ['}'])), blank) == Some(blank.(slots := store.slots))
  {
    var list := Rest(store.slots, 0, [']'] + ['}']);
    var value := ['['] + list;
    EntryKey("t", value);
    ArrayValue(store, blank, ['}']);
    assert At(ThirdEntry(list), 0) == '"';
    hide ParseEntries, ParseKey, ParseEntryValue, Rest;
    LastEntry(ThirdEntry(list), "t", value, blank, blank.(slots := store.slots));
  }

  lemma EntryThenMore(t: string, key: string, value: string, store: Store, next: Store, rest: string)
    requires At(t, 0) != '\0' && ParseKey(t) == Some((key, value))
    requires ParseEntryValue(value, key, store) == Some((next, [','] + rest))
    ensures ParseEntries(t, store) == ParseEntries(rest, next)
  {
    hide ParseKey, ParseEntryValue;
    assert SkipWs([','] + rest) == [','] + rest;
    assert ([','] + rest)[1..] == rest;
  }

  lemma NumberEntry(key: string, n: nat, blank: Store, store: Store, rest: string)
    requires key == "v" || key == "me"
    requires n <= 1 && |blank.slots| == SLOT_COUNT && store == if key == "v" then blank else blank.(master := n != 0)
    ensures ParseEntries(['"'] + key + ['"', ':'] + (Decimal(n) + ([','] + rest)), blank) == ParseEntries(rest, store)
  {
    var value := Decimal(n) + ([','] + rest);
    var t := ['"'] + key + ['"', ':'] + value;
    assert Decimal(n) == ['0' + n as char];
    NumberRoundTrip(n, [','] + rest);
    EntryKey(key, value);
    assert At(t, 0) == '"';
    assert ParseEntryValue(value, key, blank) == Some((store, [','] + rest)) by {
      hide ParseInt, ParseSlots, Decimal, SkipValue;
    }
    hide *;
    EntryThenMore(t, key, value, blank, store, rest);
  }

  lemma FirstSlot(slots: seq<Timer>)
    requires slots != []
    ensures SlotsText(slots, 0) == SlotText(slots[0]) + SlotsText(slots, 1)
  {
    hide SlotText;
    assert "" + SlotText(slots[0]) == SlotText(slots[0]);
  }

  lemma BlobPieces(flag: string, body: string)
    ensures BlobOf(flag, body) == ['{'] + FirstEntry(flag, body + ([']'] + ['}']))
  {
    var third := ThirdEntry(body + ([']'] + ['}']));
    assert [','] + third == ",\"t\":[" + body + "]}";
    assert flag + (",\"t\":[" + body + "]}") == flag + ",\"t\":[" + body + "]}";
    var second := SecondEntry(flag, body + ([']'] + ['}']));
    assert ['{'] + (['"'] + "v" + ['"', ':'] + (Decimal(1) + ([','] + second))) == "{\"v\":1," + second;
  }

  lemma BlobLayout(store: Store)
    requires |store.slots| == SLOT_COUNT
    ensures BlobText(store) == ['{'] + FirstEntry(Decimal(Flag(store.master)), Rest(store.slots, 0, [']'] + ['}']))
  {
    hide BlobOf, FirstEntry, Rest, SlotsText, SlotText, Decimal;
    RestIs(store.slots, 0, [']'] + ['}']);
    FirstSlot(store.slots);
    BlobPieces(Decimal(Flag(store.master)), SlotsText(store.slots, 0));
  }

  lemma BlobStart(t: string)
    requires At(t, 0) == '"'
    ensures ParseBlob(['{'] + t) == ParseEntries(t, Blank())
  {
    hide ParseEntries;
    assert (['{'] + t)[1..] == t && SkipWs(['{'] + t) == ['{'] + t && SkipWs(t) == t;
  }

  /** Parsing the printed store gives it back: every slot and the master flag, with payloads of
      any bytes. */
  lemma BlobRoundTrip(store: Store)
    requires ByteStore(store)
    ensures ParseBlob(BlobText(store)) == Some(store)
  {
    var flag, list := Decimal(Flag(store.master)), Rest(store.slots, 0, [']'] + ['}']);
    BlobLayout(store);
    BlobStart(FirstEntry(flag, list));
    hide ParseBlob, BlobText, ParseEntries, Rest, Decimal;
    NumberEntry("v", 1, Blank(), Blank(), SecondEntry(flag, list));
    NumberEntry("me", Flag(store.master), Blank(), Blank().(master := store.master), ThirdEntry(list));
    ArrayEntry(store, Blank().(master := store.master));
  }
}
