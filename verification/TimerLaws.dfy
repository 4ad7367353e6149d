/** The timer store reads back what it wrote, and reads past what it does not know. */
module TimerLaws {
  import opened Bytes
  import opened TimerText

  // ---------- strings ----------

  /** The reader undoes the writer's escape of any one byte. */
  lemma UnitOfEscape(c: char, rest: string)
    requires c as int < 0x100
    ensures Unit(EscapeChar(c) + rest) == Some(([c], |EscapeChar(c)|))
    ensures At(EscapeChar(c) + rest, 0) != '\0' && At(EscapeChar(c) + rest, 0) != '"'
  {
    var e := EscapeChar(c);
    var t := e + rest;
    assert t[0] == e[0];
    if |e| == 2 {
      assert t[1] == e[1];
    } else if |e| == 6 {
      assert t[1] == 'u';
      assert t[2..][0] == '0' && t[2..][1] == '0' && t[2..][2] == e[4] && t[2..][3] == e[5];
      assert HexValue(e[4]) == Some(c as int / 0x10) && HexValue(e[5]) == Some(c as int % 0x10);
      assert CodePoint(t[2..]) == Some(c as int);
    }
  }

  predicate Bytewise(s: string) {
    forall i | 0 <= i < |s| :: s[i] as int < 0x100
  }

  lemma BodyStep(t: string, acc: string, size: nat, x: string, n: nat)
    requires At(t, 0) != '\0' && At(t, 0) != '"' && Unit(t) == Some((x, n)) && n <= |t| && |acc| + |x| < size
    ensures Body(t, acc, size) == Body(t[n..], acc + x, size)
  {
    hide Unit;
  }

  lemma DropFront(a: string, b: string)
    ensures (a + b)[|a|..] == b
  {}

  lemma FirstMoved(acc: string, s: string)
    requires s != []
    ensures acc + [s[0]] + s[1..] == acc + s
  {}

  lemma EscapeCons(s: string, rest: string)
    requires s != []
    ensures Escape(s) + ['"'] + rest == EscapeChar(s[0]) + (Escape(s[1..]) + ['"'] + rest)
  {
    hide EscapeChar;
  }

  lemma {:induction false} BodyOfEscape(s: string, rest: string, acc: string, size: nat)
    requires Bytewise(s) && |acc| + |s| < size
    ensures Body(Escape(s) + ['"'] + rest, acc, size) == Some((acc + s, rest))
    decreases |s|
  {
    if s == [] {
      assert Escape(s) + ['"'] + rest == ['"'] + rest && acc + s == acc;
    } else {
      var c, tail := s[0], Escape(s[1..]) + ['"'] + rest;
      UnitOfEscape(c, tail);
      EscapeCons(s, rest);
      assert Bytewise(s[1..]);
      BodyOfEscape(s[1..], rest, acc + [c], size);
      hide *;
      BodyStep(EscapeChar(c) + tail, acc, size, [c], |EscapeChar(c)|);
      DropFront(EscapeChar(c), tail);
      FirstMoved(acc, s);
    }
  }

  /** Reading a quoted string gives the string back, whatever bytes it holds. */
  lemma StringRoundTrip(s: string, rest: string, size: nat)
    requires Bytewise(s) && |s| < size
    ensures ParseString(Quote(s) + rest, size) == Some((s, rest))
  {
    assert (Quote(s) + rest)[1..] == Escape(s) + ['"'] + rest;
    BodyOfEscape(s, rest, [], size);
    assert [] + s == s;
  }

  // ---------- numbers ----------

  lemma {:induction false} DigitsOfDecimal(n: nat, rest: string)
    ensures Digits(Decimal(n) + rest, 0) == Digits(rest, n)
    ensures |Decimal(n)| >= 1 && forall i | 0 <= i < |Decimal(n)| :: Digit(Decimal(n)[i])
  {
    if n >= 10 {
      var d := ['0' + (n % 10) as char];
      DigitsOfDecimal(n / 10, d + rest);
      assert Decimal(n) + rest == Decimal(n / 10) + (d + rest);
      assert (d + rest)[1..] == rest;
    } else {
      assert (Decimal(n) + rest)[1..] == rest;
    }
  }

  lemma NumberRoundTrip(n: nat, rest: string)
    requires n <= LONG_MAX && !Digit(At(rest, 0))
    ensures ParseInt(Decimal(n) + rest) == Some((n, rest))
  {
    DigitsOfDecimal(n, rest);
    assert Digit((Decimal(n) + rest)[0]);
  }

  // ---------- days ----------

  lemma {:induction false} DaysRoundTrip(mask: nat, i: nat)
    requires i <= 7 && mask < Power2(7 - i)
    ensures |DayLetters(mask, i)| == 7 - i && MaskOf(DayLetters(mask, i)) == mask
    ensures forall c | c in DayLetters(mask, i) :: c == '-' || c in LETTERS
    decreases 7 - i
  {
    if i < 7 {
      DaysRoundTrip(mask / 2, i + 1);
      assert DayLetters(mask, i)[1..] == DayLetters(mask / 2, i + 1);
      assert LETTERS[i] in LETTERS;
    }
  }

  function Power2(n: nat): nat {
    if n == 0 then 1 else 2 * Power2(n - 1)
  }

  // ---------- JSON values the reader does not know ----------

  /** Any JSON value, with the white space its text may hold. The token of a Scalar is a number,
      true, false or null; the body of a Text is kept as written. */
  datatype Json =
    | Scalar(token: string)
    | Text(body: string)
    | Array(elements: Elements)
    | Object(members: Members)

  datatype Elements = Last(before: string, last: Json, after: string) | NoElements(blank: string)
                    | Element(before: string, value: Json, after: string, more: Elements)

  datatype Members =
    | LastMember(a: string, key: string, b: string, c: string, last: Json, d: string)
    | NoMembers(blank: string)
    | MoreMembers(a: string, key: string, b: string, c: string, value: Json, d: string, more: Members)

  function Render(v: Json): string {
    match v
    case Scalar(token) => token
    case Text(body) => ['"'] + body + ['"']
    case Array(es) => ['['] + RenderElements(es) + [']']
    case Object(ms) => ['{'] + RenderMembers(ms) + ['}']
  }

  function RenderElements(es: Elements): string {
    match es
    case NoElements(blank) => blank
    case Last(before, v, after) => before + Render(v) + after
    case Element(before, v, after, more) => before + Render(v) + after + [','] + RenderElements(more)
  }

  function RenderMembers(ms: Members): string {
    match ms
    case NoMembers(blank) => blank
    case LastMember(a, key, b, c, v, d) => a + ['"'] + key + ['"'] + b + [':'] + c + Render(v) + d
    case MoreMembers(a, key, b, c, v, d, more) =>
      a + ['"'] + key + ['"'] + b + [':'] + c + Render(v) + d + [','] + RenderMembers(more)
  }

  predicate AllSpace(s: string) {
    forall i | 0 <= i < |s| :: Space(s[i])
  }

  /** The inside of a string as written: no NUL, every backslash with the character it escapes,
      and no quote of its own. */
  predicate WellQuoted(b: string)
    decreases |b|
  {
    b == [] ||
    if b[0] == '\\' then |b| >= 2 && b[1] != '\0' && WellQuoted(b[2..])
    else b[0] != '"' && b[0] != '\0' && WellQuoted(b[1..])
  }

  /** Number, true, false and null are made of these. */
  predicate TokenChar(c: char) {
    Digit(c) || 'a' <= c <= 'z' || 'A' <= c <= 'Z' || c == '+' || c == '-' || c == '.'
  }

  predicate WellFormed(v: Json) {
    match v
    case Scalar(token) => token != [] && forall i | 0 <= i < |token| :: TokenChar(token[i])
    case Text(body) => WellQuoted(body)
    case Array(es) => WellFormedElements(es)
    case Object(ms) => WellFormedMembers(ms)
  }

  predicate WellFormedElements(es: Elements) {
    match es
    case NoElements(blank) => AllSpace(blank)
    case Last(before, v, after) => AllSpace(before) && WellFormed(v) && AllSpace(after)
    case Element(before, v, after, more) =>
      AllSpace(before) && WellFormed(v) && AllSpace(after) && WellFormedElements(more)
  }

  predicate WellFormedMembers(ms: Members) {
    match ms
    case NoMembers(blank) => AllSpace(blank)
    case LastMember(a, key, b, c, v, d) =>
      AllSpace(a) && WellQuoted(key) && AllSpace(b) && AllSpace(c) && WellFormed(v) && AllSpace(d)
    case MoreMembers(a, key, b, c, v, d, more) =>
      AllSpace(a) && WellQuoted(key) && AllSpace(b) && AllSpace(c) && WellFormed(v) && AllSpace(d)
        && WellFormedMembers(more)
  }

  /** Inside brackets, these characters are passed over one by one. */
  predicate Filler(c: char) {
    c != '\0' && c != '"' && !Opens(c) && !Closes(c)
  }

  lemma {:induction false} SkipFiller(s: string, rest: string, depth: nat)
    requires depth > 0 && forall i | 0 <= i < |s| :: Filler(s[i])
    ensures SkipGroup(s + rest, depth) == SkipGroup(rest, depth)
  {
    if s == [] {
      assert s + rest == rest;
    } else {
      assert (s + rest)[1..] == s[1..] + rest;
      SkipFiller(s[1..], rest, depth);
    }
  }

  lemma {:induction false} SkipBody(b: string, rest: string)
    requires WellQuoted(b)
    ensures SkipQuoted(b + ['"'] + rest) == ['"'] + rest
    decreases |b|
  {
    var t := b + ['"'] + rest;
    if b == [] {
      assert t == ['"'] + rest;
    } else if b[0] == '\\' {
      assert t[0] == '\\' && t[1] == b[1];
      assert t[2..] == b[2..] + ['"'] + rest;
      SkipBody(b[2..], rest);
    } else {
      assert t[0] == b[0] && t[1..] == b[1..] + ['"'] + rest;
      SkipBody(b[1..], rest);
    }
  }

  lemma SkipTextInGroup(b: string, rest: string, depth: nat)
    requires WellQuoted(b) && depth > 0
    ensures SkipGroup(['"'] + b + ['"'] + rest, depth) == SkipGroup(rest, depth)
  {
    var t := ['"'] + b + ['"'] + rest;
    SkipBody(b, rest);
    assert t[1..] == b + ['"'] + rest;
    assert (['"'] + rest)[1..] == rest;
  }

  /** Inside brackets a whole value is passed over, to any depth of nesting. */
  lemma {:induction false} SkipNested(v: Json, rest: string, depth: nat)
    requires WellFormed(v) && depth > 0
    ensures SkipGroup(Render(v) + rest, depth) == SkipGroup(rest, depth)
    decreases v
  {
    match v
    case Scalar(token) => SkipFiller(token, rest, depth);
    case Text(body) => SkipTextInGroup(body, rest, depth); assert Render(v) + rest == ['"'] + body + ['"'] + rest;
    case Array(es) =>
      var t := Render(v) + rest;
      assert t[0] == '[' && t[1..] == RenderElements(es) + ([']'] + rest);
      SkipElements(es, [']'] + rest, depth + 1);
      assert ([']'] + rest)[1..] == rest;
    case Object(ms) =>
      var t := Render(v) + rest;
      assert t[0] == '{' && t[1..] == RenderMembers(ms) + (['}'] + rest);
      SkipMembers(ms, ['}'] + rest, depth + 1);
      assert (['}'] + rest)[1..] == rest;
  }

  lemma {:induction false} SkipElements(es: Elements, rest: string, depth: nat)
    requires WellFormedElements(es) && depth > 0
    ensures SkipGroup(RenderElements(es) + rest, depth) == SkipGroup(rest, depth)
    decreases es
  {
    match es
    case NoElements(blank) => SkipFiller(blank, rest, depth);
    case Last(before, v, after) =>
      assert RenderElements(es) + rest == before + (Render(v) + (after + rest));
      SkipFiller(before, Render(v) + (after + rest), depth);
      SkipNested(v, after + rest, depth);
      SkipFiller(after, rest, depth);
    case Element(before, v, after, more) =>
      var next := RenderElements(more) + rest;
      assert RenderElements(es) + rest == before + (Render(v) + (after + [','] + next));
      SkipFiller(before, Render(v) + (after + [','] + next), depth);
      SkipNested(v, after + [','] + next, depth);
      SkipFiller(after + [','], next, depth);
      SkipElements(more, rest, depth);
  }

  lemma SkipKey(a: string, key: string, b: string, c: string, rest: string, depth: nat)
    requires AllSpace(a) && WellQuoted(key) && AllSpace(b) && AllSpace(c) && depth > 0
    ensures SkipGroup(a + ['"'] + key + ['"'] + b + [':'] + c + rest, depth) == SkipGroup(rest, depth)
  {
    var colon := b + [':'] + c;
    assert a + ['"'] + key + ['"'] + b + [':'] + c + rest == a + (['"'] + key + ['"'] + (colon + rest));
    SkipFiller(a, ['"'] + key + ['"'] + (colon + rest), depth);
    SkipTextInGroup(key, colon + rest, depth);
    SkipFiller(colon, rest, depth);
  }

  lemma {:induction false} SkipMembers(ms: Members, rest: string, depth: nat)
    requires WellFormedMembers(ms) && depth > 0
    ensures SkipGroup(RenderMembers(ms) + rest, depth) == SkipGroup(rest, depth)
    decreases ms
  {
    hide WellQuoted;
    match ms
    case NoMembers(blank) => SkipFiller(blank, rest, depth);
    case LastMember(a, key, b, c, v, d) =>
      var tail := Render(v) + (d + rest);
      assert RenderMembers(ms) + rest == a + ['"'] + key + ['"'] + b + [':'] + c + tail;
      SkipKey(a, key, b, c, tail, depth);
      SkipNested(v, d + rest, depth);
      SkipFiller(d, rest, depth);
    case MoreMembers(a, key, b, c, v, d, more) =>
      var next := RenderMembers(more) + rest;
      var tail := Render(v) + (d + [','] + next);
      assert RenderMembers(ms) + rest == a + ['"'] + key + ['"'] + b + [':'] + c + tail;
      SkipKey(a, key, b, c, tail, depth);
      SkipNested(v, d + [','] + next, depth);
      SkipFiller(d + [','], next, depth);
      SkipMembers(more, rest, depth);
  }

  lemma {:induction false} SkipToken(s: string, rest: string)
    requires forall i | 0 <= i < |s| :: TokenChar(s[i])
    requires EndsScalar(At(rest, 0))
    ensures SkipScalar(s + rest) == rest
  {
    if s == [] {
      assert s + rest == rest;
    } else {
      assert (s + rest)[0] == s[0] && (s + rest)[1..] == s[1..] + rest;
      SkipToken(s[1..], rest);
    }
  }

  lemma CloseGroup(c: char, rest: string)
    requires Closes(c)
    ensures SkipGroup([c] + rest, 1) == rest
  {
    assert ([c] + rest)[1..] == rest;
  }

  lemma SkipsScalar(token: string, rest: string)
    requires WellFormed(Scalar(token)) && EndsScalar(At(rest, 0))
    ensures SkipValue(token + rest) == Some(rest)
  {
    var t := token + rest;
    assert TokenChar(token[0]) && t[0] == token[0];
    SkipToken(token, rest);
    assert SkipWs(t) == t;
    hide SkipScalar, SkipGroup, SkipQuoted;
  }

  lemma SkipsText(body: string, rest: string)
    requires WellQuoted(body)
    ensures SkipValue(['"'] + body + ['"'] + rest) == Some(rest)
  {
    var t := ['"'] + body + ['"'] + rest;
    SkipBody(body, rest);
    assert t[0] == '"' && t[1..] == body + ['"'] + rest;
    assert (['"'] + rest)[1..] == rest;
    hide SkipQuoted, SkipGroup, SkipScalar, WellQuoted;
  }

  lemma SkipsGroup(c: char, inside: string, rest: string)
    requires Opens(c) && SkipGroup(inside, 1) == rest
    ensures SkipValue([c] + inside) == Some(rest)
  {
    var t := [c] + inside;
    assert t[0] == c && t[1..] == inside && SkipWs(t) == t;
    hide SkipQuoted, SkipGroup, SkipScalar;
  }

  /** skip_json_value takes exactly one well-formed value, of any kind and nesting. */
  lemma SkipsOneValue(v: Json, rest: string)
    requires WellFormed(v) && EndsScalar(At(rest, 0))
    ensures SkipValue(Render(v) + rest) == Some(rest)
  {
    hide SkipValue, SkipGroup, WellQuoted;
    match v
    case Scalar(token) => SkipsScalar(token, rest);
    case Text(body) => SkipsText(body, rest);
    case Array(es) =>
      SkipElements(es, [']'] + rest, 1);
      CloseGroup(']', rest);
      SkipsGroup('[', RenderElements(es) + ([']'] + rest), rest);
      assert Render(v) + rest == ['['] + (RenderElements(es) + ([']'] + rest));
    case Object(ms) =>
      SkipMembers(ms, ['}'] + rest, 1);
      CloseGroup('}', rest);
      SkipsGroup('{', RenderMembers(ms) + (['}'] + rest), rest);
      assert Render(v) + rest == ['{'] + (RenderMembers(ms) + (['}'] + rest));
  }
}
