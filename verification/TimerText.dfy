/** The text of the timer store (main/timers.c:84-531): what the JSON printer writes and what
    the parser reads, as functions on texts. A text ends at its end or at a NUL, whichever
    comes first; a function that parses returns what it found and the rest of the text. */
module TimerText {
  import opened Bytes

  const SLOT_COUNT := 16
  const TOPIC_MAX := 128
  const PAYLOAD_MAX := 256
  const LABEL_MAX := 24
  const KEY_SIZE := 16
  const LONG_MAX := 0x7FFF_FFFF

  datatype Timer = Timer(arm: bool, repeat: bool, retain: bool, qos: nat, days: nat, window: nat, minute: nat,
                         topic: string, payload: string, caption: string)

  const EMPTY := Timer(false, false, false, 0, 0, 0, 0, "", "", "")

  /** What timers_set lets into the store, with topic and label as C strings (the label is `caption` here, a Dafny
      keyword being in the way). */
  predicate Storable(s: Timer) {
    && s.qos <= 1 && s.days < 0x80 && s.window <= 15 && s.minute <= 1439
    && |s.topic| <= TOPIC_MAX && '\0' !in s.topic
    && |s.payload| <= PAYLOAD_MAX
    && |s.caption| <= LABEL_MAX && '\0' !in s.caption
  }

  function At(t: string, i: nat): char {
    if i < |t| then t[i] else '\0'
  }

  predicate Space(c: char) {
    c == ' ' || c == '\t' || c == '\n' || c == '\r'
  }

  function SkipWs(t: string): (r: string)
    ensures |r| <= |t|
  {
    if t != [] && Space(t[0]) then SkipWs(t[1..]) else t
  }

  // ---------- strings ----------

  const BACKSPACE: char := '\U{0008}'
  const FORM_FEED: char := '\U{000C}'

  /** The characters of the one-letter escapes. */
  function Unescape(e: char): Option<char> {
    match e
    case '"' => Some('"')
    case '\\' => Some('\\')
    case '/' => Some('/')
    case 'n' => Some('\n')
    case 'r' => Some('\r')
    case 't' => Some('\t')
    case 'b' => Some(BACKSPACE)
    case 'f' => Some(FORM_FEED)
    case _ => None
  }

  function HexValue(h: char): (r: Option<nat>)
    ensures r.Some? ==> r.value < 0x10
  {
    if '0' <= h <= '9' then Some((h - '0') as int)
    else if 'a' <= h <= 'f' then Some((h - 'a') as int + 10)
    else if 'A' <= h <= 'F' then Some((h - 'A') as int + 10)
    else None
  }

  /** The code point of four hex digits at the start of the text. */
  function CodePoint(t: string): (r: Option<nat>)
    ensures r.Some? ==> r.value < 0x1_0000
  {
    var a, b, c, d := HexValue(At(t, 0)), HexValue(At(t, 1)), HexValue(At(t, 2)), HexValue(At(t, 3));
    if a.Some? && b.Some? && c.Some? && d.Some? then Some(0x1000 * a.value + 0x100 * b.value + 0x10 * c.value + d.value)
    else None
  }

  /** UTF-8, one char a byte. */
  function Utf8(cp: nat): string
    requires cp < 0x1_0000
  {
    if cp < 0x80 then [cp as char]
    else if cp < 0x800 then [(0xC0 + cp / 0x40) as char, (0x80 + cp % 0x40) as char]
    else [(0xE0 + cp / 0x1000) as char, (0x80 + cp / 0x40 % 0x40) as char, (0x80 + cp % 0x40) as char]
  }

  /** One character or escape of a string body: what it stands for and how long it is. */
  function Unit(t: string): (r: Option<(string, nat)>)
    ensures r.Some? ==> 1 <= r.value.1 <= |t|
  {
    if t == [] then None
    else if t[0] != '\\' then Some(([t[0]], 1))
    else if At(t, 1) == 'u' then
      var cp := CodePoint(t[2..]);
      if cp.None? then None else Some((Utf8(cp.value), 6))
    else
      var c := Unescape(At(t, 1));
      if c.None? then None else Some(([c.value], 2))
  }

  /** The body of a string up to its closing quote, appended to `acc`, in a buffer of `size`. */
  function Body(t: string, acc: string, size: nat): (r: Option<(string, string)>)
    ensures r.Some? ==> |r.value.1| < |t|
    decreases |t|
  {
    if At(t, 0) == '\0' then None
    else if t[0] == '"' then Some((acc, t[1..]))
    else
      var u := Unit(t);
      if u.None? || |acc| + |u.value.0| >= size then None
      else Body(t[u.value.1..], acc + u.value.0, size)
  }

  /** parse_json_string. */
  function ParseString(t: string, size: nat): (r: Option<(string, string)>)
    ensures r.Some? ==> |r.value.1| < |t|
  {
    if At(t, 0) != '"' then None else Body(t[1..], [], size)
  }

  // ---------- integers ----------

  predicate Digit(c: char) {
    '0' <= c <= '9'
  }

  function Digits(t: string, acc: nat): (r: (nat, string))
    ensures |r.1| <= |t|
  {
    if t != [] && Digit(t[0]) then Digits(t[1..], 10 * acc + (t[0] - '0') as int) else (acc, t)
  }

  function SkipSpaces(t: string): (r: string)
    ensures |r| <= |t|
  {
    if t != [] && (Space(t[0]) || t[0] == '\U{000B}' || t[0] == FORM_FEED) then SkipSpaces(t[1..]) else t
  }

  /** parse_json_int, which is strtol in base 10 with a 32-bit long. */
  function ParseInt(t: string): (r: Option<(int, string)>)
    ensures r.Some? ==> |r.value.1| <= |t|
  {
    var u := SkipSpaces(t);
    var v := if At(u, 0) == '-' || At(u, 0) == '+' then u[1..] else u;
    if !Digit(At(v, 0)) then None
    else
      var (n, rest) := Digits(v, 0);
      var m: int := n;
      if At(u, 0) == '-' then (if m > LONG_MAX + 1 then None else Some((-m, rest)))
      else (if m > LONG_MAX then None else Some((m, rest)))
  }

  // ---------- skipping a value ----------

  function SkipQuoted(t: string): (r: string)
    ensures |r| <= |t|
    ensures At(r, 0) == '\0' || At(r, 0) == '"'
    decreases |t|
  {
    if At(t, 0) == '\0' || t[0] == '"' then t
    else if t[0] == '\\' && At(t, 1) != '\0' then SkipQuoted(t[2..])
    else SkipQuoted(t[1..])
  }

  predicate Opens(c: char) {
    c == '{' || c == '['
  }

  predicate Closes(c: char) {
    c == '}' || c == ']'
  }

  /** From inside `depth` brackets to after the last of them. */
  function SkipGroup(t: string, depth: nat): (r: string)
    ensures |r| <= |t|
    decreases |t|
  {
    if depth == 0 || At(t, 0) == '\0' then t
    else if t[0] == '"' then
      var u := SkipQuoted(t[1..]);
      SkipGroup(if At(u, 0) == '"' then u[1..] else u, depth)
    else if Opens(t[0]) then SkipGroup(t[1..], depth + 1)
    else if Closes(t[0]) then SkipGroup(t[1..], depth - 1)
    else SkipGroup(t[1..], depth)
  }

  predicate EndsScalar(c: char) {
    c == '\0' || c == ',' || Closes(c) || Space(c)
  }

  function SkipScalar(t: string): (r: string)
    ensures |r| <= |t|
  {
    if EndsScalar(At(t, 0)) then t else SkipScalar(t[1..])
  }

  /** skip_json_value. */
  function SkipValue(t: string): (r: Option<string>)
    ensures r.Some? ==> |r.value| <= |t|
  {
    var u := SkipWs(t);
    if At(u, 0) == '"' then
      var v := SkipQuoted(u[1..]);
      if At(v, 0) != '"' then None else Some(v[1..])
    else if Opens(At(u, 0)) then Some(SkipGroup(u[1..], 1))
    else Some(SkipScalar(u))
  }

  // ---------- the day mask ----------

  /** timers_days_from_string from bit i on, the lowest bit first. */
  function MaskOf(s: string): nat {
    if s == [] then 0 else (if s[0] != '-' && s[0] != '0' then 1 else 0) + 2 * MaskOf(s[1..])
  }

  function DaysFrom(s: string): Option<nat> {
    if |s| == 7 then Some(MaskOf(s)) else None
  }

  const LETTERS := "SMTWTFS"

  function DayLetters(mask: nat, i: nat): string
    requires i <= 7
    decreases 7 - i
  {
    if i == 7 then "" else [if mask % 2 == 1 then LETTERS[i] else '-'] + DayLetters(mask / 2, i + 1)
  }

  // ---------- parsing a slot ----------

  datatype Field = Arm | Repeat | Retain | Qos | Window | Minute | Days | Topic | Payload | Label | Unknown

  /** The field a key names, in its short or its long form. */
  function FieldOf(key: string): Field {
    if |key| == 1 then
      match key[0]
      case 'a' => Arm
      case 'r' => Repeat
      case 'q' => Qos
      case 'w' => Window
      case 'd' => Days
      case 'l' => Label
      case _ => Unknown
    else if |key| == 2 then
      if key == "rt" then Retain else if key == "hm" then Minute
      else if key == "tp" then Topic else if key == "pl" then Payload else Unknown
    else if |key| <= 4 then
      if key == "arm" then Arm else if key == "qos" then Qos else if key == "min" then Minute
      else if key == "days" then Days else Unknown
    else if key == "repeat" then Repeat
    else if key == "retain" then Retain
    else if key == "window" then Window
    else if key == "topic" then Topic
    else if key == "payload" then Payload
    else if key == "label" then Label
    else Unknown
  }

  /** A C string as strcmp and strlen see it. */
  function Terminated(s: string): string {
    if s == [] || s[0] == '\0' then [] else [s[0]] + Terminated(s[1..])
  }

  predicate Numeric(f: Field) {
    f in {Arm, Repeat, Retain, Qos, Window, Minute}
  }

  function SetNumber(s: Timer, f: Field, n: int): Option<Timer>
    requires Numeric(f)
  {
    match f
    case Arm => Some(s.(arm := n != 0))
    case Repeat => Some(s.(repeat := n != 0))
    case Retain => Some(s.(retain := n != 0))
    case Qos => if 0 <= n <= 1 then Some(s.(qos := n)) else None
    case Window => if 0 <= n <= 15 then Some(s.(window := n)) else None
    case Minute => if 0 <= n <= 1439 then Some(s.(minute := n)) else None
  }

  /** The buffer a string field is read into. */
  function Room(f: Field): nat {
    match f
    case Days => 9
    case Topic => TOPIC_MAX + 1
    case Payload => PAYLOAD_MAX + 1
    case Label => LABEL_MAX + 1
    case _ => 0
  }

  predicate Textual(f: Field) {
    f in {Days, Topic, Payload, Label}
  }

  function SetText(s: Timer, f: Field, v: string): Option<Timer>
    requires Textual(f)
  {
    match f
    case Days => var m := DaysFrom(Terminated(v)); if m.None? then None else Some(s.(days := m.value))
    case Topic => Some(s.(topic := Terminated(v)))
    case Payload => Some(s.(payload := v))
    case Label => Some(s.(caption := Terminated(v)))
  }

  /** The value of one member, stored into the slot. */
  function ParseField(t: string, f: Field, s: Timer): (r: Option<(Timer, string)>)
    ensures r.Some? ==> |r.value.1| <= |t|
  {
    if Numeric(f) then
      var n := ParseInt(t);
      if n.None? then None
      else
        var r := SetNumber(s, f, n.value.0);
        if r.None? then None else Some((r.value, n.value.1))
    else if Textual(f) then
      var v := ParseString(t, Room(f));
      if v.None? then None
      else
        var r := SetText(s, f, v.value.0);
        if r.None? then None else Some((r.value, v.value.1))
    else
      var rest := SkipValue(t);
      if rest.None? then None else Some((s, rest.value))
  }

  /** A member's key as strcmp sees it, and the text of its value. */
  function ParseKey(t: string): (r: Option<(string, string)>)
    ensures r.Some? ==> |r.value.1| < |t|
  {
    var key := ParseString(SkipWs(t), KEY_SIZE);
    if key.None? then None
    else
      var colon := SkipWs(key.value.1);
      if At(colon, 0) != ':' then None else Some((Terminated(key.value.0), SkipWs(colon[1..])))
  }

  /** One member, from before its key to before the ',' or '}' that follows it. */
  function ParseMember(t: string, s: Timer): (r: Option<(Timer, string)>)
    ensures r.Some? ==> |r.value.1| < |t|
  {
    var key := ParseKey(t);
    if key.None? then None
    else
      var r := ParseField(key.value.1, FieldOf(key.value.0), s);
      if r.None? then None else Some((r.value.0, SkipWs(r.value.1)))
  }

  function ParseMembers(t: string, s: Timer): (r: Option<(Timer, string)>)
    ensures r.Some? ==> |r.value.1| <= |t|
    decreases |t|
  {
    if At(t, 0) == '\0' then Some((s, t))
    else
      var m := ParseMember(t, s);
      if m.None? then None
      else
        var (s', rest) := m.value;
        if At(rest, 0) == ',' then ParseMembers(rest[1..], s')
        else if At(rest, 0) == '}' then Some((s', rest[1..]))
        else None
  }

  /** parse_slot_object. */
  function ParseSlot(t: string): (r: Option<(Timer, string)>)
    ensures r.Some? ==> |r.value.1| < |t|
  {
    var u := SkipWs(t);
    if At(u, 0) != '{' then None
    else
      var v := SkipWs(u[1..]);
      if At(v, 0) == '}' then Some((EMPTY, v[1..])) else ParseMembers(v, EMPTY)
  }

  // ---------- parsing the whole store ----------

  /** One element of the slot array; those beyond the sixteenth are read and dropped. */
  function ParseInto(t: string, i: nat, slots: seq<Timer>): (r: Option<(seq<Timer>, string)>)
    ensures r.Some? ==> |r.value.1| < |t| && |r.value.0| == |slots|
  {
    var s := ParseSlot(t);
    if s.None? then None else Some((if i < |slots| then slots[i := s.value.0] else slots, SkipWs(s.value.1)))
  }

  function ParseSlots(t: string, i: nat, slots: seq<Timer>): (r: Option<(seq<Timer>, string)>)
    ensures r.Some? ==> |r.value.1| <= |t| && |r.value.0| == |slots|
    decreases |t|
  {
    if At(t, 0) == '\0' then Some((slots, t))
    else
      var s := ParseInto(t, i, slots);
      if s.None? then None
      else
        var (slots', rest) := s.value;
        if At(rest, 0) == ',' then ParseSlots(SkipWs(rest[1..]), i + 1, slots')
        else if At(rest, 0) == ']' then Some((slots', rest[1..]))
        else None
  }

  datatype Store = Store(master: bool, slots: seq<Timer>)

  function ParseEntryValue(t: string, key: string, store: Store): (r: Option<(Store, string)>)
    ensures r.Some? ==> |r.value.1| <= |t| && |r.value.0.slots| == |store.slots|
  {
    if key == "v" then
      var n := ParseInt(t);
      if n.None? then None else Some((store, n.value.1))
    else if key == "me" || key == "master" then
      var n := ParseInt(t);
      if n.None? then None else Some((store.(master := n.value.0 != 0), n.value.1))
    else if key == "t" || key == "timers" then
      if At(t, 0) != '[' then None
      else
        var u := SkipWs(t[1..]);
        if At(u, 0) == ']' then Some((store, u[1..]))
        else
          var r := ParseSlots(u, 0, store.slots);
          if r.None? then None else Some((store.(slots := r.value.0), r.value.1))
    else
      var rest := SkipValue(t);
      if rest.None? then None else Some((store, rest.value))
  }

  function ParseEntry(t: string, store: Store): (r: Option<(Store, string)>)
    ensures r.Some? ==> |r.value.1| < |t| && |r.value.0.slots| == |store.slots|
  {
    var key := ParseKey(t);
    if key.None? then None
    else
      var r := ParseEntryValue(key.value.1, key.value.0, store);
      if r.None? then None else Some((r.value.0, SkipWs(r.value.1)))
  }

  function ParseEntries(t: string, store: Store): (r: Option<Store>)
    ensures r.Some? ==> |r.value.slots| == |store.slots|
    decreases |t|
  {
    if At(t, 0) == '\0' then Some(store)
    else
      var e := ParseEntry(t, store);
      if e.None? then None
      else
        var (store', rest) := e.value;
        if At(rest, 0) == ',' then ParseEntries(rest[1..], store')
        else if At(rest, 0) == '}' then Some(store')
        else None
  }

  function Blank(): (r: Store)
    ensures |r.slots| == SLOT_COUNT && r.master
  {
    Store(true, seq(SLOT_COUNT, i => EMPTY))
  }

  /** parse_blob. */
  function ParseBlob(t: string): (r: Option<Store>)
    ensures r.Some? ==> |r.value.slots| == SLOT_COUNT
  {
    var u := SkipWs(t);
    if At(u, 0) != '{' then None
    else
      var v := SkipWs(u[1..]);
      if At(v, 0) == '}' then Some(Blank()) else ParseEntries(v, Blank())
  }

  // ---------- printing ----------

  function Decimal(n: nat): string {
    if n < 10 then ['0' + n as char] else Decimal(n / 10) + ['0' + (n % 10) as char]
  }

  function HexDigit(v: nat): char
    requires v < 0x10
  {
    if v < 10 then '0' + v as char else 'a' + (v - 10) as char
  }

  /** How append_json_string writes one character. */
  function EscapeChar(c: char): string {
    match c
    case '"' => "\\\""
    case '\\' => "\\\\"
    case '\n' => "\\n"
    case '\r' => "\\r"
    case '\t' => "\\t"
    case _ =>
      if c == BACKSPACE then "\\b"
      else if c == FORM_FEED then "\\f"
      else if c < ' ' then "\\u00" + [HexDigit(c as int / 0x10), HexDigit(c as int % 0x10)]
      else [c]
  }

  function Escape(s: string): string {
    if s == [] then [] else EscapeChar(s[0]) + Escape(s[1..])
  }

  function Quote(s: string): string {
    ['"'] + Escape(s) + ['"']
  }

  function Flag(b: bool): nat {
    if b then 1 else 0
  }

  /** The seven members every slot that is not blank begins with. */
  function HeadText(s: Timer): string {
    "{\"a\":" + Decimal(Flag(s.arm)) + ",\"r\":" + Decimal(Flag(s.repeat)) + ",\"rt\":" + Decimal(Flag(s.retain))
    + ",\"q\":" + Decimal(s.qos) + ",\"w\":" + Decimal(s.window) + ",\"hm\":" + Decimal(s.minute)
    + ",\"d\":\"" + DayLetters(s.days, 0) + "\""
  }

  function TailText(s: Timer): string {
    (if s.topic != [] then ",\"tp\":" + Quote(s.topic) else "")
    + (if s.payload != [] then ",\"pl\":" + Quote(s.payload) else "")
    + (if s.caption != [] then ",\"l\":" + Quote(s.caption) else "")
  }

  function SlotText(s: Timer): string {
    if s == EMPTY then "{}" else HeadText(s) + TailText(s) + "}"
  }

  function SlotsText(slots: seq<Timer>, i: nat): string
    requires i <= |slots|
    decreases |slots| - i
  {
    if i == |slots| then "" else (if i > 0 then "," else "") + SlotText(slots[i]) + SlotsText(slots, i + 1)
  }

  /** serialize_blob, when everything fits. */
  function BlobText(store: Store): string {
    BlobOf(Decimal(Flag(store.master)), SlotsText(store.slots, 0))
  }

  function BlobOf(flag: string, body: string): string {
    "{\"v\":1,\"me\":" + flag + ",\"t\":[" + body + "]}"
  }
}
