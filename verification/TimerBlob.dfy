/** The hand-written JSON reader and writer of main/timers.c:153-531, on cursors and buffers. */
module TimerBlob {
  import opened Bytes
  import opened TimerText

  lemma Suffix(t: string, p: nat, k: nat)
    requires p + k <= |t|
    ensures t[p..][k..] == t[p + k..]
  {}

  // ---------- reading ----------

  /** skip_ws. */
  method SkipWhitespace(t: string, p: nat) returns (q: nat)
    requires p <= |t|
    ensures p <= q <= |t| && t[q..] == SkipWs(t[p..])
  {
    q := p;
    while q < |t| && Space(t[q])
      invariant p <= q <= |t| && SkipWs(t[q..]) == SkipWs(t[p..])
    {
      Suffix(t, q, 1);
      q := q + 1;
    }
  }

  /** parse_json_string into a caller's buffer: the length, or -1; never past the buffer's end. */
  method ParseJsonString(t: string, p: nat, out: array<char>) returns (o: int, end: nat)
    requires p <= |t| && out.Length > 0
    modifies out
    ensures o < 0 <==> ParseString(t[p..], out.Length).None?
    ensures o >= 0 ==> o < out.Length && p < end <= |t| && out[o] == '\0'
                       && ParseString(t[p..], out.Length) == Some((out[..o], t[end..]))
  {
    hide Unit, Utf8;
    if At(t, p) != '"' || p == |t| { return -1, p; }
    var q, n := p + 1, 0;
    Suffix(t, p, 1);
    assert out[..0] == [];
    while At(t, q) != '\0' && At(t, q) != '"'
      invariant p < q <= |t| && n < out.Length
      invariant Body(t[q..], out[..n], out.Length) == Body(t[p + 1..], [], out.Length)
      decreases |t| - q
    {
      var u := Unit(t[q..]);
      if u.None? || n + |u.value.0| >= out.Length { return -1, q; }
      ghost var was := out[..n];
      forall i | 0 <= i < |u.value.0| { out[n + i] := u.value.0[i]; }
      Suffix(t, q, u.value.1);
      n, q := n + |u.value.0|, q + u.value.1;
      assert out[..n] == was + u.value.0;
    }
    if At(t, q) != '"' { return -1, q; }
    Suffix(t, q, 1);
    ghost var was := out[..n];
    out[n] := '\0';
    assert out[..n] == was;
    return n, q + 1;
  }

  /** The loop over a string's body inside skip_json_value. */
  method SkipStringBody(t: string, p: nat) returns (q: nat)
    requires p <= |t|
    ensures p <= q <= |t| && t[q..] == SkipQuoted(t[p..])
  {
    q := p;
    while At(t, q) != '\0' && At(t, q) != '"'
      invariant p <= q <= |t| && SkipQuoted(t[q..]) == SkipQuoted(t[p..])
      decreases |t| - q
    {
      if q + 1 < |t| { Suffix(t, q, 2); }
      Suffix(t, q, 1);
      if t[q] == '\\' && At(t, q + 1) != '\0' { q := q + 1; }
      q := q + 1;
    }
  }

  /** skip_json_value. */
  method SkipJsonValue(t: string, p: nat) returns (ok: bool, q: nat)
    requires p <= |t|
    ensures p <= q <= |t|
    ensures SkipValue(t[p..]) == if ok then Some(t[q..]) else None
  {
    q := SkipWhitespace(t, p);
    if At(t, q) == '"' && q < |t| {
      Suffix(t, q, 1);
      q := SkipStringBody(t, q + 1);
      if At(t, q) != '"' { return false, q; }
      Suffix(t, q, 1);
      return true, q + 1;
    }
    ok := true;
    if Opens(At(t, q)) && q < |t| {
      Suffix(t, q, 1);
      q := SkipBrackets(t, q + 1, if t[q] == '{' then '}' else ']');
      return;
    }
    ghost var from := q;
    while !EndsScalar(At(t, q))
      invariant from <= q <= |t| && SkipScalar(t[q..]) == SkipScalar(t[from..])
      decreases |t| - q
    {
      Suffix(t, q, 1);
      q := q + 1;
    }
  }

  /** Its loop over an object or array; the kind of the closing bracket turns out not to matter. */
  method SkipBrackets(t: string, p: nat, close: char) returns (q: nat)
    requires p <= |t|
    ensures p <= q <= |t| && t[q..] == SkipGroup(t[p..], 1)
  {
    q := p;
    var depth := 1;
    while At(t, q) != '\0' && depth > 0
      invariant p <= q <= |t|
      invariant SkipGroup(t[q..], if depth > 0 then depth else 0) == SkipGroup(t[p..], 1)
      decreases |t| - q
    {
      Suffix(t, q, 1);
      if t[q] == '"' {
        q := SkipStringBody(t, q + 1);
        if At(t, q) == '"' {
          Suffix(t, q, 1);
          q := q + 1;
        }
      } else if Opens(t[q]) {
        depth := depth + 1;
        q := q + 1;
      } else if Closes(t[q]) {
        if t[q] == close && depth == 1 { depth := 0; }
        depth := depth - 1;
        q := q + 1;
      } else {
        q := q + 1;
      }
    }
  }

  /** The key of a member, up to where its value starts. */
  method ReadKey(t: string, p: nat) returns (ok: bool, key: string, q: nat)
    requires p <= |t|
    ensures p <= q <= |t|
    ensures ParseKey(t[p..]) == if ok then Some((key, t[q..])) else None
  {
    var start := SkipWhitespace(t, p);
    var buf := new char[KEY_SIZE];
    var o, end := ParseJsonString(t, start, buf);
    if o < 0 { return false, "", start; }
    key := Terminated(buf[..o]);
    q := SkipWhitespace(t, end);
    if At(t, q) != ':' || q == |t| { return false, key, q; }
    Suffix(t, q, 1);
    q := SkipWhitespace(t, q + 1);
    ok := true;
  }

  /** The value of a member, by its field. */
  method ReadField(t: string, p: nat, f: Field, s: Timer) returns (ok: bool, s': Timer, q: nat)
    requires p <= |t|
    ensures p <= q <= |t|
    ensures ParseField(t[p..], f, s) == if ok then Some((s', t[q..])) else None
  {
    s' := s;
    if Numeric(f) {
      var n := ParseInt(t[p..]);
      if n.None? { return false, s, p; }
      q := |t| - |n.value.1|;
      IntSuffix(t, p);
      var r := SetNumber(s, f, n.value.0);
      return r.Some?, if r.Some? then r.value else s, q;
    }
    if Textual(f) {
      var buf := new char[Room(f)];
      var o, end := ParseJsonString(t, p, buf);
      if o < 0 { return false, s, p; }
      var r := SetText(s, f, buf[..o]);
      return r.Some?, if r.Some? then r.value else s, end;
    }
    ok, q := SkipJsonValue(t, p);
  }

  /** What strtol leaves is the end of what it was given. */
  lemma IntSuffix(t: string, p: nat)
    requires p <= |t| && ParseInt(t[p..]).Some?
    ensures var rest := ParseInt(t[p..]).value.1; |rest| <= |t| - p && t[|t| - |rest|..] == rest
  {
    var u := SkipSpaces(t[p..]);
    SpacesSuffix(t[p..]);
    var v := if At(u, 0) == '-' || At(u, 0) == '+' then u[1..] else u;
    DigitsSuffix(v, 0);
  }

  lemma {:induction false} SpacesSuffix(t: string)
    ensures SkipSpaces(t) == t[|t| - |SkipSpaces(t)|..]
  {
    if SkipSpaces(t) != t { SpacesSuffix(t[1..]); }
  }

  lemma {:induction false} DigitsSuffix(t: string, acc: nat)
    ensures Digits(t, acc).1 == t[|t| - |Digits(t, acc).1|..]
  {
    if t != [] && Digit(t[0]) { DigitsSuffix(t[1..], 10 * acc + (t[0] - '0') as int); }
  }

  /** One round of the member loop of parse_slot_object. */
  method ReadMember(t: string, p: nat, s: Timer) returns (ok: bool, s': Timer, q: nat)
    requires p <= |t|
    ensures p <= q <= |t| && (ok ==> p < q)
    ensures ParseMember(t[p..], s) == if ok then Some((s', t[q..])) else None
  {
    s' := s;
    var key;
    ok, key, q := ReadKey(t, p);
    if !ok { return; }
    ok, s', q := ReadField(t, q, FieldOf(key), s);
    if !ok { return; }
    q := SkipWhitespace(t, q);
  }

  /** The member loop of parse_slot_object. */
  method ReadMembers(t: string, p: nat) returns (ok: bool, s: Timer, q: nat)
    requires p <= |t|
    ensures p <= q <= |t|
    ensures ParseMembers(t[p..], EMPTY) == if ok then Some((s, t[q..])) else None
  {
    hide ParseMember;
    s, q := EMPTY, p;
    while At(t, q) != '\0'
      invariant p <= q <= |t|
      invariant ParseMembers(t[q..], s) == ParseMembers(t[p..], EMPTY)
      decreases |t| - q
    {
      ok, s, q := ReadMember(t, q, s);
      if !ok { return; }
      if q < |t| { Suffix(t, q, 1); }
      if At(t, q) == ',' && q < |t| {
        q := q + 1;
        continue;
      }
      if At(t, q) == '}' && q < |t| {
        return true, s, q + 1;
      }
      return false, s, q;
    }
    ok := true;
  }

  /** parse_slot_object. */
  method ReadSlot(t: string, p: nat) returns (ok: bool, s: Timer, q: nat)
    requires p <= |t|
    ensures p <= q <= |t| && (ok ==> p < q)
    ensures ParseSlot(t[p..]) == if ok then Some((s, t[q..])) else None
  {
    hide ParseMembers;
    s := EMPTY;
    q := SkipWhitespace(t, p);
    if At(t, q) != '{' || q == |t| { return false, s, q; }
    Suffix(t, q, 1);
    q := SkipWhitespace(t, q + 1);
    if At(t, q) == '}' && q < |t| {
      Suffix(t, q, 1);
      return true, s, q + 1;
    }
    ok, s, q := ReadMembers(t, q);
  }

  // ---------- the store ----------

  /** The slots and the master flag of the timers module. */
  class TimerStore {
    const slots: array<Timer>
    var master: bool

    ghost predicate Valid() {
      slots.Length == SLOT_COUNT
    }

    ghost function Abs(): Store
      reads this, slots
    {
      Store(master, slots[..])
    }

    constructor ()
      ensures Valid() && Abs() == Blank() && fresh(slots)
    {
      slots := new Timer[SLOT_COUNT](i => EMPTY);
      master := true;
    }

    /** One round of the slot loop of parse_blob: slots past the sixteenth are dropped. */
    method ReadInto(t: string, p: nat, i: nat) returns (ok: bool, q: nat)
      requires Valid() && p <= |t|
      modifies slots
      ensures p <= q <= |t| && (ok ==> p < q)
      ensures ok <==> ParseInto(t[p..], i, old(slots[..])).Some?
      ensures ok ==> ParseInto(t[p..], i, old(slots[..])) == Some((slots[..], t[q..]))
    {
      var s;
      ok, s, q := ReadSlot(t, p);
      if !ok { return; }
      if i < SLOT_COUNT {
        slots[i] := s;
        assert slots[..] == old(slots[..])[i := s];
      }
      q := SkipWhitespace(t, q);
    }

    /** The slot loop of parse_blob. */
    method ReadSlots(t: string, p: nat) returns (ok: bool, q: nat)
      requires Valid() && p <= |t|
      modifies slots
      ensures p <= q <= |t|
      ensures ParseSlots(t[p..], 0, old(slots[..])).Some? <==> ok
      ensures ok ==> ParseSlots(t[p..], 0, old(slots[..])) == Some((slots[..], t[q..]))
    {
      hide ParseInto, SkipWs;
      var i := 0;
      q := p;
      while At(t, q) != '\0'
        invariant p <= q <= |t|
        invariant ParseSlots(t[q..], i, slots[..]) == ParseSlots(t[p..], 0, old(slots[..]))
        decreases |t| - q
      {
        ok, q := ReadInto(t, q, i);
        if !ok { return; }
        if q < |t| { Suffix(t, q, 1); }
        if At(t, q) == ',' && q < |t| {
          q := SkipWhitespace(t, q + 1);
          i := i + 1;
          continue;
        }
        if At(t, q) == ']' && q < |t| {
          return true, q + 1;
        }
        return false, q;
      }
      ok := true;
    }

    /** One entry of the store's object. */
    method ReadEntry(t: string, p: nat) returns (ok: bool, q: nat)
      requires Valid() && p <= |t|
      modifies this, slots
      ensures p <= q <= |t| && (ok ==> p < q)
      ensures ParseEntry(t[p..], old(Abs())).Some? <==> ok
      ensures ok ==> ParseEntry(t[p..], old(Abs())) == Some((Abs(), t[q..]))
    {
      var key;
      ok, key, q := ReadKey(t, p);
      if !ok { return; }
      ok, q := ReadEntryValue(t, q, key);
      if !ok { return; }
      q := SkipWhitespace(t, q);
    }

    method ReadEntryValue(t: string, p: nat, key: string) returns (ok: bool, q: nat)
      requires Valid() && p <= |t|
      modifies this, slots
      ensures p <= q <= |t|
      ensures ParseEntryValue(t[p..], key, old(Abs())).Some? <==> ok
      ensures ok ==> ParseEntryValue(t[p..], key, old(Abs())) == Some((Abs(), t[q..]))
    {
      if key == "v" || key == "me" || key == "master" {
        var n := ParseInt(t[p..]);
        if n.None? { return false, p; }
        IntSuffix(t, p);
        if key != "v" { master := n.value.0 != 0; }
        return true, |t| - |n.value.1|;
      }
      if key == "t" || key == "timers" {
        if At(t, p) != '[' || p == |t| { return false, p; }
        Suffix(t, p, 1);
        q := SkipWhitespace(t, p + 1);
        if At(t, q) == ']' && q < |t| {
          Suffix(t, q, 1);
          return true, q + 1;
        }
        ok, q := ReadSlots(t, q);
        return;
      }
      ok, q := SkipJsonValue(t, p);
    }

    /** parse_blob, after it has cleared the slots. */
    method ReadEntries(t: string, p: nat) returns (ok: bool)
      requires Valid() && p <= |t|
      modifies this, slots
      ensures ParseEntries(t[p..], old(Abs())).Some? <==> ok
      ensures ok ==> ParseEntries(t[p..], old(Abs())) == Some(Abs())
    {
      hide ParseEntry, SkipWs;
      var q := p;
      while At(t, q) != '\0'
        invariant p <= q <= |t|
        invariant ParseEntries(t[q..], Abs()) == ParseEntries(t[p..], old(Abs()))
        decreases |t| - q
      {
        ok, q := ReadEntry(t, q);
        if !ok { return; }
        if q < |t| { Suffix(t, q, 1); }
        if At(t, q) == ',' && q < |t| {
          q := q + 1;
          continue;
        }
        return At(t, q) == '}';
      }
      ok := true;
    }

    method Clear()
      requires Valid()
      modifies this, slots
      ensures Abs() == Blank()
    {
      forall i | 0 <= i < SLOT_COUNT { slots[i] := EMPTY; }
      master := true;
    }

    /** parse_blob. */
    method ReadBlob(t: string) returns (ok: bool)
      requires Valid()
      modifies this, slots
      ensures ParseBlob(t).Some? <==> ok
      ensures ok ==> ParseBlob(t) == Some(Abs())
    {
      Clear();
      assert t[0..] == t;
      var q := SkipWhitespace(t, 0);
      if At(t, q) != '{' || q == |t| { return false; }
      Suffix(t, q, 1);
      q := SkipWhitespace(t, q + 1);
      if At(t, q) == '}' { return true; }
      ok := ReadEntries(t, q);
    }

    /** load_from_nvs, given the stored text: a text that does not parse leaves the defaults. */
    method Load(t: string)
      requires Valid()
      modifies this, slots
      ensures Abs() == if ParseBlob(t).Some? then ParseBlob(t).value else Blank()
    {
      var ok := ReadBlob(t);
      if !ok { Clear(); }
    }

    // ---------- writing ----------

    /** serialize_blob: the length, or -1 exactly when the text, its NUL and one byte more do not
        fit; the buffer then holds the text and a NUL. */
    method Serialize(buf: array<char>) returns (n: int)
      requires Valid()
      modifies buf
      ensures n < 0 <==> |BlobText(Abs())| + 1 >= buf.Length
      ensures n >= 0 ==> n == |BlobText(Abs())| && buf[..n] == BlobText(Abs()) && buf[n] == '\0'
    {
      hide BlobText, BlobHead, SlotsText;
      ghost var head, body := BlobHead(master), SlotsText(slots[..], 0);
      BlobIs(Abs());
      var p := Append(buf, 0, BlobHead(master));
      if p < 0 { return -1; }
      assert buf[..p] == head;
      p := AppendSlots(buf, p);
      if p < 0 { return -1; }
      if p + 3 >= buf.Length { return -1; }
      ghost var was := buf[..p];
      buf[p], buf[p + 1], buf[p + 2] := ']', '}', '\0';
      n := p + 2;
      assert buf[..n] == was + [']', '}'];
    }

    /** Its loop over the slots. */
    method AppendSlots(buf: array<char>, p: nat) returns (q: int)
      requires Valid() && p <= buf.Length
      modifies buf
      ensures Appended(buf, old(buf[..p]), p, SlotsText(slots[..], 0), q)
    {
      ghost var was, done, ts := buf[..p], "", slots[..];
      q := p;
      var i := 0;
      NoPiece(was, SlotsText(ts, 0));
      while i < SLOT_COUNT
        invariant i <= SLOT_COUNT && slots[..] == ts && |was| == p
        invariant Appended(buf, was, p, done, q) && q >= 0
        invariant done + SlotsText(ts, i) == SlotsText(ts, 0)
      {
        q := AppendNth(buf, p, q, i, was, done);
        if q < 0 { return; }
        NextPiece(done, ts, i);
        done := done + Piece(ts, i);
        i := i + 1;
      }
      NoPiece(done, "");
    }

    /** The slot at i, after what the loop has already written. */
    method AppendNth(buf: array<char>, ghost p: nat, q: nat, i: nat, ghost was: string,
                     ghost done: string) returns (q': int)
      requires Valid() && i < SLOT_COUNT && |was| == p && Appended(buf, was, p, done, q)
      requires done + SlotsText(slots[..], i) == SlotsText(slots[..], 0)
      modifies buf
      ensures if q' < 0 then Appended(buf, was, p, SlotsText(slots[..], 0), q')
              else Appended(buf, was, p, done + Piece(slots[..], i), q')
    {
      ghost var piece := Piece(slots[..], i);
      q' := AppendPiece(buf, q, i > 0, slots[i]);
      Assoc(was, done, piece);
      assert |piece| <= |SlotsText(slots[..], i)|;
    }

    method AppendPiece(buf: array<char>, p: nat, comma: bool, s: Timer) returns (q: int)
      requires p <= buf.Length
      modifies buf
      ensures Appended(buf, old(buf[..p]), p, (if comma then "," else "") + SlotText(s), q)
    {
      ghost var was, text := buf[..p], SlotText(s);
      q := p;
      if comma {
        q := Append(buf, q, ",");
        if q < 0 { return; }
        Assoc(was, ",", text);
      } else {
        assert "" + text == text;
      }
      q := AppendSlot(buf, q, s);
    }
  }

  /** What the loop adds for slot i. */
  function Piece(slots: seq<Timer>, i: nat): (r: string)
    requires i < |slots|
    ensures r + SlotsText(slots, i + 1) == SlotsText(slots, i)
  {
    (if i > 0 then "," else "") + SlotText(slots[i])
  }

  lemma NextPiece(done: string, slots: seq<Timer>, i: nat)
    requires i < |slots|
    ensures done + Piece(slots, i) + SlotsText(slots, i + 1) == done + SlotsText(slots, i)
  {
    Assoc(done, Piece(slots, i), SlotsText(slots, i + 1));
  }

  lemma NoPiece(a: string, b: string)
    ensures a + "" == a && "" + b == b
  {}

  function BlobHead(master: bool): string {
    "{\"v\":1,\"me\":" + Decimal(Flag(master)) + ",\"t\":["
  }

  lemma BlobIs(store: Store)
    ensures BlobText(store) == BlobHead(store.master) + SlotsText(store.slots, 0) + [']', '}']
  {}

  /** snprintf at the write cursor, with the check that follows it in the source. */
  method Append(buf: array<char>, p: nat, s: string) returns (q: int)
    requires p <= buf.Length
    modifies buf
    ensures q < 0 <==> p + |s| >= buf.Length
    ensures q >= 0 ==> q == p + |s| && buf[..q] == old(buf[..p]) + s
    ensures q < 0 ==> q == -1
  {
    if p + |s| >= buf.Length { return -1; }
    forall i | 0 <= i < |s| { buf[p + i] := s[i]; }
    q := p + |s|;
  }

  lemma Assoc(a: string, b: string, c: string)
    ensures a + b + c == a + (b + c)
  {}

  /** What an appending step leaves: the text after what was there, or no room for it. */
  ghost predicate Appended(buf: array<char>, was: string, p: nat, text: string, q: int)
    reads buf
  {
    if q < 0 then q == -1 && p + |text| >= buf.Length
    else q == p + |text| <= buf.Length && buf[..q] == was + text
  }

  /** append_json_string. */
  method AppendJsonString(buf: array<char>, p: nat, s: string) returns (q: int)
    requires p <= buf.Length
    modifies buf
    ensures Appended(buf, old(buf[..p]), p, Quote(s), q)
  {
    ghost var was := buf[..p];
    q := Append(buf, p, ['"']);
    if q < 0 { return; }
    q := AppendEscaped(buf, q, s);
    Assoc(was, ['"'], Escape(s));
    if q < 0 { return; }
    q := Append(buf, q, ['"']);
    Assoc(was, ['"'] + Escape(s), ['"']);
  }

  /** Its loop over the characters. */
  method AppendEscaped(buf: array<char>, p: nat, s: string) returns (q: int)
    requires p <= buf.Length
    modifies buf
    ensures Appended(buf, old(buf[..p]), p, Escape(s), q)
  {
    ghost var was := buf[..p];
    q := p;
    var i := 0;
    assert s[0..] == s && Escape(s[..0]) == [] && was + [] == was;
    while i < |s|
      invariant i <= |s| && q == p + |Escape(s[..i])| <= buf.Length
      invariant buf[..q] == was + Escape(s[..i])
      invariant Escape(s[..i]) + Escape(s[i..]) == Escape(s)
    {
      EscapeStep(s, i);
      Assoc(was, Escape(s[..i]), EscapeChar(s[i]));
      q := Append(buf, q, EscapeChar(s[i]));
      if q < 0 { return; }
      i := i + 1;
    }
    assert s[..i] == s;
  }

  lemma {:induction false} EscapeSnoc(s: string, c: char)
    ensures Escape(s + [c]) == Escape(s) + EscapeChar(c)
  {
    if s == [] {
      assert s + [c] == [c] && [c][1..] == [];
    } else {
      EscapeSnoc(s[1..], c);
      assert (s + [c])[1..] == s[1..] + [c];
      Assoc(EscapeChar(s[0]), Escape(s[1..]), EscapeChar(c));
    }
  }

  lemma EscapeStep(s: string, i: nat)
    requires i < |s| && Escape(s[..i]) + Escape(s[i..]) == Escape(s)
    ensures Escape(s[..i + 1]) == Escape(s[..i]) + EscapeChar(s[i])
    ensures Escape(s[..i + 1]) + Escape(s[i + 1..]) == Escape(s)
  {
    EscapeSnoc(s[..i], s[i]);
    assert s[..i + 1] == s[..i] + [s[i]] && s[i..][1..] == s[i + 1..];
    Assoc(Escape(s[..i]), EscapeChar(s[i]), Escape(s[i + 1..]));
  }

  function MemberText(name: string, s: string): string {
    if s != [] then name + Quote(s) else ""
  }

  /** One text member, when it is not empty. */
  method AppendMember(buf: array<char>, p: nat, name: string, s: string) returns (q: int)
    requires p <= buf.Length
    modifies buf
    ensures Appended(buf, old(buf[..p]), p, MemberText(name, s), q)
  {
    ghost var was := buf[..p];
    q := p;
    if s != [] {
      q := Append(buf, p, name);
      if q < 0 { return; }
      q := AppendJsonString(buf, q, s);
      Assoc(was, name, Quote(s));
    } else {
      assert was + "" == was;
    }
  }

  /** The body of the loop of serialize_blob. */
  method AppendSlot(buf: array<char>, p: nat, s: Timer) returns (q: int)
    requires p <= buf.Length
    modifies buf
    ensures Appended(buf, old(buf[..p]), p, SlotText(s), q)
  {
    if s == EMPTY {
      q := Append(buf, p, "{}");
      return;
    }
    ghost var was, head := buf[..p], HeadText(s);
    q := Append(buf, p, HeadText(s));
    if q < 0 { return; }
    q := AppendTail(buf, q, s);
    Assoc(was, head, TailText(s));
    if q < 0 { return; }
    q := Append(buf, q, ['}']);
    Assoc(was, head + TailText(s), ['}']);
  }

  method AppendTail(buf: array<char>, p: nat, s: Timer) returns (q: int)
    requires p <= buf.Length
    modifies buf
    ensures Appended(buf, old(buf[..p]), p, TailText(s), q)
  {
    ghost var was := buf[..p];
    ghost var a, b, c := MemberText(",\"tp\":", s.topic), MemberText(",\"pl\":", s.payload),
      MemberText(",\"l\":", s.caption);
    assert TailText(s) == a + b + c;
    q := AppendMember(buf, p, ",\"tp\":", s.topic);
    if q < 0 { return; }
    q := AppendMember(buf, q, ",\"pl\":", s.payload);
    Assoc(was, a, b);
    if q < 0 { return; }
    q := AppendMember(buf, q, ",\"l\":", s.caption);
    Assoc(was, a + b, c);
  }
}
