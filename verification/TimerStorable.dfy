/** Whatever text is loaded, the slots that come out are ones the store may hold; and the printed
    text is a C string. */
module TimerStorable {
  import opened Bytes
  import opened TimerText
  import opened TimerLaws
  import opened TimerRoundTrip

  lemma {:induction false} BodyFits(t: string, acc: string, size: nat)
    requires |acc| < size
    ensures Body(t, acc, size).Some? ==> |Body(t, acc, size).value.0| < size
    decreases |t|
  {
    if At(t, 0) != '\0' && t[0] != '"' {
      var u := Unit(t);
      if u.Some? && |acc| + |u.value.0| < size { BodyFits(t[u.value.1..], acc + u.value.0, size); }
    }
  }

  lemma {:induction false} TerminatedFits(s: string)
    ensures '\0' !in Terminated(s) && |Terminated(s)| <= |s|
  {
    if s != [] { TerminatedFits(s[1..]); }
  }

  lemma {:induction false} MaskFits(s: string)
    ensures MaskOf(s) < Power2(|s|)
  {
    if s != [] { MaskFits(s[1..]); }
  }

  lemma FieldStorable(t: string, f: Field, s: Timer)
    requires Storable(s) && ParseField(t, f, s).Some?
    ensures Storable(ParseField(t, f, s).value.0)
  {
    if Textual(f) {
      var v := ParseString(t, Room(f)).value.0;
      BodyFits(t[1..], [], Room(f));
      TerminatedFits(v);
      MaskFits(Terminated(v));
      assert Power2(7) == 0x80;
    }
  }

  lemma {:induction false} MembersStorable(t: string, s: Timer)
    requires Storable(s) && ParseMembers(t, s).Some?
    ensures Storable(ParseMembers(t, s).value.0)
    decreases |t|
  {
    if At(t, 0) != '\0' {
      var (s', rest) := ParseMember(t, s).value;
      var key := ParseKey(t).value;
      FieldStorable(key.1, FieldOf(key.0), s);
      if At(rest, 0) == ',' { MembersStorable(rest[1..], s'); }
    }
  }

  lemma SlotStorable(t: string)
    requires ParseSlot(t).Some?
    ensures Storable(ParseSlot(t).value.0)
  {
    var v := SkipWs(SkipWs(t)[1..]);
    if At(v, 0) != '}' { MembersStorable(v, EMPTY); }
  }

  predicate AllStorable(slots: seq<Timer>) {
    forall i | 0 <= i < |slots| :: Storable(slots[i])
  }

  lemma {:induction false} SlotsStorable(t: string, i: nat, slots: seq<Timer>)
    requires AllStorable(slots) && ParseSlots(t, i, slots).Some?
    ensures AllStorable(ParseSlots(t, i, slots).value.0)
    decreases |t|
  {
    if At(t, 0) != '\0' {
      SlotStorable(t);
      var (slots', rest) := ParseInto(t, i, slots).value;
      if At(rest, 0) == ',' { SlotsStorable(SkipWs(rest[1..]), i + 1, slots'); }
    }
  }

  lemma EntryStorable(t: string, key: string, store: Store)
    requires AllStorable(store.slots) && ParseEntryValue(t, key, store).Some?
    ensures AllStorable(ParseEntryValue(t, key, store).value.0.slots)
  {
    if key == "t" || key == "timers" {
      var u := SkipWs(t[1..]);
      if At(u, 0) != ']' { SlotsStorable(u, 0, store.slots); }
    }
  }

  lemma {:induction false} EntriesStorable(t: string, store: Store)
    requires AllStorable(store.slots) && ParseEntries(t, store).Some?
    ensures AllStorable(ParseEntries(t, store).value.slots)
    decreases |t|
  {
    if At(t, 0) != '\0' {
      var (store', rest) := ParseEntry(t, store).value;
      var key := ParseKey(t).value;
      EntryStorable(key.1, key.0, store);
      if At(rest, 0) == ',' { EntriesStorable(rest[1..], store'); }
    }
  }

  /** Any text that parses, hand-edited or not, yields sixteen storable slots: every number in
      range, every C string within its buffer. */
  lemma LoadedIsStorable(t: string)
    requires ParseBlob(t).Some?
    ensures AllStorable(ParseBlob(t).value.slots)
  {
    var v := SkipWs(SkipWs(t)[1..]);
    if At(v, 0) != '}' { EntriesStorable(v, Blank()); }
  }

  // ---------- no NUL ----------

  lemma {:induction false} EscapeHasNoNul(s: string)
    ensures '\0' !in Escape(s)
  {
    if s != [] { EscapeHasNoNul(s[1..]); }
  }

  lemma {:induction false} DecimalHasNoNul(n: nat)
    ensures '\0' !in Decimal(n)
  {
    if n >= 10 { DecimalHasNoNul(n / 10); }
  }

  lemma NoNulAppend(a: string, b: string)
    requires '\0' !in a && '\0' !in b
    ensures '\0' !in a + b
  {}

  lemma HeadHasNoNul(s: Timer)
    requires Storable(s)
    ensures '\0' !in HeadText(s)
  {
    DecimalHasNoNul(Flag(s.arm));
    DecimalHasNoNul(Flag(s.repeat));
    DecimalHasNoNul(Flag(s.retain));
    DecimalHasNoNul(s.qos);
    DecimalHasNoNul(s.window);
    DecimalHasNoNul(s.minute);
    LettersHaveNoNul(s.days);
    hide Decimal, DayLetters, Flag, Storable;
  }

  lemma LettersHaveNoNul(days: nat)
    requires days < 0x80
    ensures '\0' !in DayLetters(days, 0)
  {
    DaysRoundTrip(days, 0);
    assert '\0' !in LETTERS;
    hide DayLetters;
  }

  lemma TailHasNoNul(s: Timer)
    ensures '\0' !in TailText(s)
  {
    EscapeHasNoNul(s.topic);
    EscapeHasNoNul(s.payload);
    EscapeHasNoNul(s.caption);
    hide Escape;
  }

  lemma SlotHasNoNul(s: Timer)
    requires Storable(s)
    ensures '\0' !in SlotText(s)
  {
    HeadHasNoNul(s);
    TailHasNoNul(s);
    hide HeadText, TailText, Storable;
    NoNulAppend(HeadText(s), TailText(s));
  }

  lemma {:induction false} SlotsHaveNoNul(slots: seq<Timer>, i: nat)
    requires i <= |slots| && AllStorable(slots)
    ensures '\0' !in SlotsText(slots, i)
    decreases |slots| - i
  {
    if i < |slots| {
      SlotHasNoNul(slots[i]);
      SlotsHaveNoNul(slots, i + 1);
    }
  }

  lemma BlobOfHasNoNul(flag: string, body: string)
    requires '\0' !in flag && '\0' !in body
    ensures '\0' !in BlobOf(flag, body)
  {
    var a, b, c := "{\"v\":1,\"me\":", ",\"t\":[", "]}";
    NoNulAppend(a, flag);
    NoNulAppend(a + flag, b);
    NoNulAppend(a + flag + b, body);
    NoNulAppend(a + flag + b + body, c);
  }

  /** The text written to flash ends where its terminator is, even with NULs in a payload. */
  lemma BlobHasNoNul(store: Store)
    requires AllStorable(store.slots)
    ensures '\0' !in BlobText(store)
  {
    DecimalHasNoNul(Flag(store.master));
    SlotsHaveNoNul(store.slots, 0);
    hide Decimal, SlotsText, AllStorable, Flag, BlobOf;
    BlobOfHasNoNul(Decimal(Flag(store.master)), SlotsText(store.slots, 0));
  }
}
