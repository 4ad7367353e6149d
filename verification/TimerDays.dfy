/** Which days the letters of a timer mean (main/timers.c:87-107, 612-644, 785), from the text of its day mask to the
    sweeps that fire it and the second that is predicted. */
module TimerDays {
  import opened Bytes
  import opened TimerText
  import opened TimerLaws
  import opened TimerSchedule
  import opened TimerScheduleLaws

  // ---------- the week ----------

  /** The first of January 1970 was a Thursday, and the days of the week follow each other, Sunday first. */
  lemma WeekdayMeaning(day: int)
    ensures Weekday(0) == 4 && Weekday(day + 1) == (Weekday(day) + 1) % 7
  {}

  /** The jitter differs from day to day and from slot to slot: with a window of a quarter of an hour the first slot
      fires 14 minutes late on the second of January, the second slot 3 minutes early and a day later 12 late. */
  lemma JitterVaries()
    ensures Jitter(0, 1, 15) == 14 && Jitter(1, 1, 15) == -3 && Jitter(1, 2, 15) == 12
  {
    assert Hash32(0xA5A4) % 31 == 29;
    assert Hash32(0xA527) % 31 == 12;
    assert Hash32(0xA524) % 31 == 27;
  }

  // ---------- letters and bits ----------

  predicate Set(c: char) {
    c != '-' && c != '0'
  }

  /** The rest of a mask holds the later days. */
  lemma LaterDays(mask: nat, w: nat)
    requires 0 < w < 7
    ensures OnDay(mask, w) <==> OnDay(mask / 2, w - 1)
  {
    assert mask / 2 / 2 == mask / 4 && mask / 2 / 4 == mask / 8 && mask / 2 / 8 == mask / 16;
    assert mask / 2 / 16 == mask / 32 && mask / 2 / 32 == mask / 64;
  }

  lemma {:induction false} LetterBits(text: string, w: nat)
    requires w < 7 && w < |text|
    ensures OnDay(MaskOf(text), w) <==> Set(text[w])
    decreases w
  {
    if w > 0 {
      LaterDays(MaskOf(text), w);
      assert MaskOf(text) / 2 == MaskOf(text[1..]);
      LetterBits(text[1..], w - 1);
    }
  }

  /** A day of the week is on in a parsed mask exactly when its letter is neither '-' nor '0'. */
  lemma DayOfLetter(text: string, mask: nat, w: nat)
    requires DaysFrom(text) == Some(mask) && w < 7
    ensures |text| == 7 && (OnDay(mask, w) <==> text[w] != '-' && text[w] != '0')
  {
    LetterBits(text, w);
  }

  lemma {:induction false} PrintedLetters(mask: nat, i: nat, w: nat)
    requires i <= 7 && w < 7 - i
    ensures |DayLetters(mask, i)| == 7 - i
    ensures DayLetters(mask, i)[w] == if OnDay(mask, w) then LETTERS[i + w] else '-'
    decreases w
  {
    LettersLength(mask, i);
    if w > 0 {
      LaterDays(mask, w);
      PrintedLetters(mask / 2, i + 1, w - 1);
    }
  }

  lemma {:induction false} LettersLength(mask: nat, i: nat)
    requires i <= 7
    ensures |DayLetters(mask, i)| == 7 - i
    decreases 7 - i
  {
    if i < 7 { LettersLength(mask / 2, i + 1); }
  }

  /** The printed letters: a day that is on by its initial, one that is off as '-'. */
  lemma LettersOfMask(mask: nat)
    ensures |DayLetters(mask, 0)| == 7
    ensures forall w | 0 <= w < 7 :: DayLetters(mask, 0)[w] == if OnDay(mask, w) then "SMTWTFS"[w] else '-'
  {
    LettersLength(mask, 0);
    forall w | 0 <= w < 7 ensures DayLetters(mask, 0)[w] == if OnDay(mask, w) then "SMTWTFS"[w] else '-' {
      PrintedLetters(mask, 0, w);
    }
  }

  // ---------- sweeping and predicting by the letters ----------

  /** The letter of a local day, counted from the epoch, is set. */
  predicate LetterOn(text: string, day: int)
    requires |text| == 7
  {
    var c := text[(day + 4) % 7];
    c != '-' && c != '0'
  }

  /** A slot is due exactly when it is armed, the letter of the local day is set, and the local minute is its minute
      with the day's jitter. */
  lemma DueByLetters(i: nat, timer: Timer, text: string, z: Zone, t: int)
    requires i < SLOT_COUNT && z.Valid() && DaysFrom(text) == Some(timer.days)
    ensures |text| == 7
    ensures var day := (t + z.offset) / 86400;
            Due(i, timer, z, t) <==>
              timer.arm && LetterOn(text, day)
              && (t + z.offset) % 86400 / 60 == timer.minute + Jitter(i, z.yday(day), timer.window)
  {
    DayOfLetter(text, timer.days, Weekday(LocalDay(z, t)));
    hide OnDay, Jitter, DaysFrom;
  }

  /** A sweep fires a slot exactly when it is armed, the letter of the local day is set, the local minute is its own,
      and it has not fired in this minute of UTC. */
  lemma SweepByLetters(i: nat, s: Slot, text: string, t: int, z: Zone)
    requires i < SLOT_COUNT && z.Valid() && Coherent(i, s) && DaysFrom(text) == Some(s.timer.days)
    ensures |text| == 7
    ensures var day := (t + z.offset) / 86400;
            SweepSlot(i, s, t, z).1 <==>
              s.timer.arm && LetterOn(text, day) && s.lastFire != t / 60
              && (t + z.offset) % 86400 / 60 == s.timer.minute + Jitter(i, z.yday(day), s.timer.window)
  {
    SweepMeaning(i, s, t, z);
    DueByLetters(i, s.timer, text, z, t);
    hide SweepSlot, Due, Jitter, Coherent, DaysFrom;
  }

  /** The timer's minute begins on a day whose letter is set. */
  predicate BeginsByLetters(text: string, minute: nat, z: Zone, t: int)
    requires |text| == 7
  {
    (t + z.offset) % 86400 == 60 * minute && LetterOn(text, (t + z.offset) / 86400)
  }

  /** What the predictor promises, by the letters: the first second after now at which the minute begins on a day whose
      letter is set. */
  lemma PredictionByLetters(s: Timer, text: string, z: Zone, now: int, r: int)
    requires DaysFrom(text) == Some(s.days)
    ensures |text| == 7
    ensures Begins(s, z, r) && NoneBetween(s, z, now, r) <==>
            BeginsByLetters(text, s.minute, z, r) && forall t | now < t < r :: !BeginsByLetters(text, s.minute, z, t)
  {
    DayOfLetter(text, s.days, 0);
    forall t: int ensures Begins(s, z, t) <==> BeginsByLetters(text, s.minute, z, t) {
      DayOfLetter(text, s.days, Weekday(LocalDay(z, t)));
    }
    hide Begins, BeginsByLetters, DaysFrom;
  }

  /** An empty mask is one without a letter set. */
  lemma NoLetterIsOn(text: string, mask: nat)
    requires DaysFrom(text) == Some(mask)
    ensures |text| == 7 && (mask == 0 <==> forall w | 0 <= w < 7 :: text[w] == '-' || text[w] == '0')
  {
    EmptyIffNoneSet(text);
    assert forall w | 0 <= w < 7 :: Set(text[w]) <==> !(text[w] == '-' || text[w] == '0');
  }

  lemma {:induction false} EmptyIffNoneSet(text: string)
    ensures MaskOf(text) == 0 <==> forall w | 0 <= w < |text| :: !Set(text[w])
  {
    if text != [] {
      var rest := text[1..];
      EmptyIffNoneSet(rest);
      assert forall w | 0 <= w < |rest| :: rest[w] == text[w + 1];
      if Set(text[0]) || MaskOf(rest) != 0 {
      } else {
        forall w | 0 <= w < |text| ensures !Set(text[w]) {
          if w > 0 { assert text[w] == rest[w - 1]; }
        }
      }
    }
  }
}
