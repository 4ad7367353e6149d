/** Topic filters (main/mqtt_parser.c:515-576): the single-pass character matcher, a matcher
    that goes level by level, and the rules of section 4.7 of MQTT 3.1.1. */
module TopicMatch {
  import opened Bytes

  const SLASH: byte := 0x2F
  const DOLLAR: byte := 0x24
  const HASH: byte := 0x23
  const PLUS: byte := 0x2B

  type Level = seq<byte>

  // ---------- levels ----------

  function LevelEnd(s: seq<byte>): (k: nat)
    ensures k <= |s| && SLASH !in s[..k] && (k < |s| ==> s[k] == SLASH)
  {
    if s == [] || s[0] == SLASH then 0 else 1 + LevelEnd(s[1..])
  }

  /** The levels between slashes; a text with n slashes has n + 1 of them, some perhaps empty. */
  function Levels(s: seq<byte>): (r: seq<Level>)
    ensures |r| >= 1
    decreases |s|
  {
    var k := LevelEnd(s);
    if k == |s| then [s] else [s[..k]] + Levels(s[k + 1..])
  }

  function Join(ls: seq<Level>): seq<byte>
    requires |ls| >= 1
  {
    if |ls| == 1 then ls[0] else ls[0] + [SLASH] + Join(ls[1..])
  }

  predicate Literal(l: Level) {
    HASH !in l && PLUS !in l
  }

  /** Section 4.7.1: a wildcard fills its level, and '#' is the last level. */
  predicate ValidLevels(fl: seq<Level>) {
    forall i | 0 <= i < |fl| :: Literal(fl[i]) || fl[i] == [PLUS] || (fl[i] == [HASH] && i == |fl| - 1)
  }

  predicate ValidFilter(f: seq<byte>) {
    ValidLevels(Levels(f))
  }

  predicate Reserved(l: Level) {
    l != [] && l[0] == DOLLAR
  }

  // ---------- the rules of the standard ----------

  ghost function FixedLevels(fl: seq<Level>): nat {
    if fl != [] && fl[|fl| - 1] == [HASH] then |fl| - 1 else |fl|
  }

  /** As many levels as the filter has, or at least those before a final '#'. */
  ghost predicate LengthsFit(fl: seq<Level>, tl: seq<Level>) {
    if FixedLevels(fl) < |fl| then |tl| >= FixedLevels(fl) else |tl| == |fl|
  }

  /** Sections 4.7.1 and 4.7.2: levels agree or meet '+', and a filter that starts with a
      wildcard does not match a topic that starts with '$'. */
  ghost predicate StandardMatch(f: seq<byte>, t: seq<byte>) {
    var fl, tl := Levels(f), Levels(t);
    && LengthsFit(fl, tl)
    && (forall i | 0 <= i < FixedLevels(fl) :: fl[i] == tl[i] || fl[i] == [PLUS])
    && !(fl[0] in {[PLUS], [HASH]} && Reserved(tl[0]))
  }

  // ---------- the matcher ----------

  /** What the matcher decides from a position in the filter and one in the topic; `atStart`
      says that the filter position begins a level. */
  function Scan(f: seq<byte>, t: seq<byte>, atStart: bool): bool {
    if f == [] then t == []
    else if atStart && Reserved(t) != Reserved(f) then false
    else if f[0] == HASH then |f| == 1 || f[1] == SLASH
    else if f[0] == PLUS then t != [] && t[0] != DOLLAR && Scan(f[1..], t[LevelEnd(t)..], false)
    else if t == [] then |f| > 1 && f[0] == SLASH && f[1] == HASH
    else f[0] == t[0] && Scan(f[1..], t[1..], f[0] == SLASH)
  }

  /** mqtt_topic_matches. */
  method TopicMatches(filter: seq<byte>, topic: seq<byte>) returns (r: bool)
    ensures r == Scan(filter, topic, true)
  {
    var fi, ti := 0, 0;
    assert filter[0..] == filter && topic[0..] == topic;
    while fi < |filter|
      invariant fi <= |filter| && ti <= |topic|
      invariant Scan(filter[fi..], topic[ti..], fi == 0 || filter[fi - 1] == SLASH) == Scan(filter, topic, true)
      decreases |filter| - fi
    {
      assert filter[fi..][1..] == filter[fi + 1..];
      if fi == 0 || filter[fi - 1] == SLASH {
        var topicHasDollar := ti < |topic| && topic[ti] == DOLLAR;
        var filterHasDollar := filter[fi] == DOLLAR;
        if topicHasDollar != filterHasDollar { return false; }
      }
      if filter[fi] == HASH {
        return !(fi + 1 < |filter| && filter[fi + 1] != SLASH);
      }
      if filter[fi] == PLUS {
        if ti >= |topic| { return false; }
        if topic[ti] == DOLLAR { return false; }
        ghost var from := ti;
        while ti < |topic| && topic[ti] != SLASH
          invariant from <= ti <= |topic|
          invariant LevelEnd(topic[from..]) == ti - from + LevelEnd(topic[ti..])
        {
          assert topic[ti..][1..] == topic[ti + 1..];
          ti := ti + 1;
        }
        assert topic[from..][LevelEnd(topic[from..])..] == topic[ti..];
        fi := fi + 1;
        continue;
      }
      if ti >= |topic| {
        return fi + 1 < |filter| && filter[fi] == SLASH && filter[fi + 1] == HASH;
      }
      if filter[fi] != topic[ti] { return false; }
      assert topic[ti..][1..] == topic[ti + 1..];
      fi, ti := fi + 1, ti + 1;
    }
    return ti >= |topic|;
  }

  // ---------- level by level ----------

  /** The same decision taken on whole levels. */
  function MatchLevels(fl: seq<Level>, tl: seq<Level>): bool {
    if fl == [] then tl == []
    else if tl == [] then fl == [[HASH]]
    else if Reserved(fl[0]) != Reserved(tl[0]) then false
    else if fl[0] == [HASH] then true
    else if fl[0] == [PLUS] then tl != [[]] && MatchLevels(fl[1..], tl[1..])
    else fl[0] == tl[0] && MatchLevels(fl[1..], tl[1..])
  }

  lemma LevelsStep(s: seq<byte>)
    requires s != []
    ensures s[0] == SLASH ==> Levels(s) == [[]] + Levels(s[1..])
    ensures s[0] != SLASH ==> Levels(s) == [[s[0]] + Levels(s[1..])[0]] + Levels(s[1..])[1..]
  {
    var k := LevelEnd(s);
    var r := s[1..];
    assert s == [s[0]] + r;
    if s[0] != SLASH && k < |s| {
      assert s[..k] == [s[0]] + r[..k - 1];
      assert r[k..] == s[k + 1..];
      assert Levels(r) == [r[..k - 1]] + Levels(r[k..]);
    }
  }

  lemma LevelsFirst(s: seq<byte>)
    ensures Levels(s)[0] == s[..LevelEnd(s)]
    ensures Reserved(Levels(s)[0]) == Reserved(s)
    ensures Levels(s[LevelEnd(s)..]) == [[]] + Levels(s)[1..]
  {
    var k := LevelEnd(s);
    if k < |s| {
      LevelsStep(s[k..]);
      assert s[k..][1..] == s[k + 1..];
    }
  }

  lemma ValidTail(fl: seq<Level>)
    requires ValidLevels(fl) && fl != []
    ensures ValidLevels(fl[1..])
  {
    forall i | 0 <= i < |fl[1..]|
      ensures Literal(fl[1..][i]) || fl[1..][i] == [PLUS] || (fl[1..][i] == [HASH] && i == |fl[1..]| - 1)
    {
      assert fl[1..][i] == fl[i + 1];
    }
  }

  /** From inside a literal level the scan compares the rest of that level, then goes on. */
  lemma {:induction false} ScanLiteral(f: seq<byte>, t: seq<byte>)
    requires Literal(Levels(f)[0]) && ValidLevels(Levels(f)[1..])
    ensures Scan(f, t, false) == (Levels(f)[0] == Levels(t)[0] && MatchLevels(Levels(f)[1..], Levels(t)[1..]))
    decreases |f|, 0
  {
    if f == [] {
      if t != [] { LevelsStep(t); }
      return;
    }
    LevelsStep(f);
    if f[0] == SLASH {
      assert Levels(f)[1..] == Levels(f[1..]);
      if t == [] {
        assert Levels(t) == [[]];
        assert |f| > 1 ==> f[1..][0] == f[1];
        HashLevel(f[1..]);
      } else {
        LevelsStep(t);
        if t[0] == SLASH {
          assert Levels(t)[1..] == Levels(t[1..]);
          ScanLevels(f[1..], t[1..]);
        }
      }
    } else {
      assert f[0] == Levels(f)[0][0];
      if t != [] {
        LevelsStep(t);
        if t[0] == f[0] {
          assert Levels(f)[0][1..] == Levels(f[1..])[0];
          assert forall x | x in Levels(f[1..])[0] :: x in Levels(f)[0];
          ScanLiteral(f[1..], t[1..]);
          assert Levels(t)[0][1..] == Levels(t[1..])[0];
          assert Levels(f)[1..] == Levels(f[1..])[1..] && Levels(t)[1..] == Levels(t[1..])[1..];
        }
      }
    }
  }

  /** A valid rest of a filter that starts with '#' is "#". */
  lemma HashLevel(f: seq<byte>)
    requires ValidFilter(f)
    ensures Levels(f) == [[HASH]] <==> f != [] && f[0] == HASH
    ensures f != [] && f[0] == HASH ==> f == [HASH]
    ensures f != [] && f[0] == PLUS ==> Levels(f)[0] == [PLUS] && LevelEnd(f) == 1
  {
    LevelsFirst(f);
    if f != [] && f[0] in {HASH, PLUS} {
      assert Levels(f)[0][0] == f[0];
    }
  }

  /** At the start of a level the character matcher is the level matcher. */
  lemma {:induction false} ScanLevels(f: seq<byte>, t: seq<byte>)
    requires ValidFilter(f)
    ensures Scan(f, t, true) == MatchLevels(Levels(f), Levels(t))
    decreases |f|, 1
  {
    LevelsFirst(f);
    LevelsFirst(t);
    HashLevel(f);
    ValidTail(Levels(f));
    if f != [] && f[0] == PLUS {
      var fRest, tRest := f[1..], t[LevelEnd(t)..];
      assert f[LevelEnd(f)..] == fRest;
      assert Levels(fRest)[1..] == Levels(f)[1..] && Levels(tRest)[1..] == Levels(t)[1..];
      ScanLiteral(fRest, tRest);
      assert t == [] <==> Levels(t) == [[]];
    } else if f == [] || f[0] != HASH {
      assert Levels(f)[0] != [] ==> Levels(f)[0][0] == f[0];
      ScanLiteral(f, t);
    }
  }

  // ---------- agreement with the standard ----------

  /** The matcher's own rules beyond the standard's: a wildcard refuses a '$' level anywhere,
      and '+' refuses the empty last level of a topic that is empty or ends in '/'. */
  ghost predicate Refused(fl: seq<Level>, tl: seq<Level>) {
    var k := FixedLevels(fl);
    || (exists i | 0 <= i < k && i < |tl| :: fl[i] == [PLUS] && (Reserved(tl[i]) || (i == |tl| - 1 && tl[i] == [])))
    || (k < |fl| && k < |tl| && Reserved(tl[k]))
  }

  ghost predicate LevelsAgree(fl: seq<Level>, tl: seq<Level>) {
    LengthsFit(fl, tl) && forall i | 0 <= i < FixedLevels(fl) :: fl[i] == tl[i] || fl[i] == [PLUS]
  }

  lemma {:induction false} MatchLevelsMeaning(fl: seq<Level>, tl: seq<Level>)
    requires ValidLevels(fl)
    ensures MatchLevels(fl, tl) <==> LevelsAgree(fl, tl) && !Refused(fl, tl)
  {
    if fl != [] && tl != [] && fl[0] != [HASH] {
      ValidTail(fl);
      MatchLevelsMeaning(fl[1..], tl[1..]);
      var f', t' := fl[1..], tl[1..];
      var k := FixedLevels(fl);
      assert FixedLevels(f') == k - 1;
      var headAgrees := fl[0] == tl[0] || fl[0] == [PLUS];
      assert LevelsAgree(fl, tl) <==> headAgrees && LevelsAgree(f', t') by {
        if headAgrees && LevelsAgree(f', t') {
          forall i | 0 <= i < k ensures fl[i] == tl[i] || fl[i] == [PLUS] {
            assert i > 0 ==> fl[i] == f'[i - 1] && tl[i] == t'[i - 1];
          }
        }
        if LevelsAgree(fl, tl) {
          forall i | 0 <= i < k - 1 ensures f'[i] == t'[i] || f'[i] == [PLUS] {
            assert f'[i] == fl[i + 1] && t'[i] == tl[i + 1];
          }
        }
      }
      var headRefused := fl[0] == [PLUS] && (Reserved(tl[0]) || tl == [[]]);
      RefusedStep(fl, tl);
      assert Refused(fl, tl) <==> headRefused || Refused(f', t');
    }
  }

  lemma RefusedStep(fl: seq<Level>, tl: seq<Level>)
    requires fl != [] && tl != [] && fl[0] != [HASH]
    ensures Refused(fl, tl) <==>
            (fl[0] == [PLUS] && (Reserved(tl[0]) || tl == [[]])) || Refused(fl[1..], tl[1..])
  {
    var f', t', k := fl[1..], tl[1..], FixedLevels(fl);
    assert FixedLevels(f') == k - 1;
    if i :| 0 <= i < k && i < |tl| && fl[i] == [PLUS] && (Reserved(tl[i]) || (i == |tl| - 1 && tl[i] == [])) {
      if i > 0 { assert f'[i - 1] == fl[i] && t'[i - 1] == tl[i]; }
    }
    if i :| 0 <= i < k - 1 && i < |t'| && f'[i] == [PLUS] && (Reserved(t'[i]) || (i == |t'| - 1 && t'[i] == [])) {
      assert fl[i + 1] == f'[i] && tl[i + 1] == t'[i];
    }
  }

  /** For every valid filter and every topic: the matcher is the standard, less what it refuses. */
  lemma MatcherMeaning(f: seq<byte>, t: seq<byte>)
    requires ValidFilter(f)
    ensures Scan(f, t, true) <==> StandardMatch(f, t) && !Refused(Levels(f), Levels(t))
  {
    ScanLevels(f, t);
    MatchLevelsMeaning(Levels(f), Levels(t));
    var fl, tl := Levels(f), Levels(t);
    if LevelsAgree(fl, tl) && !Refused(fl, tl) && fl[0] == [PLUS] {
      assert !Reserved(tl[0]);
    }
  }

  /** What a subscription matches: for a valid filter what the standard matches and the matcher does not refuse; for
      any other, what the scan makes of its characters. */
  ghost predicate Accepts(f: seq<byte>, t: seq<byte>) {
    if ValidFilter(f) then StandardMatch(f, t) && !Refused(Levels(f), Levels(t)) else Scan(f, t, true)
  }

  lemma AcceptsIsScan(f: seq<byte>, t: seq<byte>)
    ensures Accepts(f, t) <==> Scan(f, t, true)
  {
    if ValidFilter(f) { MatcherMeaning(f, t); }
  }

  /** A topic on which the two never differ: its last level is not empty (so neither is the
      topic), and only its first level may start with '$'. */
  ghost predicate PlainTopic(t: seq<byte>) {
    var tl := Levels(t);
    tl[|tl| - 1] != [] && forall i | 1 <= i < |tl| :: !Reserved(tl[i])
  }

  ghost predicate ConformsOn(t: seq<byte>) {
    forall f | ValidFilter(f) :: Scan(f, t, true) <==> StandardMatch(f, t)
  }

  /** The matcher follows the standard on a topic name for every valid filter exactly when the
      topic is plain. */
  lemma ConformsExactlyOnPlain(t: seq<byte>)
    requires Literal(t)
    ensures ConformsOn(t) <==> PlainTopic(t)
  {
    var tl := Levels(t);
    if PlainTopic(t) {
      forall f | ValidFilter(f) ensures Scan(f, t, true) <==> StandardMatch(f, t) {
        MatcherMeaning(f, t);
      }
    } else if tl[|tl| - 1] == [] {
      PlusDiffers(t, |tl| - 1);
    } else {
      var j :| 1 <= j < |tl| && Reserved(tl[j]);
      PlusDiffers(t, j);
    }
  }

  /** Putting '+' for an empty last level, or for a '$' level after the first, gives a filter
      that the standard accepts and the matcher refuses. */
  lemma PlusDiffers(t: seq<byte>, j: nat)
    requires Literal(t) && j < |Levels(t)|
    requires (j == |Levels(t)| - 1 && Levels(t)[j] == []) || (j > 0 && Reserved(Levels(t)[j]))
    ensures !ConformsOn(t)
  {
    var tl := Levels(t);
    var fl := tl[j := [PLUS]];
    LevelsAreClean(t);
    LevelsOfJoin(fl);
    PlusLevels(tl, j);
    var f := Join(fl);
    hide Levels, Join, Scan, ValidLevels, Refused, FixedLevels, Reserved, Literal, LengthsFit;
    MatcherMeaning(f, t);
    assert StandardMatch(f, t);
  }

  /** Such levels are a filter, which agrees with the topic and is refused. */
  lemma PlusLevels(tl: seq<Level>, j: nat)
    requires j < |tl| && forall i | 0 <= i < |tl| :: Literal(tl[i])
    requires (j == |tl| - 1 && tl[j] == []) || (j > 0 && Reserved(tl[j]))
    ensures var fl := tl[j := [PLUS]];
            && ValidLevels(fl) && Refused(fl, tl) && LengthsFit(fl, tl) && FixedLevels(fl) == |fl|
            && (forall i | 0 <= i < |fl| :: fl[i] == tl[i] || fl[i] == [PLUS])
            && !(fl[0] in {[PLUS], [HASH]} && Reserved(tl[0]))
  {
    var fl := tl[j := [PLUS]];
    assert fl[|fl| - 1] != [HASH] by { assert fl[|fl| - 1] == [PLUS] || Literal(fl[|fl| - 1]); }
    assert fl[j] == [PLUS];
    assert j > 0 ==> Literal(fl[0]);
  }

  lemma {:induction false} LevelsAreClean(t: seq<byte>)
    requires Literal(t)
    ensures forall i | 0 <= i < |Levels(t)| :: Literal(Levels(t)[i]) && SLASH !in Levels(t)[i]
    decreases |t|
  {
    var k := LevelEnd(t);
    if k < |t| { LevelsAreClean(t[k + 1..]); }
  }

  lemma {:induction false} LevelsOfJoin(ls: seq<Level>)
    requires |ls| >= 1 && forall i | 0 <= i < |ls| :: SLASH !in ls[i]
    ensures Levels(Join(ls)) == ls
  {
    if |ls| == 1 {
      EndOfFirst(ls[0], []);
      assert Join(ls) == ls[0] + [];
    } else {
      LevelsOfJoin(ls[1..]);
      FirstLevelOf(ls[0], Join(ls[1..]));
      assert Join(ls) == ls[0] + [SLASH] + Join(ls[1..]);
    }
  }

  lemma FirstLevelOf(l: Level, rest: seq<byte>)
    requires SLASH !in l
    ensures Levels(l + [SLASH] + rest) == [l] + Levels(rest)
  {
    var s := l + [SLASH] + rest;
    assert s == l + ([SLASH] + rest);
    EndOfFirst(l, [SLASH] + rest);
    assert s[..|l|] == l && s[|l| + 1..] == rest;
  }

  lemma {:induction false} EndOfFirst(l: Level, rest: seq<byte>)
    requires SLASH !in l && (rest == [] || rest[0] == SLASH)
    ensures LevelEnd(l + rest) == |l|
  {
    if l == [] {
      assert l + rest == rest;
    } else {
      assert (l + rest)[1..] == l[1..] + rest;
      EndOfFirst(l[1..], rest);
    }
  }
}
