// What the comparator i;ascii-casemap compares (src/lib-sieve/cmp-i-ascii-casemap.c): changing the case
// of letters, in the value or in the key, changes no answer of :matches and :contains.
module CaseFolding {
  import opened Bytes
  import opened Glob
  import opened Matches

  // The first byte is one of the letters A to Z and the second is the same letter of a to z.
  predicate UpperOf(a: Byte, b: Byte)
  {
    'A' as int <= a <= 'Z' as int && 'a' as int <= b <= 'z' as int && a - 'A' as int == b - 'a' as int
  }

  // The bytes are the same letter in both cases.
  predicate CasesOfOneLetter(a: Byte, b: Byte)
  {
    UpperOf(a, b) || UpperOf(b, a)
  }

  lemma OctetIsEquality(a: Byte, b: Byte)
    ensures Same(Octet, a, b) <==> a == b
  {
  }

  // i;ascii-casemap tells two bytes apart unless they are equal or the two cases of one letter.
  lemma CasemapIsCase(a: Byte, b: Byte)
    ensures Same(AsciiCasemap, a, b) <==> a == b || CasesOfOneLetter(a, b)
  {
  }

  // The same text up to the case of its letters.
  ghost predicate Alike(s: seq<Byte>, t: seq<Byte>)
  {
    |s| == |t| && forall i | 0 <= i < |s| :: s[i] == t[i] || CasesOfOneLetter(s[i], t[i])
  }

  lemma AlikeAt(s: seq<Byte>, t: seq<Byte>, i: nat)
    requires Alike(s, t) && i < |s|
    ensures Same(AsciiCasemap, s[i], t[i])
    ensures WildAt(s, i) == WildAt(t, i) && (s[i] == BACKSLASH <==> t[i] == BACKSLASH)
  {
    CasemapIsCase(s[i], t[i]);
  }

  lemma FoundAlike(val: seq<Byte>, val': seq<Byte>, at: nat, text: seq<Byte>, text': seq<Byte>)
    requires Alike(val, val') && Alike(text, text')
    ensures FoundAt(AsciiCasemap, val, at, text) <==> FoundAt(AsciiCasemap, val', at, text')
  {
    hide Alike;
    AlikeLength(val, val');
    AlikeLength(text, text');
    if at + |text| <= |val| {
      forall i | 0 <= i < |text|
        ensures Same(AsciiCasemap, val[at + i], text[i]) <==> Same(AsciiCasemap, val'[at + i], text'[i])
      {
        AlikeAt(val, val', at + i);
        AlikeAt(text, text', i);
      }
    }
  }

  lemma AlikeLength(s: seq<Byte>, t: seq<Byte>)
    requires Alike(s, t)
    ensures |s| == |t|
  {
  }

  // :contains does not see case.
  lemma {:induction false} FindAlike(val: seq<Byte>, val': seq<Byte>, at: nat, text: seq<Byte>, text': seq<Byte>)
    requires Alike(val, val') && Alike(text, text')
    ensures Find(AsciiCasemap, val, at, text) == Find(AsciiCasemap, val', at, text')
    decreases |val| - at
  {
    hide Alike, FoundAt;
    AlikeLength(val, val');
    FoundAlike(val, val', at, text, text');
    if at < |val| { FindAlike(val, val', at + 1, text, text'); }
  }

  // ----- The matcher -----

  lemma {:induction false} SectionAlike(key: seq<Byte>, key': seq<Byte>, p: nat)
    requires Alike(key, key') && p <= |key| == |key'|
    ensures var r, r' := Section(key, p), Section(key', p); r.1 == r'.1 && Alike(r.0, r'.0)
    ensures WildAt(key, p) == WildAt(key', p)
    decreases |key| - p
  {
    hide CasesOfOneLetter;
    if p < |key| {
      AlikeAt(key, key', p);
      if WildAt(key, p) == NoWild {
        if key[p] == BACKSLASH {
          if p + 1 < |key| { SectionAlike(key, key', p + 2); }
        } else {
          SectionAlike(key, key', p + 1);
        }
      }
    }
  }

  lemma {:induction false} NeedleAlike(key: seq<Byte>, key': seq<Byte>, p: nat, offset: nat, wcard: Wild)
    requires Alike(key, key') && p <= |key| == |key'|
    ensures var r, r' := Needle(key, p, offset, wcard), Needle(key', p, offset, wcard);
            r.1 == r'.1 && r.2 == r'.2 && Alike(r.0, r'.0)
    decreases |key| - p
  {
    hide Section;
    SectionAlike(key, key', p);
    var r, r' := Section(key, p), Section(key', p);
    AlikeLength(r.0, r'.0);
    SectionAlike(key, key', r.1);
    hide Alike;
    if !(wcard == NoWild || r.0 != [] || WildAt(key, r.1) == Star || r.1 == |key|) {
      NeedleAlike(key, key', r.1 + 1, offset + 1, wcard);
    }
  }

  // The same pointers and wildcards, and texts alike; what is recorded does not matter.
  ghost predicate InStep(s: State, t: State)
  {
    && s.vp == t.vp && s.kp == t.kp && s.wp == t.wp && s.wcard == t.wcard && s.next == t.next
    && s.offset == t.offset && s.backtrack == t.backtrack && Alike(s.section, t.section)
  }

  // Two values and two keys that are alike.
  ghost predicate Twins(val: seq<Byte>, val': seq<Byte>, key: seq<Byte>, key': seq<Byte>)
  {
    Alike(val, val') && Alike(key, key') && |val| == |val'| && |key| == |key'|
  }

  lemma WildAlike(key: seq<Byte>, key': seq<Byte>, p: nat)
    requires Alike(key, key')
    ensures WildAt(key, p) == WildAt(key', p)
  {
    if p < |key| { AlikeAt(key, key', p); }
  }

  lemma BeginInStep(val: seq<Byte>, val': seq<Byte>, key: seq<Byte>, key': seq<Byte>, s: State, t: State)
    requires Twins(val, val', key, key') && InStep(s, t) && s.wp <= |key|
    ensures InStep(Begin(key, s), Begin(key', t))
  {
    hide Alike, Needle;
    if !s.backtrack {
      NeedleAlike(key, key', s.wp, 0, s.next);
      WildAlike(key, key', Needle(key, s.wp, 0, s.next).1);
    }
  }

  lemma FinalInStep(val: seq<Byte>, val': seq<Byte>, key: seq<Byte>, key': seq<Byte>, s: State, t: State)
    requires Twins(val, val', key, key') && InStep(s, t) && InBounds(s, val, key) && InBounds(t, val', key')
    ensures InStep(FinalSection(AsciiCasemap, val, key, s), FinalSection(AsciiCasemap, val', key', t))
  {
    hide Alike, FoundAt, AddChars;
    AlikeLength(s.section, t.section);
    FoundAlike(val, val', s.vp, s.section, t.section);
    if s.vp + |s.section| + s.offset <= |val| {
      FoundAlike(val, val', |val| - |s.section|, s.section, t.section);
    }
  }

  ghost predicate TrailsInStep(q: Trail, r: Trail)
  {
    q.vp == r.vp && q.kp == r.kp && q.wp == r.wp && q.next == r.next && q.failed == r.failed
  }

  // One '?' of a run: where it leads, or that the run fails there.
  predicate Takes(cmp: Comparator, val: seq<Byte>, key: seq<Byte>, vp: nat, sub: (seq<Byte>, nat))
  {
    FoundAt(cmp, val, vp + 1, sub.0)
    && !(sub.0 == [] && WildAt(key, sub.1) == NoWild && vp + 1 < |val|)
  }

  // The trail behind the '?' and its text, at `wp` of the key.
  function Taken(val: seq<Byte>, q: Trail, sub: (seq<Byte>, nat), wp: nat, next: Wild): Trail
    requires q.vp < |val|
  {
    Trail(q.vp + 1 + |sub.0|, wp, wp, next, q.chars + [val[q.vp]], false)
  }

  lemma QuestionFails(cmp: Comparator, val: seq<Byte>, key: seq<Byte>, q: Trail)
    requires q.vp < |val| && q.kp == q.wp <= |key| && !q.failed && q.next == Quest
    requires !Takes(cmp, val, key, q.vp, Section(key, q.wp))
    ensures var sub := Section(key, q.wp);
            Questions(cmp, val, key, q)
            == q.(vp := q.vp + 1, wp := sub.1, next := WildAt(key, sub.1), chars := q.chars + [val[q.vp]],
                  failed := true)
  {
    hide Section, WildAt, FoundAt;
  }

  lemma QuestionGoesOn(cmp: Comparator, val: seq<Byte>, key: seq<Byte>, q: Trail)
    requires q.vp < |val| && q.kp == q.wp <= |key| && !q.failed && q.next == Quest
    requires var sub := Section(key, q.wp);
             WildAt(key, sub.1) == Quest && FoundAt(cmp, val, q.vp + 1, sub.0) && q.vp + 1 + |sub.0| <= |val|
    ensures var sub := Section(key, q.wp);
            Questions(cmp, val, key, q)
            == Questions(cmp, val, key,
                         Trail(q.vp + 1 + |sub.0|, sub.1 + 1, sub.1 + 1, Quest, q.chars + [val[q.vp]], false))
  {
    hide FoundAt, Section;
  }

  lemma QuestionIsLast(cmp: Comparator, val: seq<Byte>, key: seq<Byte>, q: Trail)
    requires q.vp < |val| && q.kp == q.wp <= |key| && !q.failed && q.next == Quest
    requires var sub := Section(key, q.wp); WildAt(key, sub.1) != Quest && Takes(cmp, val, key, q.vp, sub)
    ensures var sub := Section(key, q.wp);
            Questions(cmp, val, key, q)
            == Taken(val, q, sub, if sub.1 < |key| then sub.1 + 1 else sub.1, WildAt(key, sub.1))
  {
    hide Section, WildAt, FoundAt;
    FoundWithin(cmp, val, q.vp + 1, Section(key, q.wp).0);
  }

  lemma QuestionsOver(cmp: Comparator, val: seq<Byte>, key: seq<Byte>, q: Trail)
    requires q.vp <= |val| && q.kp == q.wp <= |key| && !q.failed && (q.next == Quest ==> q.vp == |val|)
    ensures Questions(cmp, val, key, q) == q.(failed := q.next == Quest)
  {
  }

  lemma {:induction false} QuestionsInStep(val: seq<Byte>, val': seq<Byte>, key: seq<Byte>, key': seq<Byte>, q: Trail,
                                           r: Trail)
    requires Twins(val, val', key, key') && TrailsInStep(q, r) && q.vp <= |val| && q.kp == q.wp <= |key| && !q.failed
    ensures TrailsInStep(Questions(AsciiCasemap, val, key, q), Questions(AsciiCasemap, val', key', r))
    decreases |val| - q.vp
  {
    hide Alike, FoundAt, Section, WildAt, Questions;
    if q.next != Quest || q.vp == |val| {
      QuestionsOver(AsciiCasemap, val, key, q);
      QuestionsOver(AsciiCasemap, val', key', r);
    } else {
      SectionAlike(key, key', q.wp);
      var sub, sub' := Section(key, q.wp), Section(key', q.wp);
      AlikeLength(sub.0, sub'.0);
      WildAlike(key, key', sub.1);
      FoundAlike(val, val', q.vp + 1, sub.0, sub'.0);
      if Takes(AsciiCasemap, val, key, q.vp, sub) {
        FoundWithin(AsciiCasemap, val, q.vp + 1, sub.0);
        FoundWithin(AsciiCasemap, val', q.vp + 1, sub'.0);
        if WildAt(key, sub.1) == Quest {
          QuestBounds(key, sub.1);
          QuestionGoesOn(AsciiCasemap, val, key, q);
          QuestionGoesOn(AsciiCasemap, val', key', r);
          QuestionsInStep(val, val', key, key', Taken(val, q, sub, sub.1 + 1, Quest),
                          Taken(val', r, sub', sub.1 + 1, Quest));
        } else {
          QuestionIsLast(AsciiCasemap, val, key, q);
          QuestionIsLast(AsciiCasemap, val', key', r);
        }
      } else {
        QuestionFails(AsciiCasemap, val, key, q);
        QuestionFails(AsciiCasemap, val', key', r);
      }
    }
  }

  lemma QuestBounds(key: seq<Byte>, p: nat)
    ensures WildAt(key, p) == Quest ==> p < |key|
  {
  }

  lemma FoundWithin(cmp: Comparator, val: seq<Byte>, at: nat, text: seq<Byte>)
    ensures FoundAt(cmp, val, at, text) ==> at + |text| <= |val|
  {
  }

  lemma AfterInStep(val: seq<Byte>, val': seq<Byte>, key: seq<Byte>, key': seq<Byte>, s: State, t: State, vp: nat,
                    found: Option<nat>, chars: seq<Byte>, chars': seq<Byte>)
    requires Twins(val, val', key, key') && InStep(s, t) && InBounds(s, val, key) && InBounds(t, val', key')
    requires !s.backtrack && s.wp < |key| && s.next == WildAt(key, s.wp) == WildAt(key', s.wp) && vp <= |val|
    requires found.Some? ==> s.vp <= found.value <= |val|
    ensures var r, r' := AfterSection(AsciiCasemap, val, key, s, vp, found, chars),
                         AfterSection(AsciiCasemap, val', key', t, vp, found, chars');
            r.1 == r'.1 && InStep(r.0, r'.0)
  {
    hide Alike, Questions, AddChars;
    QuestionsInStep(val, val', key, key', Trail(vp, s.wp + 1, s.wp + 1, s.next, chars, false),
                    Trail(vp, s.wp + 1, s.wp + 1, s.next, chars', false));
  }

  lemma MiddleInStep(val: seq<Byte>, val': seq<Byte>, key: seq<Byte>, key': seq<Byte>, s: State, t: State)
    requires Twins(val, val', key, key') && InStep(s, t) && InBounds(s, val, key) && InBounds(t, val', key')
    requires !s.backtrack && s.wp < |key| && s.next == WildAt(key, s.wp) == WildAt(key', s.wp)
    ensures var r, r' := MiddleSection(AsciiCasemap, val, key, s), MiddleSection(AsciiCasemap, val', key', t);
            r.1 == r'.1 && InStep(r.0, r'.0)
  {
    hide Alike, FoundAt, Find, AfterSection;
    AlikeLength(s.section, t.section);
    var n := |s.section|;
    if s.wcard == NoWild {
      FoundAlike(val, val', s.vp, s.section, t.section);
      FoundWithin(AsciiCasemap, val, s.vp, s.section);
      FoundWithin(AsciiCasemap, val', s.vp, t.section);
      if FoundAt(AsciiCasemap, val, s.vp, s.section) {
        AfterInStep(val, val', key, key', s, t, s.vp + n, None, [], []);
      }
    } else if s.vp + s.offset < |val| {
      FindAlike(val, val', s.vp + s.offset, s.section, t.section);
      var r := Find(AsciiCasemap, val, s.vp + s.offset, s.section);
      if r.Some? {
        var found := r.value;
        FoundWithin(AsciiCasemap, val, found, s.section);
        FoundWithin(AsciiCasemap, val', found, t.section);
        AfterInStep(val, val', key, key', s.(mvalue := s.mvalue + val[s.vp..found - s.offset]),
                    t.(mvalue := t.mvalue + val'[s.vp..found - s.offset]), found + n, Some(found),
                    val[found - s.offset..found], val'[found - s.offset..found]);
      }
    }
  }

  lemma IterateInStep(val: seq<Byte>, val': seq<Byte>, key: seq<Byte>, key': seq<Byte>, s: State, t: State)
    requires Twins(val, val', key, key') && InStep(s, t) && InBounds(s, val, key) && InBounds(t, val', key')
    ensures var r, r' := Iterate(AsciiCasemap, val, key, s), Iterate(AsciiCasemap, val', key', t);
            r.1 == r'.1 && InStep(r.0, r'.0)
  {
    hide Alike, FinalSection, MiddleSection, Needle;
    BeginInStep(val, val', key, key', s, t);
    var b, b' := Begin(key, s), Begin(key', t);
    WildAlike(key, key', b.wp);
    if b.next == NoWild {
      FinalInStep(val, val', key, key', b, b');
    } else {
      MiddleInStep(val, val', key, key', b, b');
    }
  }

  lemma {:induction false} LoopInStep(val: seq<Byte>, val': seq<Byte>, key: seq<Byte>, key': seq<Byte>, s: State,
                                      t: State)
    requires Twins(val, val', key, key') && InStep(s, t) && InBounds(s, val, key) && InBounds(t, val', key')
    ensures InStep(Loop(AsciiCasemap, val, key, s), Loop(AsciiCasemap, val', key', t))
    decreases |key| - s.kp, |val| - s.vp
  {
    hide Alike, Iterate;
    if s.kp < |key| && s.vp < |val| {
      IterateInStep(val, val', key, key', s, t);
      var r, r' := Iterate(AsciiCasemap, val, key, s), Iterate(AsciiCasemap, val', key', t);
      if r.1 { LoopInStep(val, val', key, key', r.0, r'.0); }
    }
  }

  lemma {:induction false} SkipStarsAlike(key: seq<Byte>, key': seq<Byte>, p: nat)
    requires Alike(key, key') && p <= |key| == |key'|
    ensures SkipStars(key, p) == SkipStars(key', p)
    decreases |key| - p
  {
    hide Alike;
    WildAlike(key, key', p);
    if p < |key| && key[p] == STAR { SkipStarsAlike(key, key', p + 1); }
  }

  // :matches does not see case, neither of the value nor of the key.
  lemma MatchAlike(val: seq<Byte>, val': seq<Byte>, key: seq<Byte>, key': seq<Byte>)
    requires Alike(val, val') && Alike(key, key')
    ensures MatchResult(AsciiCasemap, val, key).Some? <==> MatchResult(AsciiCasemap, val', key').Some?
  {
    AlikeLength(val, val');
    AlikeLength(key, key');
    LoopInStep(val, val', key, key', START, START);
    hide Alike, Loop, SkipStars;
    SkipStarsAlike(key, key', Loop(AsciiCasemap, val, key, START).kp);
  }
}
