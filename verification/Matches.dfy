// The pointer algorithm behind :matches and :contains (src/lib-sieve/mcht-matches.c,
// mcht-contains.c), with the match values it records (sieve-match-types.c).
module Matches {
  import opened Bytes
  import opened Glob

  const MAX_MATCH_VALUES := 32

  datatype Wild = NoWild | Star | Quest

  function WildAt(key: seq<Byte>, p: nat): (w: Wild)
    ensures p >= |key| ==> w == NoWild
  {
    if p >= |key| then NoWild else if key[p] == STAR then Star else if key[p] == QUESTION then Quest else NoWild
  }

  // The literal text from `p` up to the next wildcard, escapes resolved, and where that ends.
  function Section(key: seq<Byte>, p: nat): (r: (seq<Byte>, nat))
    requires p <= |key|
    ensures p <= r.1 <= |key| && (r.1 < |key| ==> WildAt(key, r.1) != NoWild)
    decreases |key| - p
  {
    if p == |key| || WildAt(key, p) != NoWild then ([], p)
    else if key[p] == BACKSLASH then
      if p + 1 == |key| then ([BACKSLASH], p + 1)
      else var r := Section(key, p + 2); ([key[p + 1]] + r.0, r.1)
    else var r := Section(key, p + 1); ([key[p]] + r.0, r.1)
  }

  // After a wildcard, '?' in front of the next text only move it: their number is the offset.
  function Needle(key: seq<Byte>, p: nat, offset: nat, wcard: Wild): (r: (seq<Byte>, nat, nat))
    requires p <= |key|
    ensures p <= r.1 <= |key| && (r.1 < |key| ==> WildAt(key, r.1) != NoWild)
    decreases |key| - p
  {
    var r := Section(key, p);
    if wcard == NoWild || r.0 != [] || WildAt(key, r.1) == Star || r.1 == |key| then (r.0, r.1, offset)
    else Needle(key, r.1 + 1, offset + 1, wcard)
  }

  // The pointers and buffers of the matcher.
  datatype State = State(vp: nat, kp: nat, wp: nat, wcard: Wild, next: Wild, section: seq<Byte>, offset: nat,
                         backtrack: bool, values: seq<seq<Byte>>, mvalue: seq<Byte>)

  predicate InBounds(s: State, val: seq<Byte>, key: seq<Byte>)
  {
    s.vp <= |val| && s.kp <= s.wp <= |key| && (s.backtrack ==> s.wp < |key| && s.next == WildAt(key, s.wp) == Quest)
  }

  function Add(values: seq<seq<Byte>>, v: seq<Byte>): seq<seq<Byte>>
  {
    if |values| >= MAX_MATCH_VALUES then values else values + [v]
  }

  function AddChars(values: seq<seq<Byte>>, chars: seq<Byte>): seq<seq<Byte>>
    decreases |chars|
  {
    if chars == [] then values else AddChars(Add(values, [chars[0]]), chars[1..])
  }

  // Looks for the next text of the key, unless an attempt is being repeated.
  function Begin(key: seq<Byte>, s: State): State
    requires s.wp <= |key|
  {
    if s.backtrack then s.(backtrack := false)
    else
      var r := Needle(key, s.wp, 0, s.next);
      s.(wcard := s.next, next := WildAt(key, r.1), section := r.0, wp := r.1, offset := r.2, mvalue := [])
  }

  // No wildcard follows: the text must be the whole value, or its end. The loop ends here.
  function FinalSection(cmp: Comparator, val: seq<Byte>, key: seq<Byte>, s: State): (r: State)
    requires InBounds(s, val, key)
    ensures r.kp <= |key| && r.next == s.next
  {
    var n := |s.section|;
    if s.wcard == NoWild then
      if |val| - s.vp != n || !FoundAt(cmp, val, s.vp, s.section) then s
      else s.(kp := |key|, vp := |val|)
    else if s.vp + n + s.offset > |val| then s
    else if !FoundAt(cmp, val, |val| - n, s.section) then s.(vp := |val| - n)
    else
      var start := |val| - n - s.offset;
      var values := AddChars(Add(s.values, s.mvalue + val[s.vp..start]), val[start..|val| - n]);
      s.(kp := |key|, vp := |val|, values := values)
  }

  datatype Trail = Trail(vp: nat, kp: nat, wp: nat, next: Wild, chars: seq<Byte>, failed: bool)

  // A '?' takes one byte; the text behind it must follow at once.
  function Questions(cmp: Comparator, val: seq<Byte>, key: seq<Byte>, q: Trail): (r: Trail)
    requires q.vp <= |val| && q.kp <= q.wp <= |key| && !q.failed
    ensures r.vp <= |val| && q.kp <= r.kp <= r.wp <= |key| && q.wp <= r.wp
    ensures !r.failed ==> r.next != Quest && (q.next == Quest ==> r.kp > q.kp || r.kp == r.wp == |key|)
    ensures r.failed ==> q.next == Quest
    decreases |val| - q.vp
  {
    if q.next != Quest then q
    else if q.vp == |val| then q.(failed := true)
    else
      var sub := Section(key, q.wp);
      var next := WildAt(key, sub.1);
      var q' := q.(vp := q.vp + 1, wp := sub.1, next := next, chars := q.chars + [val[q.vp]]);
      if (sub.0 == [] && next == NoWild && q'.vp < |val|) || !FoundAt(cmp, val, q'.vp, sub.0) then q'.(failed := true)
      else
        var wp := if sub.1 < |key| then sub.1 + 1 else sub.1;
        Questions(cmp, val, key, q'.(vp := q'.vp + |sub.0|, wp := wp, kp := wp))
  }

  // A wildcard follows: the text is matched here, or found further on after a star; then any '?'
  // that follow. Yields the new state and whether the loop goes on.
  function MiddleSection(cmp: Comparator, val: seq<Byte>, key: seq<Byte>, s: State): (r: (State, bool))
    requires InBounds(s, val, key) && !s.backtrack && s.wp < |key| && s.next == WildAt(key, s.wp)
    ensures r.0.kp <= |key|
    ensures r.1 ==> InBounds(r.0, val, key) && (r.0.kp > s.kp || (r.0.kp == s.kp && r.0.vp > s.vp))
  {
    var n := |s.section|;
    if s.wcard == NoWild then
      if !FoundAt(cmp, val, s.vp, s.section) then (s, false)
      else AfterSection(cmp, val, key, s, s.vp + n, None, [])
    else if s.vp + s.offset >= |val| then (s.(vp := s.vp + s.offset), false)
    else
      match Find(cmp, val, s.vp + s.offset, s.section)
      case None => (s.(vp := |val|), false)
      case Some(found) =>
        var chars := val[found - s.offset..found];
        AfterSection(cmp, val, key, s.(mvalue := s.mvalue + val[s.vp..found - s.offset]), found + n, Some(found), chars)
  }

  // `found` is where the text was found after a star, the place to go back to.
  function AfterSection(cmp: Comparator, val: seq<Byte>, key: seq<Byte>, s: State, vp: nat, found: Option<nat>,
                        chars: seq<Byte>): (r: (State, bool))
    requires InBounds(s, val, key) && !s.backtrack && s.wp < |key| && s.next == WildAt(key, s.wp) && vp <= |val|
    requires found.Some? ==> s.vp <= found.value <= |val|
    ensures r.0.kp <= |key|
    ensures r.1 ==> InBounds(r.0, val, key) && (r.0.kp > s.kp || (r.0.kp == s.kp && r.0.vp > s.vp))
  {
    var q := Questions(cmp, val, key, Trail(vp, s.wp + 1, s.wp + 1, s.next, chars, false));
    if q.failed && found.Some? && found.value + 1 < |val| then
      (s.(vp := found.value + 1, mvalue := s.mvalue + [val[found.value]], wcard := Star, next := Quest,
          backtrack := true), true)
    else
      var t := s.(vp := q.vp, kp := q.kp, wp := q.wp, next := q.next);
      if q.next == Quest then (t, false)
      else
        var values := AddChars(if found.Some? then Add(s.values, s.mvalue) else s.values, q.chars);
        (t.(values := values), q.next == Star)
  }

  function Iterate(cmp: Comparator, val: seq<Byte>, key: seq<Byte>, s: State): (r: (State, bool))
    requires InBounds(s, val, key)
    ensures r.0.kp <= |key|
    ensures r.1 ==> InBounds(r.0, val, key) && (r.0.kp > s.kp || (r.0.kp == s.kp && r.0.vp > s.vp))
  {
    var b := Begin(key, s);
    if b.next == NoWild then (FinalSection(cmp, val, key, b), false)
    else
      var r := MiddleSection(cmp, val, key, b);
      var t := r.0;
      if r.1 && t.kp == |key| && t.next == Star then
        (t.(vp := |val|, values := Add(t.values, val[t.vp..])), false)
      else r
  }

  // Every round moves on in the key, or stays there and moves on in the value.
  function Loop(cmp: Comparator, val: seq<Byte>, key: seq<Byte>, s: State): (r: State)
    requires InBounds(s, val, key)
    ensures r.kp <= |key|
    decreases |key| - s.kp, |val| - s.vp
  {
    if s.kp < |key| && s.vp < |val| then
      var r := Iterate(cmp, val, key, s);
      if r.1 then Loop(cmp, val, key, r.0) else r.0
    else s
  }

  function SkipStars(key: seq<Byte>, p: nat): (r: nat)
    requires p <= |key|
    ensures p <= r <= |key|
    decreases |key| - p
  {
    if p < |key| && key[p] == STAR then SkipStars(key, p + 1) else p
  }

  function Finish(val: seq<Byte>, key: seq<Byte>, s: State): bool
    requires s.kp <= |key|
  {
    s.vp == |val| && SkipStars(key, s.kp) == |key| && s.next != Quest
  }

  const START := State(0, 0, 0, NoWild, NoWild, [], 0, false, [[]], [])

  // Whether the value matches the key, and the match values to commit.
  function MatchResult(cmp: Comparator, val: seq<Byte>, key: seq<Byte>): Option<seq<seq<Byte>>>
  {
    var s := Loop(cmp, val, key, START);
    if Finish(val, key, s) then Some(if s.values == [] then [] else s.values[0 := val]) else None
  }

  // ----- The matcher -----

  // char_match of both comparators: steps through the text while it agrees, and goes back to the
  // start unless all of it does.
  method CharMatch(cmp: Comparator, val: seq<Byte>, vp: nat, needle: seq<Byte>) returns (found: bool, next: nat)
    requires vp <= |val|
    ensures found <==> FoundAt(cmp, val, vp, needle)
    ensures next == if found then vp + |needle| else vp
  {
    next := vp;
    var kp := 0;
    while next < |val| && kp < |needle| && Same(cmp, val[next], needle[kp])
      invariant 0 <= kp <= |needle| && next == vp + kp <= |val|
      invariant forall i | 0 <= i < kp :: Same(cmp, val[vp + i], needle[i])
    {
      next := next + 1;
      kp := kp + 1;
    }
    found := kp == |needle|;
    if !found {
      Differs(cmp, val, vp, needle, kp);
      next := vp;
    }
  }

  lemma Differs(cmp: Comparator, val: seq<Byte>, at: nat, needle: seq<Byte>, i: nat)
    requires i < |needle| && (at + i < |val| ==> !Same(cmp, val[at + i], needle[i]))
    ensures !FoundAt(cmp, val, at, needle)
  {
  }

  // _string_find: the text at the first place from `vp` on.
  method StringFind(cmp: Comparator, val: seq<Byte>, vp: nat, needle: seq<Byte>) returns (found: bool, next: nat)
    requires vp < |val|
    ensures found <==> Find(cmp, val, vp, needle).Some?
    ensures next == if found then Find(cmp, val, vp, needle).value + |needle| else |val|
  {
    hide FoundAt;
    next := vp;
    if needle == [] {
      EmptyFound(cmp, val, vp);
      return true, next;
    }
    found := false;
    while next < |val| && !found
      invariant next <= |val|
      invariant !found ==> vp <= next && Find(cmp, val, vp, needle) == Find(cmp, val, next, needle)
      invariant found ==> Find(cmp, val, vp, needle) == Some(next - |needle|) && |needle| <= next
      decreases !found, |val| - next
    {
      var at := next;
      found, next := CharMatch(cmp, val, next, needle);
      if !found {
        next := next + 1;
      } else {
        FoundFitsValue(cmp, val, at, needle);
      }
    }
    if !found { NotFoundAtEnd(cmp, val, needle); }
  }

  lemma EmptyFound(cmp: Comparator, val: seq<Byte>, at: nat)
    requires at <= |val|
    ensures Find(cmp, val, at, []) == Some(at)
  {
  }

  lemma FoundFitsValue(cmp: Comparator, val: seq<Byte>, at: nat, needle: seq<Byte>)
    requires FoundAt(cmp, val, at, needle)
    ensures at + |needle| <= |val|
  {
  }

  lemma NotFoundAtEnd(cmp: Comparator, val: seq<Byte>, needle: seq<Byte>)
    requires needle != []
    ensures Find(cmp, val, |val|, needle) == None
  {
  }

  method ScanKeySection(key: seq<Byte>, start: nat) returns (section: seq<Byte>, wp: nat, wild: Wild)
    requires start <= |key|
    ensures (section, wp) == Section(key, start) && wild == WildAt(key, wp)
  {
    hide Section;
    section, wp := [], start;
    ghost var goal := Section(key, start);
    assert [] + goal.0 == goal.0;
    while wp < |key| && WildAt(key, wp) == NoWild
      invariant wp <= |key|
      invariant goal.1 == Section(key, wp).1 && goal.0 == section + Section(key, wp).0
    {
      SectionStep(key, wp, section);
      if key[wp] == BACKSLASH {
        wp := wp + 1;
        if wp == |key| {
          section := section + [BACKSLASH];
          break;
        }
      }
      section := section + [key[wp]];
      wp := wp + 1;
    }
    SectionEnd(key, wp, section);
    wild := WildAt(key, wp);
  }

  // The text from `p` on, behind `done`, is its first byte behind `done` and then the rest.
  lemma SectionStep(key: seq<Byte>, p: nat, done: seq<Byte>)
    requires p < |key| && WildAt(key, p) == NoWild
    ensures var at := if key[p] == BACKSLASH then p + 1 else p;
            if at == |key| then Section(key, p) == ([BACKSLASH], at)
            else Section(key, p).1 == Section(key, at + 1).1
                 && done + Section(key, p).0 == done + [key[at]] + Section(key, at + 1).0
  {
    if !(key[p] == BACKSLASH && p + 1 == |key|) {
      var at := if key[p] == BACKSLASH then p + 1 else p;
      Assoc(done, [key[at]], Section(key, at + 1).0);
    }
  }

  lemma SectionEnd(key: seq<Byte>, p: nat, done: seq<Byte>)
    requires p <= |key| && (p < |key| ==> WildAt(key, p) != NoWild)
    ensures Section(key, p) == ([], p) && done + Section(key, p).0 == done
  {
  }

  method ScanNeedle(key: seq<Byte>, start: nat, wcard: Wild) returns (section: seq<Byte>, wp: nat, offset: nat)
    requires start <= |key|
    ensures (section, wp, offset) == Needle(key, start, 0, wcard)
  {
    hide Section;
    wp, offset := start, 0;
    var wild;
    section, wp, wild := ScanKeySection(key, wp);
    while !(wcard == NoWild || section != [] || wild == Star || wp == |key|)
      invariant wp <= |key| && wild == WildAt(key, wp) && (wp < |key| ==> wild != NoWild)
      invariant Needle(key, start, 0, wcard)
                == if wcard == NoWild || section != [] || wild == Star || wp == |key| then (section, wp, offset)
                   else Needle(key, wp + 1, offset + 1, wcard)
      decreases |key| - wp
    {
      offset := offset + 1;
      section, wp, wild := ScanKeySection(key, wp + 1);
    }
  }

  method AddMatchChars(values: seq<seq<Byte>>, chars: seq<Byte>) returns (r: seq<seq<Byte>>)
    ensures r == AddChars(values, chars)
  {
    r := values;
    for i := 0 to |chars|
      invariant AddChars(values, chars) == AddChars(r, chars[i..])
    {
      assert chars[i..][1..] == chars[i + 1..];
      r := Add(r, [chars[i]]);
    }
  }

  // The loop over successive '?'.
  method ScanQuestions(cmp: Comparator, val: seq<Byte>, key: seq<Byte>, start: Trail) returns (q: Trail)
    requires start.vp <= |val| && start.kp <= start.wp <= |key| && !start.failed
    ensures q == Questions(cmp, val, key, start)
  {
    hide FoundAt, Section;
    q := start;
    while q.next == Quest && !q.failed
      invariant q.vp <= |val| && q.kp <= q.wp <= |key|
      invariant Questions(cmp, val, key, start) == if q.failed then q else Questions(cmp, val, key, q)
      decreases !q.failed, |val| - q.vp
    {
      if q.vp == |val| {
        q := q.(failed := true);
      } else {
        var sub, wp, next := ScanKeySection(key, q.wp);
        q := q.(vp := q.vp + 1, wp := wp, next := next, chars := q.chars + [val[q.vp]]);
        var found, vp := CharMatch(cmp, val, q.vp, sub);
        if (sub == [] && next == NoWild && q.vp < |val|) || !found {
          q := q.(failed := true);
        } else {
          FoundFitsValue(cmp, val, q.vp, sub);
          wp := if wp < |key| then wp + 1 else wp;
          q := q.(vp := vp, wp := wp, kp := wp);
        }
      }
    }
  }

  // One round of the matcher.
  method Round(cmp: Comparator, val: seq<Byte>, key: seq<Byte>, start: State) returns (s: State, more: bool)
    requires InBounds(start, val, key) && start.vp < |val|
    ensures (s, more) == Iterate(cmp, val, key, start)
  {
    hide FoundAt, Find, Needle, Questions;
    s, more := start, false;
    if !s.backtrack {
      var section, wp, offset := ScanNeedle(key, s.wp, s.next);
      s := s.(wcard := s.next, next := WildAt(key, wp), section := section, wp := wp, offset := offset, mvalue := []);
    } else {
      s := s.(backtrack := false);
    }
    if s.next == NoWild {
      s := FinalSection(cmp, val, key, s);
      return;
    }
    s, more := RoundMiddle(cmp, val, key, s);
    if more && s.kp == |key| && s.next == Star {
      s := s.(vp := |val|, values := Add(s.values, val[s.vp..]));
      more := false;
    }
  }

  method RoundMiddle(cmp: Comparator, val: seq<Byte>, key: seq<Byte>, start: State) returns (s: State, more: bool)
    requires InBounds(start, val, key) && !start.backtrack && start.wp < |key| && start.next == WildAt(key, start.wp)
    ensures (s, more) == MiddleSection(cmp, val, key, start)
  {
    hide FoundAt, Questions, AfterSection;
    s, more := start, false;
    if s.wcard == NoWild {
      var ok, vp := CharMatch(cmp, val, s.vp, s.section);
      if ok {
        FoundFitsValue(cmp, val, s.vp, s.section);
        s, more := RoundEnd(cmp, val, key, s, vp, None, []);
      }
    } else if s.vp + s.offset >= |val| {
      s := s.(vp := s.vp + s.offset);
    } else {
      var ok, vp := StringFind(cmp, val, s.vp + s.offset, s.section);
      if !ok { return s.(vp := vp), false; }
      var found := vp - |s.section|;
      FoundFitsValue(cmp, val, found, s.section);
      s := s.(mvalue := s.mvalue + val[s.vp..found - s.offset]);
      s, more := RoundEnd(cmp, val, key, s, vp, Some(found), val[found - s.offset..found]);
    }
  }

  method RoundEnd(cmp: Comparator, val: seq<Byte>, key: seq<Byte>, start: State, vp: nat, found: Option<nat>,
                  chars: seq<Byte>)
    returns (s: State, more: bool)
    requires InBounds(start, val, key) && !start.backtrack && start.wp < |key| && start.next == WildAt(key, start.wp)
    requires vp <= |val| && (found.Some? ==> start.vp <= found.value <= |val|)
    ensures (s, more) == AfterSection(cmp, val, key, start, vp, found, chars)
  {
    hide FoundAt, Questions, AddChars;
    s := start;
    var q := ScanQuestions(cmp, val, key, Trail(vp, s.wp + 1, s.wp + 1, s.next, chars, false));
    if q.failed && found.Some? && found.value + 1 < |val| {
      s := s.(vp := found.value + 1, mvalue := s.mvalue + [val[found.value]], wcard := Star, next := Quest,
              backtrack := true);
      return s, true;
    }
    s := s.(vp := q.vp, kp := q.kp, wp := q.wp, next := q.next);
    if q.next == Quest { return s, false; }
    var values := AddMatchChars(if found.Some? then Add(s.values, s.mvalue) else s.values, q.chars);
    s := s.(values := values);
    more := q.next == Star;
  }

  // mcht_matches_match_key: None when the value does not match, and the values to commit when it
  // does.
  method MatchKey(cmp: Comparator, val: seq<Byte>, key: seq<Byte>) returns (r: Option<seq<seq<Byte>>>)
    ensures r == MatchResult(cmp, val, key)
  {
    hide Iterate;
    var s := START;
    var more := true;
    while more && s.kp < |key| && s.vp < |val|
      invariant more ==> InBounds(s, val, key) && Loop(cmp, val, key, START) == Loop(cmp, val, key, s)
      invariant !more ==> s.kp <= |key| && Loop(cmp, val, key, START) == s
      decreases more, |key| - s.kp, |val| - s.vp
    {
      s, more := Round(cmp, val, key, s);
    }
    var kp := s.kp;
    if s.vp == |val| {
      while kp < |key| && key[kp] == STAR
        invariant kp <= |key| && SkipStars(key, s.kp) == SkipStars(key, kp)
      {
        kp := kp + 1;
      }
    }
    if kp == |key| && s.vp == |val| && s.next != Quest {
      r := Some(if s.values == [] then [] else s.values[0 := val]);
    } else {
      r := None;
    }
  }

  // ----- :contains -----

  // mcht_contains_match_key
  method ContainsKey(cmp: Comparator, val: seq<Byte>, key: seq<Byte>) returns (r: bool)
    ensures r <==> Find(cmp, val, 0, key).Some?
  {
    hide FoundAt;
    if val == [] {
      if key == [] { EmptyFound(cmp, val, 0); } else { NotFoundAtEnd(cmp, val, key); }
      return key == [];
    }
    var found, _ := StringFind(cmp, val, 0, key);
    r := found;
  }
}
