// What quoting does to white space: runs of it between words become one space, and it is dropped at the start
// and behind line breaks (src/lib-managesieve/managesieve-quote.c).
module QuoteSpaces {
  import opened Bytes
  import opened ManageSieve
  import opened Quote
  import opened QuoteRoundTrip

  // Text without white space, and the white space behind it.
  datatype Chunk = Chunk(text: seq<Byte>, white: seq<Byte>)

  ghost predicate ChunkFits(c: Chunk)
  {
    c.text != [] && (forall i | 0 <= i < |c.text| :: c.text[i] != SPACE && c.text[i] != TAB) && AllWhite(c.white)
  }

  ghost predicate AllWhite(s: seq<Byte>)
  {
    forall i | 0 <= i < |s| :: s[i] == SPACE || s[i] == TAB
  }

  function Value(cs: seq<Chunk>): seq<Byte>
  {
    if cs == [] then [] else cs[0].text + cs[0].white + Value(cs[1..])
  }

  // One space for the white space behind a text, none behind a line break.
  function Gap(c: Chunk): seq<Byte>
  {
    if c.white == [] || (c.text != [] && c.text[|c.text| - 1] in [CR, LF]) then [] else [SPACE]
  }

  function Tidied(cs: seq<Chunk>): seq<Byte>
  {
    if cs == [] then [] else cs[0].text + Gap(cs[0]) + Tidied(cs[1..])
  }

  lemma {:induction false} TextStays(text: seq<Byte>, last: bool, rest: seq<Byte>)
    requires text != [] && forall i | 0 <= i < |text| :: text[i] != SPACE && text[i] != TAB
    ensures Squeezed(text + rest, last, true) == text + Squeezed(rest, IsLinebreak(text[|text| - 1]), true)
    decreases |text|
  {
    var c, more := text[0], text[1..];
    assert (text + rest)[1..] == more + rest;
    if more == [] {
      assert more + rest == rest && text == [c];
    } else {
      TextStays(more, IsLinebreak(c), rest);
      var next := Squeezed(rest, IsLinebreak(text[|text| - 1]), true);
      assert [c] + (more + next) == text + next;
    }
  }

  lemma {:induction false} WhiteShrinks(white: seq<Byte>, last: bool, rest: seq<Byte>)
    requires AllWhite(white) && white != []
    ensures Squeezed(white + rest, last, true) == (if last then [] else [SPACE]) + Squeezed(rest, true, true)
    decreases |white|
  {
    var more := white[1..];
    assert (white + rest)[1..] == more + rest;
    if more == [] {
      assert more + rest == rest;
    } else {
      WhiteShrinks(more, true, rest);
      assert [] + Squeezed(rest, true, true) == Squeezed(rest, true, true);
    }
  }

  // Behind white space that stands for one space, as behind text.
  lemma NoWhiteNext(cs: seq<Chunk>, last: bool)
    requires forall i | 0 <= i < |cs| :: ChunkFits(cs[i])
    ensures Squeezed(Value(cs), last, true) == Squeezed(Value(cs), true, true)
  {
    if cs != [] {
      var v := Value(cs);
      assert v[0] == cs[0].text[0];
      assert !IsLwsp(v[0]);
    }
  }

  lemma ChunkSqueezed(c: Chunk, rest: seq<Byte>)
    requires ChunkFits(c) && Squeezed(rest, false, true) == Squeezed(rest, true, true)
    ensures Squeezed(c.text + c.white + rest, true, true) == c.text + Gap(c) + Squeezed(rest, true, true)
  {
    hide Squeezed;
    var b := IsLinebreak(c.text[|c.text| - 1]);
    Assoc(c.text, c.white, rest);
    TextStays(c.text, true, c.white + rest);
    if c.white == [] {
      assert c.white + rest == rest;
    } else {
      WhiteShrinks(c.white, b, rest);
    }
    Assoc(c.text, Gap(c), Squeezed(rest, true, true));
  }

  lemma {:induction false} ChunksAreTidied(cs: seq<Chunk>)
    requires forall i | 0 <= i < |cs| :: ChunkFits(cs[i])
    ensures Squeezed(Value(cs), true, true) == Tidied(cs)
    decreases |cs|
  {
    hide Squeezed, ChunkFits, Gap;
    if cs == [] {
      NothingSqueezed();
    } else {
      NoWhiteNext(cs[1..], false);
      ChunkSqueezed(cs[0], Value(cs[1..]));
      ChunksAreTidied(cs[1..]);
    }
  }

  lemma NothingSqueezed()
    ensures Squeezed([], true, true) == []
  {
  }

  // Compressed, a value is its texts with single spaces between them.
  lemma CompressedValue(lead: seq<Byte>, cs: seq<Chunk>)
    requires AllWhite(lead) && forall i | 0 <= i < |cs| :: ChunkFits(cs[i])
    ensures Squeezed(lead + Value(cs), true, true) == Tidied(cs)
  {
    hide Squeezed;
    ChunksAreTidied(cs);
    if lead == [] {
      assert lead + Value(cs) == Value(cs);
    } else {
      WhiteShrinks(lead, true, Value(cs));
      assert [] + Tidied(cs) == Tidied(cs);
    }
  }

  // Every value is such white space and such chunks.
  lemma {:induction false} EveryValueIsChunks(v: seq<Byte>) returns (lead: seq<Byte>, cs: seq<Chunk>)
    ensures AllWhite(lead) && (forall i | 0 <= i < |cs| :: ChunkFits(cs[i])) && v == lead + Value(cs)
    decreases |v|
  {
    if v == [] {
      lead, cs := [], [];
    } else {
      var lead', cs' := EveryValueIsChunks(v[1..]);
      assert v == [v[0]] + v[1..];
      if IsLwsp(v[0]) {
        lead, cs := [v[0]] + lead', cs';
        Assoc([v[0]], lead', Value(cs'));
      } else {
        lead, cs := [], [Chunk([v[0]], lead')] + cs';
        assert cs[1..] == cs';
        Assoc([v[0]], lead', Value(cs'));
      }
    }
  }

  // Without compression, a tab that is written is a space, and nothing else changes.
  lemma {:induction false} UncompressedValue(v: seq<Byte>, last: bool)
    ensures var s := Squeezed(v, last, false);
            |s| == |v| && forall i | 0 <= i < |v| :: s[i] == if v[i] == TAB then SPACE else v[i]
    decreases |v|
  {
    if v != [] {
      UncompressedValue(v[1..], IsLwsp(v[0]) || IsLinebreak(v[0]));
    }
  }
}
