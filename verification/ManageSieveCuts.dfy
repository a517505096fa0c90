// When the way the input is cut into pieces matters to the argument parser.
module ManageSieveCuts {
  import opened Bytes
  import opened ManageSieve
  import opened ManageSieveChunks

  ghost predicate Cuts(pieces: seq<seq<Byte>>, data: seq<Byte>)
  {
    pieces != [] && Joined(pieces) == data && forall i | 0 <= i < |pieces| :: pieces[i] != []
  }

  function ByteByByte(data: seq<Byte>): (pieces: seq<seq<Byte>>)
    ensures |pieces| == |data| && forall i | 0 <= i < |data| :: pieces[i] == [data[i]]
  {
    if data == [] then [] else [[data[0]]] + ByteByByte(data[1..])
  }

  lemma {:induction false} BytesJoin(data: seq<Byte>)
    ensures Joined(ByteByByte(data)) == data
    decreases |data|
  {
    if data != [] {
      BytesJoin(data[1..]);
      assert ByteByByte(data)[1..] == ByteByByte(data[1..]);
    }
  }

  lemma {:induction false} BytesParts(a: seq<Byte>, b: seq<Byte>)
    ensures ByteByByte(a + b) == ByteByByte(a) + ByteByByte(b)
  {
  }

  lemma {:induction false} NeedsMore(cfg: Config, data: seq<Byte>, s: State)
    requires Within(data, s) && !s.error && ReadArgs(cfg, data, s).0.NeedMore?
    ensures !ReadArgs(cfg, data, s).1.eol
    decreases Left(data, s)
  {
    hide ReadArg, FinishLine;
    if Wants(cfg, s) {
      var r := ReadArg(cfg, data, s);
      if r.0 && r.1.consumed <= cfg.maxLine { NeedsMore(cfg, data, r.1); }
    }
  }

  lemma {:induction false} DeliverParts(cfg: Config, seen: seq<Byte>, a: seq<seq<Byte>>, b: seq<seq<Byte>>, s: State)
    requires a != [] && b != [] && Within(seen, s) && !s.error
    ensures var r := Deliver(cfg, seen, a, s);
            && (r.0.NeedMore? ==> Within(seen + Joined(a), r.1) && !r.1.error)
            && Deliver(cfg, seen, a + b, s)
               == if r.0.NeedMore? then Deliver(cfg, seen + Joined(a), b, r.1) else r
    decreases |a|
  {
    hide ReadArgs;
    var data := seen + a[0];
    var r := ReadArgs(cfg, data, s);
    assert (a + b)[0] == a[0] && (a + b)[1..] == a[1..] + b;
    assert seen + Joined(a) == data + Joined(a[1..]);
    if |a| == 1 {
      assert a[1..] == [] && [] + b == b && data + [] == data;
    } else if r.0.NeedMore? {
      DeliverParts(cfg, data, a[1..], b, r.1);
    }
  }

  // What passes in some pieces passes byte by byte as well.
  lemma {:induction false} FinestPasses(cfg: Config, seen: seq<Byte>, pieces: seq<seq<Byte>>, s: State)
    requires Cuts(pieces, Joined(pieces)) && Joined(pieces) != [] && Within(seen, s) && !s.error && !s.eol
    requires !Deliver(cfg, seen, pieces, s).0.Failed?
    ensures Agree(Deliver(cfg, seen, ByteByByte(Joined(pieces)), s), Deliver(cfg, seen, pieces, s))
    decreases |pieces|
  {
    hide ReadArgs, Forgiving, ByteByByte;
    var first, rest := pieces[0], pieces[1..];
    var data, tail := seen + first, Joined(rest);
    BytesJoin(first);
    PiecesChangeNothing(cfg, seen, ByteByByte(first), s);
    if rest == [] {
      assert first + [] == first;
    } else {
      assert rest[0] == pieces[1];
      BytesParts(first, tail);
      DeliverParts(cfg, seen, ByteByByte(first), ByteByByte(tail), s);
      if ReadArgs(cfg, data, s).0.NeedMore? {
        NeedsMore(cfg, data, s);
        FinestPasses(cfg, data, rest, ReadArgs(cfg, data, s).1);
      }
    }
  }

  // Every way to cut the input gives the answer of reading it at once, if and only if delivering it
  // byte by byte does, which can only differ by letting pass what fails at once.
  lemma PiecesMatterOnlyIfBytesDo(cfg: Config, seen: seq<Byte>, data: seq<Byte>, s: State)
    requires data != [] && Within(seen, s) && !s.error && !s.eol
    ensures (forall pieces | Cuts(pieces, data) :: Agree(Deliver(cfg, seen, pieces, s), ReadArgs(cfg, seen + data, s)))
            <==> (ReadArgs(cfg, seen + data, s).0.Failed? ==> Deliver(cfg, seen, ByteByByte(data), s).0.Failed?)
  {
    hide ReadArgs, Forgiving, Deliver, ByteByByte;
    BytesJoin(data);
    assert Cuts(ByteByByte(data), data);
    var whole := ReadArgs(cfg, seen + data, s);
    if whole.0.Failed? ==> Deliver(cfg, seen, ByteByByte(data), s).0.Failed? {
      forall pieces | Cuts(pieces, data) ensures Agree(Deliver(cfg, seen, pieces, s), whole) {
        if !whole.0.Failed? {
          PiecesChangeNothing(cfg, seen, pieces, s);
        } else if !Deliver(cfg, seen, pieces, s).0.Failed? {
          FinestPasses(cfg, seen, pieces, s);
        }
      }
    }
  }
}
