/** Length-prefixed frames in a byte stream, as values: how received bytes are
    cut into packets, for any chunking and any per-round limit. */
module Framing {
  import opened Sequences
  import opened Bytes
  import opened ProtoHeader

  type Frame = seq<byte>

  function LengthOf(b: seq<byte>): int
    requires |b| >= PROTO_HEADER_SIZE
  {
    Value(b, LENGTH_FIELD)
  }

  /** More bytes are needed before anything can be handled. */
  predicate Incomplete(b: seq<byte>) {
    |b| < PROTO_HEADER_SIZE || |b| < LengthOf(b)
  }

  /** The bytes one handled packet takes: its length, or everything if that is not positive. */
  function Piece(b: seq<byte>): (n: nat)
    requires !Incomplete(b)
    ensures 0 < n <= |b|
  {
    if LengthOf(b) > 0 then LengthOf(b) else |b|
  }

  /** Handles up to limit packets; returns them and what is left. */
  function Cut(b: seq<byte>, limit: nat): (r: (seq<Frame>, seq<byte>))
    ensures |r.0| <= limit && |r.1| <= |b|
    ensures |r.0| < limit ==> Incomplete(r.1)
    decreases limit
  {
    if limit == 0 || Incomplete(b) then ([], b)
    else
      var r := Cut(b[Piece(b)..], limit - 1);
      ([b[..Piece(b)]] + r.0, r.1)
  }

  function Concat(fs: seq<Frame>): seq<byte> {
    if fs == [] then [] else fs[0] + Concat(fs[1..])
  }

  predicate WellFormed(f: Frame) {
    |f| >= PROTO_HEADER_SIZE && LengthOf(f) == |f|
  }

  lemma {:induction false} ConcatAppend(fs: seq<Frame>, gs: seq<Frame>)
    ensures Concat(fs + gs) == Concat(fs) + Concat(gs)
  {
    if fs == [] {
      assert fs + gs == gs;
    } else {
      assert (fs + gs)[1..] == fs[1..] + gs;
      ConcatAppend(fs[1..], gs);
    }
  }

  lemma ConcatCons(f: Frame, fs: seq<Frame>)
    ensures Concat([f] + fs) == f + Concat(fs)
  {
    assert ([f] + fs)[1..] == fs;
  }

  /** No byte is lost or changed by cutting. */
  lemma {:induction false} CutConserves(b: seq<byte>, limit: nat)
    ensures Concat(Cut(b, limit).0) + Cut(b, limit).1 == b
    decreases limit
  {
    hide Incomplete, LengthOf, Concat, Piece;
    if limit > 0 && !Incomplete(b) {
      var n := Piece(b);
      assert b[..n] + b[n..] == b;
      var r := Cut(b[n..], limit - 1);
      CutConserves(b[n..], limit - 1);
      ConcatCons(b[..n], r.0);
      Assoc(b[..n], Concat(r.0), r.1);
    } else {
      assert Concat([]) == [] by {
        ConcatEmpty();
      }
    }
  }

  lemma ConcatEmpty()
    ensures Concat([]) == []
  {
  }

  /** Bytes that begin a well-formed frame are incomplete exactly while they are shorter. */
  lemma FrontFrame(b: seq<byte>, f: Frame, more: seq<byte>)
    requires WellFormed(f) && b <= f + more
    ensures Incomplete(b) <==> |b| < |f|
    ensures |b| >= |f| ==> Piece(b) == |f| && b[..|f|] == f && b[|f|..] <= more
  {
    if |b| >= PROTO_HEADER_SIZE {
      assert b == (f + more)[..|b|];
      assert FieldBytes(b, LENGTH_FIELD) == FieldBytes(f, LENGTH_FIELD);
    }
  }

  /** Received bytes of a well-formed stream are cut exactly at its frames. */
  lemma {:induction false} CutIsDecomposition(b: seq<byte>, limit: nat, fs: seq<Frame>)
    requires b <= Concat(fs) && forall f | f in fs :: WellFormed(f)
    ensures var k := |Cut(b, limit).0|;
            && k <= |fs| && Cut(b, limit).0 == fs[..k]
            && Cut(b, limit).1 <= Concat(fs[k..])
            && (k < limit ==> if k == |fs| then Cut(b, limit).1 == [] else |Cut(b, limit).1| < |fs[k]|)
    decreases limit
  {
    hide LengthOf, Piece, WellFormed;
    assert [] <= b && Incomplete([]);
    if fs != [] {
      FrontFrame(b, fs[0], Concat(fs[1..]));
      if limit > 0 && |b| >= |fs[0]| {
        CutIsDecomposition(b[|fs[0]|..], limit - 1, fs[1..]);
        var k := |Cut(b[|fs[0]|..], limit - 1).0|;
        assert fs[..k + 1] == [fs[0]] + fs[1..][..k];
        assert fs[k + 1..] == fs[1..][k..];
      }
    }
  }

  // ----- rounds -----

  /** One round: a chunk arrives, then at most limit packets are handled. */
  datatype Round = Round(chunk: seq<byte>, limit: nat)

  function Received(rounds: seq<Round>): seq<byte> {
    if rounds == [] then [] else rounds[0].chunk + Received(rounds[1..])
  }

  /** The packets handled over all rounds, starting from pending bytes, and the bytes still pending. */
  function Deliver(pending: seq<byte>, rounds: seq<Round>): (seq<Frame>, seq<byte>)
    decreases |rounds|
  {
    if rounds == [] then ([], pending)
    else
      var r := Cut(pending + rounds[0].chunk, rounds[0].limit);
      var d := Deliver(r.1, rounds[1..]);
      (r.0 + d.0, d.1)
  }

  lemma {:induction false} DeliverConserves(pending: seq<byte>, rounds: seq<Round>)
    ensures Concat(Deliver(pending, rounds).0) + Deliver(pending, rounds).1 == pending + Received(rounds)
    decreases |rounds|
  {
    hide Concat, Cut;
    if rounds != [] {
      var b, more := pending + rounds[0].chunk, Received(rounds[1..]);
      var r := Cut(b, rounds[0].limit);
      CutConserves(b, rounds[0].limit);
      DeliverConserves(r.1, rounds[1..]);
      var d := Deliver(r.1, rounds[1..]);
      ConcatAppend(r.0, d.0);
      Assoc(Concat(r.0), Concat(d.0), d.1);
      Assoc(Concat(r.0), r.1, more);
      Assoc(pending, rounds[0].chunk, more);
    } else {
      ConcatEmpty();
      assert pending + [] == pending == [] + pending;
    }
  }

  lemma ConcatSplit(fs: seq<Frame>, k: nat)
    requires k <= |fs|
    ensures Concat(fs) == Concat(fs[..k]) + Concat(fs[k..])
  {
    assert fs == fs[..k] + fs[k..];
    ConcatAppend(fs[..k], fs[k..]);
  }

  lemma PrefixTail(a: seq<byte>, b: seq<byte>, c: seq<byte>)
    requires a + b <= a + c
    ensures b <= c
  {
    assert b == (a + b)[|a|..] && c == (a + c)[|a|..];
    assert (a + b)[|a|..] == (a + c)[..|a + b|][|a|..];
  }

  lemma AllWellFormed(fs: seq<Frame>, k: nat)
    requires k <= |fs| && forall f | f in fs :: WellFormed(f)
    ensures forall f | f in fs[k..] :: WellFormed(f)
  {
  }

  /** Chunking independence: however a well-formed stream is cut into chunks and
      whatever the limits, the packets handled are its frames, in order and once
      each, and what is pending is exactly the rest of what was received. */
  lemma {:induction false} ChunkingIndependence(pending: seq<byte>, rounds: seq<Round>, fs: seq<Frame>)
    requires pending + Received(rounds) <= Concat(fs) && forall f | f in fs :: WellFormed(f)
    ensures var d := Deliver(pending, rounds);
            && |d.0| <= |fs| && d.0 == fs[..|d.0|]
            && Concat(fs[..|d.0|]) + d.1 == pending + Received(rounds)
    decreases |rounds|
  {
    DeliverConserves(pending, rounds);
    hide Concat, Cut, WellFormed;
    if rounds != [] {
      var b, more := pending + rounds[0].chunk, Received(rounds[1..]);
      var r := Cut(b, rounds[0].limit);
      var k := |r.0|;
      Assoc(pending, rounds[0].chunk, more);
      assert b <= Concat(fs);
      CutIsDecomposition(b, rounds[0].limit, fs);
      CutConserves(b, rounds[0].limit);
      ConcatSplit(fs, k);
      Assoc(Concat(fs[..k]), r.1, more);
      PrefixTail(Concat(fs[..k]), r.1 + more, Concat(fs[k..]));
      AllWellFormed(fs, k);
      ChunkingIndependence(r.1, rounds[1..], fs[k..]);
      var m := |Deliver(r.1, rounds[1..]).0|;
      assert fs[..k] + fs[k..][..m] == fs[..k + m];
    }
  }

  /** If no complete packet is left over, every frame received in full was handled. */
  lemma NothingHeldBack(pending: seq<byte>, rounds: seq<Round>, fs: seq<Frame>)
    requires pending + Received(rounds) <= Concat(fs) && forall f | f in fs :: WellFormed(f)
    requires Incomplete(Deliver(pending, rounds).1)
    ensures var d := Deliver(pending, rounds);
            && |d.0| <= |fs|
            && if |d.0| == |fs| then d.1 == [] else |d.1| < |fs[|d.0|]|
  {
    hide Deliver, Received, Incomplete, WellFormed, Concat;
    var d := Deliver(pending, rounds);
    ChunkingIndependence(pending, rounds, fs);
    var k := |d.0|;
    ConcatSplit(fs, k);
    PrefixTail(Concat(fs[..k]), d.1, Concat(fs[k..]));
    if k < |fs| {
      assert fs[k..] == [fs[k]] + fs[k + 1..];
      ConcatCons(fs[k], fs[k + 1..]);
      FrontFrame(d.1, fs[k], Concat(fs[k + 1..]));
    } else {
      assert fs[k..] == [];
      ConcatEmpty();
    }
  }

  /** Two ways of receiving the same bytes, both handled until nothing complete
      is left, deliver the same packets and leave the same bytes. */
  lemma SameBytesSamePackets(rounds: seq<Round>, rounds': seq<Round>, fs: seq<Frame>)
    requires Received(rounds) == Received(rounds') <= Concat(fs) && forall f | f in fs :: WellFormed(f)
    requires Incomplete(Deliver([], rounds).1) && Incomplete(Deliver([], rounds').1)
    ensures Deliver([], rounds) == Deliver([], rounds')
  {
    hide Deliver, Received, Incomplete, WellFormed;
    assert [] + Received(rounds) == Received(rounds);
    assert [] + Received(rounds') == Received(rounds');
    var d, d' := Deliver([], rounds), Deliver([], rounds');
    ChunkingIndependence([], rounds, fs);
    ChunkingIndependence([], rounds', fs);
    NothingHeldBack([], rounds, fs);
    NothingHeldBack([], rounds', fs);
    if |d.0| < |d'.0| {
      ShorterFront(fs, |d.0|, |d'.0|);
    } else if |d'.0| < |d.0| {
      ShorterFront(fs, |d'.0|, |d.0|);
    } else {
      var front := Concat(fs[..|d.0|]);
      assert front + d.1 == front + d'.1;
      PrefixTail(front, d.1, d'.1);
      PrefixTail(front, d'.1, d.1);
      assert |d.1| == |d'.1| && d.1 == d'.1[..|d.1|] == d'.1;
    }
  }

  lemma ShorterFront(fs: seq<Frame>, k: nat, m: nat)
    requires k < m <= |fs|
    ensures |Concat(fs[..k])| + |fs[k]| <= |Concat(fs[..m])|
  {
    hide Concat;
    ConcatSplit(fs[..m], k);
    assert fs[..m][..k] == fs[..k] && fs[..m][k..] == [fs[k]] + fs[k + 1..m];
    ConcatCons(fs[k], fs[k + 1..m]);
  }

  // ----- a buffer of cap bytes -----

  /** What stays after one packet: dropping from an exactly full buffer empties it. */
  function AfterOne(b: seq<byte>, cap: nat): seq<byte>
    requires !Incomplete(b)
  {
    if |b| == cap then [] else b[Piece(b)..]
  }

  function Handle(b: seq<byte>, cap: nat, limit: nat): (seq<Frame>, seq<byte>)
    decreases limit
  {
    if limit == 0 || Incomplete(b) then ([], b)
    else
      var r := Handle(AfterOne(b, cap), cap, limit - 1);
      ([b[..Piece(b)]] + r.0, r.1)
  }

  lemma {:induction false} HandleEnds(b: seq<byte>, cap: nat, limit: nat)
    ensures |Handle(b, cap, limit).0| <= limit
    ensures |Handle(b, cap, limit).0| < limit ==> Incomplete(Handle(b, cap, limit).1)
    decreases limit
  {
    hide Incomplete, Piece, AfterOne;
    if limit > 0 && !Incomplete(b) {
      HandleEnds(AfterOne(b, cap), cap, limit - 1);
    }
  }

  /** The same when some handlers refuse: call n ends the round if refused(n) holds,
      and its packet, although handed over, stays in the buffer. */
  function HandleUntil(b: seq<byte>, cap: nat, limit: nat, refused: nat -> bool, n: nat): (seq<Frame>, seq<byte>)
    decreases limit
  {
    if limit == 0 || Incomplete(b) then ([], b)
    else if LengthOf(b) > 0 && refused(n) then ([b[..Piece(b)]], b)
    else
      var r := HandleUntil(AfterOne(b, cap), cap, limit - 1, refused, n + 1);
      ([b[..Piece(b)]] + r.0, r.1)
  }

  /** No handler that is called in such a round refuses. */
  predicate NoneRefused(b: seq<byte>, cap: nat, limit: nat, refused: nat -> bool, n: nat)
    decreases limit
  {
    limit == 0 || Incomplete(b) ||
    (!(LengthOf(b) > 0 && refused(n)) && NoneRefused(AfterOne(b, cap), cap, limit - 1, refused, n + 1))
  }

  lemma {:induction false} HandleShrinks(b: seq<byte>, cap: nat, limit: nat)
    ensures |Handle(b, cap, limit).1| <= |b|
    decreases limit
  {
    hide Incomplete, LengthOf;
    if limit > 0 && !Incomplete(b) {
      HandleShrinks(AfterOne(b, cap), cap, limit - 1);
    }
  }

  /** Refusing ends a round early and never changes what is handed over until then;
      the round is the same if and only if no handler that is called refuses. */
  lemma {:induction false} RefusingIsPrefix(b: seq<byte>, cap: nat, limit: nat, refused: nat -> bool, n: nat)
    ensures var u, h := HandleUntil(b, cap, limit, refused, n), Handle(b, cap, limit);
            && u.0 <= h.0
            && (u == h <==> NoneRefused(b, cap, limit, refused, n))
    decreases limit
  {
    hide Incomplete, LengthOf;
    if limit > 0 && !Incomplete(b) {
      var rest := AfterOne(b, cap);
      var u, h := HandleUntil(rest, cap, limit - 1, refused, n + 1), Handle(rest, cap, limit - 1);
      RefusingIsPrefix(rest, cap, limit - 1, refused, n + 1);
      HandleShrinks(rest, cap, limit - 1);
      SameBehind([b[..Piece(b)]], u.0, h.0);
    }
  }

  lemma SameBehind(a: seq<Frame>, b: seq<Frame>, c: seq<Frame>)
    ensures a + b == a + c <==> b == c
    ensures b <= c ==> a + b <= a + c
  {
    assert (a + b)[|a|..] == b && (a + c)[|a|..] == c;
  }

  /** With the buffer not exactly full, nothing is lost: it is cut as the stream is. */
  lemma {:induction false} HandleIsCut(b: seq<byte>, cap: nat, limit: nat)
    requires |b| < cap
    ensures Handle(b, cap, limit) == Cut(b, limit)
    decreases limit
  {
    if limit > 0 && !Incomplete(b) {
      HandleIsCut(b[Piece(b)..], cap, limit - 1);
    }
  }

  /** Handling these bytes drops none: the buffer is not exactly full, or nothing
      is handled, or the packet is all there is. */
  predicate KeepsAll(b: seq<byte>, cap: nat, limit: nat) {
    |b| < cap || limit == 0 || Incomplete(b) || Piece(b) == |b|
  }

  lemma CutIsMore(b: seq<byte>, limit: nat)
    requires limit > 0 && !Incomplete(b) && Piece(b) < |b|
    ensures Cut(b, limit) != ([b[..Piece(b)]], [])
  {
    CutConserves(b, limit);
    var h := b[..Piece(b)];
    assert Concat([h]) == h + Concat([]) == h;
    assert ByteCount(Cut(b, limit)) == |b|;
  }

  /** The buffer is cut as the stream is if and only if it keeps all bytes. */
  lemma HandleIsCutExactly(b: seq<byte>, cap: nat, limit: nat)
    requires |b| <= cap
    ensures Handle(b, cap, limit) == Cut(b, limit) <==> KeepsAll(b, cap, limit)
  {
    if |b| < cap {
      HandleIsCut(b, cap, limit);
    } else if limit > 0 && !Incomplete(b) {
      assert Incomplete([]);
      assert Handle([], cap, limit - 1) == ([], []) && Handle(b, cap, limit) == ([b[..Piece(b)]] + [], []);
      if Piece(b) < |b| {
        CutIsMore(b, limit);
      } else {
        assert b[Piece(b)..] == [];
        assert Cut([], limit - 1) == ([], []);
      }
    }
  }

  function ByteCount(d: (seq<Frame>, seq<byte>)): nat {
    |Concat(d.0)| + |d.1|
  }

  lemma HandleBytes(b: seq<byte>, cap: nat, limit: nat)
    requires |b| <= cap
    ensures ByteCount(Handle(b, cap, limit)) <= |b| && |Handle(b, cap, limit).1| <= |b|
    ensures ByteCount(Handle(b, cap, limit)) == |b| <==> KeepsAll(b, cap, limit)
  {
    CutConserves(b, limit);
    HandleIsCutExactly(b, cap, limit);
    if !KeepsAll(b, cap, limit) {
      assert Incomplete([]);
      assert Handle([], cap, limit - 1) == ([], []) && Handle(b, cap, limit) == ([b[..Piece(b)]] + [], []);
      assert Concat([b[..Piece(b)]]) == b[..Piece(b)] + Concat([]) == b[..Piece(b)];
    }
  }

  /** Rounds on a buffer; resets says in which of them it was reset at the end. */
  function Serve(pending: seq<byte>, cap: nat, rounds: seq<Round>, resets: seq<bool>): (seq<Frame>, seq<byte>)
    requires |rounds| == |resets|
    decreases |rounds|
  {
    if rounds == [] then ([], pending)
    else
      var h := Handle(pending + rounds[0].chunk, cap, rounds[0].limit);
      var d := Serve(if resets[0] then [] else h.1, cap, rounds[1..], resets[1..]);
      (h.0 + d.0, d.1)
  }

  /** A reset needs the beginning of a packet that is not complete. */
  ghost predicate Justified(pending: seq<byte>, cap: nat, rounds: seq<Round>, resets: seq<bool>)
    requires |rounds| == |resets|
    decreases |rounds|
  {
    rounds != [] ==>
      var h := Handle(pending + rounds[0].chunk, cap, rounds[0].limit);
      && (resets[0] ==> h.1 != [] && Incomplete(h.1))
      && Justified(if resets[0] then [] else h.1, cap, rounds[1..], resets[1..])
  }

  /** The bytes of every round fit into the buffer. */
  ghost predicate Fits(pending: seq<byte>, cap: nat, rounds: seq<Round>, resets: seq<bool>)
    requires |rounds| == |resets|
    decreases |rounds|
  {
    rounds != [] ==>
      var b := pending + rounds[0].chunk;
      && |b| <= cap
      && Fits(if resets[0] then [] else Handle(b, cap, rounds[0].limit).1, cap, rounds[1..], resets[1..])
  }

  /** No reset fires, and every round keeps all bytes. */
  ghost predicate Undisturbed(pending: seq<byte>, cap: nat, rounds: seq<Round>, resets: seq<bool>)
    requires |rounds| == |resets|
    decreases |rounds|
  {
    rounds != [] ==>
      var b := pending + rounds[0].chunk;
      && KeepsAll(b, cap, rounds[0].limit) && !resets[0]
      && Undisturbed(Handle(b, cap, rounds[0].limit).1, cap, rounds[1..], resets[1..])
  }

  /** A buffer never has more than was received, and just as much if and only if it is undisturbed. */
  lemma {:induction false} ServeBytes(pending: seq<byte>, cap: nat, rounds: seq<Round>, resets: seq<bool>)
    requires |rounds| == |resets| && Fits(pending, cap, rounds, resets) && Justified(pending, cap, rounds, resets)
    ensures ByteCount(Serve(pending, cap, rounds, resets)) <= |pending + Received(rounds)|
    ensures ByteCount(Serve(pending, cap, rounds, resets)) == |pending + Received(rounds)| <==>
            Undisturbed(pending, cap, rounds, resets)
    decreases |rounds|
  {
    hide Concat, Handle, KeepsAll, Incomplete;
    if rounds == [] {
      ConcatEmpty();
    } else {
      var b := pending + rounds[0].chunk;
      var h := Handle(b, cap, rounds[0].limit);
      var next := if resets[0] then [] else h.1;
      HandleBytes(b, cap, rounds[0].limit);
      ServeBytes(next, cap, rounds[1..], resets[1..]);
      ConcatAppend(h.0, Serve(next, cap, rounds[1..], resets[1..]).0);
    }
  }

  lemma {:induction false} UndisturbedDelivers(pending: seq<byte>, cap: nat, rounds: seq<Round>, resets: seq<bool>)
    requires |rounds| == |resets| && Fits(pending, cap, rounds, resets) && Undisturbed(pending, cap, rounds, resets)
    ensures Serve(pending, cap, rounds, resets) == Deliver(pending, rounds)
    decreases |rounds|
  {
    hide Handle, KeepsAll, Cut;
    if rounds != [] {
      var b := pending + rounds[0].chunk;
      HandleIsCutExactly(b, cap, rounds[0].limit);
      UndisturbedDelivers(Cut(b, rounds[0].limit).1, cap, rounds[1..], resets[1..]);
    }
  }

  /** A run on a buffer delivers what the stream does if and only if it is
      undisturbed: every reset and every full-buffer loss shows. */
  lemma ServeIsDeliver(pending: seq<byte>, cap: nat, rounds: seq<Round>, resets: seq<bool>)
    requires |rounds| == |resets| && Fits(pending, cap, rounds, resets) && Justified(pending, cap, rounds, resets)
    ensures Serve(pending, cap, rounds, resets) == Deliver(pending, rounds) <==>
            Undisturbed(pending, cap, rounds, resets)
  {
    ServeBytes(pending, cap, rounds, resets);
    DeliverConserves(pending, rounds);
    if Undisturbed(pending, cap, rounds, resets) {
      UndisturbedDelivers(pending, cap, rounds, resets);
    }
  }
}
