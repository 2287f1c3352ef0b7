/** main_app::handle_received_packets, and rounds of receiving and handling. */
module PacketLoop {
  import opened Sequences
  import opened Bytes
  import opened ReturnCodes
  import opened ByteOrder
  import opened ProtoHeader
  import opened Framing
  import opened SequentialBuffer
  import opened Memory
  import opened BufferRuns
  import opened PacketProcessor

  /** What the environment answers to the n-th call of a round: the clock and
      the handler's return code. */
  datatype Answers = Answers(now: nat -> int, returned: nat -> int)

  function Refused(answers: Answers): nat -> bool {
    (n: nat) => IsAbort(answers.returned(n))
  }

  function Limit(maxCount: int): nat {
    if maxCount < 0 then 0 else maxCount
  }

  /** What a round hands over and what it leaves, resets aside. */
  function Outcome(b: seq<byte>, cap: nat, limit: nat, answers: Answers): (seq<Frame>, seq<byte>) {
    HandleUntil(b, cap, limit, Refused(answers), 0)
  }

  /** The round ends at an incomplete packet, before the limit. */
  predicate StopsShort(h: (seq<Frame>, seq<byte>), limit: nat) {
    h.1 != [] && Incomplete(h.1) && |h.0| < limit
  }

  /** The time stamps after a round. */
  function StampsAfter(stamps: map<Key, int>, name: Key, now: int, short: bool, didReset: bool): map<Key, int> {
    if short then Noted(stamps, name, now, didReset) else stamps
  }

  // ----- the memory in a round -----

  /** The image of a round that began with bytes b and has bytes c left. */
  function Along(im: Image, b: seq<byte>, c: seq<byte>): Image
    requires |c| <= |b| <= |im.mem|
  {
    var p := Peeked(im, b);
    if c == [] then Image(p.mem, 0, false)
    else if |c| == |b| then p
    else Image(p.mem, p.start + |b| - |c|, false)
  }

  /** The image after a round, which looks at nothing if there are no bytes or the limit is 0. */
  function ImageAfter(im: Image, b: seq<byte>, left: seq<byte>, limit: nat): (r: Image)
    requires |left| <= |b| <= |im.mem|
    ensures |r.mem| == |im.mem|
  {
    if b == [] || limit == 0 then im else Along(im, b, left)
  }

  /** Where the bytes left begin. */
  function StopsAt(im: Image, b: seq<byte>, left: seq<byte>): nat
    requires |left| <= |b| <= |im.mem|
  {
    Peeked(im, b).start + |b| - |left|
  }

  lemma AlongStep(im: Image, b: seq<byte>, c: seq<byte>, n: nat)
    requires Holds(im, b) && 0 < n <= |c| <= |b| && (|c| == |b| ==> c == b)
    ensures var p := Along(im, b, c);
            var rest := if |c| == |im.mem| then [] else c[n..];
            |c| <= |p.mem| && Dropped(p, c, n) == Along(im, b, rest)
  {
    hide Overwritten;
    if |b| == |im.mem| && c == b {
      OverwrittenParts(im.mem, 0, b);
      OverwrittenParts(b, 0, b);
      WholeOverwritten(im.mem, b);
      WholeOverwritten(b, b);
    }
  }

  lemma WholeOverwritten(mem: seq<byte>, b: seq<byte>)
    requires |b| == |mem|
    ensures Overwritten(mem, 0, b) == b
  {
  }

  /** When a round resets the buffer: exactly if it stops at a packet that has been
      incomplete for too long, or whose length word exceeds the buffer. If that word
      lies partly behind the array, only the first is certain. */
  predicate ResetAsDue(im: Image, b: seq<byte>, h: (seq<Frame>, seq<byte>), limit: nat, late: bool, didReset: bool)
    requires |h.1| <= |b| <= |im.mem|
  {
    if StopsShort(h, limit) then
      var mem, at := Peeked(im, b).mem, StopsAt(im, b, h.1);
      && (late ==> didReset) && at + |h.1| <= |mem|
      && (|h.1| >= 4 || at + 4 <= |mem| ==> (didReset <==> late || LengthWord(h.1, mem, at) > |mem|))
    else !didReset
  }

  lemma OutcomeShrinks(b: seq<byte>, cap: nat, limit: nat, answers: Answers)
    ensures |Outcome(b, cap, limit, answers).1| <= |b|
  {
    UntilShrinks(b, cap, limit, Refused(answers), 0);
  }

  lemma {:induction false} UntilShrinks(b: seq<byte>, cap: nat, limit: nat, refused: nat -> bool, n: nat)
    ensures |HandleUntil(b, cap, limit, refused, n).1| <= |b|
    decreases limit
  {
    hide LengthOf;
    if limit > 0 && !Incomplete(b) && !(LengthOf(b) > 0 && refused(n)) {
      UntilShrinks(AfterOne(b, cap), cap, limit - 1, refused, n + 1);
    }
  }

  /** A round that ends before its limit, with a packet left that is complete, ends at a refusal. */
  lemma {:induction false} UntilEnds(b: seq<byte>, cap: nat, limit: nat, refused: nat -> bool, n: nat)
    ensures var h := HandleUntil(b, cap, limit, refused, n);
            && |h.0| <= limit
            && (|h.0| < limit && !Incomplete(h.1) ==> h.0 != [] && refused(n + |h.0| - 1))
    decreases limit
  {
    hide LengthOf, Piece;
    if limit > 0 && !Incomplete(b) && !(LengthOf(b) > 0 && refused(n)) {
      UntilEnds(AfterOne(b, cap), cap, limit - 1, refused, n + 1);
    }
  }

  /** A round hands over at most maxCount packets. If it hands over fewer and leaves
      a complete one, then because the last handler called returned one of these codes. */
  lemma RoundEnds(b: seq<byte>, cap: nat, maxCount: int, answers: Answers)
    ensures var h := Outcome(b, cap, Limit(maxCount), answers);
            && |h.0| <= (if maxCount < 0 then 0 else maxCount)
            && (|h.0| < maxCount && h.1 != [] && !Incomplete(h.1) ==>
                  h.0 != [] && answers.returned(|h.0| - 1) in {-1009, -1013, -1034})
  {
    hide Incomplete;
    UntilEnds(b, cap, Limit(maxCount), Refused(answers), 0);
  }

  /** The consume loop hands over exactly the packets of HandleUntil and leaves what
      that leaves, unless it stops at an incomplete packet and gives that one up. */
  method HandleReceivedPackets(conn: NetConnection, processor: PacketProcessor, maxCount: int,
                               answers: Answers, bigHost: bool)
    returns (handed: seq<Frame>, didReset: bool)
    requires conn.recvBuf.Valid() && conn.fd >= 0
    modifies processor, conn.recvBuf, conn.recvBuf.data
    ensures conn.recvBuf.Valid() && conn.recvBuf.data == old(conn.recvBuf.data)
    ensures conn.recvBuf.totalSize == old(conn.recvBuf.totalSize)
    ensures var b, im, limit := old(conn.recvBuf.Contents()), old(conn.recvBuf.Snapshot()), Limit(maxCount);
            var h := Outcome(b, conn.recvBuf.TotalSize(), limit, answers);
            var now, left := answers.now(|h.0|), if didReset then [] else h.1;
            && |h.1| <= |b| <= |im.mem| == conn.recvBuf.TotalSize()
            && handed == h.0 && conn.recvBuf.Contents() == left
            && conn.recvBuf.Snapshot() == ImageAfter(im, b, left, limit)
            && ResetAsDue(im, b, h, limit, Late(old(processor.timestamps), conn.peerName, now), didReset)
            && processor.timestamps ==
               StampsAfter(old(processor.timestamps), conn.peerName, now, StopsShort(h, limit), didReset)
  {
    hide conn.recvBuf.Valid, conn.recvBuf.Contents, conn.recvBuf.Snapshot, LengthOf, Remaining, Incomplete, Piece,
         LengthWord, Outcome, Late, Noted, Overwritten, Peeked, Dropped, InNumbers;
    var inBuf := conn.recvBuf;
    inBuf.SnapshotHolds();
    ghost var b0, im, cap, limit := inBuf.Contents(), inBuf.Snapshot(), inBuf.TotalSize(), Limit(maxCount);
    ghost var whole := Outcome(b0, cap, limit, answers);
    OutcomeShrinks(b0, cap, limit, answers);
    RemainingAll(b0, cap, limit, answers);
    handed, didReset := [], false;
    var handleCount := 0;
    while !inBuf.Empty() && handleCount < maxCount
      invariant inBuf.Valid() && inBuf.data == old(inBuf.data) && inBuf.totalSize == old(inBuf.totalSize)
      invariant processor.timestamps == old(processor.timestamps)
      invariant 0 <= handleCount == |handed| <= limit && !didReset
      invariant Remaining(handed, inBuf.Contents(), cap, limit, answers) == whole
      invariant handleCount == 0 ==> inBuf.Contents() == b0 && inBuf.Snapshot() == im
      invariant handleCount > 0 ==>
                  && |inBuf.Contents()| < |b0| && inBuf.Snapshot() == Along(im, b0, inBuf.Contents())
      decreases limit - handleCount
    {
      ghost var b := inBuf.Contents();
      RemainingStep(b, handed, cap, limit, answers);
      PeekedAlong(im, b0, b);
      var ret, bytesHandled, packet, reset :=
        processor.Process(conn, answers.now(handleCount), answers.returned(handleCount), bigHost);
      if bytesHandled > 0 {
        handed := handed + [packet];
      }
      if IsAbort(ret) {
        didReset := reset;
        break;
      }
      handleCount := handleCount + 1;
      if bytesHandled > 0 {
        AlongStep(im, b0, b, bytesHandled);
        var _ := inBuf.MoveReadPointer(bytesHandled);
      }
    }
    RemainingStep(inBuf.Contents(), handed, cap, limit, answers);
  }

  /** Looking again moves nothing. */
  lemma PeekedAlong(im: Image, b: seq<byte>, c: seq<byte>)
    requires Holds(im, b) && 0 < |c| <= |b|
    ensures |c| < |b| ==> Peeked(Along(im, b, c), c) == Along(im, b, c)
    ensures |c| == |b| ==> Along(im, b, c) == Peeked(im, b)
  {
  }

  /** With these packets handed over and these bytes in the buffer, what the round comes to. */
  ghost function Remaining(done: seq<Frame>, b: seq<byte>, cap: nat, limit: nat, answers: Answers)
    : (seq<Frame>, seq<byte>)
    requires |done| <= limit
  {
    var r := HandleUntil(b, cap, limit - |done|, Refused(answers), |done|);
    (done + r.0, r.1)
  }

  lemma RemainingAll(b: seq<byte>, cap: nat, limit: nat, answers: Answers)
    ensures Remaining([], b, cap, limit, answers) == Outcome(b, cap, limit, answers)
  {
    var r := Outcome(b, cap, limit, answers);
    assert [] + r.0 == r.0;
  }

  lemma RemainingStep(b: seq<byte>, done: seq<Frame>, cap: nat, limit: nat, answers: Answers)
    requires |done| <= limit
    ensures |done| == limit || b == [] || Incomplete(b) ==> Remaining(done, b, cap, limit, answers) == (done, b)
    ensures |done| < limit && !Incomplete(b) ==>
              && 0 < Piece(b) <= |b|
              && var packet := b[..Piece(b)];
                 Remaining(done, b, cap, limit, answers) ==
                 if LengthOf(b) > 0 && IsAbort(answers.returned(|done|)) then (done + [packet], b)
                 else Remaining(done + [packet], AfterOne(b, cap), cap, limit, answers)
  {
    hide LengthOf, Piece, AfterOne;
    assert Incomplete([]);
    assert done + [] == done;
    if |done| < limit && !Incomplete(b) {
      var packet := b[..Piece(b)];
      var r := HandleUntil(AfterOne(b, cap), cap, limit - |done| - 1, Refused(answers), |done| + 1);
      assert done + ([packet] + r.0) == (done + [packet]) + r.0;
      assert done + ([packet] + []) == done + [packet];
    }
  }

  // ----- rounds -----

  function Later(answers: nat -> Answers): nat -> Answers {
    (n: nat) => answers(n + 1)
  }

  /** Rounds on a buffer with handlers that may refuse; resets says in which of them it was reset. */
  function ServeUntil(pending: seq<byte>, cap: nat, rounds: seq<Round>, resets: seq<bool>, answers: nat -> Answers)
    : (seq<Frame>, seq<byte>)
    requires |rounds| == |resets|
    decreases |rounds|
  {
    if rounds == [] then ([], pending)
    else
      var h := Outcome(pending + rounds[0].chunk, cap, rounds[0].limit, answers(0));
      var d := ServeUntil(if resets[0] then [] else h.1, cap, rounds[1..], resets[1..], Later(answers));
      (h.0 + d.0, d.1)
  }

  /** One round: what is received of the chunk offered is exactly what there is room
      for, and the buffer is reset exactly when due. */
  predicate RoundOk(im: Image, pending: seq<byte>, offered: Round, received: Round, didReset: bool,
                    stamps: map<Key, int>, name: Key, answers: Answers)
  {
    && Holds(im, pending)
    && received.chunk <= offered.chunk && |received.chunk| == Min(|offered.chunk|, Offered(im, pending))
    && received.limit == offered.limit
    && var b, placed := pending + received.chunk, Placed(im, pending, received.chunk);
       var h := Outcome(b, |im.mem|, received.limit, answers);
       && |h.1| <= |b|
       && ResetAsDue(placed, b, h, received.limit, Late(stamps, name, answers.now(|h.0|)), didReset)
  }

  /** Every round of a run is: nothing of it is left open but words behind the end of the array. */
  predicate Accounted(im: Image, pending: seq<byte>, offered: seq<Round>, received: seq<Round>, resets: seq<bool>,
                      stamps: map<Key, int>, name: Key, answers: nat -> Answers)
    requires |offered| == |received| == |resets|
    decreases |received|
  {
    received == [] ||
    (&& RoundOk(im, pending, offered[0], received[0], resets[0], stamps, name, answers(0))
     && var b, limit := pending + received[0].chunk, received[0].limit;
        var h := Outcome(b, |im.mem|, limit, answers(0));
        var left := if resets[0] then [] else h.1;
        Accounted(ImageAfter(Placed(im, pending, received[0].chunk), b, left, limit), left,
                  offered[1..], received[1..], resets[1..],
                  StampsAfter(stamps, name, answers(0).now(|h.0|), StopsShort(h, limit), resets[0]), name,
                  Later(answers)))
  }

  /** No handler called in the run refuses. */
  predicate Unrefused(pending: seq<byte>, cap: nat, rounds: seq<Round>, resets: seq<bool>, answers: nat -> Answers)
    requires |rounds| == |resets|
    decreases |rounds|
  {
    rounds == [] ||
    (&& NoneRefused(pending + rounds[0].chunk, cap, rounds[0].limit, Refused(answers(0)), 0)
     && Unrefused(if resets[0] then [] else Handle(pending + rounds[0].chunk, cap, rounds[0].limit).1, cap,
                  rounds[1..], resets[1..], Later(answers)))
  }

  lemma OutcomeIsHandle(b: seq<byte>, cap: nat, limit: nat, answers: Answers)
    ensures Outcome(b, cap, limit, answers) == Handle(b, cap, limit) <==>
            NoneRefused(b, cap, limit, Refused(answers), 0)
  {
    RefusingIsPrefix(b, cap, limit, Refused(answers), 0);
  }

  /** Without refusals the run is one of Serve, within the buffer, with justified resets. */
  lemma {:induction false} UnrefusedServes(im: Image, pending: seq<byte>, offered: seq<Round>, received: seq<Round>,
                                           resets: seq<bool>, stamps: map<Key, int>, name: Key,
                                           answers: nat -> Answers)
    requires |offered| == |received| == |resets|
    requires Accounted(im, pending, offered, received, resets, stamps, name, answers)
    requires Unrefused(pending, |im.mem|, received, resets, answers)
    ensures ServeUntil(pending, |im.mem|, received, resets, answers) == Serve(pending, |im.mem|, received, resets)
    ensures Fits(pending, |im.mem|, received, resets) && Justified(pending, |im.mem|, received, resets)
    decreases |received|
  {
    hide Outcome, Handle, Placed, Offered, LengthWord, Incomplete, NoneRefused, Late, StampsAfter, Along, Peeked;
    if received != [] {
      var b, limit := pending + received[0].chunk, received[0].limit;
      OutcomeIsHandle(b, |im.mem|, limit, answers(0));
      var h := Outcome(b, |im.mem|, limit, answers(0));
      var left := if resets[0] then [] else h.1;
      UnrefusedServes(ImageAfter(Placed(im, pending, received[0].chunk), b, left, limit), left,
                      offered[1..], received[1..], resets[1..],
                      StampsAfter(stamps, name, answers(0).now(|h.0|), StopsShort(h, limit), resets[0]), name,
                      Later(answers));
    }
  }

  // ----- when a stream is received without a reset -----

  /** The bytes begin a stream of well-formed frames that fit into the buffer. */
  predicate Streamed(bytes: seq<byte>, cap: nat, fs: seq<Frame>) {
    bytes <= Concat(fs) && forall f | f in fs :: WellFormed(f) && |f| <= cap
  }

  lemma FrontLength(b: seq<byte>, f: Frame, more: seq<byte>)
    requires WellFormed(f) && b <= f + more && |b| >= 4
    ensures Value(b[..4], Field(0, 4)) == |f|
  {
    assert b == (f + more)[..|b|];
    assert FieldBytes(b[..4], Field(0, 4)) == FieldBytes(f, LENGTH_FIELD);
  }

  /** Of a frame that fits, four bytes are enough to know that it fits. */
  lemma ShortOfFrame(b: seq<byte>, limit: nat, cap: nat, fs: seq<Frame>)
    requires Streamed(b, cap, fs) && StopsShort(Cut(b, limit), limit) && |Cut(b, limit).1| >= 4
    ensures Value(Cut(b, limit).1[..4], Field(0, 4)) <= cap
  {
    hide Cut, WellFormed, Value, Incomplete, Concat;
    CutIsDecomposition(b, limit, fs);
    var k := |Cut(b, limit).0|;
    assert fs[k..] == [fs[k]] + fs[k + 1..];
    ConcatCons(fs[k], fs[k + 1..]);
    FrontLength(Cut(b, limit).1, fs[k], Concat(fs[k + 1..]));
  }

  /** What follows the frames cut off begins the rest of the stream. */
  lemma StreamGoesOn(pending: seq<byte>, rounds: seq<Round>, cap: nat, fs: seq<Frame>)
    requires rounds != [] && Streamed(pending + Received(rounds), cap, fs)
    ensures var b := pending + rounds[0].chunk;
            var r := Cut(b, rounds[0].limit);
            && |r.0| <= |fs| && Streamed(b, cap, fs) && Streamed(r.1 + Received(rounds[1..]), cap, fs[|r.0|..])
  {
    hide Cut, WellFormed, Concat;
    var b, more := pending + rounds[0].chunk, Received(rounds[1..]);
    var r := Cut(b, rounds[0].limit);
    Assoc(pending, rounds[0].chunk, more);
    assert b <= Concat(fs);
    CutIsDecomposition(b, rounds[0].limit, fs);
    CutConserves(b, rounds[0].limit);
    ConcatSplit(fs, |r.0|);
    Assoc(Concat(fs[..|r.0|]), r.1, more);
    PrefixTail(Concat(fs[..|r.0|]), r.1 + more, Concat(fs[|r.0|..]));
  }

  /** A round after which all bytes are accounted for: none is dropped, and if it
      stops at an incomplete packet, that is in time and its length word is one of
      memory within the array that does not exceed the buffer. */
  predicate RoundCalm(im: Image, b: seq<byte>, limit: nat, late: bool)
    requires |b| <= |im.mem|
  {
    var r := Cut(b, limit);
    && KeepsAll(b, |im.mem|, limit)
    && (StopsShort(r, limit) ==>
          && !late && (|r.1| >= 4 || StopsAt(im, b, r.1) + 4 <= |im.mem|)
          && StopsAt(im, b, r.1) + |r.1| <= |im.mem|
          && LengthWord(r.1, Peeked(im, b).mem, StopsAt(im, b, r.1)) <= |im.mem|)
  }

  /** All rounds are calm, judged by what is received, the clock and the memory. */
  predicate Calm(im: Image, pending: seq<byte>, rounds: seq<Round>, stamps: map<Key, int>, name: Key,
                 answers: nat -> Answers)
    decreases |rounds|
  {
    rounds == [] ||
    (Holds(im, pending) && |rounds[0].chunk| <= Offered(im, pending) &&
     var b, limit, placed := pending + rounds[0].chunk, rounds[0].limit, Placed(im, pending, rounds[0].chunk);
     var r := Cut(b, limit);
     var now := answers(0).now(|r.0|);
     && RoundCalm(placed, b, limit, Late(stamps, name, now))
     && Calm(ImageAfter(placed, b, r.1, limit), r.1, rounds[1..],
             StampsAfter(stamps, name, now, StopsShort(r, limit), false), name, Later(answers)))
  }

  /** As long as the rounds are calm, no length word lies partly behind the array. */
  predicate WordsInside(im: Image, pending: seq<byte>, rounds: seq<Round>, stamps: map<Key, int>, name: Key,
                        answers: nat -> Answers)
    decreases |rounds|
  {
    rounds != [] && Holds(im, pending) && |rounds[0].chunk| <= Offered(im, pending) ==>
      var b, limit, placed := pending + rounds[0].chunk, rounds[0].limit, Placed(im, pending, rounds[0].chunk);
      var r := Cut(b, limit);
      var now := answers(0).now(|r.0|);
      && (StopsShort(r, limit) ==> |r.1| >= 4 || StopsAt(placed, b, r.1) + 4 <= |im.mem|)
      && (RoundCalm(placed, b, limit, Late(stamps, name, now)) ==>
            WordsInside(ImageAfter(placed, b, r.1, limit), r.1, rounds[1..],
                        StampsAfter(stamps, name, now, StopsShort(r, limit), false), name, Later(answers)))
  }

  lemma RoundIsCalm(im: Image, b: seq<byte>, limit: nat, late: bool, didReset: bool)
    requires |b| <= |im.mem| && KeepsAll(b, |im.mem|, limit)
    requires ResetAsDue(im, b, Cut(b, limit), limit, late, didReset)
    requires var r := Cut(b, limit);
             StopsShort(r, limit) ==> |r.1| >= 4 || StopsAt(im, b, r.1) + 4 <= |im.mem|
    ensures RoundCalm(im, b, limit, late) <==> !didReset
  {
    hide Cut, LengthWord, Peeked, Incomplete, KeepsAll;
  }

  /** A run is undisturbed, and so delivers what the stream does, if and only if it is calm. */
  lemma {:induction false} UndisturbedIsCalm(im: Image, pending: seq<byte>, offered: seq<Round>, received: seq<Round>,
                                             resets: seq<bool>, stamps: map<Key, int>, name: Key,
                                             answers: nat -> Answers)
    requires |offered| == |received| == |resets|
    requires Accounted(im, pending, offered, received, resets, stamps, name, answers)
    requires Unrefused(pending, |im.mem|, received, resets, answers)
    requires WordsInside(im, pending, received, stamps, name, answers)
    ensures Undisturbed(pending, |im.mem|, received, resets) <==> Calm(im, pending, received, stamps, name, answers)
    decreases |received|
  {
    hide Outcome, Handle, Cut, Placed, Offered, LengthWord, Incomplete, NoneRefused, Late, StampsAfter, Along, Peeked,
         KeepsAll, RoundCalm, StopsAt;
    if received != [] {
      var b, limit := pending + received[0].chunk, received[0].limit;
      var placed, r := Placed(im, pending, received[0].chunk), Cut(b, limit);
      var now := answers(0).now(|r.0|);
      OutcomeIsHandle(b, |im.mem|, limit, answers(0));
      HandleIsCutExactly(b, |im.mem|, limit);
      CalmKeeps(placed, b, limit, Late(stamps, name, now));
      if KeepsAll(b, |im.mem|, limit) {
        RoundIsCalm(placed, b, limit, Late(stamps, name, now), resets[0]);
        if !resets[0] {
          UndisturbedIsCalm(ImageAfter(placed, b, r.1, limit), r.1, offered[1..], received[1..], resets[1..],
                            StampsAfter(stamps, name, now, StopsShort(r, limit), false), name, Later(answers));
        }
      }
    }
  }

  lemma CalmKeeps(im: Image, b: seq<byte>, limit: nat, late: bool)
    requires |b| <= |im.mem|
    ensures RoundCalm(im, b, limit, late) ==> KeepsAll(b, |im.mem|, limit)
  {
  }

  // ----- streams of frames that fit -----

  /** Rounds that keep all bytes, and after which no one to three bytes are pending
      unless the limit ended the round. */
  predicate Smooth(pending: seq<byte>, cap: nat, rounds: seq<Round>)
    decreases |rounds|
  {
    rounds != [] ==>
      var b := pending + rounds[0].chunk;
      var r := Cut(b, rounds[0].limit);
      && KeepsAll(b, cap, rounds[0].limit)
      && (|r.0| == rounds[0].limit || r.1 == [] || |r.1| >= 4)
      && Smooth(r.1, cap, rounds[1..])
  }

  /** No round that stops at an incomplete packet comes too late: five seconds or more
      after the first round, since the last reset, that stopped at one, even another. */
  predicate InTime(pending: seq<byte>, rounds: seq<Round>, stamps: map<Key, int>, name: Key, answers: nat -> Answers)
    decreases |rounds|
  {
    rounds != [] ==>
      var r := Cut(pending + rounds[0].chunk, rounds[0].limit);
      var now, short := answers(0).now(|r.0|), StopsShort(r, rounds[0].limit);
      && (short ==> !Late(stamps, name, now))
      && InTime(r.1, rounds[1..], StampsAfter(stamps, name, now, short, false), name, Later(answers))
  }

  predicate NoResets(resets: seq<bool>) {
    forall i | 0 <= i < |resets| :: !resets[i]
  }

  lemma NoResetsStep(resets: seq<bool>)
    ensures resets == [] ==> NoResets(resets)
    ensures resets != [] ==> (NoResets(resets) <==> !resets[0] && NoResets(resets[1..]))
  {
    if resets != [] && !resets[0] && NoResets(resets[1..]) {
      assert forall i | 0 < i < |resets| :: resets[i] == resets[1..][i - 1];
    }
  }

  lemma SmoothRound(im: Image, b: seq<byte>, limit: nat, late: bool, didReset: bool, fs: seq<Frame>)
    requires |b| <= |im.mem| && Streamed(b, |im.mem|, fs)
    requires ResetAsDue(im, b, Cut(b, limit), limit, late, didReset)
    requires var r := Cut(b, limit); |r.0| == limit || r.1 == [] || |r.1| >= 4
    ensures didReset <==> StopsShort(Cut(b, limit), limit) && late
  {
    hide Cut, Value, Streamed, Peeked, Incomplete;
    if StopsShort(Cut(b, limit), limit) {
      ShortOfFrame(b, limit, |im.mem|, fs);
    }
  }

  /** A stream of frames that fit, in smooth rounds, resets nothing if and only if
      every round is in time. */
  lemma {:induction false} SmoothRuns(im: Image, pending: seq<byte>, offered: seq<Round>, received: seq<Round>,
                                      resets: seq<bool>, stamps: map<Key, int>, name: Key, answers: nat -> Answers,
                                      fs: seq<Frame>)
    requires |offered| == |received| == |resets|
    requires Accounted(im, pending, offered, received, resets, stamps, name, answers)
    requires Unrefused(pending, |im.mem|, received, resets, answers) && Smooth(pending, |im.mem|, received)
    requires Streamed(pending + Received(received), |im.mem|, fs)
    ensures NoResets(resets) <==> InTime(pending, received, stamps, name, answers)
    ensures Undisturbed(pending, |im.mem|, received, resets) <==> InTime(pending, received, stamps, name, answers)
    decreases |received|
  {
    hide Outcome, Handle, Cut, Placed, Offered, LengthWord, Incomplete, NoneRefused, Late, StampsAfter, Along, Peeked,
         KeepsAll, Streamed, NoResets, ResetAsDue;
    NoResetsStep(resets);
    if received != [] {
      var b, limit := pending + received[0].chunk, received[0].limit;
      var placed, r := Placed(im, pending, received[0].chunk), Cut(b, limit);
      var now := answers(0).now(|r.0|);
      OutcomeIsHandle(b, |im.mem|, limit, answers(0));
      HandleIsCutExactly(b, |im.mem|, limit);
      StreamGoesOn(pending, received, |im.mem|, fs);
      SmoothRound(placed, b, limit, Late(stamps, name, now), resets[0], fs);
      if !resets[0] {
        SmoothRuns(ImageAfter(placed, b, r.1, limit), r.1, offered[1..], received[1..], resets[1..],
                   StampsAfter(stamps, name, now, StopsShort(r, limit), false), name, Later(answers), fs[|r.0|..]);
      }
    }
  }

  // ----- the rounds on a connection -----

  lemma NoRounds(im: Image, pending: seq<byte>, stamps: map<Key, int>, name: Key, answers: nat -> Answers)
    ensures ([], pending) == ServeUntil(pending, |im.mem|, [], [], answers)
    ensures Accounted(im, pending, [], [], [], stamps, name, answers)
  {
  }

  /** What is known of a run from its first round on. */
  lemma OneMore(im: Image, pending: seq<byte>, offered: seq<Round>, received: seq<Round>, resets: seq<bool>,
                stamps: map<Key, int>, name: Key, answers: nat -> Answers, more: seq<Frame>, left: seq<byte>)
    requires |offered| == |received| == |resets| > 0
    requires RoundOk(im, pending, offered[0], received[0], resets[0], stamps, name, answers(0))
    requires var b, limit := pending + received[0].chunk, received[0].limit;
             var h := Outcome(b, |im.mem|, limit, answers(0));
             var rest := if resets[0] then [] else h.1;
             && (more, left) == ServeUntil(rest, |im.mem|, received[1..], resets[1..], Later(answers))
             && Accounted(ImageAfter(Placed(im, pending, received[0].chunk), b, rest, limit), rest,
                          offered[1..], received[1..], resets[1..],
                          StampsAfter(stamps, name, answers(0).now(|h.0|), StopsShort(h, limit), resets[0]), name,
                          Later(answers))
    ensures var h := Outcome(pending + received[0].chunk, |im.mem|, received[0].limit, answers(0));
            (h.0 + more, left) == ServeUntil(pending, |im.mem|, received, resets, answers)
    ensures Accounted(im, pending, offered, received, resets, stamps, name, answers)
  {
    hide Outcome, Placed, RoundOk, StampsAfter, ImageAfter;
  }

  /** Rounds on one connection: the bytes that fit are committed at the write
      pointer, then packets are handled. Every run is one of ServeUntil, with the
      bytes taken and the resets Accounted for. Unless a called handler refuses, it
      delivers what the stream does if and only if it is undisturbed; that is, if and
      only if it is calm, or in smooth rounds of frames that fit, if and only if it
      is in time. */
  method ServeRounds(conn: NetConnection, processor: PacketProcessor, rounds: seq<Round>, answers: nat -> Answers,
                     bigHost: bool, ghost fs: seq<Frame>)
    returns (handed: seq<Frame>, received: seq<Round>, resets: seq<bool>)
    requires conn.recvBuf.Valid() && conn.fd >= 0
    modifies processor, conn.recvBuf, conn.recvBuf.data
    ensures conn.recvBuf.Valid() && conn.recvBuf.totalSize == old(conn.recvBuf.totalSize)
    ensures |received| == |resets| == |rounds|
    ensures var im, start := old(conn.recvBuf.Snapshot()), old(conn.recvBuf.Contents());
            && |im.mem| == conn.recvBuf.TotalSize()
            && (handed, conn.recvBuf.Contents()) == ServeUntil(start, |im.mem|, received, resets, answers)
            && Accounted(im, start, rounds, received, resets, old(processor.timestamps), conn.peerName, answers)
    ensures var im, start, d := old(conn.recvBuf.Snapshot()), old(conn.recvBuf.Contents()), conn.recvBuf.Contents();
            var stamps, name := old(processor.timestamps), conn.peerName;
            Unrefused(start, |im.mem|, received, resets, answers) ==>
              && ((handed, d) == Deliver(start, received) <==> Undisturbed(start, |im.mem|, received, resets))
              && (WordsInside(im, start, received, stamps, name, answers) ==>
                    ((handed, d) == Deliver(start, received) <==> Calm(im, start, received, stamps, name, answers)))
              && (Smooth(start, |im.mem|, received) && Streamed(start + Received(received), |im.mem|, fs) ==>
                    ((handed, d) == Deliver(start, received) <==> InTime(start, received, stamps, name, answers)))
    decreases |rounds|
  {
    hide conn.recvBuf.Contents, conn.recvBuf.Snapshot, Deliver, Undisturbed, Unrefused, Outcome, ServeUntil, Accounted,
         ResetAsDue, StopsShort, StampsAfter, Placed, Offered, Late, ImageAfter, Calm, Smooth, Streamed, InTime,
         WordsInside, Received;
    ghost var im, start, stamps := conn.recvBuf.Snapshot(), conn.recvBuf.Contents(), processor.timestamps;
    conn.recvBuf.SnapshotHolds();
    if rounds == [] {
      handed, received, resets := [], [], [];
      NoRounds(im, start, stamps, conn.peerName, answers);
    } else {
      var put := Place(conn.recvBuf, rounds[0].chunk);
      var h, didReset := HandleReceivedPackets(conn, processor, rounds[0].limit, answers(0), bigHost);
      var more, later, laterResets := ServeRounds(conn, processor, rounds[1..], Later(answers), bigHost, []);
      handed, received, resets := h + more, [Round(put, rounds[0].limit)] + later, [didReset] + laterResets;
      assert received[1..] == later && resets[1..] == laterResets;
      OneMore(im, start, rounds, received, resets, stamps, conn.peerName, answers, more, conn.recvBuf.Contents());
    }
    if Unrefused(start, |im.mem|, received, resets, answers) {
      RoundsDeliver(im, start, rounds, received, resets, stamps, conn.peerName, answers, fs);
    }
  }

  lemma RoundsDeliver(im: Image, pending: seq<byte>, offered: seq<Round>, received: seq<Round>, resets: seq<bool>,
                      stamps: map<Key, int>, name: Key, answers: nat -> Answers, fs: seq<Frame>)
    requires |offered| == |received| == |resets|
    requires Accounted(im, pending, offered, received, resets, stamps, name, answers)
    requires Unrefused(pending, |im.mem|, received, resets, answers)
    ensures ServeUntil(pending, |im.mem|, received, resets, answers) == Deliver(pending, received) <==>
            Undisturbed(pending, |im.mem|, received, resets)
    ensures WordsInside(im, pending, received, stamps, name, answers) ==>
              (Undisturbed(pending, |im.mem|, received, resets) <==> Calm(im, pending, received, stamps, name, answers))
    ensures Smooth(pending, |im.mem|, received) && Streamed(pending + Received(received), |im.mem|, fs) ==>
              (Undisturbed(pending, |im.mem|, received, resets) <==> InTime(pending, received, stamps, name, answers))
  {
    hide Unrefused, Accounted, ServeUntil, Serve, Deliver, Undisturbed, Fits, Justified, Smooth, Streamed, Calm, InTime,
         WordsInside, Received;
    UnrefusedServes(im, pending, offered, received, resets, stamps, name, answers);
    ServeIsDeliver(pending, |im.mem|, received, resets);
    if WordsInside(im, pending, received, stamps, name, answers) {
      UndisturbedIsCalm(im, pending, offered, received, resets, stamps, name, answers);
    }
    if Smooth(pending, |im.mem|, received) && Streamed(pending + Received(received), |im.mem|, fs) {
      SmoothRuns(im, pending, offered, received, resets, stamps, name, answers, fs);
    }
  }

  // ----- a reset that an earlier packet's time stamp causes -----

  /** A round that receives more of the beginning of a frame, but not all of its header. */
  lemma FrontArrives(im: Image, f: Frame, k: nat, n: nat, offered: Round, received: Round, didReset: bool,
                     stamps: map<Key, int>, name: Key, answers: Answers)
    returns (next: Image)
    requires im.start == 0 && !im.moves && WellFormed(f) && |f| <= |im.mem| && k < n && 4 <= n < PROTO_HEADER_SIZE
    requires offered == Round(f[k..n], 1) && RoundOk(im, f[..k], offered, received, didReset, stamps, name, answers)
    ensures received == offered && Outcome(f[..k] + f[k..n], |im.mem|, 1, answers) == ([], f[..n])
    ensures StopsShort(([], f[..n]), 1) && (didReset <==> Late(stamps, name, answers.now(0)))
    ensures Holds(im, f[..k]) && n - k <= Offered(im, f[..k])
    ensures |next.mem| == |im.mem| && next.start == 0 && !next.moves
    ensures ImageAfter(Placed(im, f[..k], f[k..n]), f[..k] + f[k..n], f[..n], 1) == next
  {
    hide Overwritten, Late, Value, LengthOf;
    var b := f[..n];
    assert received.chunk == f[k..n];
    assert f[..k] + f[k..n] == b && f + [] == f && Incomplete(b);
    FrontLength(b, f, []);
    next := Image(Placed(im, f[..k], f[k..n]).mem, 0, false);
  }

  /** The rest of the frame arrives and is handled. */
  lemma RestArrives(im: Image, f: Frame, n: nat, offered: Round, received: Round, didReset: bool,
                    stamps: map<Key, int>, name: Key, answers: Answers)
    returns (next: Image)
    requires im.start == 0 && !im.moves && WellFormed(f) && |f| <= |im.mem| && n < PROTO_HEADER_SIZE
    requires !Refused(answers)(0)
    requires offered == Round(f[n..], 1) && RoundOk(im, f[..n], offered, received, didReset, stamps, name, answers)
    ensures received == offered && !didReset && Outcome(f[..n] + f[n..], |im.mem|, 1, answers) == ([f], [])
    ensures Holds(im, f[..n]) && |f[n..]| <= Offered(im, f[..n])
    ensures |next.mem| == |im.mem| && next.start == 0 && !next.moves
    ensures ImageAfter(Placed(im, f[..n], f[n..]), f[..n] + f[n..], [], 1) == next
  {
    hide Overwritten, Late, Value, LengthWord, LengthOf;
    assert received.chunk == f[n..] && f[..n] + f[n..] == f && f + [] == f;
    FrontFrame(f, f, []);
    assert f[..|f|] == f && f[|f|..] == [];
    OneFrame(f, |im.mem|, answers);
    next := Image(Peeked(Placed(im, f[..n], f[n..]), f).mem, 0, false);
  }

  lemma OneFrame(f: Frame, cap: nat, answers: Answers)
    requires WellFormed(f) && !Refused(answers)(0)
    ensures Outcome(f, cap, 1, answers) == ([f], [])
  {
    hide LengthOf;
    assert f + [] == f;
    FrontFrame(f, f, []);
    assert f[..|f|] == f && f[|f|..] == [] && [f] + [] == [f];
  }

  lemma AfterFront(im: Image, f: Frame, k: nat, n: nat, offered: seq<Round>, received: seq<Round>, resets: seq<bool>,
                   stamps: map<Key, int>, name: Key, answers: nat -> Answers)
    returns (next: Image)
    requires im.start == 0 && !im.moves && WellFormed(f) && |f| <= |im.mem| && k < n && 4 <= n < PROTO_HEADER_SIZE
    requires |offered| == |received| == |resets| > 0 && offered[0] == Round(f[k..n], 1)
    requires Accounted(im, f[..k], offered, received, resets, stamps, name, answers)
    ensures received[0] == offered[0] && (resets[0] <==> Late(stamps, name, answers(0).now(0)))
    ensures next.start == 0 && !next.moves && |next.mem| == |im.mem|
    ensures !resets[0] ==>
              Accounted(next, f[..n], offered[1..], received[1..], resets[1..],
                        StampsAfter(stamps, name, answers(0).now(0), true, false), name, Later(answers))
  {
    hide Overwritten, Placed, Offered, Peeked, RoundOk, LengthWord, Outcome, ImageAfter, StopsShort, StampsAfter, Late;
    next := FrontArrives(im, f, k, n, offered[0], received[0], resets[0], stamps, name, answers(0));
  }

  lemma AfterRest(im: Image, f: Frame, n: nat, offered: seq<Round>, received: seq<Round>, resets: seq<bool>,
                  stamps: map<Key, int>, name: Key, answers: nat -> Answers)
    returns (next: Image)
    requires im.start == 0 && !im.moves && WellFormed(f) && |f| <= |im.mem| && n < PROTO_HEADER_SIZE
    requires |offered| == |received| == |resets| > 0 && offered[0] == Round(f[n..], 1) && !Refused(answers(0))(0)
    requires Accounted(im, f[..n], offered, received, resets, stamps, name, answers)
    ensures received[0] == offered[0] && !resets[0]
    ensures next.start == 0 && !next.moves && |next.mem| == |im.mem|
    ensures Accounted(next, [], offered[1..], received[1..], resets[1..], stamps, name, Later(answers))
  {
    hide Overwritten, Placed, Offered, Peeked, RoundOk, LengthWord, Outcome, ImageAfter;
    next := RestArrives(im, f, n, offered[0], received[0], resets[0], stamps, name, answers(0));
    assert !StopsShort(([f], []), 1);
  }

  lemma FrontSlices(f: Frame)
    requires WellFormed(f)
    ensures |f| >= PROTO_HEADER_SIZE && f[..0] == [] && f[0..10] == f[..10]
  {
  }

  /** The first bytes of f, noted at that second, and some time later more of them:
      they are thrown away exactly if that is five seconds or more. */
  lemma FiveSeconds(im: Image, f: Frame, offered: seq<Round>, received: seq<Round>, resets: seq<bool>, name: Key,
                    answers: nat -> Answers, second: int, later: int)
    requires im.start == 0 && !im.moves && WellFormed(f) && |f| <= |im.mem|
    requires second != 0 && answers(0).now(0) == second && answers(1).now(0) == second + later
    requires offered == [Round(f[..10], 1), Round(f[10..20], 1)] && |received| == |resets| == 2
    requires Accounted(im, [], offered, received, resets, map[], name, answers)
    ensures received == offered && resets == [false, later >= 5]
  {
    hide Accounted, WellFormed;
    FrontSlices(f);
    var next := AfterFront(im, f, 0, 10, offered, received, resets, map[], name, answers);
    var stamps := StampsAfter(map[], name, second, true, false);
    next := AfterFront(next, f, 10, 20, offered[1..], received[1..], resets[1..], stamps, name, Later(answers));
    assert received[0] == offered[0] && received[1] == offered[1];
  }

  /** The first bytes of f and, in the same second, the rest of it; some time later
      the first bytes of g. Nothing has been incomplete for a second and all frames
      fit. Still, from five seconds on g's bytes are thrown away, and only then: the
      stamp is that of f. */
  lemma LateForNothing(im: Image, f: Frame, g: Frame, offered: seq<Round>, received: seq<Round>, resets: seq<bool>,
                       name: Key, answers: nat -> Answers, second: int, later: int)
    requires im.start == 0 && !im.moves && WellFormed(f) && WellFormed(g) && |f| <= |im.mem| && |g| <= |im.mem|
    requires second != 0 && !Refused(answers(1))(0)
    requires answers(0).now(0) == second && answers(2).now(0) == second + later
    requires offered == [Round(f[..10], 1), Round(f[10..], 1), Round(g[..10], 1)] && |received| == |resets| == 3
    requires Accounted(im, [], offered, received, resets, map[], name, answers)
    ensures received == offered && resets == [false, false, later >= 5]
  {
    hide Accounted, WellFormed;
    FrontSlices(f);
    FrontSlices(g);
    var next := AfterFront(im, f, 0, 10, offered, received, resets, map[], name, answers);
    var stamps := StampsAfter(map[], name, second, true, false);
    next := AfterRest(next, f, 10, offered[1..], received[1..], resets[1..], stamps, name, Later(answers));
    next := AfterFront(next, g, 0, 10, offered[1..][1..], received[1..][1..], resets[1..][1..], stamps, name,
                       Later(Later(answers)));
    assert received[0] == offered[0] && received[1] == offered[1] && received[2] == offered[2];
  }

  // ----- a reset that left-over memory causes -----

  /** The first bytes into an empty buffer. */
  method Receive(buf: SequentialBuffer, bytes: seq<byte>)
    requires buf.Valid() && buf.data != null && buf.readPos == buf.writePos == 0 && |bytes| < buf.totalSize
    modifies buf, buf.data
    ensures buf.Valid() && buf.data == old(buf.data) && buf.totalSize == old(buf.totalSize)
    ensures buf.readPos == 0 && buf.writePos == |bytes| && buf.Contents() == bytes
    ensures buf.data[..] == Overwritten(old(buf.data[..]), 0, bytes)
  {
    hide Overwritten;
    var at := buf.GetWritePointer();
    OverwrittenParts(buf.data[..], 0, bytes);
    StoreBytes(buf.data, at, bytes);
    var _ := buf.MoveWritePointer(|bytes|);
  }

  lemma StaleValue()
    ensures Value([0, 255, 255, 255], Field(0, 4)) == 0xFF_FFFF
  {
    PowValues();
    var w: seq<byte> := [0, 255, 255, 255];
    assert w[0..4] == w && w[..3] == [0, 255, 255] && w[..3][..2] == [0, 255] && w[..2][..1] == [0];
    assert BigEndian([0]) == 0 && BigEndian([0, 255]) == 255;
    assert BigEndian([0, 255, 255]) == BigEndian([0, 255]) * 256 + 255;
  }

  /** One turn of the consume loop at a complete packet that is not refused. */
  method HandleFront(conn: NetConnection, processor: PacketProcessor, f: Frame, ghost more: seq<byte>, now: int)
    requires conn.recvBuf.Valid() && conn.fd >= 0 && WellFormed(f) && conn.recvBuf.Contents() == f + more
    requires !conn.recvBuf.HasOverflownPointer()
    modifies processor, conn.recvBuf, conn.recvBuf.data
    ensures conn.recvBuf.Valid() && conn.recvBuf.data == old(conn.recvBuf.data) && conn.recvBuf.data != null
    ensures conn.recvBuf.totalSize == old(conn.recvBuf.totalSize)
    ensures conn.recvBuf.data[..] == old(conn.recvBuf.data[..]) && processor.timestamps == old(processor.timestamps)
    ensures conn.recvBuf.Contents() == more
    ensures if more == [] then conn.recvBuf.readPos == conn.recvBuf.writePos == 0
            else conn.recvBuf.readPos == old(conn.recvBuf.readPos) + |f|
                 && conn.recvBuf.writePos == old(conn.recvBuf.writePos)
  {
    hide conn.recvBuf.Contents, LengthOf, Piece, Incomplete, LengthWord;
    FrontFrame(f + more, f, more);
    var ret, bytesHandled, packet, didReset := processor.Process(conn, now, RET_OK, true);
    var _ := conn.recvBuf.MoveReadPointer(bytesHandled);
  }

  /** A small frame a whose body ends in 0xFF is handled; then a frame b without
      body arrives together with the first byte, 0, of a third frame. After b is
      handled, that byte and three left-over bytes of a are taken for a length, and
      the byte is thrown away, although all frames fit and no time has passed. */
  method StaleBytesReset(conn: NetConnection, processor: PacketProcessor, a: Frame, b: Frame, now: int)
    returns (ret: int)
    requires conn.recvBuf.Valid() && conn.fd >= 0 && conn.recvBuf.data == null && processor.timestamps == map[]
    requires WellFormed(a) && |a| == 28 && a[25..] == [255, 255, 255] && WellFormed(b) && |b| == PROTO_HEADER_SIZE
    modifies processor, conn.recvBuf
    ensures ret == LENGTH_TOO_BIG && conn.recvBuf.Valid() && conn.recvBuf.Contents() == []
  {
    hide conn.recvBuf.Contents, WellFormed, LengthOf, Overwritten, Value;
    var buf := conn.recvBuf;
    var created := buf.Create(MIN_BUF_SIZE);
    OverwrittenParts(buf.data[..], 0, a);
    Receive(buf, a);
    assert a + [] == a;
    HandleFront(conn, processor, a, [], now);
    ghost var mem := buf.data[..];
    assert mem[25..28] == mem[0..28][25..] == a[25..];
    OverwrittenParts(mem, 0, b + [0]);
    Receive(buf, b + [0]);
    assert buf.data[..][25..28] == buf.data[..][25..][..3] == mem[25..][..3] == mem[25..28];
    HandleFront(conn, processor, b, [0], now);
    assert [0] + buf.data[..][25..28] == [0, 255, 255, 255];
    StaleValue();
    var handledLen, packet, didReset;
    ret, handledLen, packet, didReset := processor.Process(conn, now, RET_OK, true);
  }
}
