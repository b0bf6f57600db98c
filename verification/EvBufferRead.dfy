/** Reading from a socket straight into the room at the end of a buffer. */
module EvBufferRead {
  import opened ChainValues
  import opened EvBuffers
  import opened EvBufferReserve
  import TokenBucket

  const NUM_READ_IOVEC: nat := 4

  /** What comes of a read: an assertion that fails, or the int that the caller gets. */
  datatype Fetched = Abort | Got(result: int)

  function Min(x: nat, y: nat): nat {
    if x < y then x else y
  }

  /** What stands behind the data of a chain becomes data. */
  lemma GrownBears(chain: Chain, v: Val, n: nat, vec: IoVec, piece: seq<byte>)
    requires chain.View() == v && v.Ok() && n <= v.Space() && vec.chain == chain && vec.base == v.misalign + v.off
    requires Bears(vec, piece) && |piece| == n
    ensures v.Grown(n).Bytes() == v.Bytes() + piece
  {
    hide Val.Bytes;
    assert v.mem[vec.base..vec.base + n] == piece;
  }

  /** Where the loop below is: `m` bytes are left for the chains from `k` on. */
  ghost predicate Halfway(now: seq<Val>, was: seq<Val>, d: nat, k: nat, done: seq<byte>) {
    && |now| == |was| && DataIndex(was, d) && d <= k
    && (forall j :: 0 <= j < |now| ==> now[j].Ok())
    && (forall j :: k <= j < |was| ==> now[j] == was[j])
    && Content(now) == Content(was) + done
  }

  lemma HalfwayNone(vs: seq<Val>, d: nat, k: nat)
    requires DataIndex(vs, d) && d <= k
    ensures Halfway(vs, vs, d, k, [])
  {
    hide Content;
  }

  lemma HalfwayNext(now: seq<Val>, was: seq<Val>, d: nat, k: nat, done: seq<byte>, v: Val, piece: seq<byte>)
    requires Halfway(now, was, d, k, done) && k < |now| && v.Ok() && v.Bytes() == now[k].Bytes() + piece
    ensures Halfway(now[k := v], was, d, k + 1, done + piece)
    ensures v.off != 0 ==> DataIndex(now[k := v], k)
  {
    hide Content; hide Val.Bytes; hide Val.Ok;
    AppendContent(now, k, v, piece);
    Assoc(Content(was), done, piece);
  }

  lemma PieceOf(vecs: seq<IoVec>, pieces: seq<seq<byte>>, i: nat, n: nat, space: nat)
    requires Cut(vecs, pieces, n) && |pieces| == |vecs| && i < |pieces| && |Joined(pieces)| == n
    requires |Joined(pieces[..i])| < n && (i < |vecs| - 1 ==> vecs[i].len == space) && vecs[i].len <= space
    ensures Joined(pieces[..i + 1]) == Joined(pieces[..i]) + pieces[i]
    ensures |pieces[i]| == Min(space, n - |Joined(pieces[..i])|)
    ensures space < n - |Joined(pieces[..i])| ==> i + 1 < |vecs|
    ensures n - |Joined(pieces[..i])| <= space ==> Joined(pieces[..i + 1]) == Joined(pieces)
  {
    assert pieces[..i + 1][..i] == pieces[..i];
    if i == |pieces| - 1 {
      assert pieces[..i + 1] == pieces;
    } else if n - |Joined(pieces[..i])| <= space {
      JoinedMore(pieces, i + 1);
    }
  }

  /** Nothing follows once the length is reached. */
  lemma {:induction false} JoinedMore(pieces: seq<seq<byte>>, i: nat)
    requires i <= |pieces|
    ensures |Joined(pieces[..i])| <= |Joined(pieces)|
    ensures |Joined(pieces[..i])| == |Joined(pieces)| ==> Joined(pieces[..i]) == Joined(pieces)
    decreases |pieces|
  {
    if i == |pieces| {
      assert pieces[..i] == pieces;
    } else {
      var n := |pieces| - 1;
      JoinedMore(pieces[..n], i);
      assert pieces[..n][..i] == pieces[..i];
    }
  }

  /** One chain of the loop: room behind its data becomes data. */
  method GrowOne(buf: EvBuffer, chain: Chain, vec: IoVec, n: nat, ghost was: seq<Val>, ghost d: nat, ghost k: nat,
                 ghost done: seq<byte>, ghost piece: seq<byte>)
    requires buf.Wired() && k < |buf.chains| && chain == buf.chains[k] && Halfway(buf.vals, was, d, k, done)
    requires vec.chain == chain && vec.base == chain.misalign + chain.off && Bears(vec, piece)
    requires |piece| == n <= buf.vals[k].Space()
    modifies buf`vals, chain`off
    ensures buf.Wired() && Halfway(buf.vals, was, d, k + 1, done + piece) && (0 < n ==> DataIndex(buf.vals, k))
    ensures |buf.vals| == |buf.chains|
  {
    hide Content; hide Val.Bytes; hide Val.Grown; hide EvBuffer.Wired; hide Halfway; hide DataIndex; hide Chain.View;
    buf.WiredAt(k);
    HalfwayOk(buf.vals, was, d, k, done);
    GrownBears(chain, buf.vals[k], n, vec, piece);
    HalfwayNext(buf.vals, was, d, k, done, buf.vals[k].Grown(n), piece);
    GrowAt(buf, chain, n, k);
    buf.WiredShape();
  }

  lemma HalfwayOk(now: seq<Val>, was: seq<Val>, d: nat, k: nat, done: seq<byte>)
    requires Halfway(now, was, d, k, done) && k < |now|
    ensures |now| == |was| && now[k].Ok() && now[k] == was[k]
  {
  }

  /** The loop of evbuffer_read behind readv: `n` bytes stand in the vectors. */
  method TakeAll(buf: EvBuffer, firstp: Chain?, vecs: seq<IoVec>, n: nat, ghost pieces: seq<seq<byte>>, ghost f: nat)
    requires buf.Valid() && buf.d <= f && firstp == buf.At(f - 1) && |pieces| == |vecs|
    requires Match(buf, f, vecs) && Full(buf.vals, f, vecs, |vecs| - 1)
    requires Cut(vecs, pieces, n) && 0 < n == |Joined(pieces)|
    requires forall i :: 0 <= i < |vecs| ==> Bears(vecs[i], pieces[i])
    modifies buf`lastWithDataP, buf`d, buf`vals, buf.ChainSet()`off
    ensures buf.Wired() && DataIndex(buf.vals, buf.d) && Content(buf.vals) == Content(old(buf.vals)) + Joined(pieces)
  {
    hide Content; hide Val.Bytes; hide EvBuffer.Wired; hide DataIndex; hide Halfway; hide Joined; hide Cut; hide Bears;
    ghost var was, d := buf.vals, buf.d;
    var chainp, remaining, i := firstp, n, 0;
    buf.WiredShape();
    HalfwayNone(was, d, f);
    JoinedNone(pieces);
    while i < |vecs|
      invariant i < |vecs| && buf.Wired() && chainp == buf.At(f + i - 1) && |buf.vals| == |buf.chains|
      invariant 0 < remaining == n - |Joined(pieces[..i])|
      invariant Halfway(buf.vals, was, d, f + i, Joined(pieces[..i]))
    {
      ghost var k, done := f + i, Joined(pieces[..i]);
      buf.WiredAt(k);
      if k > 0 {
        buf.WiredAt(k - 1);
      }
      HalfwayOk(buf.vals, was, d, k, done);
      var chain := buf.Deref(chainp);
      var space := chain.SpaceLen();
      PieceOf(vecs, pieces, i, n, space);
      if space < remaining {
        GrowOne(buf, chain, vecs[i], space, was, d, k, done, pieces[i]);
        remaining := remaining - space;
      } else {
        GrowOne(buf, chain, vecs[i], remaining, was, d, k, done, pieces[i]);
        buf.SetLastWithData(chainp, k);
        HalfwayContent(buf.vals, was, d, k + 1, Joined(pieces));
        return;
      }
      chainp, i := chain, i + 1;
    }
  }

  /** ... and with the length kept */
  method TakeIn(buf: EvBuffer, firstp: Chain?, vecs: seq<IoVec>, n: nat, ghost pieces: seq<seq<byte>>, ghost f: nat)
    requires buf.Valid() && buf.d <= f && firstp == buf.At(f - 1) && |pieces| == |vecs|
    requires Match(buf, f, vecs) && Full(buf.vals, f, vecs, |vecs| - 1)
    requires Cut(vecs, pieces, n) && 0 < n == |Joined(pieces)|
    requires forall i :: 0 <= i < |vecs| ==> Bears(vecs[i], pieces[i])
    modifies buf`lastWithDataP, buf`d, buf`vals, buf`totalLen, buf.ChainSet()`off
    ensures buf.Valid() && buf.Contents() == old(buf.Contents()) + Joined(pieces)
  {
    hide Content; hide EvBuffer.Spine; hide DataIndex; hide Joined; hide Cut; hide Bears; hide Match; hide Full;
    TakeAll(buf, firstp, vecs, n, pieces, f);
    buf.totalLen := buf.totalLen + n;
  }

  lemma HalfwayContent(now: seq<Val>, was: seq<Val>, d: nat, k: nat, done: seq<byte>)
    requires Halfway(now, was, d, k, done)
    ensures Content(now) == Content(was) + done
  {
  }

  lemma JoinedNone(pieces: seq<seq<byte>>)
    ensures Joined(pieces[..0]) == []
    ensures |Joined(pieces)| > 0 ==> |pieces| > 0
  {
  }

  /**
   evbuffer_read.  It asks for the most that fits, is waiting and is wanted.  waiting is what the kernel
   reports, arriving what it has, failed that readv does.
   The bytes it gets stand at the end of the buffer; one that asks for nothing returns 0, as at the
   end of the stream, or aborts, exactly when the last chain with data is full and none follows.
   */
  method Read(buf: EvBuffer, howmuch: int, waiting: int, arriving: seq<byte>, failed: bool)
    returns (r: Fetched, asked: int)
    requires buf.Valid()
    modifies buf.Repr
    ensures buf.Valid() && fresh(buf.Repr - old(buf.Repr))
    ensures buf.freezeEnd == old(buf.freezeEnd) && buf.freezeStart == old(buf.freezeStart)
    ensures asked == TokenBucket.ReadSize(howmuch, waiting) && 0 <= asked
    ensures TokenBucket.Askable(howmuch, waiting, asked)
    ensures forall k: int :: TokenBucket.Askable(howmuch, waiting, k) ==> k <= asked
    ensures r == Abort <==> !buf.freezeEnd && asked == 0 && !old(Startable(buf.vals, buf.d))
    ensures r.Got? && (buf.freezeEnd || failed) ==> r.result == -1
    ensures r.Got? && !buf.freezeEnd && !failed ==>
      r.result <= asked && r.result <= |arriving| && (r.result == asked || r.result == |arriving|)
    ensures buf.Contents() == old(buf.Contents()) + if r.Got? && r.result > 0 then arriving[..r.result] else []
  {
    hide Content; hide EvBuffer.Wired; hide Wanted; hide Startable; hide Room; hide Match; hide Offered; hide Offering;
    hide Extended; hide TotalLen; hide FirstRoom; hide Full; hide DataIndex;
    TokenBucket.ReadsMost(howmuch, waiting);
    asked := TokenBucket.ReadSize(howmuch, waiting);
    if buf.freezeEnd {
      return Got(-1), asked;
    }
    WantedAtMost(buf.vals, buf.d, asked, NUM_READ_IOVEC);
    var ok := ExpandFast(buf, asked, NUM_READ_IOVEC);
    buf.WiredShape();
    var some := HasStart(buf);
    if !some {
      AskedStarts(buf.vals, buf.d, asked, NUM_READ_IOVEC);
      return Abort, asked;
    }
    var vecs := SetupVecs(buf, asked, NUM_READ_IOVEC, true);
    if failed {
      return Got(-1), asked;
    }
    var n := Min(|arriving|, asked);
    if n == 0 {
      return Got(0), asked;
    }
    ReadInto(buf, vecs, arriving[..n]);
    return Got(n), asked;
  }

  lemma AskedStarts(vs: seq<Val>, d: nat, n: nat, m: nat)
    requires Room(vs, FirstRoom(vs, d), m) >= n
    ensures 0 < n ==> FirstRoom(vs, d) < |vs|
  {
  }

  /** What readv does, and what evbuffer_read does after it */
  method ReadInto(buf: EvBuffer, vecs: seq<IoVec>, data: seq<byte>)
    requires buf.Valid() && FirstRoom(buf.vals, buf.d) < |buf.vals| && 0 < |data| <= TotalLen(vecs)
    requires Match(buf, FirstRoom(buf.vals, buf.d), vecs) && Full(buf.vals, FirstRoom(buf.vals, buf.d), vecs, |vecs| - 1)
    modifies buf.Repr
    ensures buf.Valid() && buf.Repr == old(buf.Repr) && buf.Contents() == old(buf.Contents()) + data
    ensures buf.freezeEnd == old(buf.freezeEnd) && buf.freezeStart == old(buf.freezeStart)
  {
    hide Content; hide EvBuffer.Wired; hide Match; hide TotalLen; hide Full; hide Cut; hide DataIndex;
    hide Joined; hide FirstRoom; hide SameSizes; hide Bears;
    var pieces := Spread(data, vecs);
    ghost var was := buf.vals;
    WriteAll(buf, vecs, pieces);
    SameRoom(buf.vals, was, buf.d, vecs, |vecs| - 1);
    OwnsChains(buf);
    var firstp := FindRoom(buf);
    TakeIn(buf, firstp, vecs, |data|, pieces, FirstRoom(buf.vals, buf.d));
  }

  /** Where the first chain with room hangs */
  method FindRoom(buf: EvBuffer) returns (firstp: Chain?)
    requires buf.Valid() && FirstRoom(buf.vals, buf.d) < |buf.vals|
    ensures firstp == buf.At(FirstRoom(buf.vals, buf.d) - 1) && buf.d <= FirstRoom(buf.vals, buf.d)
  {
    hide Content; hide EvBuffer.Wired; hide DataIndex;
    buf.WiredShape();
    DataAt(buf.vals, buf.d);
    buf.WiredAt(buf.d);
    if buf.d > 0 {
      buf.WiredAt(buf.d - 1);
    }
    firstp := buf.lastWithDataP;
    if buf.Deref(firstp).SpaceLen() == 0 {
      firstp := buf.Deref(firstp);
    }
  }
}
