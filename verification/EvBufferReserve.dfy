/** Room handed out to be written into directly, and its commitment. */
module EvBufferReserve {
  import opened ChainValues
  import opened EvBuffers

  /** The memory of `chain` from `base` on, `len` bytes of it. */
  datatype IoVec = IoVec(chain: Chain, base: nat, len: nat)

  /** A chain behind the data that has none is made to start at the beginning of its memory. */
  method ResetEmpty(buf: EvBuffer, chain: Chain, ghost k: nat)
    requires buf.Valid() && k < |buf.chains| && chain == buf.chains[k] && buf.vals[k].off == 0
    modifies buf`vals, chain`misalign
    ensures buf.Valid() && buf.Contents() == old(buf.Contents())
    ensures buf.vals == old(buf.vals)[k := Val(0, 0, old(buf.vals)[k].mem)]
  {
    hide Content; hide Val.Bytes;
    assert chain.View() == buf.vals[k];
    SameBytesContent(buf.vals, k, buf.vals[k].Emptied());
    chain.misalign := 0;
    buf.vals := buf.vals[k := buf.vals[k].Emptied()];
  }

  /** Where the walk is: what it has counted, in the list as it is and as it was. */
  ghost predicate Walked(now: seq<Val>, was: seq<Val>, d: nat, j: nat, avail: nat, used: nat, n: nat) {
    && d <= j <= |now| == |was| && now == Rested(was, d, j)
    && Counted(now, d, j, avail, used) && Tallied(was, d, j, avail, used, n)
  }

  lemma WalkedNone(vs: seq<Val>, d: nat, n: nat)
    requires d <= |vs|
    ensures Walked(vs, vs, d, d, 0, 0, n)
  {
  }

  /** A chain with data: it can only be the first. */
  lemma WalkedData(now: seq<Val>, was: seq<Val>, d: nat, j: nat, avail: nat, used: nat, n: nat)
    requires Walked(now, was, d, j, avail, used, n) && j < |now| && used < n && DataIndex(now, d) && now[j].off != 0
    ensures j == d && avail == used == 0
    ensures Walked(now, was, d, j + 1, now[j].Space(), if now[j].Space() > 0 then 1 else 0, n)
  {
    hide Tallied; hide Counted; hide Rested;
    assert j == d;
    CountNone(now, d);
    CountData(now, j);
    TallyNext(was, d, j, avail, used, n);
    RestedNext(was, d, j);
  }

  lemma WalkedEmpty(now: seq<Val>, was: seq<Val>, d: nat, j: nat, avail: nat, used: nat, n: nat)
    requires Walked(now, was, d, j, avail, used, n) && j < |now| && used < n && DataIndex(now, d) && now[j].off == 0
    ensures Walked(now[j := Val(0, 0, now[j].mem)], was, d, j + 1, avail + |now[j].mem|, used + 1, n)
  {
    hide Tallied; hide Counted; hide Rested;
    CountEmpty(now, d, j, avail, used);
    TallyNext(was, d, j, avail, used, n);
    RestedNext(was, d, j);
  }

  /** The walk of evbuffer_expand_fast_: how much room the first chains with room have. */
  method CountRoom(buf: EvBuffer, datlen: nat, n: nat) returns (avail: nat, used: nat, ghost j: nat)
    requires buf.Valid() && |buf.chains| > 0 && n >= 2
    modifies buf`vals, buf.Repr - {buf}
    ensures buf.Valid() && buf.Contents() == old(buf.Contents())
    ensures buf.d < j && used <= n && Walked(buf.vals, old(buf.vals), buf.d, j, avail, used, n)
    ensures avail < datlen && used < n ==> j == |buf.chains|
  {
    hide Content; hide Val.Bytes; hide EvBuffer.Wired; hide Walked; hide DataIndex;
    avail, used, j := 0, 0, buf.d;
    ghost var was := buf.vals;
    buf.WiredShape();
    WalkedNone(was, buf.d, n);
    if buf.d > 0 {
      buf.WiredAt(buf.d - 1);
    }
    var chain := buf.Deref(buf.lastWithDataP);
    while chain != null
      invariant buf.Valid() && buf.Contents() == old(buf.Contents()) && |buf.vals| == |buf.chains|
      invariant buf.d <= j <= |buf.chains| && chain == buf.At(j)
      invariant used < n && (avail < datlen || j == buf.d) && Walked(buf.vals, was, buf.d, j, avail, used, n)
      decreases |buf.chains| - j
    {
      buf.WiredAt(j);
      DataAt(buf.vals, buf.d);
      if chain.off != 0 {
        WalkedData(buf.vals, was, buf.d, j, avail, used, n);
        var space := chain.SpaceLen();
        if space > 0 {
          avail, used := avail + space, used + 1;
        }
      } else {
        WalkedEmpty(buf.vals, was, buf.d, j, avail, used, n);
        ResetEmpty(buf, chain, j);
        avail, used := avail + chain.buffer.Length, used + 1;
      }
      j := j + 1;
      if avail >= datlen || used == n {
        return;
      }
      buf.WiredAt(j - 1);
      chain := chain.next;
    }
  }

  /** The tally is of the chunks as they were. */
  ghost predicate Tallied(vs: seq<Val>, d: nat, j: nat, avail: nat, used: nat, n: nat) {
    && used <= n
    && Offered(vs, d, n) == avail + Offered(vs, j, n - used)
    && Offering(vs, d) == used + Offering(vs, j)
  }

  lemma TallyNext(vs: seq<Val>, d: nat, j: nat, avail: nat, used: nat, n: nat)
    requires Tallied(vs, d, j, avail, used, n) && j < |vs| && used < n && vs[j].Ok()
    ensures if Offers(vs[j]) then Tallied(vs, d, j + 1, avail + Offer(vs[j]), used + 1, n)
      else Tallied(vs, d, j + 1, avail, used, n)
  {
  }

  lemma WalkedTo(now: seq<Val>, was: seq<Val>, d: nat, j: nat, avail: nat, used: nat, n: nat)
    requires Walked(now, was, d, j, avail, used, n)
    ensures j <= |now| == |was| && now == Rested(was, d, j)
    ensures Counted(now, d, j, avail, used) && Tallied(was, d, j, avail, used, n)
  {
  }

  /** What the tally says once it is done. */
  lemma TallyDone(vs: seq<Val>, d: nat, j: nat, avail: nat, used: nat, datlen: nat, n: nat)
    requires Tallied(vs, d, j, avail, used, n) && d < j <= |vs| && forall i :: 0 <= i < |vs| ==> vs[i].Ok()
    requires avail < datlen && used < n ==> j == |vs|
    ensures avail >= datlen ==> Offered(vs, d, n) >= datlen && Wanted(vs, d, datlen, n) == 0
    ensures avail < datlen && used < n ==>
      Offering(vs, d) < n && Offered(vs, d, n) == avail && Wanted(vs, d, datlen, n) == datlen - avail
    ensures avail < datlen && used == n ==>
      Offering(vs, d) >= n && Wanted(vs, d, datlen, n) == datlen - if vs[d].off == 0 then 0 else vs[d].Space()
  {
    OfferedSome(vs, j, n - used);
  }

  lemma CountNone(vs: seq<Val>, d: nat)
    requires d <= |vs|
    ensures forall avail: nat, used: nat :: Counted(vs, d, d, avail, used) <==> avail == 0 && used == 0
  {
  }

  /** A new chain without data behind all the others. */
  method AppendEmpty(buf: EvBuffer, tmp: Chain)
    requires buf.Valid() && tmp !in buf.Repr && tmp.buffer !in buf.Repr && tmp.next == null
    requires tmp.View().Ok() && tmp.off == 0
    modifies buf`first, buf`last, buf`chains, buf`vals, buf`Repr, buf.Repr - {buf}
    ensures buf.Valid() && buf.Contents() == old(buf.Contents()) && buf.Repr == old(buf.Repr) + {tmp, tmp.buffer}
    ensures buf.vals == old(buf.vals) + [old(tmp.View())] && |buf.chains| > 0
  {
    hide Content; hide Val.Bytes; hide EvBuffer.Spine; hide Val.Ok;
    buf.WiredShape();
    if |buf.chains| > 0 {
      buf.WiredAt(|buf.chains| - 1);
    }
    EmptyBackContent(buf.vals, buf.d, tmp.View());
    buf.LinkAt(buf.last, tmp);
    buf.last := tmp;
  }

  /** The chains without data are freed, each once; what is left of the last one with data is its room. */
  method FreeEmpty(buf: EvBuffer) returns (avail: nat, ghost uses: seq<Use>)
    requires buf.Valid() && |buf.chains| > 0
    modifies buf.Repr
    ensures buf.Valid() && fresh(buf.Repr - old(buf.Repr)) && buf.Contents() == old(buf.Contents())
    ensures buf.freezeEnd == old(buf.freezeEnd) && buf.freezeStart == old(buf.freezeStart)
    ensures old(buf.vals[buf.d].off) == 0 ==> buf.vals == [] && avail == 0
    ensures old(buf.vals[buf.d].off) != 0 ==>
      && buf.vals == old(buf.vals)[..old(buf.d) + 1] && buf.d == old(buf.d) && avail == old(buf.vals[buf.d]).Space()
    ensures Orderly(uses) && buf.chains + Released(uses) == old(buf.chains)
  {
    hide Content; hide Val.Bytes; hide EvBuffer.Spine; hide Orderly; hide Released;
    buf.WiredShape();
    buf.WiredAt(buf.d);
    if buf.d > 0 {
      buf.WiredAt(buf.d - 1);
    }
    var chain := buf.Deref(buf.lastWithDataP);
    avail := 0;
    if chain.off == 0 {
      NoData(buf.vals, buf.d);
      uses := buf.FreeAllChains(chain, 0);
      buf.ZeroChain();
    } else {
      avail := chain.SpaceLen();
      TrimmedContent(buf.vals, buf.d);
      assert Trimmed(buf.vals, buf.d) == buf.vals[..buf.d + 1];
      uses := buf.FreeAllChains(chain.next, buf.d + 1);
      buf.CutAt(chain, buf.d + 1);
      buf.last := chain;
    }
  }

  /** evbuffer_expand_fast_ when the first chains with room do not have enough: the empty ones are replaced. */
  method ReplaceEmpty(buf: EvBuffer, datlen: nat, n: nat) returns (ok: bool)
    requires buf.Valid() && |buf.chains| > 0 && n >= 2 && datlen > 0
    requires buf.vals[buf.d].off != 0 ==> buf.vals[buf.d].Space() < datlen
    modifies buf.Repr
    ensures buf.Valid() && fresh(buf.Repr - old(buf.Repr)) && buf.Contents() == old(buf.Contents())
    ensures ok ==> |buf.chains| > 0 && Room(buf.vals, FirstRoom(buf.vals, buf.d), n) >= datlen
    ensures ok <==> old(datlen - if buf.vals[buf.d].off == 0 then 0 else buf.vals[buf.d].Space()) <= MAX_DATA
    ensures buf.freezeEnd == old(buf.freezeEnd) && buf.freezeStart == old(buf.freezeStart)
  {
    hide Content; hide Val.Bytes; hide EvBuffer.Spine; hide AllocSize; hide Room;
    buf.WiredShape();
    var avail, uses := FreeEmpty(buf);
    var tmp := ChainNew(datlen - avail);
    if tmp == null {
      return false;
    }
    buf.WiredShape();
    if buf.vals == [] {
      OnlyRoom(tmp.View(), n);
    } else {
      ReplacedRoom(buf.vals, buf.d, n, datlen, tmp.View());
    }
    AppendEmpty(buf, tmp);
    return true;
  }

  lemma NoData(vs: seq<Val>, d: nat)
    requires DataIndex(vs, d) && d < |vs| && vs[d].off == 0
    ensures Content(vs) == []
  {
    hide Content;
    assert d == 0;
    forall i | 0 <= i < |vs|
      ensures vs[i].off == 0
    {
      assert i == 0 || d < i;
    }
    ContentEmpty(vs);
  }

  lemma OnlyRoom(t: Val, n: nat)
    requires t.Ok() && n >= 2
    ensures [] + [t] == [t] && Room([t], FirstRoom([t], 0), n) >= t.Space()
  {
    assert Room([t], 1, n - 1) == 0;
  }

  /** A new chunk stands behind all the others, which have given what they offer. */
  ghost predicate Extended(now: seq<Val>, was: seq<Val>, d: nat, datlen: nat, n: nat) {
    && |now| == |was| + 1 && now[..|was|] == Rested(was, d, |was|)
    && Offered(was, d, n) < datlen && MadeFor(now[|was|], 0, datlen - Offered(was, d, n))
  }

  /**
   evbuffer_expand_fast_: afterwards the first n chains with room have what was asked for.  It fails
   exactly when the new chain that it would take is larger than any can be.
   */
  method ExpandFast(buf: EvBuffer, datlen: nat, n: nat) returns (ok: bool)
    requires buf.Valid() && n >= 2
    modifies buf.Repr
    ensures buf.Valid() && fresh(buf.Repr - old(buf.Repr)) && buf.Contents() == old(buf.Contents())
    ensures ok ==> |buf.chains| > 0 && Room(buf.vals, FirstRoom(buf.vals, buf.d), n) >= datlen
    ensures ok <==> old(Wanted(buf.vals, buf.d, datlen, n)) <= MAX_DATA
    ensures ok && old(|buf.vals| > 0 && Offered(buf.vals, buf.d, n) < datlen && Offering(buf.vals, buf.d) < n) ==>
      buf.d == old(buf.d) && Extended(buf.vals, old(buf.vals), buf.d, datlen, n)
    ensures datlen == 0 && ok ==> (FirstRoom(buf.vals, buf.d) < |buf.vals| <==> old(Startable(buf.vals, buf.d)))
    ensures buf.freezeEnd == old(buf.freezeEnd) && buf.freezeStart == old(buf.freezeStart)
  {
    hide Content; hide Val.Bytes; hide EvBuffer.Spine; hide AllocSize; hide Room;
    hide Walked; hide Rested; hide Tallied; hide Counted; hide Offered; hide Offering; hide Wanted;
    buf.WiredShape();
    assert |buf.vals| == 0 ==> Wanted(buf.vals, buf.d, datlen, n) == datlen by { WantedNone(buf.vals, buf.d, datlen, n); }
    ghost var was := buf.vals;
    if buf.last == null {
      var chain := ChainNew(datlen);
      if chain == null {
        return false;
      }
      OnlyRoom(chain.View(), n);
      assert chain.View().Space() > 0;
      buf.ChainInsert(chain);
      assert chain.View().Bytes() == [];
      return true;
    }
    var avail, used, j := CountRoom(buf, datlen, n);
    WalkedTo(buf.vals, was, buf.d, j, avail, used, n);
    TallyDone(was, buf.d, j, avail, used, datlen, n);
    buf.WiredShape();
    CountedData(buf.vals, buf.d, j, avail, used);
    RestedAt(was, buf.d, j, buf.d);
    if avail >= datlen {
      EnoughRoom(buf.vals, buf.d, j, avail, used, n);
      return true;
    }
    if used < n {
      var tmp := ChainNew(datlen - avail);
      if tmp == null {
        return false;
      }
      ExtendedRoom(buf.vals, buf.d, avail, used, n, datlen, tmp.View());
      ExtendedBy(buf.vals, was, buf.d, datlen, n, tmp.View());
      AppendEmpty(buf, tmp);
      return true;
    }
    ok := ReplaceEmpty(buf, datlen, n);
  }

  lemma ExtendedBy(vs: seq<Val>, was: seq<Val>, d: nat, datlen: nat, n: nat, t: Val)
    requires vs == Rested(was, d, |was|) && Offered(was, d, n) < datlen && MadeFor(t, 0, datlen - Offered(was, d, n))
    ensures Extended(vs + [t], was, d, datlen, n)
  {
  }

  lemma WantedNone(vs: seq<Val>, d: nat, datlen: nat, n: nat)
    ensures |vs| == 0 ==> Wanted(vs, d, datlen, n) == datlen
  {
  }

  lemma EnoughRoom(vs: seq<Val>, d: nat, j: nat, avail: nat, used: nat, n: nat)
    requires Counted(vs, d, j, avail, used) && d < j && used <= n
    requires forall i :: 0 <= i < |vs| ==> vs[i].Ok()
    ensures Room(vs, FirstRoom(vs, d), n) >= avail
  {
    RoomMore(vs, FirstRoom(vs, d), j - FirstRoom(vs, d), n);
  }

  // ---- evbuffer_reserve_space ----

  /** The vectors are room behind the data of the chains from `f` on, one after the other. */
  ghost predicate Match(buf: EvBuffer, f: nat, vecs: seq<IoVec>)
    reads buf
  {
    && |buf.vals| == |buf.chains| && f + |vecs| <= |buf.chains|
    && forall i {:trigger vecs[i]} :: 0 <= i < |vecs| ==>
      && vecs[i].chain == buf.chains[f + i]
      && vecs[i].base == buf.vals[f + i].misalign + buf.vals[f + i].off
      && vecs[i].len <= buf.vals[f + i].Space()
  }

  /** The room that vectors offer. */
  function TotalLen(vecs: seq<IoVec>): nat {
    if vecs == [] then 0 else TotalLen(vecs[..|vecs| - 1]) + vecs[|vecs| - 1].len
  }

  lemma MatchSnoc(buf: EvBuffer, f: nat, vecs: seq<IoVec>, v: IoVec)
    requires Match(buf, f, vecs) && f + |vecs| < |buf.chains|
    requires v.chain == buf.chains[f + |vecs|]
    requires v.base == buf.vals[f + |vecs|].misalign + buf.vals[f + |vecs|].off && v.len <= buf.vals[f + |vecs|].Space()
    ensures Match(buf, f, vecs + [v]) && TotalLen(vecs + [v]) == TotalLen(vecs) + v.len
  {
    assert (vecs + [v])[..|vecs|] == vecs;
  }

  /** The first `m` vectors are all of the room of their chains. */
  ghost predicate Full(vals: seq<Val>, f: nat, vecs: seq<IoVec>, m: int) {
    f + |vecs| <= |vals| && forall i {:trigger vecs[i]} :: 0 <= i < m && i < |vecs| ==> vecs[i].len == vals[f + i].Space()
  }

  lemma FullNone(vals: seq<Val>, f: nat)
    requires f <= |vals|
    ensures Full(vals, f, [], 0) && Full(vals, f, [], -1)
  {
  }

  lemma FullSnoc(vals: seq<Val>, f: nat, vecs: seq<IoVec>, v: IoVec)
    requires Full(vals, f, vecs, |vecs|) && f + |vecs| < |vals|
    ensures Full(vals, f, vecs + [v], |vecs|)
    ensures v.len == vals[f + |vecs|].Space() ==> Full(vals, f, vecs + [v], |vecs| + 1)
  {
  }

  /** evbuffer_read_setup_vecs_; exact cuts the last vector to what is asked for */
  method SetupVecs(buf: EvBuffer, howmuch: nat, n: nat, exact: bool) returns (vecs: seq<IoVec>)
    requires buf.Valid() && FirstRoom(buf.vals, buf.d) < |buf.chains|
    requires Room(buf.vals, FirstRoom(buf.vals, buf.d), n) >= howmuch
    ensures |vecs| <= n && TotalLen(vecs) >= howmuch && (exact ==> TotalLen(vecs) == howmuch)
    ensures Match(buf, FirstRoom(buf.vals, buf.d), vecs) && Full(buf.vals, FirstRoom(buf.vals, buf.d), vecs, |vecs| - 1)
    ensures !exact ==> Full(buf.vals, FirstRoom(buf.vals, buf.d), vecs, |vecs|)
  {
    hide Content; hide Val.Bytes; hide EvBuffer.Wired; hide DataIndex; hide Match; hide TotalLen; hide Room; hide Full;
    ghost var f := FirstRoom(buf.vals, buf.d);
    buf.WiredShape();
    DataAt(buf.vals, buf.d);
    buf.WiredAt(buf.d);
    if buf.d > 0 {
      buf.WiredAt(buf.d - 1);
    }
    var chain := buf.Deref(buf.lastWithDataP);
    if chain.SpaceLen() == 0 {
      chain := chain.next;
    }
    var soFar := 0;
    vecs := [];
    MatchNone(buf, f);
    FullNone(buf.vals, f);
    while |vecs| < n && soFar < howmuch
      invariant |vecs| <= n && Match(buf, f, vecs) && Full(buf.vals, f, vecs, |vecs| - 1)
      invariant !exact ==> Full(buf.vals, f, vecs, |vecs|)
      invariant soFar == TotalLen(vecs) && (exact ==> soFar <= howmuch)
      invariant soFar < howmuch ==>
        chain == buf.At(f + |vecs|) && soFar == Room(buf.vals, f, |vecs|) && Full(buf.vals, f, vecs, |vecs|)
      decreases n - |vecs|
    {
      RoomEnds(buf.vals, f, |vecs|, n);
      buf.WiredAt(f + |vecs|);
      RoomSnoc(buf.vals, f, |vecs|);
      var avail := chain.SpaceLen();
      if avail > howmuch - soFar && exact {
        avail := howmuch - soFar;
      }
      var vec := IoVec(chain, chain.misalign + chain.off, avail);
      MatchSnoc(buf, f, vecs, vec);
      FullSnoc(buf.vals, f, vecs, vec);
      vecs := vecs + [vec];
      soFar := soFar + avail;
      chain := chain.next;
    }
  }

  lemma MatchNone(buf: EvBuffer, f: nat)
    requires |buf.vals| == |buf.chains| && f <= |buf.chains|
    ensures Match(buf, f, []) && TotalLen([]) == 0 == Room(buf.vals, f, 0)
  {
  }

  /** There are more chunks as long as there is more room. */
  lemma {:induction false} RoomEnds(vs: seq<Val>, k: nat, n: nat, m: nat)
    requires n <= m && Room(vs, k, n) < Room(vs, k, m)
    ensures k + n < |vs|
    decreases n
  {
    if n > 0 {
      RoomEnds(vs, k + 1, n - 1, m - 1);
    }
  }

  /**
   There is a chain to start in.  Without one, which is when the last chain with data is full and none
   follows, asking for 0 bytes runs into an assertion in evbuffer_read_setup_vecs_.
   */
  ghost predicate Startable(vs: seq<Val>, d: nat) {
    |vs| == 0 || d + 1 < |vs| || (d < |vs| && Offer(vs[d]) != 0)
  }

  /** An ssize_t read as a size_t. */
  function ToSize(size: int): nat
    requires SSIZE_MIN <= size
  {
    if size < 0 then size + SIZE_MAX + 1 else size
  }

  /** What comes of a reservation: nothing, an assertion that fails, or vectors. */
  datatype Reserved = Refused | Aborted | Vectors(vecs: seq<IoVec>)

  /** All of the memory behind the data of its chain. */
  ghost predicate AllRoom(vec: IoVec)
    reads vec.chain
  {
    vec.base == vec.chain.misalign + vec.chain.off && vec.base + vec.len == vec.chain.buffer.Length
  }

  lemma FullRoom(buf: EvBuffer, f: nat, vecs: seq<IoVec>)
    requires buf.Valid() && Match(buf, f, vecs) && Full(buf.vals, f, vecs, |vecs|)
    ensures forall i :: 0 <= i < |vecs| ==> AllRoom(vecs[i])
  {
    hide EvBuffer.Spine;
    forall i | 0 <= i < |vecs|
      ensures AllRoom(vecs[i])
    {
      buf.WiredAt(f + i);
    }
  }

  /** evbuffer_reserve_space for two vectors or more */
  method ReserveSpace(buf: EvBuffer, size: int, nVecs: nat) returns (r: Reserved)
    requires buf.Valid() && nVecs >= 2 && SSIZE_MIN <= size <= CHAIN_MAX
    modifies buf.Repr
    ensures buf.Valid() && fresh(buf.Repr - old(buf.Repr)) && buf.Contents() == old(buf.Contents())
    ensures buf.freezeEnd == old(buf.freezeEnd) && buf.freezeStart == old(buf.freezeStart)
    ensures r == Refused <==> buf.freezeEnd || size < 0 || old(Wanted(buf.vals, buf.d, size, nVecs)) > MAX_DATA
    ensures r == Aborted <==> !buf.freezeEnd && size == 0 && !old(Startable(buf.vals, buf.d))
    ensures r.Vectors? ==>
      |r.vecs| <= nVecs && TotalLen(r.vecs) >= size && Match(buf, FirstRoom(buf.vals, buf.d), r.vecs)
    ensures r.Vectors? ==> forall i :: 0 <= i < |r.vecs| ==> AllRoom(r.vecs[i])
    ensures r.Vectors? && old(|buf.vals| > 0 && Offered(buf.vals, buf.d, nVecs) < size && Offering(buf.vals, buf.d) < nVecs) ==>
      buf.d == old(buf.d) && Extended(buf.vals, old(buf.vals), buf.d, size, nVecs)
  {
    hide Content; hide EvBuffer.Wired; hide Room; hide Match; hide Offered; hide Offering; hide Wanted; hide Extended;
    hide TotalLen; hide Startable;
    if buf.freezeEnd {
      return Refused;
    }
    WantedNothing(buf.vals, buf.d, nVecs);
    var ok := ExpandFast(buf, ToSize(size), nVecs);
    if !ok || size < 0 {
      return Refused;
    }
    buf.WiredShape();
    if size == 0 {
      var some := HasStart(buf);
      if !some {
        return Aborted;
      }
    }
    RoomStarts(buf.vals, buf.d, size, nVecs);
    var vecs := SetupVecs(buf, size, nVecs, false);
    FullRoom(buf, FirstRoom(buf.vals, buf.d), vecs);
    return Vectors(vecs);
  }

  /** EVUTIL_ASSERT(chain) in evbuffer_read_setup_vecs_ */
  method HasStart(buf: EvBuffer) returns (yes: bool)
    requires buf.Valid() && |buf.chains| > 0
    ensures yes <==> FirstRoom(buf.vals, buf.d) < |buf.vals|
  {
    hide Content; hide Val.Bytes; hide EvBuffer.Wired; hide DataIndex;
    buf.WiredShape();
    DataAt(buf.vals, buf.d);
    buf.WiredAt(buf.d);
    if buf.d > 0 {
      buf.WiredAt(buf.d - 1);
    }
    var chain := buf.Deref(buf.lastWithDataP);
    if chain.SpaceLen() == 0 {
      chain := chain.next;
    }
    return chain != null;
  }

  lemma WantedNothing(vs: seq<Val>, d: nat, n: nat)
    requires DataIndex(vs, d)
    ensures Wanted(vs, d, 0, n) == 0
  {
    OfferedSome(vs, d, n);
  }

  lemma RoomStarts(vs: seq<Val>, d: nat, size: nat, n: nat)
    requires Room(vs, FirstRoom(vs, d), n) >= size && |vs| > 0 && (d == 0 || d < |vs|)
    requires size == 0 ==> FirstRoom(vs, d) < |vs|
    ensures FirstRoom(vs, d) < |vs|
  {
  }

  /** The regions handed out lie behind all data, within their chains, and do not overlap. */
  lemma RegionsDisjoint(buf: EvBuffer, vecs: seq<IoVec>, i: nat, j: nat)
    requires buf.Valid() && Match(buf, FirstRoom(buf.vals, buf.d), vecs) && i < j < |vecs|
    ensures vecs[i].chain != vecs[j].chain && vecs[i].chain.buffer != vecs[j].chain.buffer
    ensures vecs[i].base == vecs[i].chain.misalign + vecs[i].chain.off
    ensures vecs[i].base + vecs[i].len <= vecs[i].chain.buffer.Length
  {
    var f := FirstRoom(buf.vals, buf.d);
    buf.WiredAt(f + i);
    buf.SpineDistinct(f + i, f + j);
  }

  /** No chunk has moved its data, or has more or less room. */
  ghost predicate SameSizes(now: seq<Val>, was: seq<Val>) {
    && |now| == |was|
    && forall i :: 0 <= i < |now| ==>
      now[i].misalign == was[i].misalign && now[i].off == was[i].off && |now[i].mem| == |was[i].mem|
  }

  lemma SameSizesSelf(vs: seq<Val>)
    ensures SameSizes(vs, vs)
  {
  }

  lemma SameSizesAll(now: seq<Val>, before: seq<Val>, was: seq<Val>)
    requires SameSizes(now, before) && SameSizes(before, was)
    ensures SameSizes(now, was)
  {
  }

  lemma SameRoom(now: seq<Val>, was: seq<Val>, d: nat, vecs: seq<IoVec>, m: int)
    requires SameSizes(now, was)
    ensures |now| == |was| && FirstRoom(now, d) == FirstRoom(was, d)
    ensures Full(now, FirstRoom(was, d), vecs, m) <==> Full(was, FirstRoom(was, d), vecs, m)
  {
    assert forall j :: 0 <= j < |now| ==> now[j].Space() == was[j].Space();
  }

  /** The caller writes into its room: no data changes, and the vectors stay good. */
  method WriteInto(buf: EvBuffer, vecs: seq<IoVec>, i: nat, data: seq<byte>)
    requires buf.Valid() && i < |vecs| && Match(buf, FirstRoom(buf.vals, buf.d), vecs) && |data| <= vecs[i].len
    modifies buf`vals, vecs[i].chain.buffer
    ensures buf.Valid() && buf.Contents() == old(buf.Contents())
    ensures Match(buf, FirstRoom(buf.vals, buf.d), vecs) && SameSizes(buf.vals, old(buf.vals))
    ensures vecs[i].base + |data| <= vecs[i].chain.buffer.Length
    ensures vecs[i].chain.buffer[vecs[i].base..vecs[i].base + |data|] == data
  {
    hide Content; hide Val.Bytes; hide EvBuffer.Wired; hide Val.Scribbled;
    ghost var f := FirstRoom(buf.vals, buf.d);
    ghost var k := f + i;
    buf.WiredShape();
    buf.WiredAt(k);
    SameBytesContent(buf.vals, k, buf.vals[k].Scribbled(vecs[i].base, data));
    ScribbleAt(buf, vecs[i].chain, vecs[i].base, data, k);
    buf.WiredAt(k);
    assert vecs[i].chain.View().mem[vecs[i].base..vecs[i].base + |data|] == data;
  }

  method ScribbleAt(buf: EvBuffer, chain: Chain, at: nat, data: seq<byte>, ghost k: nat)
    requires buf.Wired() && k < |buf.chains| && chain == buf.chains[k] && buf.vals[k].Ok()
    requires buf.vals[k].misalign + buf.vals[k].off <= at && at + |data| <= |buf.vals[k].mem|
    modifies buf`vals, chain.buffer
    ensures buf.Wired() && buf.vals == old(buf.vals)[k := old(buf.vals)[k].Scribbled(at, data)]
  {
    hide Content; hide Val.Bytes; hide Val.Scribbled;
    assert chain.View() == buf.vals[k];
    chain.Scribble(at, data);
    buf.vals := buf.vals[k := buf.vals[k].Scribbled(at, data)];
  }

  // ---- evbuffer_commit_space ----

  /** What stands in the vectors, one after the other. */
  ghost function Written(vecs: seq<IoVec>): seq<byte>
    reads set v | v in vecs :: v.chain.buffer
  {
    if vecs == [] then [] else Written(vecs[..|vecs| - 1]) + Piece(vecs[|vecs| - 1])
  }

  /** The bytes in the region of a vector. */
  ghost function Piece(v: IoVec): seq<byte>
    reads v.chain.buffer
  {
    if v.base + v.len <= v.chain.buffer.Length then v.chain.buffer[v.base..v.base + v.len] else []
  }

  /** The vector is room behind the data of the very last chain. */
  predicate IsLast(buf: EvBuffer, vec: IoVec)
    reads buf, vec.chain
  {
    buf.last == vec.chain && vec.base == vec.chain.misalign + vec.chain.off
  }

  /** Pass 1 of evbuffer_commit_space: the vectors are what was handed out, or less. */
  method CheckVecs(buf: EvBuffer, first: Chain?, vecs: seq<IoVec>, ghost f: nat) returns (ok: bool)
    requires buf.Valid() && f <= |buf.chains| && first == buf.At(f)
    ensures ok <==> Match(buf, f, vecs)
  {
    hide Content; hide Val.Bytes; hide EvBuffer.Spine;
    buf.WiredShape();
    var chain, i := first, 0;
    while i < |vecs|
      invariant i <= |vecs| && f + i <= |buf.chains| && chain == buf.At(f + i)
      invariant Match(buf, f, vecs[..i])
    {
      if chain == null {
        return false;
      }
      buf.WiredAt(f + i);
      if vecs[i].chain != chain || vecs[i].base != chain.misalign + chain.off || vecs[i].len > chain.SpaceLen() {
        assert Match(buf, f, vecs) ==> vecs[i].chain == buf.chains[f + i] && vecs[i].len <= buf.vals[f + i].Space();
        return false;
      }
      chain, i := chain.next, i + 1;
    }
    assert vecs[..i] == vecs;
    return true;
  }

  /** Room behind the data of chain `k` becomes data, on the list. */
  method GrowAt(buf: EvBuffer, chain: Chain, n: nat, ghost k: nat)
    requires buf.Wired() && k < |buf.chains| && chain == buf.chains[k] && buf.vals[k].Ok() && n <= buf.vals[k].Space()
    modifies buf`vals, chain`off
    ensures buf.Wired() && buf.vals == old(buf.vals)[k := old(buf.vals)[k].Grown(n)]
  {
    hide Content; hide Val.Bytes; hide Val.Grown;
    assert chain.View() == buf.vals[k];
    chain.Grow(n);
    buf.vals := buf.vals[k := buf.vals[k].Grown(n)];
  }

  /** Room behind the data of chain `k` becomes data. */
  method CommitOne(buf: EvBuffer, chainp: Chain?, vec: IoVec, ghost k: nat)
    requires buf.Wired() && DataIndex(buf.vals, buf.d) && buf.d <= k < |buf.chains| && chainp == buf.At(k - 1)
    requires vec.chain == buf.chains[k] && vec.base == vec.chain.misalign + vec.chain.off && vec.len <= buf.vals[k].Space()
    modifies buf`lastWithDataP, buf`d, buf`vals, vec.chain`off
    ensures buf.Wired() && DataIndex(buf.vals, buf.d) && buf.d <= k
    ensures Content(buf.vals) == Content(old(buf.vals)) + Piece(vec)
    ensures buf.vals == old(buf.vals)[k := old(buf.vals)[k].Grown(vec.len)]
    ensures |Piece(vec)| == vec.len
  {
    hide Content; hide Val.Bytes; hide Val.Grown; hide EvBuffer.Spine;
    buf.WiredShape();
    buf.WiredAt(k);
    AppendContent(buf.vals, k, buf.vals[k].Grown(vec.len), Piece(vec));
    GrowAt(buf, vec.chain, vec.len, k);
    if vec.len > 0 {
      buf.SetLastWithData(chainp, k);
    }
  }

  lemma WrittenSnoc(vecs: seq<IoVec>, i: nat)
    requires i < |vecs|
    ensures Written(vecs[..i + 1]) == Written(vecs[..i]) + Piece(vecs[i])
  {
    assert vecs[..i + 1][..i] == vecs[..i];
  }

  /** Pass 2 of evbuffer_commit_space. */
  method CommitAll(buf: EvBuffer, firstp: Chain?, vecs: seq<IoVec>, ghost f: nat) returns (added: nat)
    requires buf.Valid() && buf.d <= f && |vecs| > 0 && Match(buf, f, vecs) && firstp == buf.At(f - 1)
    modifies buf`lastWithDataP, buf`d, buf`vals, buf.ChainSet()`off
    ensures buf.Wired() && DataIndex(buf.vals, buf.d)
    ensures Content(buf.vals) == old(buf.Contents()) + Written(vecs) && added == |Written(vecs)|
  {
    hide Content; hide Val.Bytes; hide Val.Grown; hide EvBuffer.Wired; hide DataIndex; hide Written; hide Piece;
    ghost var vs := buf.vals;
    var chainp, i := firstp, 0;
    added := 0;
    buf.WiredShape();
    assert Written(vecs[..0]) == [] by { WrittenNone(vecs[..0]); }
    while i < |vecs|
      invariant i <= |vecs| && buf.Wired() && DataIndex(buf.vals, buf.d)
      invariant i < |vecs| ==> chainp == buf.At(f + i - 1)
      invariant |vs| == |buf.vals| == |buf.chains| && buf.d <= f + i
      invariant forall j :: f + i <= j < |vs| ==> buf.vals[j] == vs[j]
      invariant Content(buf.vals) == Content(vs) + Written(vecs[..i]) && added == |Written(vecs[..i])|
    {
      buf.WiredAt(f + i);
      if f + i > 0 {
        buf.WiredAt(f + i - 1);
      }
      WrittenSnoc(vecs, i);
      Assoc(Content(vs), Written(vecs[..i]), Piece(vecs[i]));
      CommitOne(buf, chainp, vecs[i], f + i);
      added := added + vecs[i].len;
      buf.WiredAt(f + i);
      chainp, i := buf.Deref(chainp), i + 1;
    }
    assert vecs[..i] == vecs;
  }

  twostate lemma SameWritten(vecs: seq<IoVec>)
    requires forall v :: v in vecs ==> unchanged(v.chain.buffer)
    ensures Written(vecs) == old(Written(vecs))
  {
  }

  lemma WrittenNone(vecs: seq<IoVec>)
    requires |vecs| == 0
    ensures Written(vecs) == []
  {
  }

  /** The short cut for a single vector behind the data of the very last chain. */
  method CommitLast(buf: EvBuffer, vec: IoVec)
    requires buf.Valid() && |buf.chains| > 0 && buf.last == vec.chain && vec.base == vec.chain.misalign + vec.chain.off
    requires vec.len <= buf.vals[|buf.vals| - 1].Space()
    modifies buf`lastWithDataP, buf`d, buf`vals, buf`totalLen, buf.ChainSet()`off
    ensures buf.Valid() && buf.Contents() == old(buf.Contents()) + Piece(vec)
  {
    hide Content; hide Val.Bytes; hide Val.Grown; hide EvBuffer.Spine;
    ghost var k := |buf.chains| - 1;
    buf.WiredShape();
    buf.WiredAt(k);
    AppendContent(buf.vals, k, buf.vals[k].Grown(vec.len), Piece(vec));
    GrowAt(buf, buf.last, vec.len, k);
    buf.WiredShape();
    if vec.len > 0 {
      buf.AdvanceLastWithData();
    }
    buf.totalLen := buf.totalLen + vec.len;
  }

  /** What evbuffer_commit_space takes. */
  ghost predicate Committable(buf: EvBuffer, vecs: seq<IoVec>)
    reads buf, set v | v in vecs :: v.chain
  {
    || |vecs| == 0
    || (|vecs| == 1 && IsLast(buf, vecs[0]) && |buf.vals| > 0 && vecs[0].len <= buf.vals[|buf.vals| - 1].Space())
    || (|buf.chains| > 0 && Match(buf, FirstRoom(buf.vals, buf.d), vecs))
  }

  /** Room behind the data of the very last chain. */
  ghost predicate BehindLast(buf: EvBuffer, vec: IoVec)
    reads buf, vec.chain
  {
    && |buf.chains| > 0 && vec.chain == buf.last
    && vec.base == vec.chain.misalign + vec.chain.off && vec.base + vec.len <= vec.chain.buffer.Length
  }

  /** evbuffer_commit_space */
  method CommitSpace(buf: EvBuffer, vecs: seq<IoVec>) returns (ok: bool)
    requires buf.Valid()
    modifies buf`lastWithDataP, buf`d, buf`vals, buf`totalLen, buf.ChainSet()`off
    ensures buf.Valid()
    ensures ok <==> !buf.freezeEnd && old(Committable(buf, vecs))
    ensures buf.Contents() == old(buf.Contents()) + if ok then Written(vecs) else []
    ensures ok ==> !buf.freezeEnd
    ensures !buf.freezeEnd && |vecs| == 0 ==> ok && buf.Contents() == old(buf.Contents())
    ensures !buf.freezeEnd && |vecs| == 1 && old(BehindLast(buf, vecs[0])) ==> ok
  {
    hide Content; hide Val.Bytes; hide EvBuffer.Spine; hide Match; hide Written;
    buf.WiredShape();
    if buf.freezeEnd {
      return false;
    }
    if |vecs| == 0 {
      WrittenNone(vecs);
      return true;
    }
    if |vecs| == 1 && buf.last != null && IsLast(buf, vecs[0]) {
      buf.WiredAt(|buf.chains| - 1);
      if vecs[0].len > buf.last.SpaceLen() {
        MatchFirst(buf, FirstRoom(buf.vals, buf.d), vecs);
        return false;
      }
      WrittenOne(vecs);
      CommitLast(buf, vecs[0]);
      WrittenOne(vecs);
      return true;
    }
    ok := CommitMany(buf, vecs);
  }

  /** The two passes of evbuffer_commit_space */
  method CommitMany(buf: EvBuffer, vecs: seq<IoVec>) returns (ok: bool)
    requires buf.Valid() && |vecs| > 0
    modifies buf`lastWithDataP, buf`d, buf`vals, buf`totalLen, buf.ChainSet()`off
    ensures buf.Valid()
    ensures ok <==> old(|buf.chains| > 0 && Match(buf, FirstRoom(buf.vals, buf.d), vecs))
    ensures buf.Contents() == old(buf.Contents()) + if ok then Written(vecs) else []
  {
    hide Content; hide Val.Bytes; hide EvBuffer.Spine; hide Match; hide Written;
    buf.WiredShape();
    if buf.d > 0 {
      buf.WiredAt(buf.d - 1);
    }
    var firstp := buf.lastWithDataP;
    if buf.Deref(firstp) == null {
      return false;
    }
    buf.WiredAt(buf.d);
    ghost var f := FirstRoom(buf.vals, buf.d);
    if buf.Deref(firstp).SpaceLen() == 0 {
      firstp := buf.Deref(firstp);
    }
    var okay := CheckVecs(buf, buf.Deref(firstp), vecs, f);
    if !okay {
      return false;
    }
    var added := CommitAll(buf, firstp, vecs, f);
    label Committed:
    buf.totalLen := buf.totalLen + added;
    SameWritten@Committed(vecs);
    return true;
  }

  lemma MatchFirst(buf: EvBuffer, f: nat, vecs: seq<IoVec>)
    requires buf.Wired() && |buf.chains| > 0 && |vecs| == 1
    requires vecs[0].chain == buf.chains[|buf.chains| - 1] && vecs[0].len > buf.vals[|buf.chains| - 1].Space()
    ensures !Match(buf, f, vecs)
  {
    if f < |buf.chains| {
      buf.SpineDistinct(f, |buf.chains| - 1);
    }
  }

  lemma WrittenOne(vecs: seq<IoVec>)
    requires |vecs| == 1
    ensures Written(vecs) == Piece(vecs[0])
  {
    WrittenNone(vecs[..0]);
  }

  // ---- reserve, write, commit ----

  /** Pieces one after the other. */
  ghost function Joined(pieces: seq<seq<byte>>): seq<byte> {
    if |pieces| == 0 then [] else Joined(pieces[..|pieces| - 1]) + pieces[|pieces| - 1]
  }

  /** The vectors cut down to what has been written. */
  function Shortened(vecs: seq<IoVec>, pieces: seq<seq<byte>>): (short: seq<IoVec>)
    requires |vecs| == |pieces|
    ensures |short| == |vecs|
    ensures forall i :: 0 <= i < |vecs| ==> short[i] == IoVec(vecs[i].chain, vecs[i].base, |pieces[i]|)
  {
    seq(|vecs|, i requires 0 <= i < |vecs| => IoVec(vecs[i].chain, vecs[i].base, |pieces[i]|))
  }

  /** Vector `v` starts with `piece`. */
  ghost predicate Bears(v: IoVec, piece: seq<byte>)
    reads v.chain.buffer
  {
    v.base + |piece| <= v.chain.buffer.Length && v.chain.buffer[v.base..v.base + |piece|] == piece
  }

  lemma {:induction false} WrittenPieces(short: seq<IoVec>, pieces: seq<seq<byte>>)
    requires |short| == |pieces|
    requires forall i :: 0 <= i < |short| ==> short[i].len == |pieces[i]| && Bears(short[i], pieces[i])
    ensures Written(short) == Joined(pieces)
  {
    if |short| > 0 {
      var k := |short| - 1;
      assert short[k].len == |pieces[k]|;
      WrittenPieces(short[..k], pieces[..k]);
    }
  }

  /** Writing into vector `i` leaves what the others bear. */
  method WriteNext(buf: EvBuffer, vecs: seq<IoVec>, i: nat, pieces: seq<seq<byte>>)
    requires buf.Valid() && |pieces| == |vecs| && i < |vecs|
    requires Match(buf, FirstRoom(buf.vals, buf.d), vecs) && |pieces[i]| <= vecs[i].len
    requires forall j :: 0 <= j < i ==> Bears(vecs[j], pieces[j])
    modifies buf`vals, vecs[i].chain.buffer
    ensures buf.Valid() && buf.Contents() == old(buf.Contents())
    ensures Match(buf, FirstRoom(buf.vals, buf.d), vecs) && SameSizes(buf.vals, old(buf.vals))
    ensures forall j :: 0 <= j <= i ==> Bears(vecs[j], pieces[j])
  {
    hide Content; hide EvBuffer.Wired; hide Match; hide FirstRoom;
    forall j | 0 <= j < i
      ensures vecs[j].chain.buffer != vecs[i].chain.buffer
    {
      RegionsDisjoint(buf, vecs, j, i);
    }
    WriteInto(buf, vecs, i, pieces[i]);
  }

  /** Writing into each vector */
  method WriteAll(buf: EvBuffer, vecs: seq<IoVec>, pieces: seq<seq<byte>>)
    requires buf.Valid() && |pieces| == |vecs|
    requires Match(buf, FirstRoom(buf.vals, buf.d), vecs)
    requires forall i :: 0 <= i < |vecs| ==> |pieces[i]| <= vecs[i].len
    modifies buf.Repr
    ensures buf.Valid() && buf.Repr == old(buf.Repr) && buf.Contents() == old(buf.Contents())
    ensures buf.freezeEnd == old(buf.freezeEnd) && buf.freezeStart == old(buf.freezeStart)
    ensures Match(buf, FirstRoom(buf.vals, buf.d), vecs)
    ensures buf.d == old(buf.d) && SameSizes(buf.vals, old(buf.vals))
    ensures forall i :: 0 <= i < |vecs| ==> Bears(vecs[i], pieces[i])
  {
    hide EvBuffer.Contents; hide EvBuffer.Valid; hide FirstRoom; hide Match; hide SameSizes;
    SameSizesSelf(buf.vals);
    for i := 0 to |vecs|
      invariant buf.Valid() && buf.Contents() == old(buf.Contents()) && buf.Repr == old(buf.Repr)
      invariant buf.freezeEnd == old(buf.freezeEnd) && buf.freezeStart == old(buf.freezeStart)
      invariant Match(buf, FirstRoom(buf.vals, buf.d), vecs)
      invariant buf.d == old(buf.d) && SameSizes(buf.vals, old(buf.vals))
      invariant forall j :: 0 <= j < i ==> Bears(vecs[j], pieces[j])
    {
      OwnsVec(buf, vecs, i);
      ghost var was := buf.vals;
      WriteNext(buf, vecs, i, pieces);
      SameSizesAll(buf.vals, was, old(buf.vals));
    }
  }

  /**
   The whole transaction: bytes written into reserved vectors and committed, as many or as few
   in each as the caller likes, stand at the end of the data in the order of the vectors.
   */
  method FillAndCommit(buf: EvBuffer, vecs: seq<IoVec>, pieces: seq<seq<byte>>) returns (ok: bool)
    requires buf.Valid() && !buf.freezeEnd && |pieces| == |vecs|
    requires Match(buf, FirstRoom(buf.vals, buf.d), vecs)
    requires forall i :: 0 <= i < |vecs| ==> |pieces[i]| <= vecs[i].len
    modifies buf.Repr
    ensures ok && buf.Valid() && buf.Repr == old(buf.Repr) && buf.Contents() == old(buf.Contents()) + Joined(pieces)
    ensures buf.freezeEnd == old(buf.freezeEnd) && buf.freezeStart == old(buf.freezeStart)
  {
    hide Content; hide EvBuffer.Wired; hide FirstRoom; hide Written; hide Match;
    WriteAll(buf, vecs, pieces);
    OwnsChains(buf);
    var short := Shortened(vecs, pieces);
    MatchShort(buf, FirstRoom(buf.vals, buf.d), vecs, short);
    WrittenPieces(short, pieces);
    ok := CommitSpace(buf, short);
  }

  /** Each piece is as long as its vector, or what is left. */
  ghost predicate Cut(vecs: seq<IoVec>, pieces: seq<seq<byte>>, n: nat) {
    |pieces| <= |vecs| && forall i {:trigger pieces[i]} :: 0 <= i < |pieces| ==>
      |pieces[i]| == (if vecs[i].len <= n - |Joined(pieces[..i])| then vecs[i].len else n - |Joined(pieces[..i])|)
  }

  lemma CutNext(vecs: seq<IoVec>, pieces: seq<seq<byte>>, n: nat, piece: seq<byte>)
    requires Cut(vecs, pieces, n) && |pieces| < |vecs| && |Joined(pieces)| <= n
    requires var len, left := vecs[|pieces|].len, n - |Joined(pieces)|; |piece| == if len <= left then len else left
    ensures Cut(vecs, pieces + [piece], n)
  {
    hide Joined;
    var more := pieces + [piece];
    assert more[..|pieces|] == pieces;
    assert forall i :: 0 <= i < |pieces| ==> more[..i] == pieces[..i];
  }

  /** Data cut up to fill the vectors one after the other. */
  method Spread(data: seq<byte>, vecs: seq<IoVec>) returns (pieces: seq<seq<byte>>)
    requires |data| <= TotalLen(vecs)
    ensures |pieces| == |vecs| && Joined(pieces) == data && Cut(vecs, pieces, |data|)
    ensures forall i :: 0 <= i < |vecs| ==> |pieces[i]| <= vecs[i].len
  {
    hide TotalLen; hide Joined; hide Cut;
    pieces := [];
    var at := 0;
    SpreadNone(vecs);
    for i := 0 to |vecs|
      invariant |pieces| == i && 0 <= at <= |data| && Joined(pieces) == data[..at]
      invariant forall j :: 0 <= j < i ==> |pieces[j]| <= vecs[j].len
      invariant at == |data| || at == TotalLen(vecs[..i])
      invariant Cut(vecs, pieces, |data|)
    {
      var n := if vecs[i].len <= |data| - at then vecs[i].len else |data| - at;
      SpreadNext(data, vecs, pieces, at, i, n);
      CutNext(vecs, pieces, |data|, data[at..at + n]);
      pieces, at := pieces + [data[at..at + n]], at + n;
    }
    assert vecs[..|vecs|] == vecs && data[..|data|] == data;
  }

  lemma SpreadNone(vecs: seq<IoVec>)
    ensures TotalLen(vecs[..0]) == 0 && Joined([]) == [] && forall n: nat :: Cut(vecs, [], n)
  {
  }

  lemma SpreadNext(data: seq<byte>, vecs: seq<IoVec>, pieces: seq<seq<byte>>, at: nat, i: nat, n: nat)
    requires i < |vecs| && at + n <= |data| && Joined(pieces) == data[..at]
    ensures TotalLen(vecs[..i + 1]) == TotalLen(vecs[..i]) + vecs[i].len
    ensures Joined(pieces + [data[at..at + n]]) == data[..at + n]
  {
    assert vecs[..i + 1][..i] == vecs[..i];
    var more := pieces + [data[at..at + n]];
    assert more[..|pieces|] == pieces;
    assert data[..at + n] == data[..at] + data[at..at + n];
  }

  lemma WantedAtMost(vs: seq<Val>, d: nat, datlen: nat, n: nat)
    requires DataIndex(vs, d)
    ensures Wanted(vs, d, datlen, n) <= datlen
  {
    OfferedSome(vs, d, n);
  }

  /** Data written into reserved room and committed stands at the end of the buffer. */
  method Fill(buf: EvBuffer, data: seq<byte>, nVecs: nat) returns (ok: bool)
    requires buf.Valid() && 0 < |data| <= MAX_DATA && nVecs >= 2
    modifies buf.Repr
    ensures buf.Valid() && fresh(buf.Repr - old(buf.Repr))
    ensures ok <==> !buf.freezeEnd
    ensures buf.Contents() == if ok then old(buf.Contents()) + data else old(buf.Contents())
    ensures buf.freezeEnd == old(buf.freezeEnd) && buf.freezeStart == old(buf.freezeStart)
  {
    hide Content; hide EvBuffer.Wired; hide Wanted; hide Match; hide FirstRoom; hide TotalLen; hide Offered; hide Extended;
    WantedAtMost(buf.vals, buf.d, |data|, nVecs);
    var r := ReserveSpace(buf, |data|, nVecs);
    if r.Vectors? {
      var pieces := Spread(data, r.vecs);
      NoVecs(r.vecs);
      ok := FillAndCommit(buf, r.vecs, pieces);
    } else {
      ok := false;
    }
  }

  lemma NoVecs(vecs: seq<IoVec>)
    ensures TotalLen(vecs) > 0 ==> |vecs| > 0
  {
  }

  lemma MatchShort(buf: EvBuffer, f: nat, vecs: seq<IoVec>, short: seq<IoVec>)
    requires Match(buf, f, vecs) && |short| == |vecs|
    requires forall i :: 0 <= i < |vecs| ==> short[i].chain == vecs[i].chain && short[i].base == vecs[i].base && short[i].len <= vecs[i].len
    ensures Match(buf, f, short)
  {
    forall i | 0 <= i < |short|
      ensures short[i].chain == buf.chains[f + i]
      ensures short[i].base == buf.vals[f + i].misalign + buf.vals[f + i].off && short[i].len <= buf.vals[f + i].Space()
    {
      assert vecs[i].chain == buf.chains[f + i];
    }
  }

  lemma OwnsVec(buf: EvBuffer, vecs: seq<IoVec>, i: nat)
    requires buf.Valid() && i < |vecs| && Match(buf, FirstRoom(buf.vals, buf.d), vecs)
    ensures buf in buf.Repr && vecs[i].chain.buffer in buf.Repr
  {
    buf.WiredAt(FirstRoom(buf.vals, buf.d) + i);
  }

  lemma OwnsChains(buf: EvBuffer)
    requires buf.Valid()
    ensures buf in buf.Repr && forall c :: c in buf.ChainSet() ==> c in buf.Repr
  {
  }

  /** 976 bytes fill a chain: the next reservation of nothing, in more than one vector, aborts. */
  method AbortedReservation(data: seq<byte>, nVecs: nat) returns (r: Reserved)
    requires |data| == 976 && nVecs >= 2
    ensures r == Aborted
  {
    hide EvBuffer.Wired, Content, Wanted, Extended, Match, TotalLen;
    var buf := new EvBuffer();
    buf.WiredShape();
    var added := buf.Add(data);
    buf.WiredShape();
    assert AllocSize(976 + CHAIN_SIZE) == 1024;
    r := ReserveSpace(buf, 0, nVecs);
  }
}
