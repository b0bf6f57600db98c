/** Room in a single chain, and when a region reserved there can be committed. */
module EvBufferExpand {
  import opened ChainValues
  import opened EvBuffers
  import opened EvBufferReserve
  import opened Options

  /** Where evbuffer_expand_singlechain finds or makes its room. */
  datatype Where = Here | Realigned | Next | Resized | New

  /** It is not worth copying a chain to enlarge it. */
  predicate NotWorth(v: Val, datlen: nat)
    requires v.Ok()
  {
    v.Space() < |v.mem| / 8 || v.off > MAX_TO_COPY_IN_EXPAND || datlen >= CHAIN_MAX - v.off
  }

  /** evbuffer_chain_should_realign on values */
  predicate Realignable(v: Val, datlen: nat) {
    |v.mem| - v.off >= datlen && v.off < |v.mem| / 2 && v.off <= MAX_TO_REALIGN_IN_EXPAND
  }

  /** The way evbuffer_expand_singlechain takes. */
  ghost function Choice(vs: seq<Val>, d: nat, datlen: nat): Where
    requires DataIndex(vs, d)
  {
    var f := FirstRoom(vs, d);
    if f >= |vs| then New
    else if vs[f].Space() >= datlen then Here
    else if vs[f].off == 0 then New
    else if Realignable(vs[f], datlen) then Realigned
    else if NotWorth(vs[f], datlen) then
      if f + 1 < |vs| && vs[f + 1].Space() >= datlen then Next else New
    else Resized
  }

  /** Making room moves at most 2048 bytes within a chain, and copies at most 4096 into another. */
  lemma CopiesLittle(vs: seq<Val>, d: nat, datlen: nat)
    requires DataIndex(vs, d)
    ensures Choice(vs, d, datlen) == Realigned ==> d < |vs| && vs[d].off <= 2048 && vs[d].off + datlen <= |vs[d].mem|
    ensures Choice(vs, d, datlen) == Resized ==>
      d < |vs| && vs[d].off <= 4096 && |vs[d].mem| <= 8 * vs[d].Space() + 7
    ensures Choice(vs, d, datlen) == Here <==>
      exists k :: d <= k <= d + 1 && k < |vs| && (k == d + 1 ==> vs[d].Space() == 0) && (k == d ==> vs[d].Space() > 0)
        && vs[k].Space() >= datlen
  {
    assert d < |vs| ==> vs[d].Ok();
    if Choice(vs, d, datlen) == Here {
      var k := FirstRoom(vs, d);
      assert d <= k <= d + 1 && k < |vs|;
    }
  }

  /** Everything but the first chain with room, when the next one is used and is not the last, can be committed. */
  ghost predicate Stranded(vs: seq<Val>, d: nat, datlen: nat)
    requires DataIndex(vs, d)
  {
    Choice(vs, d, datlen) == Next && d + 2 < |vs|
  }

  /** `tmp` takes the place of the last chain with data. */
  method Replace(buf: EvBuffer, chain: Chain, tmp: Chain)
    requires buf.Wired() && buf.d < |buf.chains| && chain == buf.chains[buf.d]
    requires tmp !in buf.Repr && tmp.buffer !in buf.Repr
    modifies buf`first, buf`chains, buf`vals, buf`Repr, tmp`next, buf.lastWithDataP
    ensures buf.Wired() && buf.chains == old(buf.chains)[buf.d := tmp] && buf.vals == old(buf.vals)[buf.d := tmp.View()]
    ensures tmp.View() == old(tmp.View()) && buf.Repr == old(buf.Repr) + {tmp, tmp.buffer}
  {
    hide Chain.View; hide Content; hide Val.Bytes; hide Segment; hide Objects;
    ghost var k, theirs := buf.d, buf.Repr - {buf};
    ghost var front := buf.chains[..k];
    ghost var own := Objects(front);
    buf.WiredAt(k);
    SegmentAround(buf.chains, buf.vals, k, theirs);
    tmp.next := chain.next;
    if buf.lastWithDataP == null {
      buf.first := tmp;
      SegmentNil(tmp, own);
    } else {
      buf.WiredAt(k - 1);
      SegmentAt(front, buf.vals[..k], k - 1, chain, own);
      SetEnd(buf.lastWithDataP, tmp, front, buf.vals[..k], chain, own);
    }
    Around(buf.chains, buf.vals, k, tmp, own, theirs - own);
    buf.chains, buf.vals := buf.chains[k := tmp], buf.vals[k := tmp.View()];
    buf.Repr := buf.Repr + {tmp, tmp.buffer};
    assert buf.Repr - {buf} == own + {tmp, tmp.buffer} + (theirs - own);
  }

  /** The chains before and behind one. */
  lemma SegmentAround(cs: seq<Chain>, vs: seq<Val>, k: nat, repr: set<object>)
    requires Segment(cs, vs, null, repr) && k < |cs|
    ensures |vs| == |cs| && Objects(cs[..k]) <= repr
    ensures Segment(cs[..k], vs[..k], cs[k], Objects(cs[..k]))
    ensures Segment(cs[k + 1..], vs[k + 1..], null, repr - Objects(cs[..k]))
  {
    hide Segment; hide Objects;
    SegmentDisown(cs, vs, k, null, repr);
    SegmentAt(cs, vs, k, null, repr);
    SegmentCut(cs[k..], vs[k..], 1, null, repr - Objects(cs[..k]));
    assert cs[k..][1..] == cs[k + 1..] && vs[k..][1..] == vs[k + 1..];
  }

  /** Put together again, with another one in its place. */
  lemma Around(cs: seq<Chain>, vs: seq<Val>, k: nat, tmp: Chain, own: set<object>, rest: set<object>)
    requires |vs| == |cs| && k < |cs| && Segment(cs[..k], vs[..k], tmp, own)
    requires Segment(cs[k + 1..], vs[k + 1..], null, rest) && tmp.next == Head(cs[k + 1..], null)
    requires own !! {tmp, tmp.buffer} && own + {tmp, tmp.buffer} !! rest
    ensures Segment(cs[k := tmp], vs[k := tmp.View()], null, own + {tmp, tmp.buffer} + rest)
  {
    hide Segment; hide Chain.View;
    SegmentOne(tmp, tmp.next);
    SegmentJoin(cs[..k], vs[..k], [tmp], [tmp.View()], tmp.next, own, {tmp, tmp.buffer});
    SegmentJoin(cs[..k] + [tmp], vs[..k] + [tmp.View()], cs[k + 1..], vs[k + 1..], null, own + {tmp, tmp.buffer}, rest);
    Replaced(cs, k, tmp);
    Replaced(vs, k, tmp.View());
  }

  lemma Replaced<T>(s: seq<T>, k: nat, x: T)
    requires k < |s|
    ensures s[k := x] == s[..k] + [x] + s[k + 1..]
  {
  }

  /** The last chain with data is copied into a larger one. */
  method Resize(buf: EvBuffer, chain: Chain, datlen: nat) returns (tmp: Chain?)
    requires buf.Valid() && buf.d < |buf.chains| && chain == buf.chains[buf.d] && chain.off != 0
    modifies buf`first, buf`last, buf`chains, buf`vals, buf`Repr, buf.Repr - {buf}
    ensures buf.Valid() && fresh(buf.Repr - old(buf.Repr)) && buf.Contents() == old(buf.Contents())
    ensures buf.d == old(buf.d) && |buf.chains| == old(|buf.chains|)
    ensures tmp == null <==> old(chain.off) + datlen > MAX_DATA
    ensures tmp != null ==> tmp == buf.chains[buf.d] && datlen <= buf.vals[buf.d].Space()
  {
    hide Content; hide Val.Bytes; hide AllocSize; hide EvBuffer.Spine;
    buf.WiredShape();
    buf.WiredAt(buf.d);
    if buf.d > 0 {
      buf.WiredAt(buf.d - 1);
    }
    tmp := ChainNew(chain.off + datlen);
    if tmp == null {
      return;
    }
    Copy(chain, tmp, buf.vals[buf.d]);
    SameBytesContent(buf.vals, buf.d, tmp.View());
    var wasLast := buf.last == chain;
    LastIs(buf, buf.d);
    Replace(buf, chain, tmp);
    if wasLast {
      buf.last := tmp;
    }
  }

  lemma LastIs(buf: EvBuffer, k: nat)
    requires buf.Valid() && k < |buf.chains|
    ensures buf.last == buf.chains[k] <==> k == |buf.chains| - 1
  {
    buf.SpineDistinct(k, |buf.chains| - 1);
  }

  /** The data of a chain at the start of a new one. */
  method Copy(chain: Chain, tmp: Chain, ghost v: Val)
    requires chain != tmp && chain.buffer != tmp.buffer && chain.View() == v && v.Ok() && v.off <= tmp.buffer.Length <= MAX_DATA
    modifies tmp`off, tmp`misalign, tmp.buffer
    ensures tmp.View().Ok() && tmp.View().Bytes() == v.Bytes() && tmp.misalign == 0 && tmp.off == v.off
  {
    tmp.off := chain.off;
    tmp.misalign := 0;
    forall i | 0 <= i < chain.off {
      tmp.buffer[i] := chain.buffer[chain.misalign + i];
    }
  }

  /** A new chain behind all the others, in place of those without data. */
  method InsertNew(buf: EvBuffer, datlen: nat) returns (tmp: Chain?, ghost k: nat)
    requires buf.Valid()
    modifies buf.Repr
    ensures buf.Valid() && fresh(buf.Repr - old(buf.Repr)) && buf.Contents() == old(buf.Contents())
    ensures buf.freezeEnd == old(buf.freezeEnd) && buf.freezeStart == old(buf.freezeStart)
    ensures tmp == null <==> datlen > MAX_DATA
    ensures tmp != null ==> RoomAt(buf, tmp, k, datlen) && k + 1 == |buf.chains|
  {
    hide Content; hide AllocSize; hide EvBuffer.Wired;
    k := 0;
    tmp := ChainNew(datlen);
    if tmp == null {
      return;
    }
    buf.WiredShape();
    buf.ChainInsert(tmp);
    buf.WiredShape();
    assert tmp.View().Bytes() == [];
    k := |buf.chains| - 1;
  }

  /** Chain `k` has the room. */
  ghost predicate RoomAt(buf: EvBuffer, chain: Chain, k: nat, datlen: nat)
    reads buf
  {
    |buf.vals| == |buf.chains| && k < |buf.chains| && chain == buf.chains[k] && datlen <= buf.vals[k].Space()
  }

  /** Whether the way taken comes to nothing: no chain can be as large. */
  ghost predicate TooLarge(vs: seq<Val>, d: nat, datlen: nat)
    requires DataIndex(vs, d)
  {
    match Choice(vs, d, datlen)
    case New => datlen > MAX_DATA
    case Resized => d < |vs| && vs[d].off + datlen > MAX_DATA
    case _ => false
  }

  /** The room is too little to be worth a copy: the chain after it, or a new one. */
  method NextOrNew(buf: EvBuffer, chain: Chain, datlen: nat) returns (result: Chain?, ghost k: nat)
    requires buf.Valid() && buf.d < |buf.chains| && chain == buf.chains[buf.d]
    modifies buf.Repr
    ensures buf.Valid() && fresh(buf.Repr - old(buf.Repr)) && buf.Contents() == old(buf.Contents())
    ensures buf.freezeEnd == old(buf.freezeEnd) && buf.freezeStart == old(buf.freezeStart)
    ensures var next := old(buf.d + 1 < |buf.vals| && buf.vals[buf.d + 1].Space() >= datlen);
      && (result == null <==> !next && datlen > MAX_DATA)
      && (result != null ==> RoomAt(buf, result, k, datlen))
      && (next ==> k == old(buf.d) + 1 && buf.vals == old(buf.vals) && buf.d == old(buf.d))
      && (!next && result != null ==> k + 1 == |buf.chains|)
  {
    hide Content; hide Val.Bytes; hide EvBuffer.Wired; hide AllocSize; hide DataIndex;
    buf.WiredShape();
    buf.WiredAt(buf.d);
    DataAt(buf.vals, buf.d);
    if chain.next != null {
      buf.WiredAt(buf.d + 1);
      if chain.next.SpaceLen() >= datlen {
        return chain.next, buf.d + 1;
      }
    }
    result, k := InsertNew(buf, datlen);
  }

  /** That is only where so much is asked for that, with the data to be copied, no chain can hold it; never else. */
  lemma FailsWhere(vs: seq<Val>, d: nat, datlen: nat)
    requires DataIndex(vs, d)
    ensures TooLarge(vs, d, datlen) ==> datlen + (if d < |vs| then vs[d].off else 0) > 0x7FFF_FFFF_FFFF_FFFF - 48
    ensures datlen > 0x7FFF_FFFF_FFFF_FFFF - 48 ==> TooLarge(vs, d, datlen)
  {
    assert forall k :: 0 <= k < |vs| ==> vs[k].Ok();
  }

  /** What to do when the last chain with data has some room, but not enough. */
  method MakeRoom(buf: EvBuffer, chain: Chain, datlen: nat) returns (result: Chain?, ghost k: nat)
    requires buf.Valid() && buf.d < |buf.chains| && chain == buf.chains[buf.d] && chain.off != 0
    requires 0 < buf.vals[buf.d].Space() < datlen
    modifies buf.Repr
    ensures buf.Valid() && fresh(buf.Repr - old(buf.Repr)) && buf.Contents() == old(buf.Contents())
    ensures buf.freezeEnd == old(buf.freezeEnd) && buf.freezeStart == old(buf.freezeStart)
    ensures result == null <==> old(TooLarge(buf.vals, buf.d, datlen))
    ensures result != null ==> RoomAt(buf, result, k, datlen)
    ensures var way := old(Choice(buf.vals, buf.d, datlen));
      result != null ==>
        if way == New then k + 1 == |buf.chains|
        else if way == Next then k == FirstRoom(buf.vals, buf.d) + 1 && buf.vals == old(buf.vals) && buf.d == old(buf.d)
        else k == FirstRoom(buf.vals, buf.d)
  {
    hide Content; hide Val.Bytes; hide EvBuffer.Wired; hide AllocSize; hide DataIndex;
    buf.WiredShape();
    buf.WiredAt(buf.d);
    DataAt(buf.vals, buf.d);
    if buf.ShouldRealign(chain, datlen) {
      buf.RealignLast(chain);
      k := buf.d;
      result := chain;
    } else if chain.SpaceLen() < chain.buffer.Length / 8 || chain.off > MAX_TO_COPY_IN_EXPAND
           || datlen >= CHAIN_MAX - chain.off {
      result, k := NextOrNew(buf, chain, datlen);
    } else {
      result := Resize(buf, chain, datlen);
      k := buf.d;
      buf.WiredShape();
    }
  }

  /** The first chain with room, if it has data, is the last one that has. */
  lemma RoomWithData(vs: seq<Val>, d: nat)
    requires DataIndex(vs, d)
    ensures var f := FirstRoom(vs, d); f < |vs| && vs[f].off != 0 ==> f == d
  {
  }

  /** evbuffer_expand_singlechain; k is where the chain it returns is */
  method ExpandSingle(buf: EvBuffer, datlen: nat) returns (result: Chain?, ghost k: nat)
    requires buf.Valid()
    modifies buf.Repr
    ensures buf.Valid() && fresh(buf.Repr - old(buf.Repr)) && buf.Contents() == old(buf.Contents())
    ensures buf.freezeEnd == old(buf.freezeEnd) && buf.freezeStart == old(buf.freezeStart)
    ensures result == null <==> old(TooLarge(buf.vals, buf.d, datlen))
    ensures result != null ==> RoomAt(buf, result, k, datlen)
    ensures var way := old(Choice(buf.vals, buf.d, datlen));
      result != null ==>
        if way == New then k + 1 == |buf.chains|
        else if way == Next then k == FirstRoom(buf.vals, buf.d) + 1 && buf.vals == old(buf.vals) && buf.d == old(buf.d)
        else k == FirstRoom(buf.vals, buf.d)
    ensures old(FirstRoom(buf.vals, buf.d) < |buf.vals| && buf.vals[FirstRoom(buf.vals, buf.d)].Space() >= datlen) ==>
      result != null && k == old(FirstRoom(buf.vals, buf.d)) && buf.vals == old(buf.vals) && buf.chains == old(buf.chains)
  {
    hide Content; hide Val.Bytes; hide EvBuffer.Wired; hide DataIndex;
    buf.WiredShape();
    DataAt(buf.vals, buf.d);
    RoomWithData(buf.vals, buf.d);
    if buf.d > 0 {
      buf.WiredAt(buf.d - 1);
    }
    var chain := buf.Deref(buf.lastWithDataP);
    k := FirstRoom(buf.vals, buf.d);
    if chain != null {
      buf.WiredAt(buf.d);
      if chain.SpaceLen() == 0 {
        chain := chain.next;
      }
    }
    if chain == null {
      result, k := InsertNew(buf, datlen);
      return;
    }
    buf.WiredAt(k);
    if chain.SpaceLen() >= datlen {
      result := chain;
    } else if chain.off == 0 {
      result, k := InsertNew(buf, datlen);
    } else {
      result, k := MakeRoom(buf, chain, datlen);
    }
  }

  /** A single vector behind the data of chain `k` is taken exactly when that is the first chain with room, or the last. */
  lemma SingleCommittable(buf: EvBuffer, vec: IoVec, k: nat)
    requires buf.Valid() && k < |buf.chains| && vec.chain == buf.chains[k]
    requires vec.base == buf.vals[k].misalign + buf.vals[k].off && vec.len <= buf.vals[k].Space()
    ensures Committable(buf, [vec]) <==> k + 1 == |buf.chains| || k == FirstRoom(buf.vals, buf.d)
  {
    hide Content; hide EvBuffer.Spine;
    var f, l := FirstRoom(buf.vals, buf.d), |buf.chains| - 1;
    buf.WiredShape();
    buf.WiredAt(k);
    buf.SpineDistinct(k, l);
    if f < |buf.chains| {
      buf.SpineDistinct(k, f);
    }
    assert Match(buf, f, [vec]) ==> [vec][0].chain == buf.chains[f + 0];
  }

  /**
   evbuffer_reserve_space for one vector.  Unlike with more vectors, committing what was reserved, or
   less, can be refused: exactly when the chain after the last one with data was used although others follow.
   */
  method ReserveOne(buf: EvBuffer, size: nat) returns (vec: Option<IoVec>)
    requires buf.Valid()
    modifies buf.Repr
    ensures buf.Valid() && fresh(buf.Repr - old(buf.Repr)) && buf.Contents() == old(buf.Contents())
    ensures buf.freezeEnd == old(buf.freezeEnd) && buf.freezeStart == old(buf.freezeStart)
    ensures vec == None <==> buf.freezeEnd || old(TooLarge(buf.vals, buf.d, size))
    ensures vec.Some? ==> size <= vec.value.len && AllRoom(vec.value)
    ensures vec.Some? ==> forall len: nat :: len <= vec.value.len ==>
      (Committable(buf, [vec.value.(len := len)]) <==> !old(Stranded(buf.vals, buf.d, size)))
  {
    hide Content; hide EvBuffer.Wired; hide Committable;
    if buf.freezeEnd {
      return None;
    }
    buf.WiredShape();
    var chain, k := ExpandSingle(buf, size);
    if chain == null {
      return None;
    }
    buf.WiredAt(k);
    BufferRoom(buf, k);
    var v := IoVec(chain, chain.misalign + chain.off, chain.SpaceLen());
    forall len: nat | len <= v.len
      ensures Committable(buf, [v.(len := len)]) <==> k + 1 == |buf.chains| || k == FirstRoom(buf.vals, buf.d)
    {
      SingleCommittable(buf, v.(len := len), k);
    }
    return Some(v);
  }

  lemma BufferRoom(buf: EvBuffer, k: nat)
    requires buf.Valid() && k < |buf.chains|
    ensures |buf.vals| == |buf.chains| && buf.vals[k].Ok()
  {
    buf.WiredShape();
  }

  /** Why evbuffer_reserve_space refuses: the end is frozen, no vector is offered, or no chain is large enough. */
  ghost predicate NoRoom(buf: EvBuffer, size: int, nVecs: int)
    requires buf.Valid() && SSIZE_MIN <= size
    reads buf, buf.Repr
  {
    || buf.freezeEnd || nVecs < 1
    || (nVecs == 1 && TooLarge(buf.vals, buf.d, ToSize(size)))
    || (nVecs > 1 && (size < 0 || Wanted(buf.vals, buf.d, size, nVecs) > MAX_DATA))
  }

  /** evbuffer_reserve_space */
  method Reserve(buf: EvBuffer, size: int, nVecs: int) returns (r: Reserved)
    requires buf.Valid() && SSIZE_MIN <= size <= CHAIN_MAX
    modifies buf.Repr
    ensures buf.Valid() && fresh(buf.Repr - old(buf.Repr)) && buf.Contents() == old(buf.Contents())
    ensures buf.freezeEnd == old(buf.freezeEnd) && buf.freezeStart == old(buf.freezeStart)
    ensures r == Refused <==> old(NoRoom(buf, size, nVecs))
    ensures r == Aborted <==> !buf.freezeEnd && nVecs > 1 && size == 0 && !old(Startable(buf.vals, buf.d))
    ensures r.Vectors? ==> |r.vecs| <= nVecs && TotalLen(r.vecs) >= size
    ensures r.Vectors? ==> forall i :: 0 <= i < |r.vecs| ==> AllRoom(r.vecs[i])
    ensures r.Vectors? && (nVecs > 1 || !old(Stranded(buf.vals, buf.d, ToSize(size)))) ==> Committable(buf, r.vecs)
  {
    hide EvBuffer.Contents, EvBuffer.Wired, Wanted, Stranded, TooLarge, Committable, TotalLen, Match, Startable;
    if buf.freezeEnd || nVecs < 1 {
      return Refused;
    }
    if nVecs == 1 {
      var vec := ReserveOne(buf, ToSize(size));
      if vec == None {
        return Refused;
      }
      TotalOne(vec.value);
      assert vec.value.(len := vec.value.len) == vec.value;
      return Vectors([vec.value]);
    }
    r := ReserveSpace(buf, size, nVecs);
    if r.Vectors? {
      TakesMatch(buf, r.vecs);
    }
  }

  lemma TotalOne(v: IoVec)
    ensures TotalLen([v]) == v.len
  {
    assert [v][..0] == [];
  }

  lemma TakesMatch(buf: EvBuffer, vecs: seq<IoVec>)
    requires Match(buf, FirstRoom(buf.vals, buf.d), vecs)
    ensures Committable(buf, vecs)
  {
  }

  /** evbuffer_expand */
  method Expand(buf: EvBuffer, datlen: nat) returns (ok: bool)
    requires buf.Valid()
    modifies buf.Repr
    ensures buf.Valid() && fresh(buf.Repr - old(buf.Repr)) && buf.Contents() == old(buf.Contents())
    ensures buf.freezeEnd == old(buf.freezeEnd) && buf.freezeStart == old(buf.freezeStart)
    ensures ok <==> !old(TooLarge(buf.vals, buf.d, datlen))
    ensures ok ==> exists k: nat :: k < |buf.vals| && datlen <= buf.vals[k].Space()
  {
    hide EvBuffer.Contents, EvBuffer.Wired, TooLarge;
    var chain, k := ExpandSingle(buf, datlen);
    ok := chain != null;
  }

  // ---- a commitment that is refused ----

  /** The chunks that the calls below leave: 900 bytes in the first, nothing in the others. */
  ghost predicate Three(vs: seq<Val>) {
    && |vs| == 3
    && vs[0].misalign == 0 && vs[0].off == 900 && |vs[0].mem| == 976
    && (forall i :: 1 <= i < 3 ==> vs[i].misalign == vs[i].off == 0 && |vs[i].mem| == 976)
  }

  lemma ThreeStranded(vs: seq<Val>)
    requires Three(vs) && DataIndex(vs, 0)
    ensures Stranded(vs, 0, 500) && !TooLarge(vs, 0, 500)
  {
  }

  lemma OneOffers(vs: seq<Val>)
    requires |vs| == 1 && MadeFor(vs[0], 900, 900)
    ensures Offered(vs, 0, 2) == 76 && Offering(vs, 0) == 1 && Wanted(vs, 0, 500, 2) == 424 && |vs[0].mem| == 976
  {
    assert Offered(vs, 1, 1) == 0 && Offering(vs, 1) == 0;
  }

  lemma TwoOffer(vs: seq<Val>, was: seq<Val>)
    requires |was| == 1 && MadeFor(was[0], 900, 900) && Extended(vs, was, 0, 500, 2)
    ensures Offered(vs, 0, 3) == 1052 && Offering(vs, 0) == 2 && Wanted(vs, 0, 1500, 3) == 448
    ensures |vs| == 2 && vs[0] == was[0] && MadeFor(vs[1], 0, 424)
  {
    OneOffers(was);
    assert vs[0] == vs[..1][0] == was[0];
    assert AllocSize(424 + CHAIN_SIZE) == 1024;
    assert Offered(vs, 2, 1) == 0 && Offering(vs, 2) == 0;
    assert Offered(vs, 1, 2) == 976 && Offering(vs, 1) == 1;
  }

  lemma ThreeReached(vs: seq<Val>, two: seq<Val>, one: seq<Val>)
    requires |one| == 1 && MadeFor(one[0], 900, 900) && Extended(two, one, 0, 500, 2) && Extended(vs, two, 0, 1500, 3)
    ensures Three(vs)
  {
    OneOffers(one);
    TwoOffer(two, one);
    assert vs[0] == vs[..2][0] == two[0];
    assert vs[1] == vs[..2][1] == Val(0, 0, two[1].mem);
    assert AllocSize(424 + CHAIN_SIZE) == AllocSize(448 + CHAIN_SIZE) == 1024;
  }

  /** Only with public calls: what a reservation of one vector hands out, committed as it is, is refused. */
  method RefusedCommit(data: seq<byte>) returns (reserved: bool, ok: bool)
    requires |data| == 900
    ensures reserved && !ok
  {
    hide EvBuffer.Wired, Content, Offered, Offering, Wanted, Stranded, TooLarge, Committable, Match, Extended, MadeFor, Three;
    var buf := new EvBuffer();
    buf.WiredShape();
    var added := buf.Add(data);
    buf.WiredShape();
    ghost var one := buf.vals;
    OneOffers(one);
    var r := ReserveSpace(buf, 500, 2);
    buf.WiredShape();
    ghost var two := buf.vals;
    TwoOffer(two, one);
    r := ReserveSpace(buf, 1500, 3);
    buf.WiredShape();
    ThreeReached(buf.vals, two, one);
    ThreeStranded(buf.vals);
    var vec := ReserveOne(buf, 500);
    reserved := vec.Some?;
    var v := vec.value;
    assert v.(len := v.len) == v;
    OwnsChains(buf);
    ok := CommitSpace(buf, [v]);
  }
}
