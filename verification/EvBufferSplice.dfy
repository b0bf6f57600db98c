/** Moving data between buffers by handing over whole chains. */
module EvBufferSplice {
  import opened ChainValues
  import opened EvBuffers

  /** evbuffer_free_all_chains on `dst`, which then has those of `src`: COPY_CHAIN, and ZERO_CHAIN on `src`. */
  method TakeChains(dst: EvBuffer, src: EvBuffer) returns (ghost uses: seq<Use>)
    requires src.Valid() && dst.Wired() && dst in dst.Repr && dst.Repr !! src.Repr
    modifies dst`first, dst`last, dst`lastWithDataP, dst`totalLen, dst`chains, dst`vals, dst`d, dst`Repr
    modifies src`first, src`last, src`lastWithDataP, src`totalLen, src`chains, src`vals, src`d, src`Repr
    ensures dst.Valid() && src.Valid()
    ensures dst.Repr == {dst} + (old(src.Repr) - {src}) && src.Repr == {src}
    ensures dst.Contents() == old(src.Contents()) && src.Contents() == []
    ensures Orderly(uses) && Released(uses) == old(dst.chains) && dst.chains == old(src.chains)
  {
    hide EvBuffer.Valid; hide EvBuffer.Contents; hide EvBuffer.Spine; hide Orderly; hide Released;
    dst.WiredShape();
    uses := dst.FreeAllChains(dst.first, 0);
    CopyChain(dst, src);
  }

  /** COPY_CHAIN, then ZERO_CHAIN on `src`. */
  method CopyChain(dst: EvBuffer, src: EvBuffer)
    requires src.Valid() && dst in dst.Repr && dst.Repr !! src.Repr
    modifies dst`first, dst`last, dst`lastWithDataP, dst`totalLen, dst`chains, dst`vals, dst`d, dst`Repr
    modifies src`first, src`last, src`lastWithDataP, src`totalLen, src`chains, src`vals, src`d, src`Repr
    ensures dst.Valid() && src.Valid() && dst.chains == old(src.chains)
    ensures dst.Repr == {dst} + (old(src.Repr) - {src}) && src.Repr == {src}
    ensures dst.Contents() == old(src.Contents()) && src.Contents() == []
  {
    hide Content; hide Val.Bytes; hide Chain.View; hide Segment; hide DataIndex;
    dst.first := src.first;
    dst.lastWithDataP := if src.lastWithDataP == null then null else src.lastWithDataP;
    dst.last := src.last;
    dst.totalLen := src.totalLen;
    dst.chains, dst.vals, dst.d, dst.Repr := src.chains, src.vals, src.d, {dst} + (src.Repr - {src});
    src.ZeroChain();
  }

  /** `*chp = head`: the chains `cs`, owned by `own`, go behind those of `dst`. */
  method Attach(dst: EvBuffer, chp: Chain?, head: Chain, ghost cs: seq<Chain>, ghost vs: seq<Val>, ghost own: set<object>)
    requires dst.Wired() && chp == dst.At(|dst.chains| - 1)
    requires Segment(cs, vs, null, own) && |cs| > 0 && head == cs[0] && dst.Repr !! own
    modifies dst`first, dst`chains, dst`vals, dst`Repr, chp
    ensures dst.Wired() && dst.chains == old(dst.chains) + cs && dst.vals == old(dst.vals) + vs
    ensures dst.Repr == old(dst.Repr) + own
  {
    hide Content; hide Val.Bytes; hide Chain.View; hide Segment;
    ghost var ours := dst.Repr - {dst};
    if chp == null {
      dst.first := head;
      SegmentNil(head, ours);
    } else {
      dst.SpineAt(|dst.chains| - 1);
      SetEnd(chp, head, dst.chains, dst.vals, null, ours);
    }
    SegmentAt(cs, vs, 0, null, own);
    SegmentJoin(dst.chains, dst.vals, cs, vs, null, ours, own);
    dst.chains, dst.vals := dst.chains + cs, dst.vals + vs;
    dst.Repr := dst.Repr + own;
    assert dst.Repr - {dst} == ours + own;
  }

  /** APPEND_CHAIN once the empty chains behind the data of `dst` are gone. */
  method JoinChains(dst: EvBuffer, chp: Chain?, src: EvBuffer)
    requires dst.Wired() && chp == dst.At(|dst.chains| - 1)
    requires src.Wired() && |src.chains| > 0 && dst.Repr !! src.Repr
    modifies dst`first, dst`lastWithDataP, dst`chains, dst`vals, dst`d, dst`Repr, chp
    ensures dst.Wired() && dst.chains == old(dst.chains) + src.chains && dst.vals == old(dst.vals) + src.vals
    ensures dst.d == old(|dst.chains|) + src.d && dst.Repr == old(dst.Repr) + (src.Repr - {src})
  {
    hide Content; hide Val.Bytes; hide Chain.View; hide Segment;
    ghost var n := |dst.chains|;
    Attach(dst, chp, src.first, src.chains, src.vals, src.Repr - {src});
    dst.lastWithDataP := if src.lastWithDataP == null then chp else src.lastWithDataP;
    dst.d := n + src.d;
  }

  /** evbuffer_add_buffer */
  method AddBuffer(outbuf: EvBuffer, inbuf: EvBuffer) returns (ok: bool)
    requires outbuf.Valid() && inbuf.Valid() && (outbuf != inbuf ==> outbuf.Repr !! inbuf.Repr)
    modifies outbuf.Repr, inbuf.Repr
    ensures outbuf.Valid() && inbuf.Valid() && (outbuf != inbuf ==> outbuf.Repr !! inbuf.Repr)
    ensures outbuf.Repr + inbuf.Repr <= old(outbuf.Repr + inbuf.Repr)
    ensures ok <==> old(inbuf.totalLen) == 0 || outbuf == inbuf || (!outbuf.freezeEnd && !inbuf.freezeStart)
    ensures ok && outbuf != inbuf ==> outbuf.Contents() == old(outbuf.Contents() + inbuf.Contents()) && inbuf.Contents() == []
    ensures !ok || outbuf == inbuf ==> outbuf.Contents() == old(outbuf.Contents()) && inbuf.Contents() == old(inbuf.Contents())
    ensures outbuf.freezeEnd == old(outbuf.freezeEnd) && outbuf.freezeStart == old(outbuf.freezeStart)
    ensures inbuf.freezeEnd == old(inbuf.freezeEnd) && inbuf.freezeStart == old(inbuf.freezeStart)
  {
    hide Content; hide Val.Bytes; hide EvBuffer.Wired;
    if inbuf.totalLen == 0 || outbuf == inbuf {
      return true;
    }
    if outbuf.freezeEnd || inbuf.freezeStart {
      return false;
    }
    outbuf.WiredShape();
    inbuf.WiredShape();
    if outbuf.totalLen == 0 {
      ghost var uses := TakeChains(outbuf, inbuf);
    } else {
      AppendChain(outbuf, inbuf);
    }
    return true;
  }

  /** APPEND_CHAIN, then ZERO_CHAIN on `src`. */
  method AppendChain(dst: EvBuffer, src: EvBuffer)
    requires dst.Valid() && src.Valid() && dst.Repr !! src.Repr && src.totalLen > 0
    modifies dst`first, dst`last, dst`lastWithDataP, dst`totalLen, dst`chains, dst`vals, dst`d, dst`Repr, dst.Repr - {dst}
    modifies src`first, src`last, src`lastWithDataP, src`totalLen, src`chains, src`vals, src`d, src`Repr
    ensures dst.Valid() && src.Valid()
    ensures dst.Repr == old(dst.Repr) + (old(src.Repr) - {src}) && src.Repr == {src}
    ensures dst.Contents() == old(dst.Contents()) + old(src.Contents()) && src.Contents() == []
  {
    hide Content; hide Val.Bytes; hide EvBuffer.Wired; hide DataIndex; hide Trimmed; hide Orderly; hide Released;
    JoinContent(dst.vals, dst.d, src.vals, src.d);
    src.WiredShape();
    dst.WiredShape();
    DataHead(src.vals, src.d);
    var chp, uses := dst.FreeTrailingEmptyChains();
    if |dst.chains| > 0 {
      dst.WiredAt(|dst.chains| - 1);
    }
    dst.WiredShape();
    JoinChains(dst, chp, src);
    dst.WiredShape();
    dst.last := src.last;
    dst.totalLen := dst.totalLen + src.totalLen;
    src.ZeroChain();
  }

  /** The list of `src` goes in front of the list of `dst`. */
  method JoinFront(dst: EvBuffer, src: EvBuffer)
    requires dst.Wired() && src.Wired() && |src.chains| > 0 && src.last == src.chains[|src.chains| - 1]
    requires |dst.chains| > 0 && dst.Repr !! src.Repr
    modifies dst`first, dst`lastWithDataP, dst`chains, dst`vals, dst`d, dst`Repr, src.Repr - {src}
    ensures dst.Wired() && dst.Repr == old(dst.Repr) + (src.Repr - {src})
    ensures dst.chains == src.chains + old(dst.chains) && dst.vals == src.vals + old(dst.vals)
    ensures dst.d == |src.chains| + old(dst.d)
  {
    hide Content; hide Val.Bytes; hide Segment;
    src.WiredAt(|src.chains| - 1);
    SetEnd(src.last, dst.first, src.chains, src.vals, null, src.Repr - {src});
    SegmentJoin(src.chains, src.vals, dst.chains, dst.vals, null, src.Repr - {src}, dst.Repr - {dst});
    dst.first := src.first;
    if dst.lastWithDataP == null {
      dst.lastWithDataP := src.last;
    }
    dst.d := |src.chains| + dst.d;
    dst.chains, dst.vals := src.chains + dst.chains, src.vals + dst.vals;
    dst.Repr := dst.Repr + (src.Repr - {src});
    assert dst.Repr - {dst} == (src.Repr - {src}) + (old(dst.Repr) - {dst});
  }

  /** PREPEND_CHAIN, then ZERO_CHAIN on `src`. */
  method PrependChain(dst: EvBuffer, src: EvBuffer)
    requires dst.Valid() && src.Valid() && dst.Repr !! src.Repr && src.totalLen > 0 && dst.totalLen > 0
    modifies dst`first, dst`lastWithDataP, dst`totalLen, dst`chains, dst`vals, dst`d, dst`Repr
    modifies src`first, src`last, src`lastWithDataP, src`totalLen, src`chains, src`vals, src`d, src`Repr, src.Repr - {src}
    ensures dst.Valid() && src.Valid()
    ensures dst.Repr == old(dst.Repr) + (old(src.Repr) - {src}) && src.Repr == {src}
    ensures dst.Contents() == old(src.Contents()) + old(dst.Contents()) && src.Contents() == []
  {
    hide Content; hide Val.Bytes; hide Segment; hide EvBuffer.Spine;
    PrependedContent(src.vals, src.d, dst.vals, dst.d);
    DataHead(src.vals, src.d);
    src.WiredShape();
    dst.WiredShape();
    JoinFront(dst, src);
    dst.totalLen := dst.totalLen + src.totalLen;
    src.ZeroChain();
  }

  /** evbuffer_prepend_buffer */
  method PrependBuffer(outbuf: EvBuffer, inbuf: EvBuffer) returns (ok: bool)
    requires outbuf.Valid() && inbuf.Valid() && (outbuf != inbuf ==> outbuf.Repr !! inbuf.Repr)
    modifies outbuf.Repr, inbuf.Repr
    ensures outbuf.Valid() && inbuf.Valid() && (outbuf != inbuf ==> outbuf.Repr !! inbuf.Repr)
    ensures outbuf.Repr + inbuf.Repr <= old(outbuf.Repr + inbuf.Repr)
    ensures ok <==> old(inbuf.totalLen) == 0 || outbuf == inbuf || (!outbuf.freezeStart && !inbuf.freezeStart)
    ensures ok && outbuf != inbuf ==> outbuf.Contents() == old(inbuf.Contents() + outbuf.Contents()) && inbuf.Contents() == []
    ensures !ok || outbuf == inbuf ==> outbuf.Contents() == old(outbuf.Contents()) && inbuf.Contents() == old(inbuf.Contents())
    ensures outbuf.freezeEnd == old(outbuf.freezeEnd) && outbuf.freezeStart == old(outbuf.freezeStart)
    ensures inbuf.freezeEnd == old(inbuf.freezeEnd) && inbuf.freezeStart == old(inbuf.freezeStart)
  {
    hide Content; hide Val.Bytes; hide EvBuffer.Wired;
    if inbuf.totalLen == 0 || outbuf == inbuf {
      return true;
    }
    if outbuf.freezeStart || inbuf.freezeStart {
      return false;
    }
    outbuf.WiredShape();
    inbuf.WiredShape();
    if outbuf.totalLen == 0 {
      ghost var uses := TakeChains(outbuf, inbuf);
    } else {
      PrependChain(outbuf, inbuf);
    }
    return true;
  }

  // ---- evbuffer_remove_buffer ----

  /** Passes over the chains of `src` that can be handed over whole. */
  method SpliceWalk(src: EvBuffer, datlen: nat) returns (chain: Chain, previous: Chain, left: nat, ghost k: nat)
    requires src.Wired() && DataIndex(src.vals, src.d) && datlen < |Content(src.vals)|
    modifies src`lastWithDataP
    ensures src.Spine() && k <= src.d < |src.chains| && chain == src.chains[k]
    ensures previous == if k == 0 then chain else src.chains[k - 1]
    ensures src.lastWithDataP == if k < src.d then src.chains[src.d - 1] else null
    ensures |Content(src.vals[..k])| + left == datlen && left < src.vals[k].off
  {
    hide Content; hide Val.Bytes;
    DataContent(src.vals, src.d);
    ContentEmpty(src.vals[..0]);
    chain, previous, left, k := src.first, src.first, datlen, 0;
    while chain.off <= left
      invariant src.Spine() && k <= src.d < |src.chains| && chain == src.chains[k]
      invariant previous == if k == 0 then chain else src.chains[k - 1]
      invariant src.lastWithDataP == if k < src.d then src.chains[src.d - 1] else null
      invariant |Content(src.vals[..k])| + left == datlen
      decreases src.d - k
    {
      assert chain.View() == src.vals[k];
      PrefixLength(src.vals, k);
      assert chain != src.Deref(src.lastWithDataP);
      left := left - chain.off;
      previous := chain;
      if src.lastWithDataP == chain {
        src.lastWithDataP := null;
      }
      chain, k := chain.next, k + 1;
    }
    assert chain.View() == src.vals[k];
  }

  /** `src` starts with `chain` from now on; the chains before it, up to `previous`, are on their own. */
  method Detach(src: EvBuffer, chain: Chain, previous: Chain, ghost k: nat) returns (ghost own: set<object>)
    requires src.Spine() && 0 < k <= src.d < |src.chains| && chain == src.chains[k] && previous == src.chains[k - 1]
    requires src.lastWithDataP == if k < src.d then src.chains[src.d - 1] else null
    modifies src`first, src`chains, src`vals, src`d, src`Repr, previous`next
    ensures Segment(old(src.chains)[..k], old(src.vals)[..k], null, own)
    ensures src.Wired() && src.chains == old(src.chains)[k..] && src.vals == old(src.vals)[k..] && src.d == old(src.d) - k
    ensures own !! src.Repr && own + src.Repr == old(src.Repr)
  {
    hide Content; hide Val.Bytes; hide Segment; hide Objects; hide Chain.View;
    ghost var theirs, moved, mvals := src.Repr - {src}, src.chains[..k], src.vals[..k];
    own := Objects(moved);
    SegmentDisown(src.chains, src.vals, k, null, theirs);
    SegmentAt(moved, mvals, k - 1, chain, own);
    SetEnd(previous, null, moved, mvals, chain, own);
    src.first := chain;
    src.chains, src.vals, src.d, src.Repr := src.chains[k..], src.vals[k..], src.d - k, src.Repr - own;
    assert src.Repr - {src} == theirs - own;
  }

  /** What is known of the data index of `dst` when the chunks `ws` have just been put behind its data. */
  lemma AttachedContent(vs: seq<Val>, d: nat, ws: seq<Val>)
    requires DataIndex(vs, d) && forall i :: 0 <= i < |ws| ==> ws[i].Ok()
    ensures Content(Trimmed(vs, d) + ws) == Content(vs) + Content(ws)
    ensures |ws| > 0 ==> DataIndexUpTo(Trimmed(vs, d) + ws, d, d)
  {
    hide Content; hide Val.Ok;
    TrimmedContent(vs, d);
    ContentConcat(Trimmed(vs, d), ws);
  }

  /** The chains before `chain` go behind the data of `dst`. */
  method MoveChains(src: EvBuffer, dst: EvBuffer, chain: Chain, previous: Chain, ghost k: nat)
    requires dst.Wired() && DataIndex(dst.vals, dst.d) && dst.Repr !! src.Repr
    requires src.Spine() && 0 < k <= src.d < |src.chains| && chain == src.chains[k] && previous == src.chains[k - 1]
    requires src.lastWithDataP == if k < src.d then src.chains[src.d - 1] else null
    modifies dst`first, dst`chains, dst`vals, dst`Repr, dst.Repr - {dst}
    modifies src`first, src`chains, src`vals, src`d, src`Repr, previous`next
    ensures dst.Wired() && dst.vals == Trimmed(old(dst.vals), dst.d) + old(src.vals)[..k]
    ensures |dst.chains| > 0 && dst.chains[|dst.chains| - 1] == previous
    ensures k <= |dst.chains| && dst.chains[|dst.chains| - k..] == old(src.chains)[..k]
    ensures src.Wired() && src.chains == old(src.chains)[k..] && src.vals == old(src.vals)[k..] && src.d == old(src.d) - k
    ensures dst.Repr !! src.Repr && dst.Repr + src.Repr == old(dst.Repr + src.Repr)
  {
    hide Content; hide Val.Bytes; hide Segment; hide EvBuffer.Spine; hide EvBuffer.Wired; hide Val.Ok; hide DataIndex; hide Trimmed;
    hide Orderly; hide Released;
    src.SpineHead();
    ghost var moved, mvals := src.chains[..k], src.vals[..k];
    src.SpineAt(k - 1);
    dst.WiredShape();
    var head := src.first;
    var chp, uses := dst.FreeTrailingEmptyChains();
    ghost var own := Detach(src, chain, previous, k);
    dst.WiredShape();
    if |dst.chains| > 0 {
      dst.WiredAt(|dst.chains| - 1);
    }
    Attach(dst, chp, head, moved, mvals, own);
  }

  /** The chains before `chain` change hands, with their data. */
  method HandOver(src: EvBuffer, dst: EvBuffer, chain: Chain, previous: Chain, nread: nat, ghost k: nat)
    requires dst.Valid() && dst.Repr !! src.Repr
    requires src.Spine() && 0 < k <= src.d < |src.chains| && chain == src.chains[k] && previous == src.chains[k - 1]
    requires DataIndex(src.vals, src.d) && nread == |Content(src.vals[..k])|
    requires src.lastWithDataP == if k < src.d then src.chains[src.d - 1] else null
    modifies dst`first, dst`last, dst`lastWithDataP, dst`totalLen, dst`chains, dst`vals, dst`d, dst`Repr, dst.Repr - {dst}
    modifies src`first, src`chains, src`vals, src`d, src`Repr, previous`next
    ensures dst.Valid() && dst.Contents() == old(dst.Contents()) + Content(old(src.vals)[..k])
    ensures src.Wired() && src.chains == old(src.chains)[k..] && src.vals == old(src.vals)[k..] && src.d == old(src.d) - k
    ensures dst.Repr !! src.Repr && dst.Repr + src.Repr == old(dst.Repr + src.Repr)
    ensures k <= |dst.chains| && dst.chains[|dst.chains| - k..] == old(src.chains)[..k]
  {
    hide Content; hide Val.Bytes; hide Segment; hide EvBuffer.Spine; hide EvBuffer.Wired; hide Val.Ok; hide Trimmed;
    src.SpineHead();
    AttachedContent(dst.vals, dst.d, src.vals[..k]);
    MoveChains(src, dst, chain, previous, k);
    dst.last := previous;
    dst.WiredShape();
    dst.AdvanceLastWithData();
    dst.totalLen := dst.totalLen + nread;
  }

  /** The first `left` bytes of the first chain are copied, then dropped. */
  method RemoveRest(src: EvBuffer, dst: EvBuffer, chain: Chain, left: nat)
    requires src.Wired() && dst.Valid() && src.Repr !! dst.Repr && !dst.freezeEnd
    requires |src.chains| > 0 && chain == src.chains[0] && src.vals[0].Ok() && left < src.vals[0].off
    modifies src`vals, src.Repr - {src}, dst.Repr
    ensures src.Wired() && dst.Valid() && src.Repr !! dst.Repr && fresh(dst.Repr - old(dst.Repr))
    ensures src.vals == old(src.vals)[0 := old(src.vals[0]).Dropped(left)] && src.chains == old(src.chains)
    ensures dst.Contents() == old(dst.Contents()) + if left <= SIZE_MAX - old(dst.totalLen) then old(src.vals[0]).Bytes()[..left] else []
    ensures dst.freezeEnd == old(dst.freezeEnd) && dst.freezeStart == old(dst.freezeStart)
  {
    hide Content; hide Val.Bytes; hide Val.Dropped; hide EvBuffer.Wired; hide Chain.View;
    src.WiredShape();
    src.WiredAt(0);
    dst.WiredShape();
    FirstBytes(chain, left);
    var data := chain.buffer[chain.misalign..chain.misalign + left];
    var ok := dst.Add(data);
    src.DropBytes(chain, left, 0);
  }

  /** The chains that end within the first `datlen` bytes are handed over. */
  method MoveWhole(src: EvBuffer, dst: EvBuffer, datlen: nat) returns (chain: Chain, ghost k: nat, left: nat)
    requires src.Valid() && dst.Valid() && src.Repr !! dst.Repr && datlen < src.totalLen
    modifies src`lastWithDataP, src`first, src`chains, src`vals, src`d, src`Repr, src.Repr - {src}
    modifies dst`first, dst`last, dst`lastWithDataP, dst`totalLen, dst`chains, dst`vals, dst`d, dst`Repr, dst.Repr - {dst}
    ensures src.Wired() && dst.Valid() && src.Repr !! dst.Repr && dst.Repr + src.Repr == old(dst.Repr + src.Repr)
    ensures k <= old(src.d) < |old(src.vals)| && src.d == old(src.d) - k && left < old(src.vals)[k].off
    ensures datlen == |Content(old(src.vals)[..k])| + left && old(src.vals)[k].Ok()
    ensures src.vals == old(src.vals)[k..] && src.chains == old(src.chains)[k..] && |src.chains| > 0 && chain == src.chains[0]
    ensures dst.Contents() == old(dst.Contents()) + Content(old(src.vals)[..k])
    ensures k <= |dst.chains| && dst.chains[|dst.chains| - k..] == old(src.chains)[..k]
  {
    hide Content; hide Val.Bytes; hide Segment; hide EvBuffer.Spine; hide Val.Ok;
    src.WiredShape();
    dst.WiredShape();
    DataAt(src.vals, src.d);
    var previous;
    chain, previous, left, k := SpliceWalk(src, datlen);
    src.SpineDistinct(k, 0);
    src.SpineHead();
    if chain != src.first {
      src.SpineAt(k - 1);
      HandOver(src, dst, chain, previous, datlen - left, k);
    } else {
      ContentEmpty(src.vals[..0]);
    }
  }

  /** Whole chains first, then the bytes of the chain behind them. */
  method RemoveFrom(src: EvBuffer, dst: EvBuffer, datlen: nat) returns (ghost k: nat, left: nat)
    requires src.Valid() && dst.Valid() && src.Repr !! dst.Repr
    requires datlen < src.totalLen && !dst.freezeEnd
    modifies src`lastWithDataP, src`first, src`chains, src`vals, src`d, src`Repr, src.Repr - {src}, dst.Repr
    ensures src.Wired() && dst.Valid() && src.Repr !! dst.Repr
    ensures fresh(src.Repr + dst.Repr - old(src.Repr + dst.Repr))
    ensures k <= old(src.d) < |old(src.vals)| && src.d == old(src.d) - k && left < old(src.vals)[k].off
    ensures datlen == |Content(old(src.vals)[..k])| + left && old(src.vals)[k].Ok()
    ensures src.vals == [old(src.vals)[k].Dropped(left)] + old(src.vals)[k + 1..]
    ensures src.chains == old(src.chains)[k..]
    ensures dst.Contents() == old(dst.Contents()) + Content(old(src.vals)[..k])
      + if left <= SIZE_MAX - (old(dst.totalLen) + datlen - left) then old(src.vals)[k].Bytes()[..left] else []
    ensures dst.freezeEnd == old(dst.freezeEnd) && dst.freezeStart == old(dst.freezeStart)
  {
    hide Content; hide Val.Bytes; hide EvBuffer.Wired; hide Val.Dropped; hide DataIndex;
    src.WiredShape();
    dst.WiredShape();
    var chain;
    chain, k, left := MoveWhole(src, dst, datlen);
    dst.WiredShape();
    src.WiredShape();
    RemoveRest(src, dst, chain, left);
  }

  /** The part of evbuffer_remove_buffer behind its short cut: `src` keeps some data. */
  method RemoveSome(src: EvBuffer, dst: EvBuffer, datlen: nat)
    requires src.Valid() && dst.Valid() && src.Repr !! dst.Repr
    requires datlen < src.totalLen && !dst.freezeEnd
    modifies src.Repr, dst.Repr
    ensures src.Valid() && dst.Valid() && src.Repr !! dst.Repr
    ensures fresh(src.Repr + dst.Repr - old(src.Repr + dst.Repr))
    ensures datlen <= |old(src.Contents())| && src.Contents() == old(src.Contents())[datlen..]
    ensures dst.Contents() == old(dst.Contents()) + old(src.Contents())[..Arrives(old(src.vals), datlen, old(dst.totalLen))]
    ensures dst.freezeEnd == old(dst.freezeEnd) && dst.freezeStart == old(dst.freezeStart)
    ensures src.freezeEnd == old(src.freezeEnd) && src.freezeStart == old(src.freezeStart)
  {
    hide Content; hide Val.Bytes; hide EvBuffer.Spine; hide Val.Dropped; hide WholeChunks;
    src.WiredShape();
    ghost var vs, e := src.vals, src.d;
    var k, left := RemoveFrom(src, dst, datlen);
    DropContent(vs, e, k, left);
    SpliceContent(vs, k, datlen, left);
    src.totalLen := src.totalLen - datlen;
    src.WiredShape();
  }

  /**
   How many of `datlen` bytes reach a buffer of `dstLen` bytes.  None is lost if the sum fits
   a size_t or the cut falls between two chunks; otherwise the last evbuffer_add is refused.
   */
  function Arrives(vs: seq<Val>, datlen: nat, dstLen: nat): (n: nat)
    requires datlen <= |Content(vs)|
    ensures n <= datlen
    ensures n == datlen <==> dstLen + datlen <= SIZE_MAX || WholeChunks(vs, datlen) == datlen
    ensures n != datlen ==> n == WholeChunks(vs, datlen)
  {
    var whole := WholeChunks(vs, datlen);
    if datlen - whole <= SIZE_MAX - (dstLen + whole) then datlen else whole
  }

  /** evbuffer_remove_buffer */
  method RemoveBuffer(src: EvBuffer, dst: EvBuffer, datlen: nat) returns (result: int)
    requires src.Valid() && dst.Valid() && (src != dst ==> src.Repr !! dst.Repr)
    modifies src.Repr, dst.Repr
    ensures src.Valid() && dst.Valid() && (src != dst ==> src.Repr !! dst.Repr)
    ensures fresh(src.Repr + dst.Repr - old(src.Repr + dst.Repr))
    ensures result == if datlen == 0 || src == dst then 0
      else if dst.freezeEnd || src.freezeStart then -1
      else if datlen < old(src.totalLen) then datlen else old(src.totalLen)
    ensures result <= 0 ==> src.Contents() == old(src.Contents()) && dst.Contents() == old(dst.Contents())
    ensures result > 0 ==> result <= |old(src.Contents())| && src.Contents() == old(src.Contents())[result..]
    ensures result > 0 ==> dst.Contents() == old(dst.Contents()) + old(src.Contents())[..Arrives(old(src.vals), result, old(dst.totalLen))]
    ensures result > 0 && old(dst.totalLen) + result <= 0xFFFF_FFFF_FFFF_FFFF ==>
      dst.Contents() == old(dst.Contents()) + old(src.Contents())[..result]
    ensures dst.freezeEnd == old(dst.freezeEnd) && dst.freezeStart == old(dst.freezeStart)
    ensures src.freezeEnd == old(src.freezeEnd) && src.freezeStart == old(src.freezeStart)
  {
    hide Content; hide EvBuffer.Wired; hide WholeChunks;
    if datlen == 0 || dst == src {
      return 0;
    }
    if dst.freezeEnd || src.freezeStart {
      return -1;
    }
    src.WiredShape();
    dst.WiredShape();
    if datlen >= src.totalLen {
      result := src.totalLen;
      AllChunks(src.vals);
      var ok := AddBuffer(dst, src);
      return;
    }
    RemoveSome(src, dst, datlen);
    return datlen;
  }

  /** Every chunk ends within the data. */
  lemma {:induction false} AllChunks(vs: seq<Val>)
    ensures WholeChunks(vs, |Content(vs)|) == |Content(vs)|
  {
    if |vs| > 0 {
      AllChunks(vs[1..]);
    }
  }
}
