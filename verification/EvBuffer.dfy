module EvBuffers {
  import opened ChainValues

  /** struct evbuffer_chain */
  class Chain {
    const buffer: array<byte>
    var misalign: nat
    var off: nat
    var next: Chain?

    constructor (len: nat)
      ensures fresh(buffer) && buffer.Length == len
      ensures misalign == 0 && off == 0 && next == null
    {
      buffer := new byte[len];
      misalign, off, next := 0, 0, null;
    }

    /** What the chain holds, as a value. */
    ghost function View(): Val
      reads `misalign, `off, buffer
    {
      Val(misalign, off, buffer[..])
    }

    /** CHAIN_SPACE_LEN */
    function SpaceLen(): nat
      requires misalign + off <= buffer.Length
      reads `misalign, `off
    {
      buffer.Length - (misalign + off)
    }

    method Append(data: seq<byte>)
      requires View().Ok() && |data| <= View().Space()
      modifies `off, buffer
      ensures View() == old(View()).Appended(data)
    {
      var end := misalign + off;
      forall i | 0 <= i < |data| {
        buffer[end + i] := data[i];
      }
      off := off + |data|;
    }

    /** What a caller does with room it has been given. */
    method Scribble(at: nat, data: seq<byte>)
      requires View().Ok() && misalign + off <= at && at + |data| <= buffer.Length
      modifies buffer
      ensures View() == old(View()).Scribbled(at, data)
    {
      forall i | 0 <= i < |data| {
        buffer[at + i] := data[i];
      }
    }

    /** What a caller has written into its room becomes data. */
    method Grow(n: nat)
      requires View().Ok() && n <= View().Space()
      modifies `off
      ensures View() == old(View()).Grown(n)
    {
      off := off + n;
    }

    method PutBefore(data: seq<byte>)
      requires View().Ok() && |data| <= misalign
      modifies `misalign, `off, buffer
      ensures View() == old(View()).Prefixed(data)
    {
      hide Val.Bytes;
      ghost var mem, end := buffer[..], misalign;
      var at := misalign - |data|;
      OverwrittenAt(mem, end, data, off);
      forall i | 0 <= i < |data| {
        buffer[at + i] := data[i];
      }
      assert buffer[..] == Overwritten(mem, end, data, off);
      off := off + |data|;
      misalign := at;
    }

    method Align()
      requires View().Ok()
      modifies `misalign, buffer
      ensures View() == old(View()).Aligned()
    {
      forall i | 0 <= i < off {
        buffer[i] := buffer[misalign + i];
      }
      misalign := 0;
    }
  }

  /** Where a list of chains that goes on to `end` begins. */
  ghost function Head(cs: seq<Chain>, end: Chain?): Chain? {
    if |cs| > 0 then cs[0] else end
  }

  /** `cs` are chains owned by `repr`, linked one to the next and then to `end`, that hold `vs`. */
  ghost predicate Segment(cs: seq<Chain>, vs: seq<Val>, end: Chain?, repr: set<object>)
    reads repr
  {
    && |vs| == |cs|
    && (forall i {:trigger cs[i]} :: 0 <= i < |cs| ==> cs[i] in repr && cs[i].buffer in repr)
    && (forall i, j {:trigger cs[i].buffer, cs[j].buffer} :: 0 <= i < j < |cs| ==> cs[i].buffer != cs[j].buffer)
    && (forall i {:trigger vs[i]} :: 0 <= i < |cs| ==> cs[i].View() == vs[i])
    && (forall i {:trigger cs[i].next} :: 0 <= i < |cs| ==> cs[i].next == if i + 1 < |cs| then cs[i + 1] else end)
  }

  lemma SegmentJoin(a: seq<Chain>, va: seq<Val>, b: seq<Chain>, vb: seq<Val>, end: Chain?, ra: set<object>, rb: set<object>)
    requires Segment(a, va, Head(b, end), ra) && Segment(b, vb, end, rb) && ra !! rb
    ensures Segment(a + b, va + vb, end, ra + rb)
  {
    hide Chain.View;
  }

  lemma SegmentCut(cs: seq<Chain>, vs: seq<Val>, k: nat, end: Chain?, repr: set<object>)
    requires Segment(cs, vs, end, repr) && k <= |cs|
    ensures |vs| == |cs|
    ensures Segment(cs[..k], vs[..k], Head(cs[k..], end), repr)
    ensures Segment(cs[k..], vs[k..], end, repr)
  {
    hide Chain.View;
  }

  /** The chains of a segment and their memory. */
  ghost function Objects(cs: seq<Chain>): set<object> {
    (set i | 0 <= i < |cs| :: cs[i] as object) + (set i | 0 <= i < |cs| :: cs[i].buffer as object)
  }

  lemma ObjectsAt(cs: seq<Chain>, i: nat)
    requires i < |cs|
    ensures cs[i] in Objects(cs) && cs[i].buffer in Objects(cs)
  {
  }

  /** An object of a list of chains is one of its chains, or the memory of one. */
  lemma ObjectsFrom(cs: seq<Chain>, o: object) returns (i: nat)
    requires o in Objects(cs)
    ensures i < |cs| && (o == cs[i] || o == cs[i].buffer)
  {
    if o in (set i | 0 <= i < |cs| :: cs[i] as object) {
      i :| 0 <= i < |cs| && cs[i] == o;
    } else {
      i :| 0 <= i < |cs| && cs[i].buffer == o;
    }
  }

  lemma SegmentOwn(cs: seq<Chain>, vs: seq<Val>, end: Chain?, repr: set<object>, mine: set<object>)
    requires Segment(cs, vs, end, repr)
    requires forall i :: 0 <= i < |cs| ==> cs[i] in mine && cs[i].buffer in mine
    ensures Segment(cs, vs, end, mine)
  {
    hide Chain.View;
  }

  /** Later chains are not among the earlier ones, nor is their memory. */
  lemma Later(cs: seq<Chain>, vs: seq<Val>, k: nat, i: nat, end: Chain?, repr: set<object>)
    requires Segment(cs, vs, end, repr) && k <= i < |cs|
    ensures cs[i] !in Objects(cs[..k]) && cs[i].buffer !in Objects(cs[..k])
  {
    hide Objects;
    if cs[i] in Objects(cs[..k]) {
      var j := ObjectsFrom(cs[..k], cs[i]);
      assert false;
    } else if cs[i].buffer in Objects(cs[..k]) {
      var j := ObjectsFrom(cs[..k], cs[i].buffer);
      assert false;
    }
  }

  lemma SegmentDisown(cs: seq<Chain>, vs: seq<Val>, k: nat, end: Chain?, repr: set<object>)
    requires Segment(cs, vs, end, repr) && k <= |cs|
    ensures Segment(cs[..k], vs[..k], Head(cs[k..], end), Objects(cs[..k]))
    ensures Segment(cs[k..], vs[k..], end, repr - Objects(cs[..k]))
    ensures Objects(cs[..k]) <= repr
  {
    hide Segment, Objects;
    SegmentCut(cs, vs, k, end, repr);
    forall i | 0 <= i < k
      ensures cs[..k][i] in Objects(cs[..k]) && cs[..k][i].buffer in Objects(cs[..k])
    {
      ObjectsAt(cs[..k], i);
    }
    forall i | 0 <= i < |cs| - k
      ensures cs[k..][i] in repr - Objects(cs[..k]) && cs[k..][i].buffer in repr - Objects(cs[..k])
    {
      SegmentAt(cs, vs, k + i, end, repr);
      Later(cs, vs, k, k + i, end, repr);
    }
    forall o | o in Objects(cs[..k])
      ensures o in repr
    {
      var i := ObjectsFrom(cs[..k], o);
      SegmentAt(cs, vs, i, end, repr);
    }
    SegmentOwn(cs[..k], vs[..k], Head(cs[k..], end), repr, Objects(cs[..k]));
    SegmentOwn(cs[k..], vs[k..], end, repr, repr - Objects(cs[..k]));
  }

  lemma SegmentAt(cs: seq<Chain>, vs: seq<Val>, i: nat, end: Chain?, repr: set<object>)
    requires Segment(cs, vs, end, repr) && i < |cs|
    ensures |vs| == |cs| && cs[i] in repr && cs[i].buffer in repr && cs[i].View() == vs[i]
    ensures cs[i].next == if i + 1 < |cs| then cs[i + 1] else end
  {
    assert cs[i].View() == vs[i];
  }

  /** The first bytes of a chain, as they stand in its memory. */
  lemma FirstBytes(chain: Chain, n: nat)
    requires chain.View().Ok() && n <= chain.off
    ensures chain.misalign + n <= chain.buffer.Length
    ensures chain.buffer[chain.misalign..chain.misalign + n] == chain.View().Bytes()[..n]
  {
    var v := chain.View();
    assert v.mem == chain.buffer[..];
    Front(v.mem, v.misalign, v.off, n);
    assert v.mem[v.misalign..v.misalign + n] == chain.buffer[chain.misalign..chain.misalign + n];
  }

  lemma Front<T>(s: seq<T>, from: nat, len: nat, n: nat)
    requires n <= len && from + len <= |s|
    ensures s[from..from + len][..n] == s[from..from + n]
  {
  }

  lemma SegmentOne(c: Chain, end: Chain?)
    requires c.next == end
    ensures Segment([c], [c.View()], end, {c, c.buffer})
  {
  }

  lemma SegmentNil(end: Chain?, repr: set<object>)
    ensures Segment([], [], end, repr)
  {
  }

  /** The last link of a segment is set to lead elsewhere. */
  method SetEnd(c: Chain, next: Chain?, ghost cs: seq<Chain>, ghost vs: seq<Val>, ghost end: Chain?, ghost repr: set<object>)
    requires Segment(cs, vs, end, repr) && |cs| > 0 && c == cs[|cs| - 1]
    modifies c`next
    ensures Segment(cs, vs, next, repr) && c.next == next
  {
    hide Chain.View;
    c.next := next;
  }

  // ---- what is done to chains that are freed ----

  /** A walk that frees chains reads the fields of one, or frees it. */
  datatype Use = Visit(chain: Chain) | Release(chain: Chain)

  /** The chains freed, in order. */
  ghost function Released(us: seq<Use>): seq<Chain> {
    if us == [] then []
    else Released(us[..|us| - 1]) + if us[|us| - 1].Release? then [us[|us| - 1].chain] else []
  }

  /** Nothing freed is read or freed again. */
  ghost predicate Orderly(us: seq<Use>) {
    forall i, j :: 0 <= i < j < |us| && us[i].Release? ==> us[j].chain != us[i].chain
  }

  lemma {:induction false} ReleasedHas(us: seq<Use>, i: nat)
    requires i < |us| && us[i].Release?
    ensures us[i].chain in Released(us)
  {
    if i < |us| - 1 {
      ReleasedHas(us[..|us| - 1], i);
    }
  }

  lemma OneMore(us: seq<Use>, u: Use)
    requires Orderly(us) && u.chain !in Released(us)
    ensures Orderly(us + [u]) && Released(us + [u]) == Released(us) + if u.Release? then [u.chain] else []
  {
    assert (us + [u])[..|us|] == us;
    forall i | 0 <= i < |us| && us[i].Release?
      ensures us[i].chain != u.chain
    {
      ReleasedHas(us, i);
    }
  }

  /** A chain is read, perhaps another one is, and the first is freed. */
  ghost function Passing(us: seq<Use>, chain: Chain, other: Chain?): seq<Use> {
    (if other == null then us + [Visit(chain)] else us + [Visit(chain)] + [Visit(other)]) + [Release(chain)]
  }

  lemma PassingOn(us: seq<Use>, chain: Chain, other: Chain?)
    requires Orderly(us) && chain !in Released(us) && other !in Released(us)
    ensures Orderly(Passing(us, chain, other)) && Released(Passing(us, chain, other)) == Released(us) + [chain]
  {
    hide Orderly, Released;
    OneMore(us, Visit(chain));
    var them := us + [Visit(chain)];
    if other != null {
      OneMore(them, Visit(other));
      them := them + [Visit(other)];
    }
    OneMore(them, Release(chain));
  }

  lemma NoUse()
    ensures Orderly([]) && Released([]) == []
  {
  }

  /** struct evbuffer */
  class EvBuffer {
    var first: Chain?
    var last: Chain?
    // Stands for the pointer-to-pointer: null is &first, c is &c.next.
    var lastWithDataP: Chain?
    var totalLen: nat
    var freezeStart: bool
    var freezeEnd: bool

    ghost var chains: seq<Chain>
    ghost var vals: seq<Val>
    ghost var d: nat
    ghost var Repr: set<object>

    /** The chain at an index; null before the first and after the last. */
    ghost function At(i: int): Chain?
      reads `chains
    {
      if 0 <= i < |chains| then chains[i] else null
    }

    ghost function ChainSet(): set<Chain>
      reads `chains
    {
      set i | 0 <= i < |chains| :: chains[i]
    }

    /** The list of chains, as the pointers and the memory hold it. */
    ghost predicate Spine()
      reads `first, `chains, `vals, `Repr, Repr - {this}
    {
      && this in Repr
      && |vals| == |chains|
      && Segment(chains, vals, null, Repr - {this})
      && first == At(0)
    }

    /** ... and last_with_datap names the link that leads to chain `d`. */
    ghost predicate Wired()
      reads `first, `lastWithDataP, `d, `chains, `vals, `Repr, Repr - {this}
    {
      && Spine()
      && lastWithDataP == At(d - 1)
      && (d == 0 || d < |chains|)
    }

    /** And the cached fields are right: no data behind chain `d`, the last chain, the length. */
    ghost predicate Valid()
      reads this, Repr
    {
      && Wired()
      && DataIndex(vals, d)
      && last == At(|chains| - 1)
      && totalLen == |Content(vals)|
    }

    /** The bytes, as one sequence. */
    ghost function Contents(): seq<byte>
      reads `vals
    {
      Content(vals)
    }

    /** What Spine says about one chain. */
    lemma SpineAt(k: nat)
      requires Spine() && k < |chains|
      ensures |vals| == |chains| && chains[k].View() == vals[k]
      ensures this in Repr && chains[k] in Repr && chains[k].buffer in Repr
      ensures chains[k].off == vals[k].off && chains[k].misalign == vals[k].misalign
      ensures chains[k].next == At(k + 1)
    {
      assert chains[k].View() == vals[k];
    }

    lemma WiredAt(k: nat)
      requires Wired() && k < |chains|
      ensures |vals| == |chains| && chains[k].View() == vals[k]
      ensures this in Repr && chains[k] in Repr && chains[k].buffer in Repr
      ensures chains[k].off == vals[k].off && chains[k].misalign == vals[k].misalign
      ensures first == chains[0] && (d == 0 || d < |chains|)
      ensures chains[k].next == At(k + 1)
    {
      assert chains[k].View() == vals[k];
      assert chains[k].next == At(k + 1);
    }

    lemma SpineHead()
      requires Spine() && |chains| > 0
      ensures first == chains[0] && |vals| == |chains| && this in Repr
    {
    }

    /** No chain stands twice in the list. */
    lemma SpineDistinct(i: nat, j: nat)
      requires Spine() && i < |chains| && j < |chains|
      ensures chains[i] == chains[j] <==> i == j
    {
      assert chains[i].buffer == chains[i].buffer && chains[j].buffer == chains[j].buffer;
    }

    lemma WiredDistinct(i: nat, j: nat)
      requires Wired() && i < |chains| && j < |chains|
      ensures chains[i] == chains[j] <==> i == j
    {
      SpineDistinct(i, j);
    }

    lemma FirstOff()
      requires Wired() && |chains| > 0
      ensures first == chains[0] && first.off == vals[0].off
    {
      assert chains[0].View() == vals[0];
    }

    lemma WiredShape()
      requires Wired()
      ensures this in Repr && |vals| == |chains| && first == At(0) && lastWithDataP == At(d - 1)
      ensures d == 0 || d < |chains|
    {
    }

    constructor ()
      ensures Valid() && fresh(Repr) && Repr == {this} && chains == [] && Contents() == [] && !freezeStart && !freezeEnd
    {
      first, last, lastWithDataP, totalLen := null, null, null, 0;
      freezeStart, freezeEnd := false, false;
      chains, vals, d, Repr := [], [], 0, {this};
    }

    /** evbuffer_freeze (on) and evbuffer_unfreeze (off), at the front (start) or the end */
    method SetFreeze(start: bool, on: bool)
      requires Valid()
      modifies `freezeStart, `freezeEnd
      ensures Valid() && Contents() == old(Contents())
      ensures freezeStart == (if start then on else old(freezeStart)) && freezeEnd == (if start then old(freezeEnd) else on)
    {
      hide Content; hide Wired;
      if start {
        freezeStart := on;
      } else {
        freezeEnd := on;
      }
    }

    /** The chain that a pointer-to-pointer leads to. */
    function Deref(p: Chain?): Chain?
      reads this, p
    {
      if p == null then first else p.next
    }

    /** The walk of evbuffer_free_trailing_empty_chains */
    method FindTrailing() returns (ch: Chain?, ghost k: nat)
      requires Wired() && DataIndex(vals, d)
      ensures k <= |chains| && ch == At(k - 1)
      ensures vals[..k] == Trimmed(vals, d)
    {
      ch := lastWithDataP;
      k := d;
      while Deref(ch) != null && Deref(ch).off != 0
        invariant d <= k <= |chains| && ch == At(k - 1)
        invariant k > d ==> k == d + 1 && vals[d].off != 0
        decreases |chains| - k
      {
        assert vals[k].off != 0;
        ch := Deref(ch);
        k := k + 1;
      }
      assert k < |chains| ==> vals[k].off == 0;
    }

    /** Everything behind a link is unlinked. */
    method CutAt(ch: Chain?, ghost k: nat)
      requires Wired() && k <= |chains| && ch == At(k - 1)
      requires d < k || d == 0
      modifies this`first, this`chains, this`vals, ch
      ensures Wired() && chains == old(chains)[..k] && vals == old(vals)[..k]
    {
      hide Chain.View;
      if ch == null {
        first := null;
      } else {
        ch.next := null;
      }
      chains, vals := chains[..k], vals[..k];
    }

    /** A new chain behind all the others. */
    method LinkAt(ch: Chain?, c: Chain)
      requires Wired() && ch == At(|chains| - 1)
      requires c !in Repr && c.buffer !in Repr && c.next == null
      modifies this`first, this`chains, this`vals, this`Repr, ch
      ensures Wired() && chains == old(chains) + [c] && vals == old(vals) + [c.View()]
      ensures c.View() == old(c.View())
      ensures Repr == old(Repr) + {c, c.buffer}
    {
      hide Chain.View;
      if ch == null {
        first := c;
      } else {
        ch.next := c;
      }
      chains, vals := chains + [c], vals + [c.View()];
      Repr := Repr + {c, c.buffer};
    }

    /** Bytes behind the data of one chain. */
    method AppendTo(c: Chain, data: seq<byte>, ghost k: nat)
      requires Wired() && k < |chains| && c == chains[k] && vals[k].Ok() && |data| <= vals[k].Space()
      modifies this`vals, c`off, c.buffer
      ensures Wired() && vals == old(vals)[k := old(vals[k]).Appended(data)]
    {
      hide Content; hide Val.Bytes; hide Val.Appended; hide Val.Aligned;
      assert c.View() == vals[k];
      c.Append(data);
      vals := vals[k := vals[k].Appended(data)];
    }

    /** The data of one chain moved to the front of its memory. */
    method AlignAt(c: Chain, ghost k: nat)
      requires Wired() && k < |chains| && c == chains[k] && vals[k].Ok()
      modifies this`vals, c`misalign, c.buffer
      ensures Wired() && vals == old(vals)[k := old(vals[k]).Aligned()]
    {
      hide Content; hide Val.Bytes; hide Val.Appended; hide Val.Aligned;
      assert c.View() == vals[k];
      c.Align();
      vals := vals[k := vals[k].Aligned()];
    }

    /** *chp becomes the last chain with data. */
    method SetLastWithData(chp: Chain?, ghost k: nat)
      requires Wired() && k < |chains| && chp == At(k - 1)
      modifies this`lastWithDataP, this`d
      ensures Wired() && d == k
    {
      lastWithDataP, d := chp, k;
    }

    /** No chain stands before itself. */
    lemma NotBefore(k: nat, j: nat)
      requires Spine() && k <= j < |chains|
      ensures chains[j] !in chains[..k]
    {
      forall i | 0 <= i < k
        ensures chains[i] != chains[j]
      {
        SpineDistinct(i, j);
      }
    }

    lemma NotBetween(k: nat, j: nat)
      requires Spine() && 0 < k <= j < |chains|
      ensures chains[j] !in chains[1..k] && chains[0] !in chains[1..k]
    {
      forall i | 1 <= i < k
        ensures chains[i] != chains[j] && chains[i] != chains[0]
      {
        SpineDistinct(i, j);
        SpineDistinct(i, 0);
      }
    }

    /** evbuffer_free_all_chains: the link is read before the chain is freed. */
    method FreeAllChains(from: Chain?, ghost k: nat) returns (ghost uses: seq<Use>)
      requires Wired() && k <= |chains| && from == At(k)
      ensures Orderly(uses) && Released(uses) == chains[k..]
    {
      hide Wired, Spine, Orderly, Released, Passing;
      NoUse();
      uses := [];
      var chain := from;
      ghost var j := k;
      while chain != null
        invariant k <= j <= |chains| && chain == At(j)
        invariant Orderly(uses) && Released(uses) == chains[k..j]
        decreases |chains| - j
      {
        WiredAt(j);
        NotFrom(k, j);
        PassingOn(uses, chain, null);
        uses := Passing(uses, chain, null);
        chain, j := chain.next, j + 1;
      }
      assert chains[k..j] == chains[k..];
    }

    lemma NotFrom(k: nat, j: nat)
      requires Wired() && k <= j < |chains|
      ensures chains[j] !in chains[k..j] && chains[k..j + 1] == chains[k..j] + [chains[j]]
    {
      forall i | k <= i < j
        ensures chains[i] != chains[j]
      {
        SpineDistinct(i, j);
      }
    }

    /** The place behind the data, with the empty chains after it unlinked and freed. */
    method FreeTrailingEmptyChains() returns (chp: Chain?, ghost uses: seq<Use>)
      requires Wired() && DataIndex(vals, d)
      modifies this`first, this`chains, this`vals, Repr - {this}
      ensures Wired() && chp == At(|chains| - 1)
      ensures vals == Trimmed(old(vals), d) && chains == old(chains)[..|vals|]
      ensures Orderly(uses) && chains + Released(uses) == old(chains)
    {
      hide Orderly, Released;
      ghost var k;
      chp, k := FindTrailing();
      assert |Trimmed(vals, d)| == k;
      NoUse();
      uses := [];
      if Deref(chp) != null {
        uses := FreeAllChains(Deref(chp), k);
        CutAt(chp, k);
      }
    }

    /** The list part of evbuffer_chain_insert */
    method InsertChain(c: Chain)
      requires Wired() && DataIndex(vals, d) && c !in Repr && c.buffer !in Repr && c.next == null
      modifies this`first, this`last, this`lastWithDataP, this`chains, this`vals, this`d, this`Repr, Repr - {this}
      ensures Wired() && last == c && Repr == old(Repr) + {c, c.buffer}
      ensures c.View() == old(c.View())
      ensures chains == old(chains)[..|Trimmed(old(vals), old(d))|] + [c]
      ensures vals == Trimmed(old(vals), old(d)) + [c.View()]
      ensures d == InsertIndex(old(vals), old(d), c.View())
    {
      hide Content; hide Val.Bytes; hide DataIndex; hide Wired;
      var chp := FreePlace();
      WiredShape();
      LinkAt(chp, c);
      if c.off != 0 {
        SetLastWithData(chp, |chains| - 1);
      }
      last := c;
    }

    /** Where a new chain goes */
    method FreePlace() returns (chp: Chain?)
      requires Wired() && DataIndex(vals, d)
      modifies this`first, this`chains, this`vals, Repr - {this}
      ensures Wired() && chp == At(|chains| - 1) && (chp != null ==> chp in Repr)
      ensures vals == Trimmed(old(vals), d) && chains == old(chains)[..|vals|]
    {
      hide Wired; hide DataIndex; hide Orderly; hide Released;
      WiredShape();
      if |chains| > 0 {
        WiredAt(0);
        WiredAt(d);
        if d > 0 {
          WiredAt(d - 1);
        }
      }
      chp := null;
      if Deref(lastWithDataP) != null {
        ghost var uses;
        chp, uses := FreeTrailingEmptyChains();
      }
      WiredShape();
      if chp != null {
        WiredAt(|chains| - 1);
      }
    }

    /** evbuffer_chain_insert */
    method ChainInsert(c: Chain)
      requires Valid() && c !in Repr && c.buffer !in Repr
      requires c.View().Ok() && c.next == null
      modifies this`first, this`last, this`lastWithDataP, this`totalLen, this`chains, this`vals, this`d, this`Repr, Repr - {this}
      ensures Valid() && Repr == old(Repr) + {c, c.buffer}
      ensures c.View() == old(c.View())
      ensures Contents() == old(Contents()) + c.View().Bytes()
      ensures vals == Trimmed(old(vals), old(d)) + [c.View()]
      ensures last == c
    {
      hide Content; hide Val.Bytes; hide Val.Appended; hide Val.Aligned;
      InsertContent(vals, d, c.View());
      InsertChain(c);
      totalLen := totalLen + c.off;
    }

    /** evbuffer_chain_should_realign */
    predicate ShouldRealign(c: Chain, datlen: nat)
      reads c
    {
      && c.buffer.Length - c.off >= datlen
      && c.off < c.buffer.Length / 2
      && c.off <= MAX_TO_REALIGN_IN_EXPAND
    }

    /** Bytes behind the last data */
    method AppendToLast(c: Chain, data: seq<byte>)
      requires Valid() && d < |chains| && c == chains[d] && |data| <= vals[d].Space()
      modifies this`vals, this`totalLen, c`off, c.buffer
      ensures Valid() && Contents() == old(Contents()) + data
      ensures vals == old(vals)[d := old(vals[d]).Appended(data)]
    {
      hide Content; hide Val.Bytes; hide Val.Appended; hide Val.Aligned;
      AppendContent(vals, d, vals[d].Appended(data), data);
      AppendTo(c, data, d);
      totalLen := totalLen + |data|;
    }

    /** evbuffer_chain_align on the last chain with data */
    method RealignLast(c: Chain)
      requires Valid() && d < |chains| && c == chains[d]
      modifies this`vals, c`misalign, c.buffer
      ensures Valid() && Contents() == old(Contents())
      ensures vals == old(vals)[d := old(vals[d]).Aligned()]
    {
      hide Content; hide Val.Bytes; hide Val.Appended; hide Val.Aligned;
      SameBytesContent(vals, d, vals[d].Aligned());
      AlignAt(c, d);
    }

    /** What evbuffer_add does once it knows that `chain` is the last chain with data. */
    method AddTo(chain: Chain, data: seq<byte>) returns (ok: bool)
      requires Valid() && d < |chains| && chain == chains[d]
      modifies Repr
      ensures Valid() && fresh(Repr - old(Repr))
      ensures ok <==> |data| <= MAX_DATA
      ensures Contents() == if ok then old(Contents()) + data else old(Contents())
      ensures |data| <= old(vals[d].Space()) ==> d == old(d) && vals == old(vals)[d := old(vals[d]).Appended(data)]
      ensures freezeEnd == old(freezeEnd) && freezeStart == old(freezeStart)
    {
      hide Content; hide Val.Bytes; hide Val.Appended; hide Val.Aligned; hide AllocSize; hide Wired;
      WiredAt(d);
      var remain := chain.buffer.Length - chain.misalign - chain.off;
      if remain >= |data| {
        AppendToLast(chain, data);
        return true;
      } else if ShouldRealign(chain, |data|) {
        RealignLast(chain);
        AppendToLast(chain, data);
        return true;
      }
      var toAlloc := chain.buffer.Length;
      if toAlloc <= CHAIN_MAX_AUTO_SIZE / 2 {
        toAlloc := toAlloc * 2;
      }
      if |data| > toAlloc {
        toAlloc := |data|;
      }
      var tmp := ChainNew(toAlloc);
      if tmp == null {
        return false;
      }
      AddNewChain(chain, tmp, data, remain);
      return true;
    }

    method AddNewChain(chain: Chain, tmp: Chain, data: seq<byte>, remain: nat)
      requires Valid() && d < |chains| && chain == chains[d]
      requires remain == vals[d].Space() && remain < |data|
      requires tmp !in Repr && tmp.buffer !in Repr && tmp.next == null
      requires tmp.View().Ok() && tmp.off == 0 && |data| <= tmp.View().Space()
      modifies Repr, tmp, tmp.buffer
      ensures Valid() && Repr == old(Repr) + {tmp, tmp.buffer}
      ensures Contents() == old(Contents()) + data
      ensures freezeEnd == old(freezeEnd) && freezeStart == old(freezeStart)
    {
      hide Content; hide Val.Bytes; hide Val.Appended; hide Val.Aligned; hide Wired;
      WiredAt(d);
      assert data[..remain] + data[remain..] == data;
      Assoc(Contents(), data[..remain], data[remain..]);
      if remain > 0 {
        AppendToLast(chain, data[..remain]);
      }
      tmp.Append(data[remain..]);
      ChainInsert(tmp);
    }

    /** evbuffer_add */
    method Add(data: seq<byte>) returns (ok: bool)
      requires Valid()
      modifies Repr
      ensures Valid() && fresh(Repr - old(Repr))
      ensures ok <==> !freezeEnd && |data| <= SIZE_MAX - old(totalLen) && |data| <= MAX_DATA
      ensures Contents() == if ok then old(Contents()) + data else old(Contents())
      ensures ok && old(|chains|) == 0 ==> d == 0 && |vals| == 1 && MadeFor(vals[0], |data|, |data|)
      ensures ok && old(d < |chains| && |data| <= vals[d].Space()) ==>
        d == old(d) && vals == old(vals)[d := old(vals[d]).Appended(data)]
      ensures freezeEnd == old(freezeEnd) && freezeStart == old(freezeStart)
    {
      hide Content; hide Val.Bytes; hide AllocSize; hide Val.Appended;
      if freezeEnd {
        return false;
      }
      if |data| > SIZE_MAX - totalLen {
        return false;
      }
      var chain := if Deref(lastWithDataP) == null then last else Deref(lastWithDataP);
      if chain == null {
        chain := ChainNew(|data|);
        if chain == null {
          return false;
        }
        ChainInsert(chain);
      }
      ok := AddTo(chain, data);
    }

    // ---- evbuffer_prepend ----

    /** An empty first chain is filled from its end. */
    method RewindFirst(chain: Chain)
      requires Valid() && |chains| > 0 && chain == chains[0] && chain.off == 0
      modifies this`vals, chain`misalign
      ensures Valid() && Contents() == old(Contents())
      ensures vals == old(vals)[0 := old(vals[0]).Rewound()]
    {
      hide Content; hide Val.Bytes;
      assert chain.View() == vals[0];
      SameBytesContent(vals, 0, vals[0].Rewound());
      chain.misalign := chain.buffer.Length;
      vals := vals[0 := vals[0].Rewound()];
    }

    method PutBeforeFirst(chain: Chain, data: seq<byte>)
      requires Wired() && |chains| > 0 && chain == chains[0] && vals[0].Ok() && |data| <= vals[0].misalign
      modifies this`vals, this`totalLen, chain`misalign, chain`off, chain.buffer
      ensures Wired() && vals == old(vals)[0 := old(vals[0]).Prefixed(data)]
      ensures totalLen == old(totalLen) + |data|
    {
      hide Content; hide Val.Bytes; hide Val.Prefixed;
      assert chain.View() == vals[0];
      chain.PutBefore(data);
      vals := vals[0 := vals[0].Prefixed(data)];
      totalLen := totalLen + |data|;
    }

    method PrependToFirst(chain: Chain, data: seq<byte>)
      requires Valid() && |chains| > 0 && chain == chains[0] && |data| <= vals[0].misalign
      modifies this`vals, this`totalLen, chain`misalign, chain`off, chain.buffer
      ensures Valid() && Contents() == data + old(Contents())
      ensures vals == old(vals)[0 := old(vals[0]).Prefixed(data)]
    {
      hide Content; hide Val.Bytes; hide Val.Prefixed; hide Wired;
      WiredAt(0);
      PrefixContent(vals, vals[0].Prefixed(data), data);
      PutBeforeFirst(chain, data);
    }

    /** The list part of the new first chain of evbuffer_prepend */
    method WireFront(tmp: Chain, chain: Chain)
      requires Wired() && |chains| > 0 && chain == first
      requires tmp !in Repr && tmp.buffer !in Repr
      modifies this`first, this`lastWithDataP, this`d, this`chains, this`vals, this`Repr, tmp`next
      ensures Wired() && Repr == old(Repr) + {tmp, tmp.buffer} && tmp.View() == old(tmp.View())
      ensures chains == [tmp] + old(chains) && vals == [tmp.View()] + old(vals)
      ensures d == if old(vals[d].off) != 0 || old(d) > 0 then old(d) + 1 else 0
    {
      hide Content; hide Val.Bytes; hide Chain.View; hide Val.Ok; hide DataIndex; hide Segment;
      FirstOff();
      d := if vals[d].off != 0 || d > 0 then d + 1 else 0;
      first := tmp;
      if lastWithDataP == null && chain.off != 0 {
        lastWithDataP := tmp;
      }
      tmp.next := chain;
      SegmentOne(tmp, chain);
      SegmentJoin([tmp], [tmp.View()], chains, vals, null, {tmp, tmp.buffer}, Repr - {this});
      chains, vals := [tmp] + chains, [tmp.View()] + vals;
      Repr := Repr + {tmp, tmp.buffer};
      assert Repr - {this} == {tmp, tmp.buffer} + (old(Repr) - {this});
    }

    /** A new chain without data in front of all the others. */
    method LinkFront(tmp: Chain, chain: Chain)
      requires Valid() && |chains| > 0 && chain == first
      requires tmp !in Repr && tmp.buffer !in Repr && tmp.off == 0 && tmp.View().Ok()
      modifies this`first, this`lastWithDataP, this`d, this`chains, this`vals, this`Repr, tmp`next
      ensures Valid() && Contents() == old(Contents()) && Repr == old(Repr) + {tmp, tmp.buffer}
      ensures chains == [tmp] + old(chains) && vals == [old(tmp.View())] + old(vals)
    {
      hide Content; hide Val.Bytes;
      EmptyFrontContent(vals, d, tmp.View());
      WireFront(tmp, chain);
      assert last == chains[|chains| - 1];
    }

    /** The bytes that did not fit get a new chain, filled from its end. */
    method PrependNew(tmp: Chain, chain: Chain, data: seq<byte>)
      requires Valid() && |chains| > 0 && chain == first
      requires tmp !in Repr && tmp.buffer !in Repr && tmp.off == 0 && tmp.View().Ok()
      requires |data| <= tmp.buffer.Length
      modifies this`first, this`lastWithDataP, this`totalLen, this`d, this`chains, this`vals, this`Repr, tmp, tmp.buffer
      ensures Valid() && Contents() == data + old(Contents()) && Repr == old(Repr) + {tmp, tmp.buffer}
    {
      hide Content; hide Val.Bytes; hide Val.Prefixed;
      tmp.misalign := tmp.buffer.Length;
      LinkFront(tmp, chain);
      PrependToFirst(tmp, data);
    }

    /** How many bytes evbuffer_prepend can put in without a new chain. */
    ghost function FrontRoom(): nat
      reads this
    {
      if vals == [] then 0 else if vals[0].off == 0 then |vals[0].mem| else vals[0].misalign
    }

    /** The first chain takes what fits in front of its data, a new chain the rest. */
    method PrependSplit(chain: Chain, data: seq<byte>) returns (ok: bool)
      requires Valid() && |chains| > 0 && chain == chains[0] && vals[0].misalign < |data|
      modifies Repr
      ensures Valid() && fresh(Repr - old(Repr))
      ensures ok <==> |data| <= old(vals[0].misalign) + MAX_DATA
      ensures ok ==> Contents() == data + old(Contents())
      ensures !ok ==> Contents() == data[|data| - old(vals[0].misalign)..] + old(Contents())
      ensures freezeEnd == old(freezeEnd) && freezeStart == old(freezeStart)
    {
      hide Content; hide Val.Bytes; hide Val.Prefixed; hide AllocSize; hide DataIndex; hide Wired;
      WiredAt(0);
      var left := |data| - chain.misalign;
      var front, rear := data[..left], data[left..];
      assert front + rear == data;
      Assoc(front, rear, Contents());
      if chain.misalign > 0 {
        PrependToFirst(chain, rear);
      }
      var tmp := ChainNew(left);
      if tmp == null {
        return false;
      }
      PrependNew(tmp, chain, front);
      return true;
    }

    /** evbuffer_prepend when there is a first chain */
    method PrependTo(chain: Chain, data: seq<byte>) returns (ok: bool)
      requires Valid() && |chains| > 0 && chain == chains[0] && data != []
      modifies Repr
      ensures Valid() && fresh(Repr - old(Repr))
      ensures ok <==> |data| <= old(FrontRoom()) + MAX_DATA
      ensures ok ==> Contents() == data + old(Contents())
      ensures !ok ==> Contents() == data[|data| - old(FrontRoom())..] + old(Contents())
      ensures freezeEnd == old(freezeEnd) && freezeStart == old(freezeStart)
    {
      hide Content; hide Val.Bytes; hide Val.Prefixed; hide DataIndex;
      assert chain.View() == vals[0];
      if chain.off == 0 {
        RewindFirst(chain);
      }
      assert chain.View() == vals[0];
      if chain.misalign >= |data| {
        PrependToFirst(chain, data);
        return true;
      }
      ok := PrependSplit(chain, data);
    }

    /** evbuffer_prepend */
    method Prepend(data: seq<byte>) returns (ok: bool)
      requires Valid()
      modifies Repr
      ensures Valid() && fresh(Repr - old(Repr))
      ensures ok <==> data == [] || (!freezeStart && |data| <= SIZE_MAX - old(totalLen) && |data| <= old(FrontRoom()) + MAX_DATA)
      ensures ok ==> Contents() == data + old(Contents())
      ensures !ok && (freezeStart || |data| > SIZE_MAX - old(totalLen)) ==> Contents() == old(Contents())
      ensures !ok && !freezeStart && |data| <= SIZE_MAX - old(totalLen) ==>
        Contents() == data[|data| - old(FrontRoom())..] + old(Contents())
      ensures freezeEnd == old(freezeEnd) && freezeStart == old(freezeStart)
    {
      hide Content; hide Val.Bytes;
      if |data| == 0 {
        return true;
      }
      if freezeStart {
        return false;
      }
      if |data| > SIZE_MAX - totalLen {
        return false;
      }
      var chain := first;
      if chain == null {
        chain := ChainNew(|data|);
        if chain == null {
          return false;
        }
        ChainInsert(chain);
      }
      ok := PrependTo(chain, data);
    }

    /** advance_last_with_data */
    method AdvanceLastWithData()
      requires Wired() && (|vals| > 0 ==> DataIndexUpTo(vals, d, d))
      modifies `lastWithDataP, `d
      ensures Wired() && DataIndex(vals, d)
    {
      hide Content; hide Val.Bytes; hide Val.Ok; hide Segment; hide Spine;
      WiredShape();
      if d > 0 {
        WiredAt(d - 1);
      }
      var chainp := lastWithDataP;
      if Deref(chainp) == null {
        return;
      }
      ghost var j := d;
      while Deref(chainp).next != null
        invariant Wired() && j < |chains| && chainp == At(j - 1) && Deref(chainp) == chains[j]
        invariant DataIndexUpTo(vals, d, j)
        decreases |chains| - j
      {
        WiredAt(j);
        WiredAt(j + 1);
        chainp, j := Deref(chainp), j + 1;
        if Deref(chainp).off != 0 {
          lastWithDataP, d := chainp, j;
        }
      }
      WiredAt(j);
    }

    // ---- evbuffer_drain ----

    /** ZERO_CHAIN, after every chain has been freed. */
    method ZeroChain()
      requires this in Repr
      modifies this`first, this`last, this`lastWithDataP, this`totalLen, this`chains, this`vals, this`d, this`Repr
      ensures Valid() && Contents() == [] && chains == [] && vals == [] && Repr == {this}
    {
      first, last, lastWithDataP, totalLen := null, null, null, 0;
      chains, vals, d, Repr := [], [], 0, {this};
    }

    /** Passes over the chains that `len` uses up and frees them, keeping last_with_datap off them. */
    method DrainWalk(len: nat) returns (chain: Chain, remaining: nat, ghost k: nat, ghost uses: seq<Use>)
      requires Wired() && DataIndex(vals, d) && len < |Content(vals)|
      modifies this`lastWithDataP
      ensures Spine() && k <= d < |chains| && chain == chains[k]
      ensures lastWithDataP == if k < d then chains[d - 1] else null
      ensures |Content(vals[..k])| + remaining == len && remaining < vals[k].off
      ensures Orderly(uses) && Released(uses) == chains[..k]
    {
      hide Content; hide Val.Bytes; hide Orderly; hide Released; hide Passing;
      DataContent(vals, d);
      ContentEmpty(vals[..0]);
      NoUse();
      chain, remaining, k, uses := first, len, 0, [];
      while remaining >= chain.off
        invariant Spine() && k <= d < |chains| && chain == chains[k]
        invariant lastWithDataP == if k < d then chains[d - 1] else null
        invariant |Content(vals[..k])| + remaining == len
        invariant Orderly(uses) && Released(uses) == chains[..k]
        decreases d - k
      {
        assert chain.View() == vals[k];
        PrefixLength(vals, k);
        DrainUse(k, uses);
        uses := Passing(uses, chain, lastWithDataP);
        var next := chain.next;
        remaining := remaining - chain.off;
        if chain == Deref(lastWithDataP) || chain == lastWithDataP {
          lastWithDataP := null;
        }
        chain, k := next, k + 1;
      }
      assert chain.View() == vals[k];
    }

    /** What the walk reads and frees at chain `k`: last_with_datap does not lie in one it has freed. */
    lemma DrainUse(k: nat, uses: seq<Use>)
      requires Spine() && k <= d < |chains| && lastWithDataP == if k < d then chains[d - 1] else null
      requires Orderly(uses) && Released(uses) == chains[..k]
      ensures Orderly(Passing(uses, chains[k], lastWithDataP))
      ensures Released(Passing(uses, chains[k], lastWithDataP)) == chains[..k + 1]
    {
      hide Spine, Orderly, Released, Passing;
      NotBefore(k, k);
      if k < d {
        NotBefore(k, d - 1);
      }
      PassingOn(uses, chains[k], lastWithDataP);
      assert chains[..k + 1] == chains[..k] + [chains[k]];
    }

    /** `chain` becomes the first chain. */
    method ShiftTo(chain: Chain, ghost k: nat)
      requires Spine() && k <= d < |chains| && chain == chains[k]
      requires lastWithDataP == if k < d then chains[d - 1] else null
      modifies this`first, this`chains, this`vals, this`d
      ensures Wired() && chains == old(chains)[k..] && d == old(d) - k && vals == old(vals)[k..]
    {
      first := chain;
      chains, vals, d := chains[k..], vals[k..], d - k;
    }

    method DropBytes(chain: Chain, n: nat, ghost k: nat)
      requires Wired() && k < |chains| && chain == chains[k] && vals[k].Ok() && n <= vals[k].off
      modifies `vals, chain`misalign, chain`off
      ensures Wired() && vals == old(vals)[k := old(vals[k]).Dropped(n)]
    {
      hide Content; hide Val.Bytes;
      assert chain.View() == vals[k];
      chain.misalign := chain.misalign + n;
      chain.off := chain.off - n;
      vals := vals[k := vals[k].Dropped(n)];
    }

    /** evbuffer_drain when something is left */
    method DrainSome(len: nat) returns (ghost uses: seq<Use>)
      requires Valid() && len < totalLen
      modifies this`totalLen, this`first, this`lastWithDataP, this`chains, this`vals, this`d, Repr - {this}
      ensures Valid() && len <= |old(Contents())| && Contents() == old(Contents())[len..]
      ensures Orderly(uses) && Released(uses) + chains == old(chains)
    {
      hide Content; hide Val.Bytes; hide Val.Dropped; hide Spine; hide DataIndex; hide Orderly; hide Released;
      totalLen := totalLen - len;
      var chain, remaining;
      ghost var k;
      chain, remaining, k, uses := DrainWalk(len);
      SpineAt(k);
      DataAt(vals, d);
      DropContent(vals, d, k, remaining);
      CutFront(chain, remaining, k);
    }

    /** The list from `chain` on, without the first bytes of that. */
    method CutFront(chain: Chain, n: nat, ghost k: nat)
      requires Spine() && k <= d < |chains| && chain == chains[k] && vals[k].Ok() && n <= vals[k].off
      requires lastWithDataP == if k < d then chains[d - 1] else null
      modifies `first, `chains, `vals, `d, chain`misalign, chain`off
      ensures Wired() && chains == old(chains)[k..] && d == old(d) - k
      ensures vals == [old(vals)[k].Dropped(n)] + old(vals)[k + 1..]
    {
      hide Content; hide Val.Bytes; hide Val.Dropped; hide Spine;
      SpineAt(k);
      ShiftTo(chain, k);
      DropBytes(chain, n, 0);
    }

    /** evbuffer_drain */
    method Drain(len: nat) returns (ok: bool, ghost uses: seq<Use>)
      requires Valid()
      modifies Repr
      ensures Valid() && fresh(Repr - old(Repr))
      ensures ok <==> old(totalLen) == 0 || !freezeStart
      ensures !ok ==> Contents() == old(Contents())
      ensures ok && len >= old(totalLen) ==> Contents() == []
      ensures ok && len < old(totalLen) ==> Contents() == old(Contents())[len..]
      ensures freezeEnd == old(freezeEnd) && freezeStart == old(freezeStart)
      ensures Orderly(uses) && Released(uses) + chains == old(chains)
    {
      hide Content; hide Val.Bytes; hide Wired; hide Orderly; hide Released;
      WiredShape();
      NoUse();
      uses := [];
      if totalLen == 0 {
        return true, uses;
      }
      if freezeStart {
        return false, uses;
      }
      if len >= totalLen {
        uses := FreeAllChains(first, 0);
        ZeroChain();
      } else {
        uses := DrainSome(len);
      }
      return true, uses;
    }

    // ---- evbuffer_pullup ----

    /** The data of `chain` copied behind that of the first chain. */
    method PullChain(tmp: Chain, chain: Chain, n: nat, ghost k: nat)
      requires Wired() && 0 < k < |chains| && tmp == chains[0] && chain == chains[k]
      requires vals[0].Ok() && vals[k].Ok() && n <= vals[k].off && n <= vals[0].Space()
      modifies `vals, tmp`off, tmp.buffer
      ensures Wired() && vals == old(vals)[0 := old(vals[0]).Appended(vals[k].Bytes()[..n])]
    {
      hide Content; hide Val.Bytes; hide Val.Appended; hide Wired; hide Chain.View;
      WiredAt(k);
      FirstBytes(chain, n);
      var data := chain.buffer[chain.misalign..chain.misalign + n];
      AppendTo(tmp, data, 0);
    }

    /** One whole chain goes behind the data of the first, on the list. */
    method PullWhole(tmp: Chain, chain: Chain, ghost was: seq<Val>, ghost k: nat, ghost left: nat, ghost need: nat)
      requires Wired() && 0 < k < |chains| && tmp == chains[0] && chain == chains[k]
      requires Gathered(vals, was, k, left + chain.off, need) && was[k].Ok()
      modifies `vals, tmp`off, tmp.buffer
      ensures Wired() && |vals| == |chains| && Gathered(vals, was, k + 1, left, need)
    {
      hide Content; hide Val.Bytes; hide Val.Appended; hide Wired; hide Gathered;
      WiredAt(k);
      GatheredParts(vals, was, k, left + chain.off, need);
      GatheredOne(vals, was, k, left + chain.off, need);
      PullChain(tmp, chain, chain.off, k);
    }

    /** Copies into the first chain what stands in whole chains behind it, up to `need` bytes. */
    method Gather(tmp: Chain, need: nat)
      returns (chain: Chain?, left: nat, removed: bool, removedP: bool, ghost k: nat, ghost uses: seq<Use>)
      requires Wired() && DataIndex(vals, d) && 0 < d && tmp == chains[0]
      requires need <= vals[0].Space() && need <= |Content(vals[1..])|
      modifies `vals, tmp`off, tmp.buffer
      ensures Wired() && |vals| == |chains| && 0 < k <= |chains| && chain == At(k)
      ensures Gathered(vals, old(vals), k, left, need)
      ensures removed <==> chain == null
      ensures removedP <==> 1 < d <= k
      ensures chain == null ==> left == 0
      ensures chain != null ==> k <= d && left < vals[k].off
      ensures Orderly(uses) && Released(uses) == chains[1..k]
    {
      hide Content; hide Val.Bytes; hide Val.Appended; hide Wired; hide Gathered; hide Orderly; hide Released; hide Passing;
      ghost var was := vals;
      WiredShape();
      left, k := need, 1;
      GatheredNone(was, need);
      WiredAt(0);
      WiredAt(d - 1);
      var lastWithData := Deref(lastWithDataP);
      removed, removedP := false, false;
      chain := tmp.next;
      NoUse();
      uses := [];
      while chain != null && left >= chain.off
        invariant Wired() && |vals| == |chains| == |was| && 0 < k <= |chains| && chain == At(k)
        invariant Gathered(vals, was, k, left, need)
        invariant removed <==> d < k
        invariant removedP <==> 1 < d <= k
        invariant Orderly(uses) && Released(uses) == chains[1..k]
        decreases |chains| - k
      {
        WiredAt(k);
        GatherUse(k, uses);
        uses := Passing(uses, chain, tmp);
        WiredDistinct(k, d);
        WiredDistinct(k, d - 1);
        left := left - chain.off;
        PullWhole(tmp, chain, was, k, left, need);
        if chain == lastWithData {
          removed := true;
        }
        if chain == lastWithDataP {
          removedP := true;
        }
        WiredAt(k);
        chain, k := chain.next, k + 1;
      }
      if chain == null {
        GatheredAll(vals, was, left, need);
      } else {
        WiredAt(k);
        GatheredParts(vals, was, k, left, need);
      }
    }

    /** What the loop reads and frees at chain `k`. */
    lemma GatherUse(k: nat, uses: seq<Use>)
      requires Wired() && 0 < k < |chains| && Orderly(uses) && Released(uses) == chains[1..k]
      ensures Orderly(Passing(uses, chains[k], chains[0]))
      ensures Released(Passing(uses, chains[k], chains[0])) == chains[1..k + 1]
    {
      hide Spine, Orderly, Released, Passing;
      NotBetween(k, k);
      PassingOn(uses, chains[k], chains[0]);
      assert chains[1..k + 1] == chains[1..k] + [chains[k]];
    }

    /** `tmp->next = chain`: the chains between the first one and chain `k` are gone. */
    method Bypass(tmp: Chain, chain: Chain?, ghost k: nat)
      requires Spine() && 0 < k <= |chains| && tmp == chains[0] && chain == At(k)
      modifies `chains, `vals, tmp`next
      ensures Spine() && chains == [tmp] + old(chains)[k..] && vals == [old(vals)[0]] + old(vals)[k..]
    {
      hide Chain.View;
      tmp.next := chain;
      chains, vals := [tmp] + chains[k..], [vals[0]] + vals[k..];
    }

    /** The end of evbuffer_pullup: the list and last_with_datap without the chains pulled in. */
    method CloseGap(tmp: Chain, chain: Chain?, removed: bool, removedP: bool, ghost k: nat)
      requires Wired() && 0 < k <= |chains| && tmp == chains[0] && chain == At(k) && 0 < d
      requires removed <==> chain == null
      requires removedP <==> 1 < d <= k
      requires chain != null ==> k <= d && vals[k].off != 0
      modifies `lastWithDataP, `d, `chains, `vals, tmp`next
      ensures Wired() && chains == [tmp] + old(chains)[k..] && vals == [old(vals)[0]] + old(vals)[k..]
      ensures d == if removed then 0 else old(d) - k + 1
    {
      hide Segment;
      WiredAt(0);
      if k < |chains| {
        WiredAt(k);
      }
      Bypass(tmp, chain, k);
      SpineAt(0);
      if chain != null {
        SpineAt(1);
        assert chains[d - k] == lastWithDataP || d == k;
      }
      d := if removed then 0 else d - k + 1;
      if removed {
        lastWithDataP := null;
      } else if removedP {
        lastWithDataP := if first.next != null && first.next.off != 0 then first else null;
      }
    }

    /** The chain that is not used up gives its first `left` bytes. */
    method PullPart(tmp: Chain, chain: Chain, left: nat, ghost k: nat)
      requires Wired() && 0 < k < |chains| && tmp == chains[0] && chain == chains[k]
      requires vals[0].Ok() && vals[k].Ok() && left <= vals[k].off && left <= vals[0].Space()
      modifies `vals, tmp`off, tmp.buffer, chain`misalign, chain`off
      ensures Wired() && |vals| == old(|vals|) && vals[k..] == [old(vals)[k].Dropped(left)] + old(vals)[k + 1..]
      ensures vals[0].Ok() && vals[0].Bytes() == old(vals[0]).Bytes() + old(vals)[k].Bytes()[..left]
    {
      hide Content; hide Val.Bytes; hide Val.Appended; hide Val.Dropped; hide Spine;
      WiredShape();
      PullChain(tmp, chain, left, k);
      DropBytes(chain, left, k);
    }

    /** Pulls `need` more bytes into the first chain. */
    method PullInto(tmp: Chain, need: nat) returns (ghost uses: seq<Use>)
      requires Valid() && 0 < d && tmp == chains[0]
      requires need <= vals[0].Space() && need <= |Content(vals[1..])|
      modifies `last, `lastWithDataP, `d, `chains, `vals, Repr - {this}
      ensures Valid() && Contents() == old(Contents())
      ensures chains != [] && first == tmp && tmp.off == old(tmp.off) + need
      ensures Orderly(uses) && [tmp] + Released(uses) + chains[1..] == old(chains)
    {
      hide Content; hide Val.Bytes; hide Spine; hide Gathered; hide DataIndex; hide Orderly; hide Released;
      WiredShape();
      WiredAt(0);
      ghost var vs, e := vals, d;
      DataAt(vs, e);
      var chain, left, removed, removedP;
      ghost var k;
      chain, left, removed, removedP, k, uses := Gather(tmp, need);
      PullEnd(tmp, chain, left, removed, removedP, vs, e, k, need);
      Gap(old(chains), k);
    }

    /** What comes after that loop */
    method PullEnd(tmp: Chain, chain: Chain?, left: nat, removed: bool, removedP: bool,
                   ghost vs: seq<Val>, ghost e: nat, ghost k: nat, ghost need: nat)
      requires Wired() && |vals| == |chains| && 0 < k <= |chains| && tmp == chains[0] && chain == At(k)
      requires DataIndex(vs, e) && |vs| > 0 && need <= vs[0].Space() && Gathered(vals, vs, k, left, need) && e == d > 0
      requires if chain == null then left == 0 else k <= e && left < vals[k].off
      requires removed <==> chain == null
      requires removedP <==> 1 < d <= k
      requires last == At(|chains| - 1)
      modifies `last, `lastWithDataP, `d, `chains, `vals, Repr - {this}
      ensures Wired() && DataIndex(vals, d) && last == At(|chains| - 1) && Content(vals) == Content(vs)
      ensures first == tmp && chains == [tmp] + old(chains)[k..] && tmp.off == vs[0].off + need
    {
      hide Content; hide Val.Bytes; hide Spine; hide Gathered; hide DataIndex;
      WiredShape();
      WiredAt(0);
      if chain != null {
        WiredAt(k);
      }
      PullRest(tmp, chain, left, vs, e, k, need);
      CloseGap(tmp, chain, removed, removedP, k);
      WiredShape();
      WiredAt(0);
    }

    lemma Gap(cs: seq<Chain>, k: nat)
      requires 0 < k <= |cs|
      ensures ([cs[0]] + cs[k..])[1..] == cs[k..] && [cs[0]] + cs[1..k] + cs[k..] == cs
    {
    }

    /** What is behind the whole chains, and the cached last chain */
    method PullRest(tmp: Chain, chain: Chain?, left: nat, ghost vs: seq<Val>, ghost e: nat, ghost k: nat, ghost need: nat)
      requires Wired() && |vals| == |chains| && 0 < k <= |chains| && tmp == chains[0] && chain == At(k)
      requires DataIndex(vs, e) && |vs| > 0 && need <= vs[0].Space() && Gathered(vals, vs, k, left, need)
      requires if chain == null then left == 0 else k <= e && left < vals[k].off
      requires last == At(|chains| - 1)
      modifies `last, `vals, tmp`off, tmp.buffer, chain
      ensures Wired() && |vals| == |chains| && (chain != null ==> vals[k].off != 0)
      ensures Content([vals[0]] + vals[k..]) == Content(vs) && vals[0].off == vs[0].off + need
      ensures DataIndex([vals[0]] + vals[k..], if chain == null then 0 else e - k + 1)
      ensures last == ([tmp] + chains[k..])[|chains| - k]
    {
      hide Content; hide Val.Bytes; hide Val.Appended; hide Val.Dropped; hide Spine; hide Gathered; hide DataIndex;
      WiredShape();
      WiredAt(0);
      DataAt(vs, e);
      GatheredParts(vals, vs, k, left, need);
      if chain == null {
        PullAllContent(vs, vals[0]);
        assert [vals[0]] + vals[k..] == [vals[0]];
        last := tmp;
      } else {
        WiredAt(k);
        PullPart(tmp, chain, left, k);
        PullContent(vs, e, k, left, vals[0]);
        assert [vals[0]] + vals[k..] == [vals[0], vs[k].Dropped(left)] + vs[k + 1..];
      }
      WiredShape();
      WiredAt(0);
    }

    /** evbuffer_pullup; the result stands for the address of the data of that chain. */
    method Pullup(size: int) returns (result: Chain?, ghost uses: seq<Use>)
      requires Valid()
      modifies Repr
      ensures Valid() && fresh(Repr - old(Repr)) && Contents() == old(Contents())
      ensures var n := if size < 0 then old(totalLen) else size;
        && (result != null ==> result == first && 0 < n <= result.off && chains != [])
        && (result != null ==> result.off == if old(first != null && first.off >= n) then old(first.off) else n)
        && (result == null ==> n == 0 || n > old(totalLen) || n > MAX_DATA)
      ensures freezeEnd == old(freezeEnd) && freezeStart == old(freezeStart)
      ensures var n := if size < 0 then old(totalLen) else size;
        result != null ==> (result == old(first) <==> old(first != null &&
          (first.off >= n || first.misalign + n <= first.buffer.Length)))
      ensures Orderly(uses) && (result == null ==> Released(uses) == [] && chains == old(chains))
      ensures result != null ==>
        chains != [] && old(chains) == (if result == old(first) then [result] else []) + Released(uses) + chains[1..]
    {
      hide Content; hide Val.Bytes; hide Spine; hide AllocSize; hide Orderly; hide Released;
      WiredShape();
      NoUse();
      uses := [];
      var chain := first;
      var n := if size < 0 then totalLen else size;
      if n == 0 || n > totalLen {
        return null, uses;
      }
      DataContent(vals, d);
      WiredAt(0);
      if chain.off >= n {
        return chain, uses;
      }
      BehindFirst(vals, d, n);
      if chain.buffer.Length - chain.misalign >= n {
        uses := PullInto(chain, n - chain.off);
        return chain, uses;
      }
      var tmp := ChainNew(n);
      if tmp == null {
        return null, uses;
      }
      uses := PullNew(tmp, chain, n);
      return tmp, uses;
    }

    /** ... into a new chain, which goes before all the others */
    method PullNew(tmp: Chain, chain: Chain, n: nat) returns (ghost uses: seq<Use>)
      requires Valid() && |chains| > 0 && chain == first && 0 < n <= |Contents()|
      requires tmp !in Repr && tmp.buffer !in Repr && tmp.off == 0 && tmp.View().Ok() && n <= tmp.View().Space()
      modifies `first, `last, `lastWithDataP, `d, `chains, `vals, `Repr, Repr - {this}, tmp, tmp.buffer
      ensures Valid() && Contents() == old(Contents()) && Repr == old(Repr) + {tmp, tmp.buffer}
      ensures chains != [] && first == tmp && tmp.off == n
      ensures Orderly(uses) && Released(uses) + chains[1..] == old(chains)
    {
      hide Content; hide Val.Bytes; hide Spine; hide Orderly; hide Released; hide DataIndex;
      LinkFront(tmp, chain);
      WiredShape();
      WiredAt(0);
      BehindFirst(vals, d, n);
      uses := PullInto(tmp, n);
      assert ([tmp] + Released(uses) + chains[1..])[1..] == Released(uses) + chains[1..];
    }
  }

  /** evbuffer_chain_new */
  method ChainNew(size: nat) returns (chain: Chain?)
    ensures chain == null <==> size > MAX_DATA
    ensures chain != null ==>
      && fresh(chain) && fresh(chain.buffer)
      && chain.buffer.Length + CHAIN_SIZE == AllocSize(size + CHAIN_SIZE)
      && chain.misalign == 0 && chain.off == 0 && chain.next == null
      && chain.View().Ok()
  {
    if size > CHAIN_MAX - CHAIN_SIZE {
      return null;
    }
    var total := size + CHAIN_SIZE;
    var toAlloc: nat;
    if total < CHAIN_MAX / 2 {
      toAlloc := MIN_BUFFER_SIZE;
      while toAlloc < total
        invariant 0 < toAlloc
        invariant RoundUp(toAlloc, total) == RoundUp(MIN_BUFFER_SIZE, total)
      {
        toAlloc := toAlloc * 2;
      }
    } else {
      toAlloc := total;
    }
    chain := new Chain(toAlloc - CHAIN_SIZE);
  }
}
