/** Positions in a buffer, copying out, and searching. */
module EvBufferSearch {
  import opened ChainValues
  import opened EvBuffers
  import opened Options

  const SSIZE_MAX: nat := 0x7FFF_FFFF_FFFF_FFFF

  /** struct evbuffer_ptr; a null chain stands for the end of the data. */
  datatype Ptr = Ptr(pos: int, chain: Chain?, inChain: nat)

  datatype PtrHow = PtrSet | PtrAdd

  /** PTR_NOT_FOUND */
  const NOT_FOUND: Ptr := Ptr(-1, null, 0)

  /** `p` names offset `p.inChain` of chain `k`, which is byte `p.pos` of the data. */
  ghost predicate Denotes(buf: EvBuffer, p: Ptr, k: nat)
    reads buf
  {
    && |buf.vals| == |buf.chains| && k <= |buf.chains| && p.chain == buf.At(k)
    && p.pos == |Content(buf.vals[..k])| + p.inChain
    && p.inChain <= if k < |buf.vals| then buf.vals[k].off else 0
  }

  /** A position that denotes a byte or the end. */
  ghost predicate Good(buf: EvBuffer, p: Ptr)
    reads buf
  {
    exists k :: Denotes(buf, p, k)
  }

  /** The position of byte `i` that evbuffer_ptr_set gives. */
  ghost function Position(buf: EvBuffer, i: nat): Ptr
    reads buf
  {
    var (k, o) := Locate(buf.vals, i);
    Ptr(i, buf.At(k), o)
  }

  /** evbuffer_ptr_set */
  method SetPtr(buf: EvBuffer, p: Ptr, position: nat, how: PtrHow) returns (result: int, q: Ptr)
    requires buf.Valid() && buf.totalLen <= SIZE_MAX && position <= SIZE_MAX
    requires how == PtrAdd && p.pos >= 0 ==> Good(buf, p)
    ensures how == PtrSet ==>
      if position <= buf.totalLen then result == 0 && q == Position(buf, position) else result == -1 && q == NOT_FOUND
    ensures how == PtrAdd && 0 <= p.pos && p.pos + position <= buf.totalLen ==> result == 0 && q == Position(buf, p.pos + position)
    ensures how == PtrAdd && 0 <= p.pos && buf.totalLen < p.pos + position <= SIZE_MAX ==> result == -1 && q == NOT_FOUND
    ensures how == PtrAdd && (p.pos < 0 || p.pos + position > SIZE_MAX) ==> result == -1 && q == p
  {
    hide Content; hide Val.Bytes; hide EvBuffer.Spine; hide Locate; hide DataIndex;
    buf.WiredShape();
    var left: nat := position;
    var chain: Chain?, pos: int, at: nat;
    ghost var k: nat;
    match how {
      case PtrSet =>
        chain, pos, at, k := buf.first, position, 0, 0;
        ContentEmpty(buf.vals[..0]);
      case PtrAdd =>
        if p.pos < 0 || SIZE_MAX - position < p.pos {
          return -1, p;
        }
        k :| Denotes(buf, p, k);
        chain, pos, at := p.chain, p.pos + position, p.inChain;
    }
    assert SIZE_MAX - left >= at;
    while chain != null && at + left >= chain.off
      invariant k <= |buf.chains| && chain == buf.At(k)
      invariant pos == |Content(buf.vals[..k])| + at + left
      invariant at <= if k < |buf.vals| then buf.vals[k].off else 0
      decreases |buf.chains| - k
    {
      buf.WiredAt(k);
      BufferOk(buf, k);
      PrefixLength(buf.vals, k);
      left := left - (chain.off - at);
      chain, at, k := chain.next, 0, k + 1;
    }
    if chain != null {
      buf.WiredAt(k);
      BufferOk(buf, k);
      LocateAt(buf.vals, k, at + left);
      ByteAt(buf.vals, k, at + left);
      return 0, Ptr(pos, chain, at + left);
    }
    WholeContent(buf.vals);
    LocateEnd(buf.vals);
    if left == 0 {
      return 0, Ptr(pos, null, 0);
    }
    return -1, NOT_FOUND;
  }

  /** What a valid buffer says of one chunk. */
  lemma BufferOk(buf: EvBuffer, k: nat)
    requires buf.Valid() && k < |buf.vals|
    ensures buf.vals[k].Ok() && |buf.vals[k].Bytes()| == buf.vals[k].off
  {
  }

  /** What a chain holds from some offset on, as part of the whole. */
  lemma PieceOf(buf: EvBuffer, chain: Chain, k: nat, at: nat, n: nat)
    requires buf.Valid() && k < |buf.chains| && chain == buf.chains[k] && at + n <= chain.off
    ensures |buf.vals| == |buf.chains| && chain.off == buf.vals[k].off && chain.next == buf.At(k + 1)
    ensures chain.misalign + chain.off <= chain.buffer.Length
    ensures |Content(buf.vals[..k])| + at + n <= |buf.Contents()|
    ensures buf.Contents()[|Content(buf.vals[..k])| + at..][..n] == chain.buffer[chain.misalign + at..chain.misalign + at + n]
    ensures |Content(buf.vals[..k + 1])| == |Content(buf.vals[..k])| + chain.off
  {
    hide Content; hide Val.Bytes; hide EvBuffer.Wired;
    buf.WiredAt(k);
    BufferOk(buf, k);
    RunAt(buf.vals, k, at, n);
    PrefixLength(buf.vals, k);
  }

  lemma ChainShape(buf: EvBuffer, k: nat)
    requires buf.Valid() && k < |buf.chains|
    ensures |buf.vals| == |buf.chains| && buf.chains[k].off == buf.vals[k].off
  {
    buf.WiredAt(k);
  }

  /** evbuffer_ptr_subtract */
  method SubtractPtr(buf: EvBuffer, p: Ptr, howfar: nat) returns (result: int, q: Ptr)
    requires buf.Valid() && buf.totalLen <= SIZE_MAX && (p.pos >= 0 ==> Good(buf, p)) && p.pos <= buf.totalLen
    ensures p.pos < howfar ==> result == -1 && q == p
    ensures p.pos >= howfar ==> result == 0 && q.pos == p.pos - howfar && Good(buf, q)
    ensures p.pos >= howfar > 0 ==> q == Position(buf, p.pos - howfar)
  {
    hide Content; hide Val.Bytes; hide EvBuffer.Wired; hide Locate;
    if p.pos < 0 {
      return -1, p;
    }
    if howfar > p.pos {
      return -1, p;
    }
    ghost var k: nat :| Denotes(buf, p, k);
    if p.chain != null && howfar <= p.inChain {
      q := Ptr(p.pos - howfar, p.chain, p.inChain - howfar);
      assert Denotes(buf, q, k);
      BufferOk(buf, k);
      if howfar > 0 {
        LocateAt(buf.vals, k, q.inChain);
      }
      return 0, q;
    }
    result, q := SetPtr(buf, p, p.pos - howfar, PtrSet);
    PositionGood(buf, p.pos - howfar);
  }

  /** The position of a byte denotes it. */
  lemma PositionGood(buf: EvBuffer, i: nat)
    requires buf.Valid() && i <= buf.totalLen
    ensures Good(buf, Position(buf, i))
  {
    hide Content;
    buf.WiredShape();
    var (k, o) := Locate(buf.vals, i);
    LocateGood(buf.vals, i);
    assert Denotes(buf, Position(buf, i), k);
  }

  lemma {:induction false} LocateGood(vs: seq<Val>, i: nat)
    requires i <= |Content(vs)|
    ensures var (k, o) := Locate(vs, i);
      k <= |vs| && i == |Content(vs[..k])| + o && if k < |vs| then o < |vs[k].Bytes()| else o == 0
  {
    hide Val.Bytes;
    if |vs| > 0 && i >= |vs[0].Bytes()| {
      var tail := vs[1..];
      LocateGood(tail, i - |vs[0].Bytes()|);
      var (k, o) := Locate(tail, i - |vs[0].Bytes()|);
      FrontContent(vs, k + 1);
      assert tail[..k] == vs[1..k + 1];
    } else {
      assert vs[..0] == [];
    }
  }

  /** The first byte in which the two differ is smaller in `x`. */
  ghost predicate Below(x: seq<byte>, y: seq<byte>) {
    exists j: nat :: FirstBelow(x, y, j)
  }

  ghost predicate FirstBelow(x: seq<byte>, y: seq<byte>, j: nat) {
    j < |x| && j < |y| && x[..j] == y[..j] && x[j] < y[j]
  }

  /** Of two sequences of a length that differ exactly one is below the other. */
  lemma {:induction false} BelowEither(x: seq<byte>, y: seq<byte>)
    requires |x| == |y|
    ensures x != y <==> Below(x, y) || Below(y, x)
    ensures !(Below(x, y) && Below(y, x))
    decreases |x|
  {
    if x == y {
      forall j: nat
        ensures !FirstBelow(x, y, j)
      {
      }
    } else {
      var n := |x| - 1;
      if x[..n] == y[..n] {
        assert x == x[..n] + [x[n]] && y == y[..n] + [y[n]];
        assert FirstBelow(x, y, n) || FirstBelow(y, x, n);
      } else {
        BelowEither(x[..n], y[..n]);
        assert x[0..][..n] == x[..n] && y[0..][..n] == y[..n];
        if Below(x[..n], y[..n]) {
          BelowBehind(x, y, 0, n);
        } else {
          BelowBehind(y, x, 0, n);
        }
      }
      forall i: nat, j: nat | FirstBelow(x, y, i)
        ensures !FirstBelow(y, x, j)
      {
        OneFirst(x, y, i, j);
      }
    }
  }

  lemma OneFirst(x: seq<byte>, y: seq<byte>, i: nat, j: nat)
    requires |x| == |y| && FirstBelow(x, y, i)
    ensures !FirstBelow(y, x, j)
  {
    if i < j <= |x| {
      assert x[..j][i] != y[..j][i];
    } else if j < i {
      assert x[..i][j] == y[..i][j];
    }
  }

  /** What decides in the middle decides for the whole, if what is before it is equal. */
  lemma BelowBehind(x: seq<byte>, y: seq<byte>, k: nat, n: nat)
    requires k + n <= |x| && k + n <= |y| && x[..k] == y[..k] && Below(x[k..][..n], y[k..][..n])
    ensures Below(x, y)
  {
    var u, v := x[k..][..n], y[k..][..n];
    var j: nat :| FirstBelow(u, v, j);
    assert u[j] == x[k + j] && v[j] == y[k + j];
    assert x[..k + j] == x[..k] + u[..j] && y[..k + j] == y[..k] + v[..j];
    assert FirstBelow(x, y, k + j);
  }

  /** memcmp */
  method Memcmp(a: array<byte>, from: nat, b: seq<byte>, n: nat) returns (r: int)
    requires from + n <= a.Length && n <= |b|
    ensures r == 0 <==> a[from..from + n] == b[..n]
    ensures r < 0 <==> Below(a[from..from + n], b[..n])
    ensures r > 0 <==> Below(b[..n], a[from..from + n])
  {
    BelowEither(a[from..from + n], b[..n]);
    var i := 0;
    while i < n
      invariant i <= n && forall j :: 0 <= j < i ==> a[from + j] == b[j]
    {
      if a[from + i] != b[i] {
        assert a[from..from + n][i] != b[..n][i];
        assert a[from..from + n][..i] == b[..n][..i];
        assert if a[from + i] < b[i] then FirstBelow(a[from..from + n], b[..n], i)
               else FirstBelow(b[..n], a[from..from + n], i);
        return if a[from + i] < b[i] then -1 else 1;
      }
      i := i + 1;
    }
    return 0;
  }

  /** memchr: the offset of the first `c`, or -1 */
  method Memchr(a: array<byte>, from: nat, n: nat, c: byte) returns (r: int)
    requires from + n <= a.Length
    ensures r == -1 || 0 <= r < n
    ensures r >= 0 ==> a[from + r] == c
    ensures forall j :: from <= j < from + (if r < 0 then n else r) ==> a[j] != c
  {
    var i := 0;
    while i < n
      invariant i <= n && forall j :: from <= j < from + i ==> a[j] != c
    {
      if a[from + i] == c {
        return i;
      }
      i := i + 1;
    }
    return -1;
  }

  /** `what` stands in `data` from byte `i` on. */
  ghost predicate Occurs(data: seq<byte>, what: seq<byte>, i: nat) {
    i + |what| <= |data| && data[i..][..|what|] == what
  }

  /** Two parts that stand one behind the other stand as one. */
  lemma OccursSplit(data: seq<byte>, i: nat, a: seq<byte>, b: seq<byte>)
    ensures Occurs(data, a + b, i) <==> Occurs(data, a, i) && Occurs(data, b, i + |a|)
  {
    var what := a + b;
    if i + |what| <= |data| {
      assert data[i..][..|a|] == data[i..][..|what|][..|a|];
      assert data[i + |a|..][..|b|] == data[i..][..|what|][|a|..];
      assert what[..|a|] == a && what[|a|..] == b;
      assert data[i..][..|what|] == data[i..][..|a|] + data[i + |a|..][..|b|];
    }
  }

  /** `n` more bytes compared. */
  lemma MemcmpStep(data: seq<byte>, mem: seq<byte>, i: nat, done: nat, n: nat)
    requires done + n <= |mem| && i + done + n <= |data| && Occurs(data, mem[..done], i)
    ensures Occurs(data, mem[..done + n], i) <==> data[i + done..][..n] == mem[done..][..n]
    ensures !Occurs(data, mem[..done + n], i) ==> !Occurs(data, mem, i)
  {
    assert mem[..done + n] == mem[..done] + mem[done..][..n];
    OccursSplit(data, i, mem[..done], mem[done..][..n]);
    assert mem == mem[..done + n] + mem[done + n..];
    OccursSplit(data, i, mem[..done + n], mem[done + n..]);
  }

  lemma TotalIs(buf: EvBuffer)
    requires buf.Valid()
    ensures buf.totalLen == |buf.Contents()| && buf.Contents() == Content(buf.vals) && |buf.vals| == |buf.chains|
  {
    buf.WiredShape();
  }

  lemma OccursFits(data: seq<byte>, what: seq<byte>, i: int)
    requires i < 0 || i + |what| > |data|
    ensures i >= 0 ==> !Occurs(data, what, i)
  {
  }

  lemma OccursNothing(data: seq<byte>, what: seq<byte>, i: nat)
    requires i <= |data|
    ensures Occurs(data, what[..0], i)
  {
  }

  lemma PartsOf<T>(s: seq<T>, i: nat, len: nat, done: nat, n: nat)
    requires i + len <= |s| && done + n <= len
    ensures s[i..][..len][..done] == s[i..][..done]
    ensures s[i..][..len][done..][..n] == s[i + done..][..n]
  {
    var x, y := s[i..][..len][done..][..n], s[i + done..][..n];
    assert |x| == |y| == n;
    forall k | 0 <= k < n
      ensures x[k] == y[k]
    {
      assert x[k] == s[i..][..len][done + k] == s[i + (done + k)];
    }
  }

  /** A difference in the bytes of one chain, behind bytes that are equal. */
  lemma MemcmpDiffers(data: seq<byte>, mem: seq<byte>, i: nat, done: nat, n: nat)
    requires done + n <= |mem| && i + |mem| <= |data| && Occurs(data, mem[..done], i)
    ensures Below(data[i + done..][..n], mem[done..][..n]) ==> Below(data[i..][..|mem|], mem)
    ensures Below(mem[done..][..n], data[i + done..][..n]) ==> Below(mem, data[i..][..|mem|])
  {
    hide Below;
    var x := data[i..][..|mem|];
    PartsOf(data, i, |mem|, done, n);
    if Below(data[i + done..][..n], mem[done..][..n]) {
      BelowBehind(x, mem, done, n);
    }
    if Below(mem[done..][..n], data[i + done..][..n]) {
      BelowBehind(mem, x, done, n);
    }
  }

  /** evbuffer_ptr_memcmp; less than 0 also where there are not as many bytes */
  method MemcmpAt(buf: EvBuffer, p: Ptr, mem: seq<byte>) returns (r: int)
    requires buf.Valid() && buf.totalLen <= SIZE_MAX && |mem| <= SIZE_MAX && (p.pos >= 0 ==> Good(buf, p))
    ensures r == 0 <==> p.pos >= 0 && Occurs(buf.Contents(), mem, p.pos)
    ensures p.pos < 0 || p.pos + |mem| > buf.totalLen ==> r < 0
    ensures 0 <= p.pos && p.pos + |mem| <= |buf.Contents()| && p.pos + |mem| <= SIZE_MAX ==>
      && (r < 0 ==> Below(buf.Contents()[p.pos..][..|mem|], mem))
      && (r > 0 ==> Below(mem, buf.Contents()[p.pos..][..|mem|]))
  {
    hide Content; hide Val.Bytes; hide EvBuffer.Valid; hide EvBuffer.Contents; hide Occurs; hide Below;
    TotalIs(buf);
    if p.pos < 0 || SIZE_MAX - |mem| < p.pos || p.pos + |mem| > buf.totalLen {
      OccursFits(buf.Contents(), mem, p.pos);
      return -1;
    }
    ghost var k: nat :| Denotes(buf, p, k);
    r := CompareFrom(buf, p, mem, k);
  }

  /** The loop of evbuffer_ptr_memcmp, where there are enough bytes */
  method CompareFrom(buf: EvBuffer, p: Ptr, mem: seq<byte>, ghost k0: nat) returns (r: int)
    requires buf.Valid() && 0 <= p.pos && Denotes(buf, p, k0) && p.pos + |mem| <= |buf.Contents()|
    ensures r == 0 <==> Occurs(buf.Contents(), mem, p.pos)
    ensures r < 0 ==> Below(buf.Contents()[p.pos..][..|mem|], mem)
    ensures r > 0 ==> Below(mem, buf.Contents()[p.pos..][..|mem|])
  {
    hide Content; hide Val.Bytes; hide EvBuffer.Valid; hide EvBuffer.Contents; hide Occurs; hide Below;
    TotalIs(buf);
    ghost var k := k0;
    OccursNothing(buf.Contents(), mem, p.pos);
    var chain, position: nat, done: nat := p.chain, p.inChain, 0;
    while done < |mem| && chain != null
      invariant done <= |mem| && k <= |buf.chains| && chain == buf.At(k)
      invariant done < |mem| ==> p.pos + done == |Content(buf.vals[..k])| + position
      invariant position <= if k < |buf.vals| then buf.vals[k].off else 0
      invariant Occurs(buf.Contents(), mem[..done], p.pos)
      decreases |buf.chains| - k
    {
      ChainShape(buf, k);
      var len := |mem| - done;
      var n := if len + position > chain.off then chain.off - position else len;
      PieceOf(buf, chain, k, position, n);
      r := Memcmp(chain.buffer, chain.misalign + position, mem[done..], n);
      MemcmpStep(buf.Contents(), mem, p.pos, done, n);
      if r != 0 {
        MemcmpDiffers(buf.Contents(), mem, p.pos, done, n);
        return;
      }
      done, position, chain, k := done + n, 0, chain.next, k + 1;
    }
    WholeContent(buf.vals);
    assert buf.Contents() == Content(buf.vals) by { TotalIs(buf); }
    assert mem[..|mem|] == mem;
    return 0;
  }

  // ---- evbuffer_search_range ----

  /** The pattern stands nowhere in a stretch. */
  ghost predicate NoneIn(data: seq<byte>, what: seq<byte>, from: int, to: int) {
    forall i: nat :: from <= i < to ==> !Occurs(data, what, i)
  }

  /** No place in a stretch of chunk `k` without the first byte can be where `what` starts. */
  lemma SkipRun(vs: seq<Val>, k: nat, o: nat, n: nat, what: seq<byte>)
    requires k < |vs| && vs[k].Ok() && o + n <= vs[k].off && |what| > 0
    requires forall j :: vs[k].misalign + o <= j < vs[k].misalign + o + n ==> vs[k].mem[j] != what[0]
    ensures NoneIn(Content(vs), what, |Content(vs[..k])| + o, |Content(vs[..k])| + o + n)
  {
    hide Content; hide Val.Bytes;
    var start := |Content(vs[..k])|;
    forall i: nat | start + o <= i < start + o + n
      ensures !Occurs(Content(vs), what, i)
    {
      ByteAt(vs, k, i - start);
      if i + |what| <= |Content(vs)| {
        assert Content(vs)[i..][..|what|][0] == Content(vs)[i];
      }
    }
  }

  /** The next place in the chain where the first byte stands, or the start of the next chain. */
  method NextCandidate(buf: EvBuffer, what: seq<byte>, p: Ptr, ghost k: nat) returns (q: Ptr, found: bool)
    requires buf.Valid() && Denotes(buf, p, k) && k < |buf.chains| && |what| > 0
    ensures found ==> Denotes(buf, q, k) && q.chain == p.chain && q.inChain < buf.vals[k].off
    ensures !found ==> Denotes(buf, q, k + 1) && q.inChain == 0 && q.pos == |Content(buf.vals[..k + 1])|
    ensures q.pos >= p.pos && NoneIn(buf.Contents(), what, p.pos, q.pos)
  {
    hide Content; hide Val.Bytes; hide EvBuffer.Spine;
    buf.WiredShape();
    buf.WiredAt(k);
    BufferOk(buf, k);
    var chain := p.chain;
    var r := Memchr(chain.buffer, chain.misalign + p.inChain, chain.off - p.inChain, what[0]);
    if r >= 0 {
      SkipRun(buf.vals, k, p.inChain, r, what);
      return Ptr(p.pos + r, chain, p.inChain + r), true;
    }
    SkipRun(buf.vals, k, p.inChain, chain.off - p.inChain, what);
    PrefixLength(buf.vals, k);
    return Ptr(p.pos + chain.off - p.inChain, chain.next, 0), false;
  }

  /** What evbuffer_search_range promises for a pattern that is not empty. */
  ghost predicate Searched(buf: EvBuffer, what: seq<byte>, from: nat, end: Option<Ptr>, q: Ptr)
    reads buf
  {
    if q.pos >= 0 then
      && from <= q.pos && Occurs(buf.Contents(), what, q.pos) && NoneIn(buf.Contents(), what, from, q.pos)
      && (end.Some? ==> q.pos + |what| <= end.value.pos)
      && q == Position(buf, q.pos)
    else
      && q == NOT_FOUND
      && forall i: nat :: from <= i && Occurs(buf.Contents(), what, i) ==> end.Some? && i + |what| > end.value.pos
  }

  lemma NoneJoin(data: seq<byte>, what: seq<byte>, a: int, b: int, c: int)
    requires NoneIn(data, what, a, b) && NoneIn(data, what, b, c)
    ensures NoneIn(data, what, a, c)
  {
  }

  /** One byte further on; chains are changed at the end of a chain. */
  method NextByte(buf: EvBuffer, p: Ptr, ghost k: nat) returns (q: Ptr, ghost l: nat)
    requires buf.Valid() && Denotes(buf, p, k) && k < |buf.chains| && p.inChain < buf.vals[k].off
    ensures Denotes(buf, q, l) && q.pos == p.pos + 1
  {
    hide Content; hide Val.Bytes; hide EvBuffer.Spine;
    buf.WiredAt(k);
    BufferOk(buf, k);
    l := k;
    q := Ptr(p.pos + 1, p.chain, p.inChain + 1);
    if q.inChain == p.chain.off {
      PrefixLength(buf.vals, k);
      q, l := Ptr(q.pos, p.chain.next, 0), k + 1;
    }
  }

  /** A match: it counts if it ends in time, and no later one would. */
  lemma FoundAt(buf: EvBuffer, what: seq<byte>, from: nat, end: Option<Ptr>, p: Ptr, k: nat)
    requires buf.Valid() && |what| > 0 && Denotes(buf, p, k) && k < |buf.vals| && p.inChain < buf.vals[k].off
    requires from <= p.pos && NoneIn(buf.Contents(), what, from, p.pos) && Occurs(buf.Contents(), what, p.pos)
    ensures Searched(buf, what, from, end, if end.Some? && p.pos + |what| > end.value.pos then NOT_FOUND else p)
  {
    hide Content; hide Occurs;
    BufferOk(buf, k);
    LocateAt(buf.vals, k, p.inChain);
  }

  /** evbuffer_search_range */
  method SearchRange(buf: EvBuffer, what: seq<byte>, start: Option<Ptr>, end: Option<Ptr>) returns (p: Ptr)
    requires buf.Valid() && buf.totalLen <= SIZE_MAX
    requires start.Some? ==> start.value == NOT_FOUND || Good(buf, start.value)
    requires end.Some? ==> end.value == NOT_FOUND || Good(buf, end.value)
    ensures start.Some? && (start.value == NOT_FOUND || |what| == 0 || |what| > SSIZE_MAX) ==> p == start.value
    ensures start.None? && (|what| == 0 || |what| > SSIZE_MAX) ==> p == Ptr(0, buf.first, 0)
    ensures 0 < |what| <= SSIZE_MAX && start != Some(NOT_FOUND) ==>
      Searched(buf, what, if start.Some? then start.value.pos else 0, end, p)
  {
    hide Content; hide Val.Bytes; hide EvBuffer.Wired; hide Occurs; hide Denotes; hide NoneIn; hide DataIndex; hide Searched;
    p := if start.Some? then start.value else Ptr(0, buf.first, 0);
    if |what| == 0 || |what| > SSIZE_MAX || p == NOT_FOUND {
      return;
    }
    if start.None? {
      StartGood(buf);
    }
    var lastChain := if end.Some? then end.value.chain else null;
    ghost var k: nat :| Denotes(buf, p, k);
    InData(buf, p, k);
    ghost var from := p.pos;
    NoneYet(buf.Contents(), what, from);
    while p.chain != null
      invariant Denotes(buf, p, k) && from <= p.pos <= buf.totalLen && NoneIn(buf.Contents(), what, from, p.pos)
      decreases buf.totalLen - p.pos, |buf.chains| - k
    {
      InData(buf, p, k);
      var chain, found, before := p.chain, false, p.pos;
      p, found := NextCandidate(buf, what, p, k);
      NoneJoin(buf.Contents(), what, from, before, p.pos);
      InData(buf, p, if found then k else k + 1);
      if found {
        var r := MemcmpAt(buf, p, what);
        if r == 0 {
          FoundAt(buf, what, from, end, p, k);
          if end.Some? && p.pos + |what| > end.value.pos {
            return NOT_FOUND;
          }
          return;
        }
        NoneOne(buf.Contents(), what, from, p.pos);
        p, k := NextByte(buf, p, k);
        InData(buf, p, k);
      } else {
        if end.Some? && chain == lastChain {
          PastEnd(buf, end.value, k);
          SearchedNone(buf, what, from, end, p.pos);
          return NOT_FOUND;
        }
        k := k + 1;
      }
    }
    NoneAtEnd(buf, what, p, k);
    SearchedNone(buf, what, from, end, p.pos);
    return NOT_FOUND;
  }

  lemma StartGood(buf: EvBuffer)
    requires buf.Valid()
    ensures Denotes(buf, Ptr(0, buf.first, 0), 0) && Good(buf, Ptr(0, buf.first, 0))
  {
    assert Denotes(buf, Ptr(0, buf.first, 0), 0);
  }

  lemma NoneYet(data: seq<byte>, what: seq<byte>, from: int)
    ensures NoneIn(data, what, from, from)
  {
  }

  lemma NoneOne(data: seq<byte>, what: seq<byte>, from: int, i: nat)
    requires NoneIn(data, what, from, i) && !Occurs(data, what, i)
    ensures NoneIn(data, what, from, i + 1)
  {
  }

  /** No match up to `to`, and none from there on that would end in time. */
  lemma SearchedNone(buf: EvBuffer, what: seq<byte>, from: nat, end: Option<Ptr>, to: int)
    requires NoneIn(buf.Contents(), what, from, to)
    requires |what| > 0
    requires (end.Some? && end.value.pos <= to) || forall i: nat :: to <= i ==> !Occurs(buf.Contents(), what, i)
    ensures Searched(buf, what, from, end, NOT_FOUND)
  {
  }

  lemma InData(buf: EvBuffer, p: Ptr, k: nat)
    requires buf.Valid() && Denotes(buf, p, k)
    ensures 0 <= p.pos <= buf.totalLen && Good(buf, p) && k <= |buf.chains| == |buf.vals|
    ensures p.chain != null ==> k < |buf.chains| && p.chain == buf.chains[k]
  {
    ContentCut(buf.vals, k);
    if k < |buf.vals| {
      BufferOk(buf, k);
      ContentSplit(buf.vals, k);
    }
  }

  lemma NoneAtEnd(buf: EvBuffer, what: seq<byte>, p: Ptr, k: nat)
    requires buf.Valid() && Denotes(buf, p, k) && p.chain == null && |what| > 0
    ensures forall i: nat :: p.pos <= i ==> !Occurs(buf.Contents(), what, i)
  {
    WholeContent(buf.vals);
  }

  /** A position in chain `k` is not behind the start of the next chain. */
  lemma PastEnd(buf: EvBuffer, end: Ptr, k: nat)
    requires buf.Valid() && k < |buf.chains| && end.chain == buf.chains[k] && Good(buf, end)
    ensures end.pos <= |Content(buf.vals[..k + 1])|
  {
    hide Content; hide Val.Bytes;
    var e: nat :| Denotes(buf, end, e);
    buf.SpineDistinct(e, k);
    BufferOk(buf, k);
    PrefixLength(buf.vals, k);
  }

  // ---- evbuffer_copyout_from, evbuffer_remove ----

  lemma Slices<T>(s: seq<T>, from: nat, done: nat, n: nat)
    requires from + done + n <= |s|
    ensures s[from..from + done + n] == s[from..from + done] + s[from + done..][..n]
  {
  }

  /** Some bytes of chain `k`, behind those copied so far. */
  method CopyPiece(buf: EvBuffer, chain: Chain, at: nat, n: nat, data: seq<byte>, ghost from: nat, ghost k: nat)
    returns (more: seq<byte>)
    requires buf.Valid() && k < |buf.chains| && chain == buf.chains[k] && at + n <= chain.off
    requires |buf.vals| == |buf.chains| && from + |data| == |Content(buf.vals[..k])| + at <= |buf.Contents()|
    requires data == buf.Contents()[from..from + |data|]
    ensures |more| == |data| + n && from + |more| <= |buf.Contents()| && more == buf.Contents()[from..from + |more|]
    ensures |Content(buf.vals[..k + 1])| == |Content(buf.vals[..k])| + chain.off && chain.next == buf.At(k + 1)
  {
    hide Content; hide EvBuffer.Valid; hide EvBuffer.Contents;
    PieceOf(buf, chain, k, at, n);
    Slices(buf.Contents(), from, |data|, n);
    more := data + chain.buffer[chain.misalign + at..chain.misalign + at + n];
  }

  /** The loop of evbuffer_copyout_from */
  method CopyLoop(buf: EvBuffer, p: Ptr, n: nat, ghost k0: nat) returns (data: seq<byte>)
    requires buf.Valid() && Denotes(buf, p, k0) && p.pos + n <= buf.totalLen
    ensures data == buf.Contents()[p.pos..p.pos + n]
  {
    hide Content; hide Val.Bytes; hide EvBuffer.Valid; hide EvBuffer.Contents;
    TotalIs(buf);
    InData(buf, p, k0);
    var chain, at: nat, left: nat := p.chain, p.inChain, n;
    ghost var k := k0;
    data := [];
    WholeContent(buf.vals);
    while left > 0 && left >= chain.off - at
      invariant left > 0 ==> chain != null
      invariant k <= |buf.chains| && chain == buf.At(k) && left <= n && |data| == n - left
      invariant p.pos + |data| == |Content(buf.vals[..k])| + at
      invariant at <= if k < |buf.vals| then buf.vals[k].off else 0
      invariant data == buf.Contents()[p.pos..p.pos + |data|]
      decreases |buf.chains| - k
    {
      ChainShape(buf, k);
      var len := chain.off - at;
      data := CopyPiece(buf, chain, at, len, data, p.pos, k);
      left := left - len;
      chain, at, k := chain.next, 0, k + 1;
    }
    if left > 0 {
      ChainShape(buf, k);
      data := CopyPiece(buf, chain, at, left, data, p.pos, k);
    }
  }

  /** evbuffer_copyout_from */
  method CopyOutFrom(buf: EvBuffer, pos: Option<Ptr>, datlen: nat) returns (result: int, data: seq<byte>)
    requires buf.Valid() && (pos.Some? ==> Good(buf, pos.value))
    ensures var from := if pos.Some? then pos.value.pos else 0;
      var n := if from + datlen > buf.totalLen then buf.totalLen - from else datlen;
      && 0 <= n
      && result == (if pos.Some? && from + datlen > SSIZE_MAX then -1 else if n == 0 then 0 else if buf.freezeStart then -1 else n)
      && data == if result >= 0 then buf.Contents()[from..from + n] else []
  {
    hide Content; hide EvBuffer.Wired; hide Denotes;
    var p := if pos.Some? then pos.value else Ptr(0, buf.first, 0);
    if pos.None? {
      StartGood(buf);
    }
    ghost var k: nat :| Denotes(buf, p, k);
    InData(buf, p, k);
    if pos.Some? && datlen > SSIZE_MAX - p.pos {
      return -1, [];
    }
    var n := if datlen + p.pos > buf.totalLen then buf.totalLen - p.pos else datlen;
    if n == 0 {
      return 0, [];
    }
    if buf.freezeStart {
      return -1, [];
    }
    data := CopyLoop(buf, p, n, k);
    return n, data;
  }

  /** evbuffer_remove */
  method Remove(buf: EvBuffer, datlen: nat) returns (result: int, data: seq<byte>)
    requires buf.Valid()
    modifies buf.Repr
    ensures buf.Valid() && fresh(buf.Repr - old(buf.Repr))
    ensures var n := if datlen > old(buf.totalLen) then old(buf.totalLen) else datlen;
      && result == (if n == 0 then 0 else if buf.freezeStart then -1 else n)
      && (result >= 0 ==> data == old(buf.Contents())[..n] && buf.Contents() == old(buf.Contents())[n..])
      && (result < 0 ==> data == [] && buf.Contents() == old(buf.Contents()))
    ensures buf.freezeEnd == old(buf.freezeEnd) && buf.freezeStart == old(buf.freezeStart)
  {
    hide Content; hide EvBuffer.Wired;
    result, data := CopyOutFrom(buf, None, datlen);
    if result > 0 {
      var ok, uses := buf.Drain(result);
      if !ok {
        result := -1;
      }
    }
  }
}
