/** The chunks of a byte queue as plain values, and the bytes they spell. */
module ChainValues {

  newtype byte = x: int | 0 <= x < 256

  // LP64 values of the constants of evbuffer-internal.h and buffer.c.
  const CHAIN_SIZE: nat := 48
  const MIN_BUFFER_SIZE: nat := 1024
  const CHAIN_MAX: nat := 0x7FFF_FFFF_FFFF_FFFF
  const SSIZE_MIN: int := -0x8000_0000_0000_0000
  const SIZE_MAX: nat := 0xFFFF_FFFF_FFFF_FFFF
  const MAX_DATA: nat := CHAIN_MAX - CHAIN_SIZE
  const CHAIN_MAX_AUTO_SIZE: nat := 4096
  const MAX_TO_COPY_IN_EXPAND: nat := 4096
  const MAX_TO_REALIGN_IN_EXPAND: nat := 2048

  /** One chunk: `off` bytes of data starting at `misalign` in `mem`. */
  datatype Val = Val(misalign: nat, off: nat, mem: seq<byte>) {
    /** The data lies within the memory, which is no larger than a chain may be. */
    predicate Ok() {
      misalign + off <= |mem| <= MAX_DATA
    }

    /** The data. */
    function Bytes(): (bytes: seq<byte>)
      ensures Ok() ==> |bytes| == off
    {
      if misalign + off <= |mem| then mem[misalign..misalign + off] else []
    }

    /** Room behind the data. */
    function Space(): int {
      |mem| - (misalign + off)
    }

    /** `data` copied behind the data already there. */
    function Appended(data: seq<byte>): (v: Val)
      requires Ok() && |data| <= Space()
      ensures v.Ok() && v.Bytes() == Bytes() + data && |v.mem| == |mem|
      ensures v.misalign == misalign && v.off == off + |data|
    {
      var end := misalign + off;
      Behind(mem, misalign, end, data);
      Val(misalign, off + |data|, mem[..end] + data + mem[end + |data|..])
    }

    /** The `n` bytes behind the data count as data from now on. */
    function Grown(n: nat): (v: Val)
      requires Ok() && n <= Space()
      ensures v.Ok() && v.Bytes() == Bytes() + mem[misalign + off..misalign + off + n]
      ensures v.misalign == misalign && v.off == off + n && v.mem == mem
    {
      Val(misalign, off + n, mem)
    }

    /** `data` written somewhere behind the data: no data changes. */
    function Scribbled(at: nat, data: seq<byte>): (v: Val)
      requires Ok() && misalign + off <= at && at + |data| <= |mem|
      ensures v.Ok() && v.Bytes() == Bytes() && |v.mem| == |mem| && v.misalign == misalign && v.off == off
      ensures v.mem[at..at + |data|] == data
    {
      var after := mem[..at] + data + mem[at + |data|..];
      assert after[at..at + |data|] == data;
      assert after[..misalign + off] == mem[..misalign + off];
      Val(misalign, off, after)
    }

    /** An empty chunk treated as empty at its end. */
    function Emptied(): (v: Val)
      requires Ok() && off == 0
      ensures v.Ok() && v.Bytes() == [] && v.Space() == |mem| && v.off == 0 && v.mem == mem
    {
      Val(0, 0, mem)
    }

    /** `data` copied in front of the data already there. */
    function Prefixed(data: seq<byte>): (v: Val)
      requires Ok() && |data| <= misalign
      ensures v.Ok() && v.Bytes() == data + Bytes() && |v.mem| == |mem|
      ensures v.misalign == misalign - |data| && v.off == off + |data|
    {
      var at := misalign - |data|;
      var v := Val(at, off + |data|, Overwritten(mem, misalign, data, off));
      assert v.misalign == at && v.misalign + v.off == misalign + off;
      assert v.Bytes() == v.mem[at..misalign + off];
      v
    }

    /** An empty chunk treated as empty at its beginning rather than at its end. */
    function Rewound(): (v: Val)
      requires Ok() && off == 0
      ensures v.Ok() && v.Bytes() == [] && v.misalign == |mem| && v.off == 0 && v.mem == mem
    {
      Val(|mem|, 0, mem)
    }

    /** The first `n` bytes given up. */
    function Dropped(n: nat): (v: Val)
      requires Ok() && n <= off
      ensures v.Ok() && v.Bytes() == Bytes()[n..]
      ensures v.misalign == misalign + n && v.off == off - n && v.mem == mem
    {
      Val(misalign + n, off - n, mem)
    }

    /** The data moved to the front of the memory. */
    function Aligned(): (v: Val)
      requires Ok()
      ensures v.Ok() && v.Bytes() == Bytes() && |v.mem| == |mem|
      ensures v.misalign == 0 && v.off == off
    {
      Val(0, off, Bytes() + mem[off..])
    }
  }

  /** Memory overwritten behind a stretch of it */
  lemma Behind(mem: seq<byte>, from: nat, end: nat, data: seq<byte>)
    requires from <= end && end + |data| <= |mem|
    ensures var after := mem[..end] + data + mem[end + |data|..];
      |after| == |mem| && after[from..end + |data|] == mem[from..end] + data
  {
    var after := mem[..end] + data + mem[end + |data|..];
    var x, y := after[from..end + |data|], mem[from..end] + data;
    forall k | 0 <= k < |y|
      ensures x[k] == y[k]
    {
      assert x[k] == after[from + k];
    }
  }

  /** ... or before it. */
  function Overwritten(mem: seq<byte>, end: nat, data: seq<byte>, n: nat): (after: seq<byte>)
    requires |data| <= end && end + n <= |mem|
    ensures |after| == |mem| && after[end - |data|..end + n] == data + mem[end..end + n]
  {
    Before(mem, end - |data|, data, n);
    mem[..end - |data|] + data + mem[end..]
  }

  /** Byte by byte. */
  lemma OverwrittenAt(mem: seq<byte>, end: nat, data: seq<byte>, n: nat)
    requires |data| <= end && end + n <= |mem|
    ensures forall k :: 0 <= k < |mem| ==>
      Overwritten(mem, end, data, n)[k] == if end - |data| <= k < end then data[k - (end - |data|)] else mem[k]
  {
  }

  lemma Before(mem: seq<byte>, at: nat, data: seq<byte>, n: nat)
    requires at + |data| + n <= |mem|
    ensures var after := mem[..at] + data + mem[at + |data|..];
      |after| == |mem| && after[at..at + |data| + n] == data + mem[at + |data|..at + |data| + n]
  {
    var after := mem[..at] + data + mem[at + |data|..];
    var x, y := after[at..at + |data| + n], data + mem[at + |data|..at + |data| + n];
    forall k | 0 <= k < |y|
      ensures x[k] == y[k]
    {
      assert x[k] == after[at + k];
    }
  }

  /** All the data, front to back. */
  function Content(vs: seq<Val>): seq<byte> {
    if vs == [] then [] else vs[0].Bytes() + Content(vs[1..])
  }

  lemma Assoc<T>(x: seq<T>, y: seq<T>, z: seq<T>)
    ensures x + (y + z) == (x + y) + z
  {
  }

  lemma {:induction false} ContentConcat(a: seq<Val>, b: seq<Val>)
    ensures Content(a + b) == Content(a) + Content(b)
    decreases |a|
  {
    if |a| == 0 {
      assert a + b == b;
    } else {
      var tail := a[1..];
      assert (a + b)[0] == a[0] && (a + b)[1..] == tail + b;
      ContentConcat(tail, b);
      Assoc(a[0].Bytes(), Content(tail), Content(b));
    }
  }

  lemma ContentOne(v: Val)
    ensures Content([v]) == v.Bytes()
  {
    assert [v][1..] == [];
  }

  lemma {:induction false} ContentEmpty(vs: seq<Val>)
    requires forall i :: 0 <= i < |vs| ==> vs[i].off == 0
    ensures Content(vs) == []
  {
    if vs != [] {
      assert vs[0].Bytes() == [];
      ContentEmpty(vs[1..]);
    }
  }

  /** Cutting the list of chunks cuts the data. */
  lemma ContentCut(vs: seq<Val>, i: nat)
    requires i <= |vs|
    ensures Content(vs) == Content(vs[..i]) + Content(vs[i..])
  {
    assert vs == vs[..i] + vs[i..];
    ContentConcat(vs[..i], vs[i..]);
  }

  /** One chunk in the middle. */
  lemma ContentSplit(vs: seq<Val>, i: nat)
    requires i < |vs|
    ensures Content(vs) == Content(vs[..i]) + vs[i].Bytes() + Content(vs[i + 1..])
  {
    ContentCut(vs, i);
    var rest := vs[i..];
    assert rest[0] == vs[i] && rest[1..] == vs[i + 1..];
    Assoc(Content(vs[..i]), vs[i].Bytes(), Content(vs[i + 1..]));
  }

  lemma ContentSnoc(vs: seq<Val>, v: Val)
    ensures Content(vs + [v]) == Content(vs) + v.Bytes()
  {
    ContentConcat(vs, [v]);
    ContentOne(v);
  }

  /** `d` is the last chunk with data, or the front one if no chunk has data. */
  ghost predicate DataIndex(vs: seq<Val>, d: nat) {
    && (forall i :: 0 <= i < |vs| ==> vs[i].Ok())
    && (d > 0 ==> d < |vs| && vs[d].off != 0)
    && (forall i :: d < i < |vs| ==> vs[i].off == 0)
  }

  lemma DataAt(vs: seq<Val>, d: nat)
    requires DataIndex(vs, d)
    ensures forall i :: 0 <= i < |vs| ==> vs[i].Ok()
    ensures d > 0 ==> d < |vs| && vs[d].off != 0
  {
  }

  /** What is left once the empty chunks behind the data are freed. */
  ghost function Trimmed(vs: seq<Val>, d: nat): seq<Val> {
    if d >= |vs| then vs else if vs[d].off != 0 then vs[..d + 1] else vs[..d]
  }

  /** Freeing the empty chunks behind the data loses nothing. */
  lemma TrimmedContent(vs: seq<Val>, d: nat)
    requires DataIndex(vs, d)
    ensures Content(Trimmed(vs, d)) == Content(vs)
    ensures DataIndex(Trimmed(vs, d), if d < |Trimmed(vs, d)| then d else 0)
  {
    hide Content; hide Val.Bytes; hide Val.Ok;
    var t := Trimmed(vs, d);
    ContentCut(vs, |t|);
    ContentEmpty(vs[|t|..]);
  }

  /** Doubled until it is enough. */
  function RoundUp(toAlloc: nat, size: nat): (r: nat)
    requires 0 < toAlloc
    ensures r >= size && r >= toAlloc
    ensures r == toAlloc || r < 2 * size
    decreases size - toAlloc
  {
    if toAlloc < size then RoundUp(2 * toAlloc, size) else toAlloc
  }

  /** How much memory a chunk with room for `size` bytes gets. */
  function AllocSize(size: nat): (r: nat)
    ensures r >= size && r >= MIN_BUFFER_SIZE
    ensures size <= CHAIN_MAX ==> r <= CHAIN_MAX
  {
    if size < CHAIN_MAX / 2 then RoundUp(MIN_BUFFER_SIZE, size) else size
  }

  function Pow2(k: nat): (r: nat)
    ensures 0 < r
  {
    if k == 0 then 1 else 2 * Pow2(k - 1)
  }

  /** The memory of a new chain, header and all: the least of 1024, 2048, 4096 ... that is enough, unless that is huge. */
  lemma AllocIs(size: nat)
    ensures size >= 0x3FFF_FFFF_FFFF_FFFF ==> AllocSize(size) == size
    ensures size < 0x3FFF_FFFF_FFFF_FFFF ==>
      exists k: nat :: AllocSize(size) == 1024 * Pow2(k) >= size && (k == 0 || 1024 * Pow2(k - 1) < size)
  {
    if size < 0x3FFF_FFFF_FFFF_FFFF {
      var k := RoundUpIs(0, size);
      assert Pow2(0) == 1;
    }
  }

  lemma {:induction false} RoundUpIs(k: nat, size: nat) returns (n: nat)
    requires k == 0 || 1024 * Pow2(k - 1) < size
    ensures RoundUp(1024 * Pow2(k), size) == 1024 * Pow2(n) >= size && (n == 0 || 1024 * Pow2(n - 1) < size)
    decreases size - 1024 * Pow2(k)
  {
    n := k;
    if 1024 * Pow2(k) < size {
      n := RoundUpIs(k + 1, size);
    }
  }

  /** A chunk made for `size` bytes, with `off` in it. */
  predicate MadeFor(v: Val, off: nat, size: nat) {
    v.misalign == 0 && v.off == off && |v.mem| + CHAIN_SIZE == AllocSize(size + CHAIN_SIZE)
  }

  /** One chunk replaced: everything else stays. */
  lemma ReplaceContent(vs: seq<Val>, i: nat, v: Val)
    requires i < |vs|
    ensures Content(vs[i := v]) == Content(vs[..i]) + v.Bytes() + Content(vs[i + 1..])
  {
    var ws := vs[i := v];
    assert ws[..i] == vs[..i];
    assert ws[i + 1..] == vs[i + 1..];
    ContentSplit(ws, i);
  }

  lemma SameBytesContent(vs: seq<Val>, i: nat, v: Val)
    requires i < |vs| && v.Bytes() == vs[i].Bytes()
    ensures Content(vs[i := v]) == Content(vs)
  {
    ContentSplit(vs, i);
    ReplaceContent(vs, i, v);
  }

  lemma DropEmpty<T>(x: seq<T>, y: seq<T>, z: seq<T>)
    requires z == []
    ensures x + y + z == x + y
  {
  }

  /** Adding bytes to the last chunk with data adds them at the end of the data. */
  lemma AppendContent(vs: seq<Val>, d: nat, v: Val, data: seq<byte>)
    requires d < |vs| && forall i :: d < i < |vs| ==> vs[i].off == 0
    requires v.Bytes() == vs[d].Bytes() + data
    ensures Content(vs[d := v]) == Content(vs) + data
  {
    ContentSplit(vs, d);
    ReplaceContent(vs, d, v);
    var front, rear := Content(vs[..d]), Content(vs[d + 1..]);
    ContentEmpty(vs[d + 1..]);
    DropEmpty(front, vs[d].Bytes(), rear);
    DropEmpty(front, v.Bytes(), rear);
    Assoc(front, vs[d].Bytes(), data);
  }

  /** Where the last data is once `v` stands behind the trimmed chunks. */
  ghost function InsertIndex(vs: seq<Val>, d: nat, v: Val): nat {
    if v.off != 0 then |Trimmed(vs, d)| else d
  }

  /** A chunk put in place of the empty ones appends its bytes. */
  lemma InsertContent(vs: seq<Val>, d: nat, v: Val)
    requires DataIndex(vs, d) && v.Ok()
    ensures Content(Trimmed(vs, d) + [v]) == Content(vs) + v.Bytes()
    ensures DataIndex(Trimmed(vs, d) + [v], InsertIndex(vs, d, v))
  {
    hide Content; hide Val.Bytes; hide DataIndex; hide Trimmed; hide InsertIndex;
    ContentSnoc(Trimmed(vs, d), v);
    TrimmedContent(vs, d);
    InsertAt(vs, d, v);
  }

  lemma InsertAt(vs: seq<Val>, d: nat, v: Val)
    requires DataIndex(vs, d) && v.Ok()
    ensures DataIndex(Trimmed(vs, d) + [v], InsertIndex(vs, d, v))
  {
  }

  /** Bytes put in front of the first chunk stand in front of everything. */
  lemma PrefixContent(vs: seq<Val>, v: Val, data: seq<byte>)
    requires |vs| > 0 && v.Bytes() == data + vs[0].Bytes()
    ensures Content(vs[0 := v]) == data + Content(vs)
  {
    var ws := vs[0 := v];
    assert ws[1..] == vs[1..];
    Assoc(data, vs[0].Bytes(), Content(vs[1..]));
  }

  /** An empty chunk in front changes nothing. */
  lemma EmptyFrontContent(vs: seq<Val>, d: nat, v: Val)
    requires DataIndex(vs, d) && v.Ok() && v.off == 0 && |vs| > 0
    ensures Content([v] + vs) == Content(vs)
    ensures DataIndex([v] + vs, if vs[d].off != 0 then d + 1 else 0)
  {
    var ws := [v] + vs;
    assert ws[0].Bytes() == [] && ws[1..] == vs;
    assert forall i :: 0 < i < |ws| ==> ws[i] == vs[i - 1];
  }

  /** Dropping the first `n` bytes, which end inside chunk `k`. */
  lemma DropContent(vs: seq<Val>, d: nat, k: nat, n: nat)
    requires DataIndex(vs, d) && k <= d < |vs| && n <= vs[k].off
    requires k < d || n < vs[k].off
    ensures |Content(vs[..k])| + n <= |Content(vs)|
    ensures Content([vs[k].Dropped(n)] + vs[k + 1..]) == Content(vs)[|Content(vs[..k])| + n..]
    ensures DataIndex([vs[k].Dropped(n)] + vs[k + 1..], d - k)
  {
    hide Content; hide Val.Bytes; hide DataIndex;
    DataAt(vs, d);
    var v := vs[k].Dropped(n);
    ContentSplit(vs, k);
    ContentFirst(v, vs[k + 1..]);
    BytesLength(vs[k]);
    DropIn(Content(vs[..k]), vs[k].Bytes(), Content(vs[k + 1..]), n);
    DropIndex(vs, d, k, v);
  }

  lemma BytesLength(v: Val)
    requires v.Ok()
    ensures |v.Bytes()| == v.off
  {
  }

  lemma ContentFirst(v: Val, vs: seq<Val>)
    ensures Content([v] + vs) == v.Bytes() + Content(vs)
  {
    assert ([v] + vs)[1..] == vs;
  }

  lemma DropIndex(vs: seq<Val>, d: nat, k: nat, v: Val)
    requires DataIndex(vs, d) && k <= d < |vs| && v.Ok()
    ensures DataIndex([v] + vs[k + 1..], d - k)
  {
    var ws := [v] + vs[k + 1..];
    assert forall i :: 0 < i < |ws| ==> ws[i] == vs[k + i];
  }

  lemma DropIn<T>(front: seq<T>, mid: seq<T>, rest: seq<T>, n: nat)
    requires n <= |mid|
    ensures (front + mid + rest)[|front| + n..] == mid[n..] + rest
  {
  }

  /** The chunks up to `d` hold all the data. */
  lemma DataContent(vs: seq<Val>, d: nat)
    requires DataIndex(vs, d)
    ensures |vs| == 0 ==> Content(vs) == []
    ensures |vs| > 0 ==> d < |vs| && Content(vs) == Content(vs[..d]) + vs[d].Bytes()
  {
    if |vs| > 0 {
      ContentSplit(vs, d);
      ContentEmpty(vs[d + 1..]);
      DropEmpty(Content(vs[..d]), vs[d].Bytes(), Content(vs[d + 1..]));
    }
  }

  lemma PrefixLength(vs: seq<Val>, k: nat)
    requires k < |vs|
    ensures Content(vs[..k + 1]) == Content(vs[..k]) + vs[k].Bytes()
  {
    assert vs[..k + 1] == vs[..k] + [vs[k]];
    ContentSnoc(vs[..k], vs[k]);
  }

  lemma DataIndexJoin(t: seq<Val>, ws: seq<Val>, e: nat)
    requires forall i :: 0 <= i < |t| ==> t[i].Ok()
    requires DataIndex(ws, e) && e < |ws| && ws[e].off != 0
    ensures DataIndex(t + ws, |t| + e)
  {
    hide Val.Ok;
    assert forall i :: |t| <= i < |t + ws| ==> (t + ws)[i] == ws[i - |t|];
  }

  /** One list of chunks behind another. */
  lemma JoinContent(vs: seq<Val>, d: nat, ws: seq<Val>, e: nat)
    requires DataIndex(vs, d) && DataIndex(ws, e) && Content(ws) != []
    ensures Content(Trimmed(vs, d) + ws) == Content(vs) + Content(ws)
    ensures e < |ws| && DataIndex(Trimmed(vs, d) + ws, |Trimmed(vs, d)| + e)
  {
    hide Content;
    TrimmedContent(vs, d);
    ContentConcat(Trimmed(vs, d), ws);
    DataHead(ws, e);
    DataIndexJoin(Trimmed(vs, d), ws, e);
  }

  /** If there is data at all, the chunk that the data index names has some. */
  lemma DataHead(vs: seq<Val>, d: nat)
    requires DataIndex(vs, d) && Content(vs) != []
    ensures d < |vs| && vs[d].off != 0
  {
    DataContent(vs, d);
    if d == 0 && vs[0].off == 0 {
      ContentEmpty(vs);
    }
  }

  /** One list of chunks in front of another that has data. */
  lemma PrependedContent(ws: seq<Val>, e: nat, vs: seq<Val>, d: nat)
    requires DataIndex(ws, e) && DataIndex(vs, d) && Content(vs) != []
    ensures Content(ws + vs) == Content(ws) + Content(vs)
    ensures d < |vs| && DataIndex(ws + vs, |ws| + d)
  {
    hide Content;
    ContentConcat(ws, vs);
    DataHead(vs, d);
    DataIndexJoin(ws, vs, d);
  }

  /** DataIndex for a list of which only the chunks up to `j` have been looked at. */
  ghost predicate DataIndexUpTo(vs: seq<Val>, d: nat, j: nat) {
    && (forall i :: 0 <= i < |vs| ==> vs[i].Ok())
    && d <= j && j < |vs| && (d > 0 ==> vs[d].off != 0)
    && (forall i :: d < i <= j ==> vs[i].off == 0)
  }

  /** How many of the first `n` bytes lie in chunks that end within them. */
  function WholeChunks(vs: seq<Val>, n: nat): (whole: nat)
    ensures whole <= n
  {
    if |vs| == 0 || |vs[0].Bytes()| > n then 0 else |vs[0].Bytes()| + WholeChunks(vs[1..], n - |vs[0].Bytes()|)
  }

  lemma {:induction false} WholeChunksAt(vs: seq<Val>, k: nat, n: nat)
    requires k < |vs| && |Content(vs[..k])| <= n < |Content(vs[..k])| + |vs[k].Bytes()|
    ensures WholeChunks(vs, n) == |Content(vs[..k])|
  {
    hide Val.Bytes;
    if k == 0 {
      assert vs[..0] == [];
    } else {
      var front, tail := vs[..k], vs[1..];
      assert front[0] == vs[0] && front[1..] == tail[..k - 1] && tail[k - 1] == vs[k];
      assert |Content(front)| == |vs[0].Bytes()| + |Content(tail[..k - 1])|;
      WholeChunksAt(tail, k - 1, n - |vs[0].Bytes()|);
    }
  }

  /** The first `n` bytes, which end `left` bytes into chunk `k`. */
  lemma SpliceContent(vs: seq<Val>, k: nat, n: nat, left: nat)
    requires k < |vs| && vs[k].Ok() && left < vs[k].off && n == |Content(vs[..k])| + left
    ensures n <= |Content(vs)| && Content(vs)[..n] == Content(vs[..k]) + vs[k].Bytes()[..left]
    ensures WholeChunks(vs, n) == n - left && Content(vs)[..n - left] == Content(vs[..k])
    ensures vs[k].Bytes()[..left] == vs[k].mem[vs[k].misalign..vs[k].misalign + left]
  {
    hide Content; hide WholeChunks;
    ContentSplit(vs, k);
    WholeChunksAt(vs, k, n);
    TakeIn(Content(vs[..k]), vs[k].Bytes(), Content(vs[k + 1..]), left);
  }

  lemma TakeIn<T>(front: seq<T>, mid: seq<T>, rest: seq<T>, n: nat)
    requires n <= |mid|
    ensures (front + mid + rest)[..|front| + n] == front + mid[..n]
    ensures (front + mid + rest)[..|front|] == front
  {
  }

  /** The chunks 1 to `k` and `n` bytes of the one behind them pulled into the first chunk. */
  lemma PullContent(vs: seq<Val>, d: nat, k: nat, n: nat, v: Val)
    requires DataIndex(vs, d) && 0 < k <= d < |vs| && n < vs[k].off && v.Ok()
    requires v.Bytes() == vs[0].Bytes() + Content(vs[1..k]) + vs[k].Bytes()[..n]
    ensures Content([v, vs[k].Dropped(n)] + vs[k + 1..]) == Content(vs)
    ensures DataIndex([v, vs[k].Dropped(n)] + vs[k + 1..], d - k + 1)
  {
    hide Content; hide Val.Bytes; hide Val.Dropped;
    var rest, w := vs[k + 1..], vs[k].Dropped(n);
    PairContent(v, w, rest);
    FrontContent(vs, k);
    ContentSplit(vs, k);
    Rejoin(Content(vs[..k]), vs[k].Bytes(), Content(rest), n);
    PullIndex(vs, d, k, v, w);
  }

  lemma PullIndex(vs: seq<Val>, d: nat, k: nat, v: Val, w: Val)
    requires DataIndex(vs, d) && 0 < k <= d < |vs| && v.Ok() && w.Ok() && w.off != 0
    ensures DataIndex([v, w] + vs[k + 1..], d - k + 1)
  {
    hide Val.Ok;
    var ws := [v, w] + vs[k + 1..];
    assert forall i :: 2 <= i < |ws| ==> ws[i] == vs[k + i - 1];
  }

  lemma PairContent(v: Val, w: Val, rest: seq<Val>)
    ensures Content([v, w] + rest) == v.Bytes() + (w.Bytes() + Content(rest))
  {
    var ws := [v, w] + rest;
    assert ws[1..][0] == w && ws[1..][1..] == rest;
  }

  lemma PullAllContent(vs: seq<Val>, v: Val)
    requires |vs| > 0 && v.Ok() && v.Bytes() == vs[0].Bytes() + Content(vs[1..])
    ensures Content([v]) == Content(vs) && DataIndex([v], 0)
  {
    ContentOne(v);
  }

  lemma FrontContent(vs: seq<Val>, k: nat)
    requires 0 < k <= |vs|
    ensures Content(vs[..k]) == vs[0].Bytes() + Content(vs[1..k])
  {
    var front := vs[..k];
    assert front[1..] == vs[1..k];
  }

  lemma Rejoin<T>(a: seq<T>, b: seq<T>, c: seq<T>, n: nat)
    requires n <= |b|
    ensures (a + b[..n]) + (b[n..] + c) == a + b + c
  {
  }

  lemma TailPrefix(vs: seq<Val>, k: nat)
    requires 0 < k < |vs|
    ensures Content(vs[1..k + 1]) == Content(vs[1..k]) + vs[k].Bytes()
    ensures vs[k].Ok() ==> vs[k].Bytes() == vs[k].mem[vs[k].misalign..vs[k].misalign + vs[k].off]
  {
    assert vs[1..k + 1] == vs[1..k] + [vs[k]];
    ContentSnoc(vs[1..k], vs[k]);
  }

  /** The first chunk has grown by the data of chunks 1 to k - 1; `left` bytes of what is needed are to come. */
  ghost predicate Gathered(now: seq<Val>, was: seq<Val>, k: nat, left: nat, need: nat) {
    && |now| == |was| && 0 < k <= |was| && now[1..] == was[1..]
    && now[0].Ok() && left <= now[0].Space()
    && now[0].Bytes() == was[0].Bytes() + Content(was[1..k])
    && |Content(was[1..k])| + left == need
  }

  lemma GatheredNone(vs: seq<Val>, need: nat)
    requires vs != [] && vs[0].Ok() && need <= vs[0].Space()
    ensures Gathered(vs, vs, 1, need, need)
  {
    hide Content;
    ContentEmpty(vs[1..1]);
  }

  /** One whole chunk more. */
  lemma GatheredOne(now: seq<Val>, was: seq<Val>, k: nat, left: nat, need: nat)
    requires Gathered(now, was, k, left, need) && k < |was| && now[k].Ok() && now[k].off <= left
    ensures now[k] == was[k] && |was[k].Bytes()| == was[k].off && was[k].Bytes()[..was[k].off] == was[k].Bytes()
    ensures Gathered(now[0 := now[0].Appended(was[k].Bytes())], was, k + 1, left - was[k].off, need)
  {
    hide Content;
    assert now[k] == now[1..][k - 1] && was[k] == was[1..][k - 1];
    TailPrefix(was, k);
    Assoc(was[0].Bytes(), Content(was[1..k]), was[k].Bytes());
  }

  lemma GatheredParts(now: seq<Val>, was: seq<Val>, k: nat, left: nat, need: nat)
    requires Gathered(now, was, k, left, need)
    ensures |now| == |was| && now[0].Ok() && left <= now[0].Space() && now[k..] == was[k..]
    ensures now[0].Bytes() == was[0].Bytes() + Content(was[1..k]) && |Content(was[1..k])| + left == need
    ensures k < |was| ==> now[k] == was[k] && now[k + 1..] == was[k + 1..]
    ensures k == |was| ==> was[1..k] == was[1..]
  {
    SameTail(was, now, k);
  }

  lemma GatheredAll(now: seq<Val>, was: seq<Val>, left: nat, need: nat)
    requires Gathered(now, was, |was|, left, need) && need <= |Content(was[1..])|
    ensures left == 0
  {
    assert was[1..|was|] == was[1..];
  }

  /** More than the first chunk holds: there is data behind it. */
  lemma BehindFirst(vs: seq<Val>, d: nat, n: nat)
    requires DataIndex(vs, d) && |vs| > 0 && vs[0].off < n <= |Content(vs)|
    ensures 0 < d && vs[d].off != 0 && n - vs[0].off <= |Content(vs[1..])|
  {
    DataContent(vs, d);
    assert vs[..0] == [];
  }

  lemma SameTail(vs: seq<Val>, ws: seq<Val>, k: nat)
    requires |vs| == |ws| && 0 < k <= |vs| && ws[1..] == vs[1..]
    ensures ws[1..k] == vs[1..k] && ws[k..] == vs[k..]
    ensures k == |vs| ==> vs[1..k] == vs[1..]
    ensures k < |vs| ==> ws[k] == vs[k] && ws[k + 1..] == vs[k + 1..]
  {
    assert forall i :: 0 < i < |vs| ==> ws[i] == ws[1..][i - 1] && vs[i] == vs[1..][i - 1];
  }

  // ---- room behind the data ----

  /** The first chunk with room, counting from the last one with data. */
  ghost function FirstRoom(vs: seq<Val>, d: nat): nat {
    if d < |vs| && vs[d].Space() == 0 then d + 1 else d
  }

  /** The room in the `n` chunks from `k` on. */
  ghost function Room(vs: seq<Val>, k: nat, n: nat): int
    decreases n
  {
    if n == 0 || k >= |vs| then 0 else vs[k].Space() + Room(vs, k + 1, n - 1)
  }

  lemma {:induction false} RoomSnoc(vs: seq<Val>, k: nat, n: nat)
    requires k + n < |vs|
    ensures Room(vs, k, n + 1) == Room(vs, k, n) + vs[k + n].Space()
    decreases n
  {
    if n > 0 {
      RoomSnoc(vs, k + 1, n - 1);
    }
  }

  lemma {:induction false} RoomMore(vs: seq<Val>, k: nat, n: nat, m: nat)
    requires n <= m && forall i :: 0 <= i < |vs| ==> vs[i].Ok()
    ensures 0 <= Room(vs, k, n) <= Room(vs, k, m)
    decreases n, m
  {
    if k < |vs| && m > 0 {
      RoomMore(vs, k + 1, if n > 0 then n - 1 else 0, m - 1);
    }
  }

  /** Only the chunks counted matter. */
  lemma {:induction false} RoomSame(vs: seq<Val>, ws: seq<Val>, k: nat, n: nat)
    requires |vs| <= |ws| && k + n <= |vs| && forall i :: k <= i < k + n ==> ws[i] == vs[i]
    ensures Room(ws, k, n) == Room(vs, k, n)
    decreases n
  {
    if n > 0 {
      RoomSame(vs, ws, k + 1, n - 1);
    }
  }

  /** A chunk that evbuffer_expand_fast_ counts: one without data, or with room behind its data. */
  predicate Offers(v: Val) {
    v.off == 0 || v.Space() != 0
  }

  /** The room it then finds; a chunk without data offers all of its memory. */
  function Offer(v: Val): int {
    if v.off == 0 then |v.mem| else v.Space()
  }

  /** The room of the first `n` chunks that count, from `k` on. */
  ghost function Offered(vs: seq<Val>, k: nat, n: nat): int
    decreases |vs| - k
  {
    if n == 0 || k >= |vs| then 0
    else if Offers(vs[k]) then Offer(vs[k]) + Offered(vs, k + 1, n - 1)
    else Offered(vs, k + 1, n)
  }

  /** How many chunks count. */
  ghost function Offering(vs: seq<Val>, k: nat): nat
    decreases |vs| - k
  {
    if k >= |vs| then 0 else (if Offers(vs[k]) then 1 else 0) + Offering(vs, k + 1)
  }

  /** How large a new chunk evbuffer_expand_fast_ asks for, if it needs one. */
  ghost function Wanted(vs: seq<Val>, d: nat, datlen: nat, n: nat): int {
    if |vs| == 0 then datlen
    else if d >= |vs| || Offered(vs, d, n) >= datlen then 0
    else if Offering(vs, d) < n then datlen - Offered(vs, d, n)
    else datlen - if vs[d].off == 0 then 0 else vs[d].Space()
  }

  /** The chunks when those from `d` to `j` without data have been made to start at the beginning. */
  ghost function Rested(vs: seq<Val>, d: nat, j: nat): (r: seq<Val>)
    ensures |r| == |vs|
    ensures forall i :: j <= i < |vs| ==> r[i] == vs[i]
  {
    seq(|vs|, i requires 0 <= i < |vs| => if d <= i < j && vs[i].off == 0 then Val(0, 0, vs[i].mem) else vs[i])
  }

  lemma RestedAt(vs: seq<Val>, d: nat, j: nat, i: nat)
    requires i < |vs|
    ensures Rested(vs, d, j)[i].off == vs[i].off
    ensures vs[i].off != 0 ==> Rested(vs, d, j)[i] == vs[i]
    ensures vs[i].off == 0 && d <= i < j ==> Rested(vs, d, j)[i].Space() == |vs[i].mem|
  {
  }

  lemma RestedNext(vs: seq<Val>, d: nat, j: nat)
    requires d <= j < |vs|
    ensures Rested(vs, d, j + 1) ==
      if vs[j].off == 0 then Rested(vs, d, j)[j := Val(0, 0, vs[j].mem)] else Rested(vs, d, j)
  {
  }

  lemma {:induction false} OfferedSome(vs: seq<Val>, k: nat, n: nat)
    requires forall i :: 0 <= i < |vs| ==> vs[i].Ok()
    ensures 0 <= Offered(vs, k, n)
    decreases |vs| - k
  {
    if k < |vs| {
      OfferedSome(vs, k + 1, n);
      if n > 0 {
        OfferedSome(vs, k + 1, n - 1);
      }
    }
  }

  /** The tally of evbuffer_expand_fast_ once the chunks from `d` to `j` have been counted. */
  ghost predicate Counted(vs: seq<Val>, d: nat, j: nat, avail: nat, used: nat) {
    var f := FirstRoom(vs, d);
    && d <= j <= |vs|
    && if j == d then avail == 0 && used == 0 else
       f <= j && avail == Room(vs, f, j - f) && j - f <= used && (vs[d].off != 0 ==> vs[d].Space() <= avail)
  }

  lemma CountData(vs: seq<Val>, d: nat)
    requires d < |vs| && vs[d].Ok()
    ensures Counted(vs, d, d + 1, vs[d].Space(), if vs[d].Space() > 0 then 1 else 0)
  {
    assert Room(vs, d + 1, 0) == 0;
  }

  lemma CountedData(vs: seq<Val>, d: nat, j: nat, avail: nat, used: nat)
    requires Counted(vs, d, j, avail, used) && d < j <= |vs|
    ensures vs[d].off != 0 ==> vs[d].Space() <= avail
  {
  }

  lemma CountEmpty(vs: seq<Val>, d: nat, j: nat, avail: nat, used: nat)
    requires Counted(vs, d, j, avail, used) && j < |vs| && vs[j].Ok() && vs[j].off == 0
    ensures Counted(vs[j := vs[j].Emptied()], d, j + 1, avail + |vs[j].mem|, used + 1)
  {
    hide Val.Ok; hide Room;
    var ws := vs[j := vs[j].Emptied()];
    var f := FirstRoom(vs, d);
    if j > d {
      RoomSame(vs, ws, f, j - f);
      RoomSnoc(ws, f, j - f);
    } else {
      CountData(ws, d);
    }
  }

  /** There is room enough once a chunk for what is missing stands behind all the others. */
  lemma ExtendedRoom(vs: seq<Val>, d: nat, avail: nat, used: nat, n: nat, datlen: nat, t: Val)
    requires Counted(vs, d, |vs|, avail, used) && d < |vs| && used < n && avail < datlen
    requires (forall i :: 0 <= i < |vs| ==> vs[i].Ok()) && t.Ok() && t.Space() >= datlen - avail
    ensures Room(vs + [t], FirstRoom(vs + [t], d), n) >= datlen
  {
    hide Val.Ok; hide Room;
    var f, ws := FirstRoom(vs, d), vs + [t];
    RoomSame(vs, ws, f, |vs| - f);
    RoomSnoc(ws, f, |vs| - f);
    RoomMore(ws, f, |vs| - f + 1, n);
  }

  /** ... or behind the one with data. */
  lemma ReplacedRoom(vs: seq<Val>, d: nat, n: nat, datlen: nat, t: Val)
    requires d + 1 == |vs| && vs[d].Ok() && vs[d].Space() < datlen && n >= 2 && t.Space() >= datlen - vs[d].Space()
    requires t.Ok()
    ensures Room(vs + [t], FirstRoom(vs + [t], d), n) >= datlen
  {
    var ws := vs + [t];
    assert ws[d] == vs[d] && ws[d + 1] == t;
    assert Room(ws, d, n) == ws[d].Space() + Room(ws, d + 1, n - 1);
    assert Room(ws, d + 2, n - 2) == 0;
  }

  lemma EmptyBackContent(vs: seq<Val>, d: nat, t: Val)
    requires DataIndex(vs, d) && t.Ok() && t.off == 0
    ensures Content(vs + [t]) == Content(vs) && DataIndex(vs + [t], d)
  {
    ContentSnoc(vs, t);
    assert t.Bytes() == [];
  }

  /**
   What evbuffer_expand_fast_ counts is the room that the first chunks with room have once those without
   data start at the beginning of their memory.
   */
  lemma OfferedIsRoom(vs: seq<Val>, d: nat, n: nat)
    requires DataIndex(vs, d)
    ensures Offered(vs, d, n) == Room(Rested(vs, d, |vs|), FirstRoom(Rested(vs, d, |vs|), d), n)
      || (d < |vs| && vs[d].off == 0 && |vs[d].mem| == 0)
  {
    if d < |vs| && !(vs[d].off == 0 && |vs[d].mem| == 0) {
      var ws := Rested(vs, d, |vs|);
      RestedAt(vs, d, |vs|, d);
      EmptyRoom(vs, d, d + 1, n);
      if n > 0 {
        EmptyRoom(vs, d, d + 1, n - 1);
      }
      assert Offers(vs[d]) <==> ws[d].Space() != 0;
    }
  }

  lemma {:induction false} EmptyRoom(vs: seq<Val>, d: nat, k: nat, n: nat)
    requires DataIndex(vs, d) && d < k
    ensures Offered(vs, k, n) == Room(Rested(vs, d, |vs|), k, n)
    decreases n
  {
    if n > 0 && k < |vs| {
      RestedAt(vs, d, |vs|, k);
      EmptyRoom(vs, d, k + 1, n - 1);
    }
  }

  // ---- positions ----

  /** The byte at offset `o` of chunk `k`. */
  lemma ByteAt(vs: seq<Val>, k: nat, o: nat)
    requires k < |vs| && vs[k].Ok() && o < vs[k].off
    ensures |Content(vs[..k])| + o < |Content(vs)|
    ensures Content(vs)[|Content(vs[..k])| + o] == vs[k].mem[vs[k].misalign + o]
  {
    hide Content;
    ContentSplit(vs, k);
    assert vs[k].Bytes()[o] == vs[k].mem[vs[k].misalign + o];
    At3(Content(vs[..k]), vs[k].Bytes(), Content(vs[k + 1..]), o);
  }

  lemma At3<T>(a: seq<T>, b: seq<T>, c: seq<T>, o: nat)
    requires o < |b|
    ensures (a + b + c)[|a| + o] == b[o]
  {
  }

  /** The chunk and the offset in it of byte `i`; the place behind the last chunk for the end of the data. */
  ghost function Locate(vs: seq<Val>, i: nat): (nat, nat) {
    if |vs| == 0 then (0, 0)
    else if i < |vs[0].Bytes()| then (0, i)
    else var (k, o) := Locate(vs[1..], i - |vs[0].Bytes()|); (k + 1, o)
  }

  lemma {:induction false} LocateAt(vs: seq<Val>, k: nat, o: nat)
    requires k < |vs| && o < |vs[k].Bytes()|
    ensures Locate(vs, |Content(vs[..k])| + o) == (k, o)
  {
    hide Val.Bytes;
    if k > 0 {
      FrontContent(vs, k);
      var tail := vs[1..];
      assert tail[..k - 1] == vs[1..k];
      LocateAt(tail, k - 1, o);
    } else {
      assert vs[..0] == [];
    }
  }

  lemma {:induction false} LocateEnd(vs: seq<Val>)
    ensures Locate(vs, |Content(vs)|) == (|vs|, 0)
  {
    if |vs| > 0 {
      LocateEnd(vs[1..]);
    }
  }

  lemma WholeContent(vs: seq<Val>)
    ensures vs[..|vs|] == vs
  {
  }

  /** A run of bytes inside chunk `k`. */
  lemma RunAt(vs: seq<Val>, k: nat, o: nat, n: nat)
    requires k < |vs| && vs[k].Ok() && o + n <= vs[k].off
    ensures |Content(vs[..k])| + o + n <= |Content(vs)|
    ensures Content(vs)[|Content(vs[..k])| + o..][..n] == vs[k].mem[vs[k].misalign + o..vs[k].misalign + o + n]
  {
    hide Content;
    ContentSplit(vs, k);
    assert vs[k].Bytes()[o..o + n] == vs[k].mem[vs[k].misalign + o..vs[k].misalign + o + n];
    Run3(Content(vs[..k]), vs[k].Bytes(), Content(vs[k + 1..]), o, n);
  }

  lemma Run3<T>(a: seq<T>, b: seq<T>, c: seq<T>, o: nat, n: nat)
    requires o + n <= |b|
    ensures (a + b + c)[|a| + o..][..n] == b[o..o + n]
  {
  }
}
