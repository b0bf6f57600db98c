/**
 The memory pool on values: a list of blocks with bump pointers and failure counters, and a list of
 large allocations whose nodes lie in the pool itself.
 */
module PoolSpec {

  import opened Options

  /** sizeof(ngx_pool_t), sizeof(ngx_pool_data_t), sizeof(ngx_pool_large_t) and NGX_ALIGNMENT on LP64 */
  const POOL: nat := 56
  const DATA: nat := 32
  const NODE: nat := 16
  const ALIGNMENT: nat := 8

  /** What malloc aligns to, and an address no allocation reaches. */
  const MALLOC: nat := 16
  const TOP: nat := 0x7FFF_FFFF_FFFF_FFFF
  const U64: nat := 0x1_0000_0000_0000_0000

  /** ngx_pool_data_t with the address of its block */
  datatype Block = Block(base: nat, last: nat, end: nat, failed: nat)

  /** ngx_pool_large_t with its own address; alloc is None for NULL */
  datatype Node = Node(at: nat, alloc: Option<nat>)

  /** The blocks in list order, the pool's own block first; current is an index into them. */
  datatype Pool = Pool(blocks: seq<Block>, current: nat, max: nat, large: seq<Node>) {
    /** There is a block to start from. */
    predicate Ready() {
      blocks != [] && current < |blocks|
    }
  }

  /** ngx_align_ptr with NGX_ALIGNMENT */
  function AlignUp(x: nat): nat {
    (x + (ALIGNMENT - 1)) / ALIGNMENT * ALIGNMENT
  }

  /** The macro's bit trick rounds up to a multiple of the alignment. */
  lemma AlignBits(x: bv64)
    requires x <= 0xFFFF_FFFF_FFFF_FFF8
    ensures (x + 7) & !7 == (x + 7) / 8 * 8
  {
  }

  /** Rounding up gives the least multiple that is not below. */
  lemma AlignNext(x: nat)
    ensures x <= AlignUp(x) < x + ALIGNMENT && AlignUp(x) % ALIGNMENT == 0
    ensures forall y: nat :: x <= y && y % ALIGNMENT == 0 ==> AlignUp(x) <= y
  {
  }

  // -------------------------------------------------------------------------------------------
  // Operations
  // -------------------------------------------------------------------------------------------

  /** Where the next region of a block would start. */
  function Start(b: Block, align: bool): nat {
    if align then AlignUp(b.last) else b.last
  }

  /** The test of ngx_palloc_small; the difference is cast to size_t and wraps when negative. */
  predicate Fits(b: Block, size: nat, align: bool) {
    (b.end - Start(b, align)) % U64 >= size
  }

  /** The first block from an index on that takes the size, or the number of blocks. */
  function FirstFit(bs: seq<Block>, from: nat, size: nat, align: bool): (r: nat)
    requires from <= |bs|
    ensures from <= r <= |bs| && (r < |bs| ==> Fits(bs[r], size, align))
    ensures forall j :: from <= j < r ==> !Fits(bs[j], size, align)
    decreases |bs| - from
  {
    if from == |bs| || Fits(bs[from], size, align) then from else FirstFit(bs, from + 1, size, align)
  }

  /** The blocks from current to the one before the last are charged a failure. */
  function Charged(bs: seq<Block>, current: nat): (r: seq<Block>)
    ensures |r| == |bs|
  {
    seq(|bs|, i requires 0 <= i < |bs| =>
      if current <= i < |bs| - 1 then bs[i].(failed := bs[i].failed + 1) else bs[i])
  }

  /** The walk leaves behind every block that had failed more than four times before. */
  function NextCurrent(bs: seq<Block>, current: nat, upto: nat): (r: nat)
    requires upto < |bs|
    ensures current <= r <= upto || r == current
    decreases upto
  {
    if upto <= current then current
    else if bs[upto - 1].failed > 4 then upto
    else NextCurrent(bs, current, upto - 1)
  }

  /** ngx_palloc_block, given where malloc put the new block. */
  function Grown(p: Pool, size: nat, psize: nat, base: nat): Pool
    requires p.blocks != []
  {
    var added := Block(base, AlignUp(base + DATA) + size, base + psize, 0);
    p.(blocks := Charged(p.blocks, p.current) + [added], current := NextCurrent(p.blocks, p.current, |p.blocks| - 1))
  }

  /** ngx_palloc_small: the pool after, and the region's address. */
  function Small(p: Pool, size: nat, align: bool, psize: nat, base: Option<nat>): (r: (Pool, Option<nat>))
    requires p.Ready()
    ensures r.0.Ready()
  {
    var i := FirstFit(p.blocks, p.current, size, align);
    if i < |p.blocks| then
      var b := p.blocks[i];
      var m := Start(b, align);
      (p.(blocks := p.blocks[i := b.(last := m + size)]), Some(m))
    else if base.None? then (p, None)
    else (Grown(p, size, psize, base.value), Some(AlignUp(base.value + DATA)))
  }

  /** The first of the first five nodes that is empty, or -1. */
  function Slot(large: seq<Node>, n: nat): (r: int)
    ensures -1 <= r < |large| && (0 <= r ==> n <= r <= 4 && large[r].alloc.None?)
    ensures forall j :: n <= j < |large| && j <= 4 && (r < 0 || j < r) ==> large[j].alloc.Some?
    decreases |large| - n
  {
    if n >= |large| || n > 4 then -1
    else if large[n].alloc.None? then n
    else Slot(large, n + 1)
  }

  /** A node from the pool, pushed at the head. */
  function Pushed(p: Pool, at: nat, psize: nat, base: Option<nat>): (r: (Pool, bool))
    requires p.Ready()
    ensures r.0.Ready()
  {
    var (q, node) := Small(p, NODE, true, psize, base);
    if node.None? then (q, false)
    else (q.(large := [Node(node.value, Some(at))] + q.large), true)
  }

  /** ngx_palloc_large, given where malloc put the region. */
  function Large(p: Pool, at: nat, psize: nat, base: Option<nat>): (r: (Pool, bool))
    requires p.Ready()
    ensures r.0.Ready()
  {
    var i := Slot(p.large, 0);
    if 0 <= i then (p.(large := p.large[i := p.large[i].(alloc := Some(at))]), true)
    else Pushed(p, at, psize, base)
  }

  /** The first node that holds a pointer, or the number of nodes. */
  function Holder(large: seq<Node>, at: Option<nat>): (r: nat)
    ensures r <= |large| && (r < |large| ==> large[r].alloc == at)
    ensures forall j :: 0 <= j < r ==> large[j].alloc != at
  {
    if large == [] || large[0].alloc == at then 0 else 1 + Holder(large[1..], at)
  }

  /** ngx_pfree */
  function Freed(p: Pool, at: Option<nat>): (Pool, bool) {
    var i := Holder(p.large, at);
    if i < |p.large| then (p.(large := p.large[i := p.large[i].(alloc := None)]), true) else (p, false)
  }

  /** ngx_reset_pool */
  function Cleared(p: Pool): Pool {
    Pool(seq(|p.blocks|, i requires 0 <= i < |p.blocks| => p.blocks[i].(last := p.blocks[i].base + POOL, failed := 0)),
         0, p.max, [])
  }

  /** ngx_create_pool, given where malloc put the block; pageSize is the global ngx_pagesize. */
  function Created(size: nat, pageSize: nat, base: nat): Pool
    requires POOL <= size
  {
    var most := (pageSize - 1) % U64;
    Pool([Block(base, base + POOL, base + size, 0)], 0,
         if size - POOL < most then size - POOL else most, [])
  }

  // -------------------------------------------------------------------------------------------
  // Runs
  // -------------------------------------------------------------------------------------------

  /** A region handed out of the pool: a user's or a node's, and the block it lies in. */
  datatype Piece = Piece(at: nat, size: nat, home: nat, aligned: bool)

  /** The pool, what it handed out since the last reset, and the large mallocs that are outstanding. */
  datatype World = World(pool: Pool, psize: nat, out: seq<Piece>, large: map<nat, nat>)

  predicate Disjoint(at: nat, size: nat, other: nat, otherSize: nat) {
    at + size <= other || other + otherSize <= at
  }

  /** Even an empty malloc has an address of its own. */
  function Extent(size: nat): nat {
    if size == 0 then 1 else size
  }

  /** What malloc guarantees of a new region. */
  predicate Fresh(w: World, at: nat, size: nat) {
    && 0 < at && at % MALLOC == 0 && at + Extent(size) <= TOP
    && (forall i :: 0 <= i < |w.pool.blocks| ==> Disjoint(at, Extent(size), w.pool.blocks[i].base, w.psize))
    && (forall x :: x in w.large ==> Disjoint(at, Extent(size), x, Extent(w.large[x])))
  }

  /** Every operation, with what malloc answers where it asks: at for a large region, base for a block. */
  datatype Op =
    | Alloc(size: nat, align: bool, at: Option<nat>, base: Option<nat>)    // ngx_palloc and ngx_pnalloc
    | Memalign(size: nat, at: Option<nat>, base: Option<nat>)              // ngx_pmemalign
    | Free(ptr: Option<nat>)                                               // ngx_pfree
    | Reset

  /** What malloc answers is fresh. */
  predicate Possible(w: World, op: Op) {
    match op
    case Alloc(size, _, at, base) =>
      if size <= w.pool.max then base.Some? ==> Fresh(w, base.value, w.psize)
      else MallocsFresh(w, size, at, base)
    case Memalign(size, at, base) => MallocsFresh(w, size, at, base)
    case Free(ptr) => true
    case Reset => true
  }

  /** Both answers are, where there are two. */
  predicate MallocsFresh(w: World, size: nat, at: Option<nat>, base: Option<nat>) {
    at.Some? ==>
      && Fresh(w, at.value, size)
      && (base.Some? ==> Fresh(w.(large := w.large[at.value := size]), base.value, w.psize))
  }

  /** The piece a small allocation hands out. */
  function PieceOf(p: Pool, size: nat, align: bool, at: nat): Piece
    requires p.Ready()
  {
    Piece(at, size, FirstFit(p.blocks, p.current, size, align), align)
  }

  /** A small allocation, with the piece it hands out. */
  function AllocSmall(w: World, size: nat, align: bool, base: Option<nat>): (r: World)
    requires w.pool.Ready()
    ensures r.pool.Ready()
  {
    var (q, m) := Small(w.pool, size, align, w.psize, base);
    if m.None? then w.(pool := q)
    else w.(pool := q, out := w.out + [PieceOf(w.pool, size, align, m.value)])
  }

  /** A large region whose node is pushed; without a node it is given back. */
  function PushLarge(w: World, size: nat, at: nat, base: Option<nat>): (r: World)
    requires w.pool.Ready()
    ensures r.pool.Ready()
  {
    var v := AllocSmall(w, NODE, true, base);
    var (q, ok) := Pushed(w.pool, at, w.psize, base);
    if ok then v.(pool := q, large := w.large[at := size]) else v
  }

  /** A large region in an empty slot, or with a node of its own. */
  function AllocLarge(w: World, size: nat, at: nat, base: Option<nat>): (r: World)
    requires w.pool.Ready()
    ensures r.pool.Ready()
  {
    if 0 <= Slot(w.pool.large, 0) then
      w.(pool := Large(w.pool, at, w.psize, base).0, large := w.large[at := size])
    else PushLarge(w, size, at, base)
  }

  /** One operation. */
  function Step(w: World, op: Op): (r: World)
    requires w.pool.Ready()
    ensures r.pool.Ready()
  {
    match op
    case Alloc(size, align, at, base) =>
      if size <= w.pool.max then AllocSmall(w, size, align, base)
      else if at.None? then w
      else AllocLarge(w, size, at.value, base)
    case Memalign(size, at, base) =>
      if at.None? then w else PushLarge(w, size, at.value, base)
    case Free(ptr) =>
      w.(pool := Freed(w.pool, ptr).0,
         large := if ptr.Some? && Freed(w.pool, ptr).1 then w.large - {ptr.value} else w.large)
    case Reset => World(Cleared(w.pool), w.psize, [], map[])
  }

  // -------------------------------------------------------------------------------------------
  // What every run keeps
  // -------------------------------------------------------------------------------------------

  /** What a block keeps for itself. */
  function Header(i: nat): nat {
    if i == 0 then POOL else DATA
  }

  /** A block is an aligned malloc; what it handed out lies after its header and before its end. */
  predicate BlockOk(b: Block, i: nat, psize: nat) {
    && 0 < b.base && b.base % MALLOC == 0 && b.end == b.base + psize <= TOP
    && b.base + Header(i) <= b.last <= b.end
  }

  /** No rounding can go past an end: ends are aligned, or nothing odd is ever handed out. */
  predicate Even(w: World) {
    w.psize % ALIGNMENT == 0
    || (w.pool.max == 0 && forall i :: 0 <= i < |w.pool.blocks| ==> w.pool.blocks[i].last % ALIGNMENT == 0)
  }

  /** The blocks are in order, and apart. */
  predicate BlocksOk(w: World) {
    && POOL <= w.psize && w.pool.max <= w.psize - POOL
    && w.pool.Ready()
    && (forall i :: 0 <= i < |w.pool.blocks| ==> BlockOk(w.pool.blocks[i], i, w.psize))
    && (forall i, j :: 0 <= i < j < |w.pool.blocks| ==>
          Disjoint(w.pool.blocks[i].base, w.psize, w.pool.blocks[j].base, w.psize))
    && Even(w)
  }

  /** A piece lies inside its block, after the header, below the bump pointer. */
  predicate Inside(p: Piece, bs: seq<Block>) {
    && p.home < |bs|
    && bs[p.home].base + Header(p.home) <= p.at && p.at + p.size <= bs[p.home].last
    && (p.aligned ==> p.at % ALIGNMENT == 0)
  }

  /** All that was handed out is inside blocks, aligned where asked, and pairwise disjoint. */
  predicate PiecesOk(out: seq<Piece>, bs: seq<Block>) {
    && (forall k :: 0 <= k < |out| ==> Inside(out[k], bs))
    && (forall j, k :: 0 <= j < k < |out| ==> Disjoint(out[j].at, out[j].size, out[k].at, out[k].size))
  }

  /** A node lies in a piece of its own size. */
  predicate Homed(out: seq<Piece>, at: nat) {
    exists k :: 0 <= k < |out| && out[k].at == at && out[k].size == NODE
  }

  /** The list holds a pointer. */
  predicate Listed(l: seq<Node>, x: nat) {
    exists j :: 0 <= j < |l| && l[j].alloc == Some(x)
  }

  /** The large list is what is outstanding, each once, in nodes of its own. */
  predicate LargeOk(w: World) {
    var l := w.pool.large;
    && (forall j :: 0 <= j < |l| && l[j].alloc.Some? ==> l[j].alloc.value in w.large)
    && (forall x :: x in w.large ==> Listed(l, x))
    && (forall j, k :: 0 <= j < k < |l| && l[j].alloc.Some? ==> l[j].alloc != l[k].alloc)
    && (forall j :: 0 <= j < |l| ==> Homed(w.out, l[j].at))
    && (forall j, k :: 0 <= j < k < |l| ==> l[j].at != l[k].at)
  }

  /** The outstanding mallocs are apart from each other and from the blocks. */
  predicate MallocsOk(w: World) {
    && (forall x :: x in w.large ==> 0 < x && x % MALLOC == 0 && x + Extent(w.large[x]) <= TOP)
    && (forall x, i :: x in w.large && 0 <= i < |w.pool.blocks| ==>
          Disjoint(x, Extent(w.large[x]), w.pool.blocks[i].base, w.psize))
    && (forall x, y :: x in w.large && y in w.large && x != y ==>
          Disjoint(x, Extent(w.large[x]), y, Extent(w.large[y])))
  }

  /** What every reachable world satisfies. */
  predicate Inv(w: World) {
    BlocksOk(w) && PiecesOk(w.out, w.pool.blocks) && LargeOk(w) && MallocsOk(w)
  }

  /** The bump pointer can be rounded up without passing the end. */
  predicate Roundable(b: Block) {
    b.end % ALIGNMENT == 0 || b.last % ALIGNMENT == 0
  }

  /** The wrapping test then means what it should. */
  lemma FitsMeans(b: Block, i: nat, psize: nat, size: nat, align: bool)
    requires BlockOk(b, i, psize) && Roundable(b)
    ensures b.last <= Start(b, align) <= b.end
    ensures Fits(b, size, align) <==> Start(b, align) + size <= b.end
  {
    AlignNext(b.last);
  }

  lemma EvenRounds(w: World, i: nat)
    requires BlocksOk(w) && i < |w.pool.blocks|
    ensures Roundable(w.pool.blocks[i])
  {
    var b := w.pool.blocks[i];
    assert BlockOk(b, i, w.psize);
    if w.psize % ALIGNMENT == 0 {
      EndAligned(b.base, w.psize);
    }
  }

  lemma EndAligned(base: nat, size: nat)
    requires base % MALLOC == 0
    ensures (base + size) % ALIGNMENT == size % ALIGNMENT
  {
    var q, r := base / 16, size / 8;
    assert base == 16 * q && size == 8 * r + size % 8;
    Remainder(2 * q + r, size % 8);
  }

  lemma Remainder(k: nat, r: nat)
    requires r < 8
    ensures (8 * k + r) % 8 == r
  {
  }

  /** What a small request may be: within max, or a node. */
  predicate SmallSize(p: Pool, size: nat) {
    size <= p.max || size == NODE
  }

  /** Bumping a block keeps the blocks in order. */
  lemma BumpKeeps(w: World, i: nat, size: nat, align: bool)
    requires BlocksOk(w) && i < |w.pool.blocks| && SmallSize(w.pool, size) && Fits(w.pool.blocks[i], size, align)
    ensures var b := w.pool.blocks[i];
      && b.last <= Start(b, align) && Start(b, align) + size <= b.end
      && (align ==> Start(b, align) % ALIGNMENT == 0)
      && BlocksOk(w.(pool := w.pool.(blocks := w.pool.blocks[i := b.(last := Start(b, align) + size)])))
  {
    hide AlignUp, Fits, Start;
    var b := w.pool.blocks[i];
    EvenRounds(w, i);
    FitsMeans(b, i, w.psize, size, align);
    StartEven(b, size, align);
  }

  lemma StartEven(b: Block, size: nat, align: bool)
    ensures align ==> Start(b, align) % ALIGNMENT == 0
    ensures b.last % ALIGNMENT == 0 && (size == 0 || size == NODE) ==> (Start(b, align) + size) % ALIGNMENT == 0
  {
    AlignNext(b.last);
    if b.last % ALIGNMENT == 0 {
      assert AlignUp(b.last) == b.last;
      assert (b.last + NODE) % ALIGNMENT == 0;
    }
  }

  /** What lies below a bump pointer stays, and what is put above it is apart from everything. */
  lemma BumpPieces(w: World, i: nat, size: nat, align: bool)
    requires BlocksOk(w) && PiecesOk(w.out, w.pool.blocks)
    requires i < |w.pool.blocks| && SmallSize(w.pool, size) && Fits(w.pool.blocks[i], size, align)
    ensures var b := w.pool.blocks[i];
      PiecesOk(w.out + [Piece(Start(b, align), size, i, align)],
               w.pool.blocks[i := b.(last := Start(b, align) + size)])
  {
    BumpKeeps(w, i, size, align);
    var b := w.pool.blocks[i];
    var p := Piece(Start(b, align), size, i, align);
    forall k | 0 <= k < |w.out|
      ensures Disjoint(w.out[k].at, w.out[k].size, p.at, p.size)
    {
      var o := w.out[k];
      assert Inside(o, w.pool.blocks);
      if o.home != i {
        var lo, hi := if o.home < i then o.home else i, if o.home < i then i else o.home;
        assert Disjoint(w.pool.blocks[lo].base, w.psize, w.pool.blocks[hi].base, w.psize);
      }
    }
  }

  lemma ChargedBases(bs: seq<Block>, current: nat)
    ensures forall i :: 0 <= i < |bs| ==> Charged(bs, current)[i] == bs[i].(failed := Charged(bs, current)[i].failed)
  {
  }

  /** A new block is in order too: even the largest small request fits behind its short header. */
  lemma GrownKeeps(w: World, size: nat, base: nat)
    requires BlocksOk(w) && SmallSize(w.pool, size) && Fresh(w, base, w.psize)
    ensures BlocksOk(w.(pool := Grown(w.pool, size, w.psize, base)))
    ensures AlignUp(base + DATA) == base + DATA
  {
    hide Charged, NextCurrent, AlignUp;
    DataAligned(base, size);
    ChargedBases(w.pool.blocks, w.pool.current);
    var bs, p := w.pool.blocks, Grown(w.pool, size, w.psize, base);
    forall i | 0 <= i < |bs|
      ensures BlockOk(p.blocks[i], i, w.psize) && Disjoint(p.blocks[i].base, w.psize, base, w.psize)
    {
      assert BlockOk(bs[i], i, w.psize);
    }
    assert p.blocks[|bs|].last == base + DATA + size;
  }

  lemma DataAligned(base: nat, size: nat)
    requires base % MALLOC == 0
    ensures AlignUp(base + DATA) == base + DATA && (base + DATA) % ALIGNMENT == 0
    ensures size == 0 || size == NODE ==> (base + DATA + size) % ALIGNMENT == 0
  {
    EndAligned(base, DATA);
    EndAligned(base, DATA + NODE);
    AlignIdle(base + DATA);
  }

  lemma AlignIdle(p: nat)
    requires p % ALIGNMENT == 0
    ensures AlignUp(p) == p
  {
  }

  /** The first region of a new block is apart from all the others. */
  lemma GrownPieces(w: World, size: nat, align: bool, base: nat)
    requires BlocksOk(w) && PiecesOk(w.out, w.pool.blocks)
    requires SmallSize(w.pool, size) && Fresh(w, base, w.psize)
    ensures PiecesOk(w.out + [Piece(base + DATA, size, |w.pool.blocks|, align)],
                     Grown(w.pool, size, w.psize, base).blocks)
  {
    hide Charged, NextCurrent, AlignUp;
    GrownKeeps(w, size, base);
    DataAligned(base, size);
    ChargedBases(w.pool.blocks, w.pool.current);
    var bs, cs := w.pool.blocks, Grown(w.pool, size, w.psize, base).blocks;
    var p := Piece(base + DATA, size, |bs|, align);
    forall k | 0 <= k < |w.out|
      ensures Inside(w.out[k], cs) && Disjoint(w.out[k].at, w.out[k].size, p.at, p.size)
    {
      var o := w.out[k];
      assert Inside(o, bs) && BlockOk(bs[o.home], o.home, w.psize);
      assert Disjoint(cs[o.home].base, w.psize, base, w.psize);
    }
  }

  /** The regions of the blocks after an operation: those before, and perhaps a fresh one. */
  predicate Extends(after: seq<Block>, before: seq<Block>, base: Option<nat>) {
    && |before| <= |after| <= |before| + 1
    && (forall i :: 0 <= i < |before| ==> after[i].base == before[i].base)
    && (|after| > |before| ==> base == Some(after[|before|].base))
  }

  predicate Handed(after: seq<Piece>, before: seq<Piece>, at: nat, size: nat, align: bool) {
    && |after| == |before| + 1 && after[..|before|] == before
    && after[|before|].at == at && after[|before|].size == size && after[|before|].aligned == align
  }

  lemma HasBlocks(w: World)
    requires BlocksOk(w)
    ensures w.pool.Ready()
  {
  }

  lemma BlocksAnyOut(w: World, p: Pool, out: seq<Piece>)
    ensures BlocksOk(w.(pool := p)) == BlocksOk(w.(pool := p, out := out))
  {
  }

  /** A small allocation hands out one piece more, or nothing, and what it handed out before stays. */
  lemma SmallKeeps(w: World, size: nat, align: bool, base: Option<nat>)
    requires BlocksOk(w) && PiecesOk(w.out, w.pool.blocks)
    requires SmallSize(w.pool, size) && (base.Some? ==> Fresh(w, base.value, w.psize))
    ensures var v, m := AllocSmall(w, size, align, base), Small(w.pool, size, align, w.psize, base).1;
      && BlocksOk(v) && PiecesOk(v.out, v.pool.blocks)
      && v.psize == w.psize && v.large == w.large && v.pool.large == w.pool.large && v.pool.max == w.pool.max
      && Extends(v.pool.blocks, w.pool.blocks, base)
      && (m.None? ==> v == w)
      && (m.Some? ==> Handed(v.out, w.out, m.value, size, align))
  {
    hide BlocksOk, PiecesOk, Start, FirstFit, AlignUp, Fits, Fresh, Charged, NextCurrent;
    HasBlocks(w);
    var i := FirstFit(w.pool.blocks, w.pool.current, size, align);
    if i < |w.pool.blocks| {
      BumpKeeps(w, i, size, align);
      BumpPieces(w, i, size, align);
    } else if base.Some? {
      GrownKeeps(w, size, base.value);
      GrownPieces(w, size, align, base.value);
      ChargedBases(w.pool.blocks, w.pool.current);
    }
    var v := AllocSmall(w, size, align, base);
    BlocksAnyOut(w, v.pool, v.out);
  }

  /** The mallocs stay apart when the blocks grow by a fresh one. */
  lemma MallocsExtend(w: World, v: World, base: Option<nat>)
    requires MallocsOk(w) && v.large == w.large && v.psize == w.psize && Extends(v.pool.blocks, w.pool.blocks, base)
    requires base.Some? ==> Fresh(w, base.value, w.psize)
    requires POOL <= w.psize
    ensures MallocsOk(v)
  {
  }

  lemma HomedMore(out: seq<Piece>, more: seq<Piece>, at: nat)
    requires |out| <= |more| && more[..|out|] == out && Homed(out, at)
    ensures Homed(more, at)
  {
    var k :| 0 <= k < |out| && out[k].at == at && out[k].size == NODE;
    assert more[k] == out[k];
  }

  /** A new piece of a node's size is apart from every node. */
  lemma NodeNew(w: World, v: World, at: nat)
    requires LargeOk(w) && PiecesOk(v.out, v.pool.blocks)
    requires Handed(v.out, w.out, at, NODE, true)
    ensures forall j :: 0 <= j < |w.pool.large| ==> w.pool.large[j].at != at
    ensures Homed(v.out, at)
  {
    forall j | 0 <= j < |w.pool.large|
      ensures w.pool.large[j].at != at
    {
      var k :| 0 <= k < |w.out| && w.out[k].at == w.pool.large[j].at && w.out[k].size == NODE;
      assert v.out[k] == w.out[k];
    }
  }

  /** Small allocations do not concern the large list. */
  lemma LargeKept(w: World, v: World)
    requires LargeOk(w) && v.pool.large == w.pool.large && v.large == w.large
    requires |w.out| <= |v.out| && v.out[..|w.out|] == w.out
    ensures LargeOk(v)
  {
    forall j | 0 <= j < |v.pool.large|
      ensures Homed(v.out, v.pool.large[j].at)
    {
      HomedMore(w.out, v.out, v.pool.large[j].at);
    }
  }

  lemma FreshSooner(w: World, size: nat, at: nat, base: nat)
    requires Fresh(w, at, size) && Fresh(w.(large := w.large[at := size]), base, w.psize)
    ensures Fresh(w, base, w.psize) && Disjoint(at, Extent(size), base, Extent(w.psize))
  {
    var more := w.large[at := size];
    assert at in more;
    FreshNew(w, at, size);
    forall x | x in w.large
      ensures Disjoint(base, Extent(w.psize), x, Extent(w.large[x]))
    {
      assert x in more && more[x] == w.large[x];
    }
  }

  /** A fresh address is none of those outstanding. */
  lemma FreshNew(w: World, at: nat, size: nat)
    requires Fresh(w, at, size)
    ensures at !in w.large
  {
    if at in w.large {
      assert false;
    }
  }

  lemma FreshStays(w: World, v: World, at: nat, size: nat, base: Option<nat>)
    requires MallocsFresh(w, size, Some(at), base) && POOL <= w.psize
    requires v.large == w.large && v.psize == w.psize && Extends(v.pool.blocks, w.pool.blocks, base)
    ensures Fresh(v, at, size)
  {
    if base.Some? {
      FreshSooner(w, size, at, base.value);
    }
  }

  /** One more malloc. */
  lemma MallocsMore(v: World, u: World, at: nat, size: nat)
    requires MallocsOk(v) && Fresh(v, at, size)
    requires u.pool.blocks == v.pool.blocks && u.psize == v.psize && u.large == v.large[at := size]
    ensures MallocsOk(u)
  {
    FreshNew(v, at, size);
  }

  lemma PushListed(l: seq<Node>, n: Node, x: nat)
    ensures n.alloc == Some(x) || Listed(l, x) ==> Listed([n] + l, x)
  {
    var k := [n] + l;
    if n.alloc == Some(x) {
      assert k[0] == n;
    } else if Listed(l, x) {
      var j :| 0 <= j < |l| && l[j].alloc == Some(x);
      assert k[j + 1] == l[j];
    }
  }

  /** A slot that held something else now holds what it is given. */
  lemma SlotListed(l: seq<Node>, i: nat, n: Node, x: nat)
    requires i < |l|
    ensures n.alloc == Some(x) ==> Listed(l[i := n], x)
    ensures l[i].alloc != Some(x) && Listed(l, x) ==> Listed(l[i := n], x)
  {
    if n.alloc == Some(x) {
      assert l[i := n][i] == n;
    } else if l[i].alloc != Some(x) && Listed(l, x) {
      var j :| 0 <= j < |l| && l[j].alloc == Some(x);
      assert l[i := n][j] == l[j];
    }
  }

  /** A new node with a new pointer at the head. */
  lemma PushedLarge(v: World, u: World, node: nat, at: nat, size: nat)
    requires LargeOk(v) && at !in v.large && Homed(v.out, node)
    requires forall j :: 0 <= j < |v.pool.large| ==> v.pool.large[j].at != node
    requires u.out == v.out && u.large == v.large[at := size]
    requires u.pool.large == [Node(node, Some(at))] + v.pool.large
    ensures LargeOk(u)
  {
    hide Homed, Listed;
    var l, k := v.pool.large, u.pool.large;
    assert k[0] == Node(node, Some(at)) && forall j :: 0 <= j < |l| ==> k[j + 1] == l[j];
    forall x | x in u.large
      ensures Listed(k, x)
    {
      PushListed(l, Node(node, Some(at)), x);
    }
  }

  lemma BlocksAnyLarge(v: World, u: World)
    requires u.psize == v.psize && u.pool.blocks == v.pool.blocks
    requires u.pool.current == v.pool.current && u.pool.max == v.pool.max
    ensures BlocksOk(u) <==> BlocksOk(v)
  {
  }

  /** A large region with a node of its own: the invariant holds after, also when the node fails. */
  lemma PushKeeps(w: World, size: nat, at: nat, base: Option<nat>)
    requires Inv(w) && MallocsFresh(w, size, Some(at), base)
    ensures Inv(PushLarge(w, size, at, base))
  {
    hide BlocksOk, PiecesOk, MallocsOk, LargeOk, Small, Fresh, Homed;
    HasBlocks(w);
    var v := AllocSmall(w, NODE, true, base);
    if base.Some? {
      FreshSooner(w, size, at, base.value);
    }
    SmallKeeps(w, NODE, true, base);
    Sized(w);
    MallocsExtend(w, v, base);
    LargeKept(w, v);
    var m := Small(w.pool, NODE, true, w.psize, base).1;
    if m.Some? {
      var u := PushLarge(w, size, at, base);
      NodeNew(w, v, m.value);
      FreshStays(w, v, at, size, base);
      FreshNew(v, at, size);
      PushedLarge(v, u, m.value, at, size);
      MallocsMore(v, u, at, size);
      BlocksAnyLarge(v, u);
    }
  }

  lemma Sized(w: World)
    requires BlocksOk(w)
    ensures POOL <= w.psize
  {
  }

  /** An empty slot takes the new pointer. */
  lemma SlotKeeps(w: World, size: nat, at: nat, base: Option<nat>)
    requires Inv(w) && Fresh(w, at, size) && 0 <= Slot(w.pool.large, 0)
    ensures Inv(AllocLarge(w, size, at, base))
  {
    hide BlocksOk, PiecesOk, MallocsOk, Fresh, Homed, Listed;
    HasBlocks(w);
    var u := AllocLarge(w, size, at, base);
    var i, l, k := Slot(w.pool.large, 0), w.pool.large, u.pool.large;
    FreshNew(w, at, size);
    MallocsMore(w, u, at, size);
    BlocksAnyLarge(w, u);
    forall x | x in u.large
      ensures Listed(k, x)
    {
      SlotListed(l, i, k[i], x);
    }
  }

  lemma HolderFinds(l: seq<Node>, x: nat)
    requires Listed(l, x)
    ensures Holder(l, Some(x)) < |l|
  {
  }

  /** Giving back what the list holds, and only that. */
  lemma FreeKeeps(w: World, ptr: Option<nat>)
    requires Inv(w)
    ensures Inv(Step(w, Free(ptr)))
    ensures ptr.Some? ==> (Freed(w.pool, ptr).1 <==> ptr.value in w.large)
  {
    hide BlocksOk, PiecesOk, MallocsOk, Homed, Listed;
    HasBlocks(w);
    var v := Step(w, Free(ptr));
    var i, l, k := Holder(w.pool.large, ptr), w.pool.large, v.pool.large;
    BlocksAnyLarge(w, v);
    MallocsFewer(w, v);
    if ptr.Some? && ptr.value in w.large {
      HolderFinds(l, ptr.value);
    }
    forall x | x in v.large
      ensures Listed(k, x)
    {
      if i < |l| {
        SlotListed(l, i, k[i], x);
      }
    }
  }

  lemma MallocsFewer(w: World, v: World)
    requires MallocsOk(w) && v.pool.blocks == w.pool.blocks && v.psize == w.psize
    requires forall x :: x in v.large ==> x in w.large && v.large[x] == w.large[x]
    ensures MallocsOk(v)
  {
  }

  /** A reset leaves a pool in order. */
  lemma ResetKeeps(w: World)
    requires Inv(w)
    ensures Inv(Step(w, Reset))
  {
    hide BlocksOk, PiecesOk, LargeOk, MallocsOk;
    HasBlocks(w);
    ResetBlocks(w);
    NothingOut(Step(w, Reset));
  }

  lemma ResetBlocks(w: World)
    requires BlocksOk(w)
    ensures BlocksOk(Step(w, Reset))
  {
    hide Even;
    var v := Step(w, Reset);
    forall i | 0 <= i < |v.pool.blocks|
      ensures BlockOk(v.pool.blocks[i], i, v.psize) && v.pool.blocks[i].last % ALIGNMENT == 0
    {
      assert BlockOk(w.pool.blocks[i], i, w.psize);
      PoolAligned(w.pool.blocks[i].base);
    }
    ResetEven(w, v);
  }

  lemma ResetEven(w: World, v: World)
    requires Even(w) && v.psize == w.psize && v.pool.max == w.pool.max
    requires forall i :: 0 <= i < |v.pool.blocks| ==> v.pool.blocks[i].last % ALIGNMENT == 0
    ensures Even(v)
  {
  }

  /** Every operation keeps the invariant, whatever malloc answers. */
  lemma StepKeeps(w: World, op: Op)
    requires Inv(w) && Possible(w, op)
    ensures Inv(Step(w, op))
  {
    hide BlocksOk, PiecesOk, MallocsOk, LargeOk, Fresh, PushLarge, AllocSmall;
    HasBlocks(w);
    match op
    case Alloc(size, align, at, base) =>
      if size <= w.pool.max {
        SmallInv(w, size, align, base);
      } else if at.Some? {
        if 0 <= Slot(w.pool.large, 0) {
          SlotKeeps(w, size, at.value, base);
        } else {
          PushKeeps(w, size, at.value, base);
        }
      }
    case Memalign(size, at, base) =>
      if at.Some? {
        PushKeeps(w, size, at.value, base);
      }
    case Free(ptr) => FreeKeeps(w, ptr);
    case Reset => ResetKeeps(w);
  }

  lemma SmallInv(w: World, size: nat, align: bool, base: Option<nat>)
    requires Inv(w) && size <= w.pool.max && (base.Some? ==> Fresh(w, base.value, w.psize))
    ensures Inv(AllocSmall(w, size, align, base))
  {
    hide BlocksOk, PiecesOk, MallocsOk, LargeOk, Small, Fresh, AllocSmall;
    HasBlocks(w);
    SmallKeeps(w, size, align, base);
    Sized(w);
    MallocsExtend(w, AllocSmall(w, size, align, base), base);
    LargeKept(w, AllocSmall(w, size, align, base));
  }

  // -------------------------------------------------------------------------------------------
  // Whole runs
  // -------------------------------------------------------------------------------------------

  /** Operations that are possible where they happen. */
  predicate Run(w: World, ops: seq<Op>)
    requires w.pool.Ready()
    decreases |ops|
  {
    ops == [] || (Possible(w, ops[0]) && Run(Step(w, ops[0]), ops[1..]))
  }

  /** Where a run ends. */
  function End(w: World, ops: seq<Op>): (r: World)
    requires w.pool.Ready()
    ensures r.pool.Ready()
    decreases |ops|
  {
    if ops == [] then w else End(Step(w, ops[0]), ops[1..])
  }

  /** Every run keeps the invariant. */
  lemma {:induction false} RunKeeps(w: World, ops: seq<Op>)
    requires Inv(w) && w.pool.Ready() && Run(w, ops)
    ensures Inv(End(w, ops))
    decreases |ops|
  {
    hide Possible, Step, Inv;
    if ops != [] {
      StepKeeps(w, ops[0]);
      RunKeeps(Step(w, ops[0]), ops[1..]);
    }
  }

  predicate NoReset(ops: seq<Op>) {
    forall k :: 0 <= k < |ops| ==> !ops[k].Reset?
  }

  lemma StepStays(w: World, op: Op)
    requires w.pool.Ready() && !op.Reset?
    ensures w.out <= Step(w, op).out
  {
    hide Small, Slot, Pushed;
  }

  /** Between resets a region once handed out stays as it is, whatever is handed out later. */
  lemma {:induction false} RunStays(w: World, ops: seq<Op>)
    requires w.pool.Ready() && NoReset(ops)
    ensures w.out <= End(w, ops).out
    decreases |ops|
  {
    hide Step;
    if ops != [] {
      StepStays(w, ops[0]);
      RunStays(Step(w, ops[0]), ops[1..]);
    }
  }

  /** The pool ngx_create_pool makes, with nothing handed out. */
  function First(size: nat, pageSize: nat, base: nat): (r: World)
    requires POOL <= size
    ensures r.pool.Ready()
  {
    World(Created(size, pageSize, base), size, [], map[])
  }

  /** Everything handed out lies in the mallocs of the blocks, behind their headers, and apart. */
  predicate Safe(w: World) {
    && (forall k :: 0 <= k < |w.out| ==> InBlock(w.out[k], w))
    && (forall j, k :: 0 <= j < k < |w.out| ==>
          Disjoint(w.out[j].at, w.out[j].size, w.out[k].at, w.out[k].size))
  }

  /** A piece lies inside the malloc of its block. */
  predicate InBlock(p: Piece, w: World) {
    && p.home < |w.pool.blocks|
    && w.pool.blocks[p.home].base + Header(p.home) <= p.at
    && p.at + p.size <= w.pool.blocks[p.home].base + w.psize
    && (p.aligned ==> p.at % ALIGNMENT == 0)
  }

  /** The invariant means safety. */
  lemma InvSafe(w: World)
    requires Inv(w)
    ensures Safe(w)
  {
    forall k | 0 <= k < |w.out|
      ensures InBlock(w.out[k], w)
    {
      assert Inside(w.out[k], w.pool.blocks);
      assert BlockOk(w.pool.blocks[w.out[k].home], w.out[k].home, w.psize);
    }
  }

  /** One byte at a time, then one aligned byte. */
  function Overrun(k: nat): seq<Op> {
    if k == 0 then [Alloc(1, true, None, None)] else [Alloc(1, false, None, None)] + Overrun(k - 1)
  }

  /** Once an odd end is reached the aligned request wraps and is served behind the block. */
  lemma {:induction false} OverrunUnsafe(w: World, k: nat)
    requires |w.pool.blocks| == 1 && w.pool.current == 0 && 1 <= w.pool.max
    requires var b := w.pool.blocks[0];
      b.last + k == b.end == b.base + w.psize <= TOP && b.end % ALIGNMENT != 0
    ensures Run(w, Overrun(k)) && !Safe(End(w, Overrun(k)))
    decreases k
  {
    var b, op := w.pool.blocks[0], Overrun(k)[0];
    var v := Step(w, op);
    AlignNext(b.last);
    if k == 0 {
      assert (b.end - AlignUp(b.last)) % U64 == U64 + b.end - AlignUp(b.last);
      assert Fits(b, 1, true);
      assert End(v, []) == v;
      assert !InBlock(v.out[|w.out|], v);
    } else {
      assert Fits(b, 1, false);
      assert Overrun(k)[1..] == Overrun(k - 1);
      OverrunUnsafe(v, k - 1);
    }
  }

  lemma FirstKeeps(size: nat, pageSize: nat, base: nat)
    requires POOL <= size && pageSize < U64 && 0 < base && base % MALLOC == 0 && base + size <= TOP
    requires size % ALIGNMENT == 0 || pageSize == 1
    ensures Inv(First(size, pageSize, base))
  {
    hide LargeOk, PiecesOk, MallocsOk;
    var w := First(size, pageSize, base);
    PoolAligned(base);
    assert Even(w);
    assert BlockOk(w.pool.blocks[0], 0, size);
    assert BlocksOk(w);
    NothingOut(w);
  }

  lemma PoolAligned(base: nat)
    requires base % MALLOC == 0
    ensures (base + POOL) % ALIGNMENT == 0
  {
    EndAligned(base, POOL);
  }

  lemma NothingOut(w: World)
    requires w.out == [] && w.large == map[] && w.pool.large == []
    ensures PiecesOk(w.out, w.pool.blocks) && LargeOk(w) && MallocsOk(w)
  {
  }

  /**
   No run of a pool ever hands out anything outside its blocks, misaligned or overlapping exactly
   when the pool's size is a multiple of the alignment (or pages of one byte rule out small regions).
   */
  lemma SafeExactly(size: nat, pageSize: nat, base: nat)
    requires POOL <= size && pageSize < U64 && 0 < base && base % MALLOC == 0 && base + size <= TOP
    ensures (forall ops: seq<Op> :: Run(First(size, pageSize, base), ops) ==> Safe(End(First(size, pageSize, base), ops)))
      <==> size % ALIGNMENT == 0 || pageSize == 1
  {
    hide Inv, Safe, Run, End, Overrun;
    var w := First(size, pageSize, base);
    if size % ALIGNMENT == 0 || pageSize == 1 {
      FirstKeeps(size, pageSize, base);
      forall ops: seq<Op> | Run(w, ops)
        ensures Safe(End(w, ops))
      {
        RunKeeps(w, ops);
        InvSafe(End(w, ops));
      }
    } else {
      OddEnd(size, pageSize, base);
      OverrunUnsafe(w, size - POOL);
    }
  }

  lemma OddEnd(size: nat, pageSize: nat, base: nat)
    requires POOL <= size && pageSize < U64 && base % MALLOC == 0
    requires size % ALIGNMENT != 0 && pageSize != 1
    ensures var w := First(size, pageSize, base);
      && 1 <= w.pool.max && w.pool.blocks == [Block(base, base + POOL, base + size, 0)] && w.pool.current == 0
      && (base + size) % ALIGNMENT != 0
  {
    EndAligned(base, POOL);
    EndAligned(base, size);
  }

  // -------------------------------------------------------------------------------------------
  // What an operation finds and what it leaves
  // -------------------------------------------------------------------------------------------

  /** So many bytes can be served at an address: behind what was handed out, aligned if asked, before the end. */
  predicate FitsAt(b: Block, size: nat, align: bool, at: nat) {
    b.last <= at && (align ==> at % 8 == 0) && at + size <= b.end
  }

  /** A block has no room for so many bytes. */
  ghost predicate Full(b: Block, size: nat, align: bool) {
    forall at: nat :: !FitsAt(b, size, align, at)
  }

  /** The first block from current on that has room. */
  ghost predicate FirstWithRoom(p: Pool, i: nat, size: nat, align: bool) {
    && p.current <= i < |p.blocks| && !Full(p.blocks[i], size, align)
    && forall j :: p.current <= j < i ==> Full(p.blocks[j], size, align)
  }

  /** The wrapping test of a block in order is that it has room, and then the start is the first place there is. */
  lemma FitsWhere(w: World, i: nat, size: nat, align: bool)
    requires BlocksOk(w) && i < |w.pool.blocks|
    ensures var b := w.pool.blocks[i];
      && (Fits(b, size, align) <==> !Full(b, size, align))
      && (Fits(b, size, align) ==> FitsAt(b, size, align, Start(b, align)))
      && forall at: nat :: FitsAt(b, size, align, at) ==> Start(b, align) <= at
  {
    hide AlignUp, Fits;
    var b := w.pool.blocks[i];
    EvenRounds(w, i);
    assert BlockOk(b, i, w.psize);
    FitsMeans(b, i, w.psize, size, align);
    AlignNext(b.last);
    if Fits(b, size, align) {
      assert FitsAt(b, size, align, Start(b, align));
    }
    if !Full(b, size, align) {
      var at: nat :| FitsAt(b, size, align, at);
      assert Start(b, align) <= at;
    }
  }

  /**
   A small request is served from the first block from current on that has room, at the first place
   there; nothing else changes.  A block before current is not looked at, whatever room it has.
   */
  lemma SmallFinds(w: World, i: nat, size: nat, align: bool, base: Option<nat>)
    requires BlocksOk(w) && w.pool.Ready() && FirstWithRoom(w.pool, i, size, align)
    ensures var (q, m) := Small(w.pool, size, align, w.psize, base);
      && m.Some? && FitsAt(w.pool.blocks[i], size, align, m.value)
      && (forall at: nat :: FitsAt(w.pool.blocks[i], size, align, at) ==> m.value <= at)
      && q == w.pool.(blocks := w.pool.blocks[i := w.pool.blocks[i].(last := m.value + size)])
  {
    hide Fits, Start, BlocksOk, FitsAt, Full;
    var p := w.pool;
    forall j | p.current <= j <= i
      ensures Fits(p.blocks[j], size, align) <==> !Full(p.blocks[j], size, align)
    {
      FitsWhere(w, j, size, align);
    }
    FitsWhere(w, i, size, align);
    assert FirstFit(p.blocks, p.current, size, align) == i;
  }

  /**
   Where no block from current on has room a new one serves it, behind its header, unless malloc has none.
   All from current on but the last are charged a failure, and current moves behind the last of those
   that had failed more than four times before.
   */
  lemma SmallGrows(w: World, size: nat, align: bool, base: Option<nat>)
    requires BlocksOk(w) && w.pool.Ready() && (base.Some? ==> base.value % 16 == 0)
    requires forall j :: w.pool.current <= j < |w.pool.blocks| ==> Full(w.pool.blocks[j], size, align)
    ensures var (q, m) := Small(w.pool, size, align, w.psize, base);
      var (p, n) := (w.pool, |w.pool.blocks|);
      && (base.None? ==> m == None && q == p)
      && (base.Some? ==>
          && m == Some(base.value + 32) && q.max == p.max && q.large == p.large
          && |q.blocks| == n + 1 && q.blocks[n] == Block(base.value, base.value + 32 + size, base.value + w.psize, 0)
          && (forall j :: 0 <= j < n ==>
                q.blocks[j] == p.blocks[j].(failed := p.blocks[j].failed + if p.current <= j < n - 1 then 1 else 0))
          && p.current <= q.current < n
          && (q.current == p.current || p.blocks[q.current - 1].failed > 4)
          && forall j :: q.current <= j < n - 1 ==> p.blocks[j].failed <= 4)
  {
    hide Fits, Start, BlocksOk, FitsAt, Full, Grown, AlignUp;
    var p := w.pool;
    forall j | p.current <= j < |p.blocks|
      ensures !Fits(p.blocks[j], size, align)
    {
      FitsWhere(w, j, size, align);
    }
    assert FirstFit(p.blocks, p.current, size, align) == |p.blocks|;
    if base.Some? {
      AlignedBase(base.value);
      GrownSays(p, size, w.psize, base.value);
    }
  }

  lemma GrownSays(p: Pool, size: nat, psize: nat, base: nat)
    requires p.Ready()
    ensures var (q, n) := (Grown(p, size, psize, base), |p.blocks|);
      && q.max == p.max && q.large == p.large
      && |q.blocks| == n + 1 && q.blocks[n] == Block(base, AlignUp(base + DATA) + size, base + psize, 0)
      && (forall j :: 0 <= j < n ==>
            q.blocks[j] == p.blocks[j].(failed := p.blocks[j].failed + if p.current <= j < n - 1 then 1 else 0))
      && p.current <= q.current < n
      && (q.current == p.current || p.blocks[q.current - 1].failed > 4)
      && forall j :: q.current <= j < n - 1 ==> p.blocks[j].failed <= 4
  {
    hide AlignUp;
    CurrentMoves(p.blocks, p.current, |p.blocks| - 1);
  }

  lemma AlignedBase(base: nat)
    requires base % 16 == 0
    ensures AlignUp(base + DATA) == base + 32
  {
    hide AlignUp;
    DataAligned(base, 0);
  }

  lemma {:induction false} CurrentMoves(bs: seq<Block>, current: nat, upto: nat)
    requires current <= upto < |bs|
    ensures var c := NextCurrent(bs, current, upto);
      && current <= c <= upto && (c == current || bs[c - 1].failed > 4)
      && forall j :: c <= j < upto ==> bs[j].failed <= 4
  {
    if current < upto {
      CurrentMoves(bs, current, upto - 1);
    }
  }

  /** A reset keeps the blocks, empties them and sets every counter to 0; the first is current. */
  lemma ResetSays(w: World)
    requires w.pool.Ready()
    ensures var v := Step(w, Reset);
      && v.pool.current == 0 && v.pool.large == [] && v.pool.max == w.pool.max
      && v.psize == w.psize && v.out == [] && v.large == map[]
      && |v.pool.blocks| == |w.pool.blocks|
      && forall i :: 0 <= i < |w.pool.blocks| ==>
        v.pool.blocks[i] == Block(w.pool.blocks[i].base, w.pool.blocks[i].base + 56, w.pool.blocks[i].end, 0)
  {
  }

  /** So a small request that comes next is served right behind the header of the first block. */
  lemma AfterReset(w: World, size: nat, align: bool, base: Option<nat>)
    requires Inv(w) && w.pool.Ready() && size <= w.pool.max
    ensures Small(Step(w, Reset).pool, size, align, w.psize, base).1 == Some(w.pool.blocks[0].base + 56)
  {
    hide Inv, Step, Small, BlocksOk, FirstWithRoom, Full, FitsAt;
    var v := Step(w, Reset);
    ResetKeeps(w);
    ResetSays(w);
    Parts(w);
    Parts(v);
    FirstIsFree(w, v, size, align);
    SmallFinds(v, 0, size, align, base);
    FirstPlace(w, v, size, align, Small(v.pool, size, align, w.psize, base).1.value);
  }

  lemma FirstIsFree(w: World, v: World, size: nat, align: bool)
    requires BlocksOk(w) && size <= w.pool.max && v.pool.blocks != [] && v.pool.current == 0
    requires v.pool.blocks[0] == Block(w.pool.blocks[0].base, w.pool.blocks[0].base + 56, w.pool.blocks[0].end, 0)
    ensures FirstWithRoom(v.pool, 0, size, align)
    ensures FitsAt(v.pool.blocks[0], size, align, w.pool.blocks[0].base + 56)
  {
    var b := v.pool.blocks[0];
    assert BlockOk(w.pool.blocks[0], 0, w.psize);
    PoolAligned(b.base);
    assert FitsAt(b, size, align, b.base + 56);
  }

  lemma FirstPlace(w: World, v: World, size: nat, align: bool, at: nat)
    requires v.pool.blocks != [] && w.pool.blocks != [] && v.pool.blocks[0].last == w.pool.blocks[0].base + 56
    requires FitsAt(v.pool.blocks[0], size, align, at) && FitsAt(v.pool.blocks[0], size, align, w.pool.blocks[0].base + 56)
    requires forall k: nat :: FitsAt(v.pool.blocks[0], size, align, k) ==> at <= k
    ensures at == w.pool.blocks[0].base + 56
  {
  }

  /** What is small: at most what a block has behind the pool's header, and less than a page. */
  lemma SmallIs(size: nat, pageSize: nat, base: nat, n: nat)
    requires POOL <= size && 0 < pageSize < U64
    ensures n <= Created(size, pageSize, base).max <==> n + 56 <= size && n < pageSize
  {
  }

  /** The first node that holds nothing. */
  predicate FirstEmpty(l: seq<Node>, i: int) {
    0 <= i < |l| && l[i].alloc.None? && forall j :: 0 <= j < i ==> l[j].alloc.Some?
  }

  /** A large region takes the first of the first five nodes that is empty, else a node of its own at the head. */
  lemma LargeFinds(p: Pool, at: nat, psize: nat, base: Option<nat>)
    requires p.Ready()
    ensures var (q, ok) := Large(p, at, psize, base);
      && (forall i :: FirstEmpty(p.large, i) && i < 5 ==>
            ok && q == p.(large := p.large[i := p.large[i].(alloc := Some(at))]))
      && ((forall j :: 0 <= j < |p.large| && j < 5 ==> p.large[j].alloc.Some?) ==>
            && (ok ==> |q.large| == |p.large| + 1 && q.large[1..] == p.large && q.large[0].alloc == Some(at))
            && (!ok ==> q.large == p.large))
  {
    hide Small;
    SmallLarge(p, psize, base);
  }

  /** A node of its own goes to the head, where the pool has room for it; without one the list is as it was. */
  lemma PushSays(p: Pool, at: nat, psize: nat, base: Option<nat>)
    requires p.Ready()
    ensures var (q, ok) := Pushed(p, at, psize, base);
      var (s, node) := Small(p, NODE, true, psize, base);
      && (ok <==> node.Some?) && q.blocks == s.blocks && q.current == s.current && q.max == p.max
      && (ok ==> |q.large| == |p.large| + 1 && q.large[0] == Node(node.value, Some(at)) && q.large[1..] == p.large)
      && (!ok ==> q.large == p.large)
  {
    SmallLarge(p, psize, base);
  }

  lemma SmallLarge(p: Pool, psize: nat, base: Option<nat>)
    requires p.Ready()
    ensures Small(p, NODE, true, psize, base).0.large == p.large
  {
  }

  /** A pointer given back empties the first node that holds it, and only that; another is not known. */
  lemma FreeFinds(p: Pool, ptr: Option<nat>)
    ensures var (q, ok) := Freed(p, ptr);
      && (ok <==> exists i :: 0 <= i < |p.large| && p.large[i].alloc == ptr)
      && (!ok ==> q == p)
      && forall i :: 0 <= i < |p.large| && p.large[i].alloc == ptr && (forall j :: 0 <= j < i ==> p.large[j].alloc != ptr) ==>
           q == p.(large := p.large[i := p.large[i].(alloc := None)])
  {
  }

  // -------------------------------------------------------------------------------------------
  // How far a small allocation looks
  // -------------------------------------------------------------------------------------------

  /** From current on the counters go down one by one, and the last two are 0. */
  predicate Stairs(p: Pool) {
    && p.Ready() && |p.blocks| - p.current <= 7
    && forall j :: p.current <= j < |p.blocks| ==>
         p.blocks[j].failed == if j == |p.blocks| - 1 then 0 else |p.blocks| - 2 - j
  }

  lemma StairsGrow(p: Pool, size: nat, psize: nat, base: nat)
    requires Stairs(p)
    ensures Stairs(Grown(p, size, psize, base))
  {
    var n := |p.blocks|;
    StairsCurrent(p.blocks, p.current, n - 1);
  }

  /** Only a first step of five is left behind. */
  lemma {:induction false} StairsCurrent(bs: seq<Block>, current: nat, upto: nat)
    requires current <= upto < |bs| && |bs| - current <= 7
    requires forall j :: current <= j < |bs| ==> bs[j].failed == if j == |bs| - 1 then 0 else |bs| - 2 - j
    ensures NextCurrent(bs, current, upto)
      == if |bs| - current == 7 && current < upto then current + 1 else current
  {
    if current < upto {
      StairsCurrent(bs, current, upto - 1);
    }
  }

  /** Every operation but a reset keeps the staircase. */
  lemma StairsStep(w: World, op: Op)
    requires w.pool.Ready() && Stairs(w.pool) && !op.Reset?
    ensures Stairs(Step(w, op).pool)
  {
    hide Grown, FirstFit, Slot, Holder, Start;
    if op.Alloc? && op.base.Some? {
      StairsGrow(w.pool, op.size, w.psize, op.base.value);
      StairsGrow(w.pool, NODE, w.psize, op.base.value);
    }
    if op.Memalign? && op.base.Some? {
      StairsGrow(w.pool, NODE, w.psize, op.base.value);
    }
  }

  /**
   In every run without a reset the counters from current on are a staircase of at most seven blocks,
   so that is as far as a small allocation looks, however many blocks there are.
   */
  lemma {:induction false} StairsRun(w: World, ops: seq<Op>)
    requires w.pool.Ready() && Stairs(w.pool) && NoReset(ops)
    ensures Stairs(End(w, ops).pool)
    decreases |ops|
  {
    hide Step;
    if ops != [] {
      StairsStep(w, ops[0]);
      StairsRun(Step(w, ops[0]), ops[1..]);
    }
  }

  /** From a new pool on. */
  lemma StairsFirst(size: nat, pageSize: nat, base: nat, ops: seq<Op>)
    requires POOL <= size && NoReset(ops)
    ensures Stairs(End(First(size, pageSize, base), ops).pool)
  {
    StairsRun(First(size, pageSize, base), ops);
  }

  // -------------------------------------------------------------------------------------------
  // The end of a pool
  // -------------------------------------------------------------------------------------------

  /** What ngx_destroy_pool and ngx_reset_pool do to memory: read a record at an address, or free one. */
  datatype Act = Touch(at: nat, size: nat) | Release(at: nat)

  /** The acts for one node: its pointer is read, what it points to freed, and then its link read. */
  function NodeActs(n: Node): seq<Act> {
    [Touch(n.at, NODE)] + (if n.alloc.Some? then [Release(n.alloc.value)] else []) + [Touch(n.at, NODE)]
  }

  /** The walk over the large list. */
  function LargeActs(l: seq<Node>): seq<Act> {
    if l == [] then [] else NodeActs(l[0]) + LargeActs(l[1..])
  }

  /** The walk over the blocks: the next block's link is read before this block's memory is freed. */
  function BlockActs(bs: seq<Block>): seq<Act> {
    if bs == [] then [] else [Touch(bs[0].base, DATA), Release(bs[0].base)] + BlockActs(bs[1..])
  }

  /** ngx_destroy_pool */
  function Destroyed(p: Pool): seq<Act>
    requires p.Ready()
  {
    [Touch(p.blocks[0].base, POOL)] + LargeActs(p.large) + BlockActs(p.blocks)
  }

  /** The mallocs a world owns, and how far each reaches. */
  predicate Owns(w: World, at: nat) {
    at in w.large || exists i :: 0 <= i < |w.pool.blocks| && w.pool.blocks[i].base == at
  }

  /** How far a malloc reaches. */
  function Reach(w: World, at: nat): nat {
    if at in w.large then Extent(w.large[at]) else w.psize
  }

  /** Nothing freed is read or freed again, and only what is owned is freed. */
  predicate Orderly(w: World, acts: seq<Act>, dead: set<nat>)
    decreases |acts|
  {
    if acts == [] then true
    else
      match acts[0]
      case Touch(at, size) =>
        (forall d :: d in dead ==> Disjoint(at, size, d, Reach(w, d))) && Orderly(w, acts[1..], dead)
      case Release(at) =>
        Owns(w, at) && at !in dead && Orderly(w, acts[1..], dead + {at})
  }

  /** What has been freed. */
  function Gone(acts: seq<Act>): set<nat> {
    set k | 0 <= k < |acts| && acts[k].Release? :: acts[k].at
  }

  lemma GoneFirst(acts: seq<Act>)
    requires acts != []
    ensures Gone(acts) == Gone(acts[1..]) + if acts[0].Release? then {acts[0].at} else {}
  {
    var rest := acts[1..];
    forall k | 0 <= k < |rest|
      ensures rest[k] == acts[k + 1]
    {
    }
    forall x | x in Gone(acts)
      ensures x in Gone(rest) || (acts[0].Release? && x == acts[0].at)
    {
      var k :| 0 <= k < |acts| && acts[k].Release? && acts[k].at == x;
      assert k > 0 ==> rest[k - 1] == acts[k];
    }
    forall x | x in Gone(rest)
      ensures x in Gone(acts)
    {
      var k :| 0 <= k < |rest| && rest[k].Release? && rest[k].at == x;
      assert acts[k + 1] == rest[k];
    }
  }

  lemma {:induction false} OrderlyJoin(w: World, a: seq<Act>, b: seq<Act>, dead: set<nat>)
    requires Orderly(w, a, dead) && Orderly(w, b, dead + Gone(a))
    ensures Orderly(w, a + b, dead) && Gone(a + b) == Gone(a) + Gone(b)
    decreases |a|
  {
    if a == [] {
      assert a + b == b && Gone(a) == {} && dead + {} == dead;
    } else {
      GoneFirst(a);
      GoneFirst(a + b);
      assert (a + b)[1..] == a[1..] + b;
      var now := if a[0].Release? then dead + {a[0].at} else dead;
      assert now + Gone(a[1..]) == dead + Gone(a);
      OrderlyJoin(w, a[1..], b, now);
    }
  }

  /** The pointers in a stretch of the list. */
  function Allocs(l: seq<Node>): set<nat> {
    set j | 0 <= j < |l| && l[j].alloc.Some? :: l[j].alloc.value
  }

  /** A node is in a block, and no large malloc reaches into it. */
  lemma NodeSafe(w: World, j: nat)
    requires Inv(w) && j < |w.pool.large|
    ensures forall d :: d in w.large ==> Disjoint(w.pool.large[j].at, NODE, d, Reach(w, d))
  {
    assert LargeOk(w);
    assert Homed(w.out, w.pool.large[j].at);
    var k :| 0 <= k < |w.out| && w.out[k].at == w.pool.large[j].at && w.out[k].size == NODE;
    var p := w.out[k];
    assert Inside(p, w.pool.blocks);
    assert BlockOk(w.pool.blocks[p.home], p.home, w.psize);
  }

  function NodeGone(n: Node): set<nat> {
    if n.alloc.Some? then {n.alloc.value} else {}
  }

  lemma NodeOrderly(w: World, n: Node, dead: set<nat>)
    requires forall d :: d in w.large ==> Disjoint(n.at, NODE, d, Reach(w, d))
    requires dead <= w.large.Keys
    requires n.alloc.Some? ==> n.alloc.value in w.large && n.alloc.value !in dead
    ensures Orderly(w, NodeActs(n), dead) && Gone(NodeActs(n)) == NodeGone(n)
  {
    var acts, last := NodeActs(n), [Touch(n.at, NODE)];
    GoneFirst(acts);
    GoneFirst(last);
    assert last[1..] == [] && Gone([]) == {};
    if n.alloc.Some? {
      assert acts[1..] == [Release(n.alloc.value)] + last;
      GoneFirst(acts[1..]);
      assert acts[1..][1..] == last;
      assert Orderly(w, last, dead + {n.alloc.value});
    } else {
      assert acts[1..] == last;
    }
  }

  lemma AllocsAt(l: seq<Node>, n: nat)
    requires n < |l|
    ensures Allocs(l[..n + 1]) == Allocs(l[..n]) + NodeGone(l[n])
    ensures Allocs(l[n..]) == Allocs(l[n + 1..]) + NodeGone(l[n])
  {
    assert l[..n + 1] == l[..n] + [l[n]];
    var tail, rest := l[n..], l[n + 1..];
    assert forall k :: 0 <= k < |rest| ==> rest[k] == tail[k + 1];
    assert forall k :: 0 < k < |tail| ==> tail[k] == rest[k - 1];
  }

  /** Nothing before a node holds its pointer. */
  lemma AllocsBefore(w: World, n: nat)
    requires LargeOk(w) && n < |w.pool.large|
    ensures Allocs(w.pool.large[..n]) <= w.large.Keys
    ensures var x := w.pool.large[n].alloc; x.Some? ==> x.value in w.large && x.value !in Allocs(w.pool.large[..n])
  {
  }

  /** From any point of the list on, with what came before it freed. */
  lemma {:induction false} LargeOrderly(w: World, n: nat)
    requires Inv(w) && n <= |w.pool.large|
    ensures Orderly(w, LargeActs(w.pool.large[n..]), Allocs(w.pool.large[..n]))
    ensures Gone(LargeActs(w.pool.large[n..])) == Allocs(w.pool.large[n..])
    decreases |w.pool.large| - n
  {
    hide BlocksOk, PiecesOk, MallocsOk, LargeOk, Orderly, Gone, Allocs, NodeActs;
    var l := w.pool.large;
    if n == |l| {
      assert l[n..] == [];
      NothingGone(w, Allocs(l[..n]));
    } else {
      var dead := Allocs(l[..n]);
      NodeSafe(w, n);
      AllocsBefore(w, n);
      AllocsAt(l, n);
      LargeOrderly(w, n + 1);
      NodeOrderly(w, l[n], dead);
      assert l[n..][0] == l[n] && l[n..][1..] == l[n + 1..];
      OrderlyJoin(w, NodeActs(l[n]), LargeActs(l[n + 1..]), dead);
    }
  }

  lemma NothingGone(w: World, dead: set<nat>)
    ensures Orderly(w, [], dead) && Gone([]) == {} && Allocs([]) == {}
  {
  }

  /** The blocks' addresses. */
  function Bases(bs: seq<Block>): set<nat> {
    set i | 0 <= i < |bs| :: bs[i].base
  }

  lemma BasesAt(bs: seq<Block>, n: nat)
    requires n < |bs|
    ensures Bases(bs[..n + 1]) == Bases(bs[..n]) + {bs[n].base}
    ensures Bases(bs[n..]) == Bases(bs[n + 1..]) + {bs[n].base}
  {
    assert bs[..n + 1] == bs[..n] + [bs[n]];
    var tail, rest := bs[n..], bs[n + 1..];
    assert tail[0] == bs[n];
    assert forall k :: 0 <= k < |rest| ==> rest[k] == tail[k + 1];
    assert forall k :: 0 < k < |tail| ==> tail[k] == rest[k - 1];
  }

  /** No block is in what was freed before it: not an earlier block, and not a large region. */
  lemma BlockSafe(w: World, n: nat)
    requires BlocksOk(w) && MallocsOk(w) && n < |w.pool.blocks|
    ensures forall d :: d in w.large.Keys + Bases(w.pool.blocks[..n]) ==>
      Disjoint(w.pool.blocks[n].base, DATA, d, Reach(w, d)) && d != w.pool.blocks[n].base
  {
    var at := w.pool.blocks[n].base;
    forall d | d in w.large.Keys + Bases(w.pool.blocks[..n])
      ensures Disjoint(at, DATA, d, Reach(w, d)) && d != at
    {
      if d !in w.large {
        var i :| 0 <= i < n && w.pool.blocks[i].base == d;
        assert Disjoint(w.pool.blocks[i].base, w.psize, at, w.psize);
      }
    }
  }

  lemma BlockOrderly(w: World, n: nat, dead: set<nat>)
    requires n < |w.pool.blocks|
    requires forall d :: d in dead ==>
      Disjoint(w.pool.blocks[n].base, DATA, d, Reach(w, d)) && d != w.pool.blocks[n].base
    ensures var b := w.pool.blocks[n].base;
      Orderly(w, [Touch(b, DATA), Release(b)], dead) && Gone([Touch(b, DATA), Release(b)]) == {b}
  {
    var b := w.pool.blocks[n].base;
    var acts := [Touch(b, DATA), Release(b)];
    GoneFirst(acts);
    assert acts[1..] == [Release(b)];
    GoneFirst(acts[1..]);
    assert acts[1..][1..] == [];
    assert Gone([]) == {};
  }

  /** The same for the blocks, from any one on. */
  lemma {:induction false} BlocksOrderly(w: World, n: nat)
    requires BlocksOk(w) && MallocsOk(w) && n <= |w.pool.blocks|
    ensures Orderly(w, BlockActs(w.pool.blocks[n..]), w.large.Keys + Bases(w.pool.blocks[..n]))
    ensures Gone(BlockActs(w.pool.blocks[n..])) == Bases(w.pool.blocks[n..])
    decreases |w.pool.blocks| - n
  {
    hide BlocksOk, MallocsOk, Orderly, Gone, Bases;
    var bs, dead := w.pool.blocks, w.large.Keys + Bases(w.pool.blocks[..n]);
    if n == |bs| {
      assert bs[n..] == [];
      NothingGone(w, dead);
      NoBases();
    } else {
      BlockSafe(w, n);
      BasesAt(bs, n);
      BlocksOrderly(w, n + 1);
      BlockOrderly(w, n, dead);
      assert bs[n..][0] == bs[n] && bs[n..][1..] == bs[n + 1..];
      assert dead + {bs[n].base} == w.large.Keys + Bases(bs[..n + 1]);
      OrderlyJoin(w, [Touch(bs[n].base, DATA), Release(bs[n].base)], BlockActs(bs[n + 1..]), dead);
    }
  }

  lemma NoBases()
    ensures Bases([]) == {}
  {
  }

  /**
   Destroying a pool frees each outstanding large region and each block exactly once, and reads
   no part of a node of the list or of a block's header after it was freed.
   */
  lemma DestroyedOrderly(w: World)
    requires Inv(w)
    ensures w.pool.Ready() && Orderly(w, Destroyed(w.pool), {})
    ensures Gone(Destroyed(w.pool)) == w.large.Keys + Bases(w.pool.blocks)
  {
    hide Inv, BlocksOk, PiecesOk, MallocsOk, LargeOk, Orderly, Gone, Allocs, Bases;
    Parts(w);
    HasBlocks(w);
    var l, bs := w.pool.large, w.pool.blocks;
    var head := [Touch(bs[0].base, POOL)];
    LargeOrderly(w, 0);
    BlocksOrderly(w, 0);
    assert l[0..] == l && l[..0] == [] && bs[0..] == bs && bs[..0] == [];
    NothingGone(w, {});
    NoBases();
    AllocsAre(w);
    HeadOrderly(w, bs[0].base);
    var none: set<nat> := {};
    assert none + Gone(head) == Allocs(l[..0]);
    OrderlyJoin(w, head, LargeActs(l), none);
    assert none + Gone(head + LargeActs(l)) == w.large.Keys + Bases(bs[..0]);
    OrderlyJoin(w, head + LargeActs(l), BlockActs(bs), none);
  }

  lemma Parts(w: World)
    requires Inv(w)
    ensures BlocksOk(w) && PiecesOk(w.out, w.pool.blocks) && LargeOk(w) && MallocsOk(w)
  {
  }

  lemma HeadOrderly(w: World, at: nat)
    ensures Orderly(w, [Touch(at, POOL)], {}) && Gone([Touch(at, POOL)]) == {}
  {
  }

  /** The list holds exactly what is outstanding. */
  lemma AllocsAre(w: World)
    requires LargeOk(w)
    ensures Allocs(w.pool.large) == w.large.Keys
  {
    forall x | x in w.large
      ensures x in Allocs(w.pool.large)
    {
      assert Listed(w.pool.large, x);
      var j :| 0 <= j < |w.pool.large| && w.pool.large[j].alloc == Some(x);
    }
  }
}
