/** Runs of the pool object, and what becomes of each region that malloc gives it. */
module PoolRuns {
  import opened Options
  import opened PoolSpec
  import opened MemoryPool

  // -------------------------------------------------------------------------------------------
  // What goes in and out of an operation
  // -------------------------------------------------------------------------------------------

  /** What malloc gives a small allocation. */
  function Grows(p: Pool, size: nat, align: bool, base: Option<nat>): seq<nat>
    requires p.Ready()
  {
    if FirstFit(p.blocks, p.current, size, align) == |p.blocks| && base.Some? then [base.value] else []
  }

  /** What malloc gives an operation. */
  function Given(w: World, op: Op): seq<nat>
    requires w.pool.Ready()
  {
    match op
    case Alloc(size, align, at, base) =>
      if size <= w.pool.max then Grows(w.pool, size, align, base)
      else if at.None? then []
      else if 0 <= Slot(w.pool.large, 0) then [at.value]
      else [at.value] + Grows(w.pool, NODE, true, base)
    case Memalign(_, at, base) =>
      if at.None? then [] else [at.value] + Grows(w.pool, NODE, true, base)
    case _ => []
  }

  /** What an operation reads of the list of large regions, and what it frees. */
  function Acts(w: World, op: Op): seq<Act>
    requires w.pool.Ready()
  {
    match op
    case Alloc(size, _, at, base) =>
      if size > w.pool.max && at.Some? && !Large(w.pool, at.value, w.psize, base).1 then [Release(at.value)] else []
    case Memalign(_, at, base) =>
      if at.Some? && !Pushed(w.pool, at.value, w.psize, base).1 then [Release(at.value)] else []
    case Free(ptr) => if ptr.Some? && Freed(w.pool, ptr).1 then [Release(ptr.value)] else []
    case Reset => LargeActs(w.pool.large)
  }

  /** The regions freed, in order. */
  function Released(acts: seq<Act>): seq<nat> {
    if acts == [] then []
    else if acts[0].Release? then [acts[0].at] + Released(acts[1..])
    else Released(acts[1..])
  }

  /** The addresses of the blocks. */
  function Addresses(bs: seq<Block>): (r: seq<nat>)
    ensures |r| == |bs|
  {
    seq(|bs|, i requires 0 <= i < |bs| => bs[i].base)
  }

  /** What a pool holds of malloc: its blocks, and the large regions that are outstanding. */
  function Holds(w: World): multiset<nat> {
    multiset(Addresses(w.pool.blocks)) + multiset(w.large.Keys)
  }

  // -------------------------------------------------------------------------------------------
  // Nothing is lost, nothing is freed twice
  // -------------------------------------------------------------------------------------------

  lemma {:induction false} ReleasedJoin(a: seq<Act>, b: seq<Act>)
    ensures Released(a + b) == Released(a) + Released(b)
    decreases |a|
  {
    if a == [] {
      assert a + b == b;
    } else {
      assert (a + b)[1..] == a[1..] + b;
      ReleasedJoin(a[1..], b);
    }
  }

  lemma KeyIn(s: set<nat>, x: nat)
    ensures x !in s ==> multiset(s + {x}) == multiset(s) + multiset{x}
    ensures x in s ==> multiset(s) == multiset(s - {x}) + multiset{x}
  {
  }

  /** What the walk over the list of large regions frees is what stands in it. */
  lemma {:induction false} LargeReleased(l: seq<Node>)
    requires forall j, k :: 0 <= j < k < |l| && l[j].alloc.Some? ==> l[j].alloc != l[k].alloc
    ensures multiset(Released(LargeActs(l))) == multiset(Allocs(l))
  {
    hide Released, NodeActs, Allocs;
    NoneReleased();
    if l == [] {
      assert Allocs(l) == {} by { NoAllocs(l); }
    } else {
      var rest := l[1..];
      LargeReleased(rest);
      ReleasedJoin(NodeActs(l[0]), LargeActs(rest));
      NodeReleased(l[0]);
      AllocsFirst(l);
    }
  }

  lemma NoAllocs(l: seq<Node>)
    ensures l == [] ==> Allocs(l) == {}
  {
  }

  lemma AllocsFirst(l: seq<Node>)
    requires l != [] && forall k :: 0 < k < |l| && l[0].alloc.Some? ==> l[0].alloc != l[k].alloc
    ensures multiset(Allocs(l)) == multiset(Allocs(l[1..])) + multiset(NodeGone(l[0]))
  {
    var rest := l[1..];
    assert l[0..] == l;
    AllocsAt(l, 0);
    if l[0].alloc.Some? {
      assert l[0].alloc.value !in Allocs(rest) by {
        assert forall k :: 0 <= k < |rest| ==> rest[k] == l[k + 1];
      }
      KeyIn(Allocs(rest), l[0].alloc.value);
    }
  }

  lemma NodeReleased(n: Node)
    ensures Released(NodeActs(n)) == if n.alloc.Some? then [n.alloc.value] else []
  {
    var acts := NodeActs(n);
    var last := [Touch(n.at, NODE)];
    assert last[1..] == [] && Released(last) == [];
    if n.alloc.Some? {
      assert acts[1..] == [Release(n.alloc.value)] + last && acts[1..][1..] == last;
    } else {
      assert acts[1..] == last;
    }
  }

  lemma {:induction false} BlocksReleased(bs: seq<Block>)
    ensures Released(BlockActs(bs)) == Addresses(bs)
  {
    if bs != [] {
      var head := [Touch(bs[0].base, DATA), Release(bs[0].base)];
      BlocksReleased(bs[1..]);
      ReleasedJoin(head, BlockActs(bs[1..]));
      assert head[1..] == [Release(bs[0].base)] && head[1..][1..] == [];
      assert Addresses(bs) == [bs[0].base] + Addresses(bs[1..]);
    }
  }

  /** The blocks after a small allocation. */
  lemma SmallHolds(p: Pool, size: nat, align: bool, psize: nat, base: Option<nat>)
    requires p.Ready()
    ensures var (q, m) := Small(p, size, align, psize, base);
      Addresses(q.blocks) == Addresses(p.blocks) + Grows(p, size, align, base) && q.large == p.large
  {
    ChargedBases(p.blocks, p.current);
    var q := Small(p, size, align, psize, base).0;
    if FirstFit(p.blocks, p.current, size, align) == |p.blocks| && base.Some? {
      assert Addresses(q.blocks) == Addresses(p.blocks) + [base.value];
    } else {
      assert Addresses(q.blocks) == Addresses(p.blocks);
    }
  }

  /** What malloc gives is not outstanding. */
  lemma FreshIsNew(w: World, at: nat, size: nat)
    requires Fresh(w, at, size)
    ensures at !in w.large
  {
  }

  /** A large region with a node of its own, or given back. */
  lemma PushBalance(w: World, size: nat, at: nat, base: Option<nat>)
    requires w.pool.Ready() && Fresh(w, at, size)
    ensures var v := PushLarge(w, size, at, base);
      multiset([at] + Grows(w.pool, NODE, true, base)) + Holds(w)
        == Holds(v) + multiset(if Pushed(w.pool, at, w.psize, base).1 then [] else [at])
  {
    hide Small, Grows, Fresh, Addresses;
    SmallHolds(w.pool, NODE, true, w.psize, base);
    FreshIsNew(w, at, size);
    KeyIn(w.large.Keys, at);
    assert w.large[at := size].Keys == w.large.Keys + {at};
  }

  /** A large region in an empty slot. */
  lemma SlotBalance(w: World, size: nat, at: nat, base: Option<nat>)
    requires w.pool.Ready() && Fresh(w, at, size) && 0 <= Slot(w.pool.large, 0)
    ensures multiset([at]) + Holds(w) == Holds(AllocLarge(w, size, at, base))
  {
    hide Fresh, Slot;
    FreshIsNew(w, at, size);
    KeyIn(w.large.Keys, at);
    assert w.large[at := size].Keys == w.large.Keys + {at};
    assert Addresses(AllocLarge(w, size, at, base).pool.blocks) == Addresses(w.pool.blocks);
  }

  /** A small region. */
  lemma SmallBalance(w: World, size: nat, align: bool, base: Option<nat>)
    requires w.pool.Ready()
    ensures multiset(Grows(w.pool, size, align, base)) + Holds(w) == Holds(AllocSmall(w, size, align, base))
  {
    hide Small, Grows, Addresses;
    SmallHolds(w.pool, size, align, w.psize, base);
  }

  /** A large region, wherever its pointer goes. */
  lemma LargeBalance(w: World, size: nat, at: nat, base: Option<nat>)
    requires w.pool.Ready() && Fresh(w, at, size)
    ensures var given := if 0 <= Slot(w.pool.large, 0) then [at] else [at] + Grows(w.pool, NODE, true, base);
      multiset(given) + Holds(w)
        == Holds(AllocLarge(w, size, at, base)) + multiset(if Large(w.pool, at, w.psize, base).1 then [] else [at])
  {
    hide Pushed, Fresh, Slot, Grows, Holds, PushLarge;
    if 0 <= Slot(w.pool.large, 0) {
      SlotBalance(w, size, at, base);
    } else {
      PushBalance(w, size, at, base);
    }
  }

  /** What an operation is given and what was held before is what is held after and what has been freed. */
  lemma StepBalance(w: World, op: Op)
    requires Inv(w) && w.pool.Ready() && Possible(w, op)
    ensures multiset(Given(w, op)) + Holds(w) == Holds(Step(w, op)) + multiset(Released(Acts(w, op)))
  {
    hide Inv, Small, Pushed, Large, Freed, Fresh, Slot, Grows, LargeActs, Holds, AllocSmall, AllocLarge, PushLarge, Released;
    NoneReleased();
    match op
    case Alloc(size, align, at, base) =>
      if size <= w.pool.max {
        SmallBalance(w, size, align, base);
      } else if at.Some? {
        LargeBalance(w, size, at.value, base);
      }
    case Memalign(size, at, base) =>
      if at.Some? {
        PushBalance(w, size, at.value, base);
      }
    case Free(ptr) =>
      FreeBalance(w, ptr);
    case Reset =>
      ResetBalance(w);
  }

  lemma NoneReleased()
    ensures Released([]) == [] && forall at: nat :: Released([Release(at)]) == [at]
  {
    assert forall at: nat :: [Release(at)][1..] == [];
  }

  lemma FreeBalance(w: World, ptr: Option<nat>)
    requires Inv(w) && w.pool.Ready()
    ensures Holds(w) == Holds(Step(w, Free(ptr))) + multiset(Released(Acts(w, Free(ptr))))
  {
    hide Inv;
    FreeKeeps(w, ptr);
    if ptr.Some? && Freed(w.pool, ptr).1 {
      KeyIn(w.large.Keys, ptr.value);
      assert (w.large - {ptr.value}).Keys == w.large.Keys - {ptr.value};
    }
    assert Addresses(Step(w, Free(ptr)).pool.blocks) == Addresses(w.pool.blocks);
  }

  lemma ResetBalance(w: World)
    requires Inv(w) && w.pool.Ready()
    ensures Holds(w) == Holds(Step(w, Reset)) + multiset(Released(Acts(w, Reset)))
  {
    hide Released, LargeActs, Allocs;
    LargeReleased(w.pool.large);
    AllocsAre(w);
    assert Addresses(Step(w, Reset).pool.blocks) == Addresses(w.pool.blocks);
  }

  /** All that malloc gives in a run. */
  function AllGiven(w: World, ops: seq<Op>): seq<nat>
    requires w.pool.Ready()
    decreases |ops|
  {
    if ops == [] then [] else Given(w, ops[0]) + AllGiven(Step(w, ops[0]), ops[1..])
  }

  /** All that a run reads of the list of large regions and frees. */
  function AllActs(w: World, ops: seq<Op>): seq<Act>
    requires w.pool.Ready()
    decreases |ops|
  {
    if ops == [] then [] else Acts(w, ops[0]) + AllActs(Step(w, ops[0]), ops[1..])
  }

  lemma Both(x: seq<nat>, y: seq<nat>)
    ensures multiset(x + y) == multiset(x) + multiset(y)
  {
  }

  /** Two balances, one after the other. */
  lemma Sums(a: multiset<nat>, b: multiset<nat>, h: multiset<nat>, i: multiset<nat>, j: multiset<nat>,
             r: multiset<nat>, s: multiset<nat>)
    requires a + h == i + r && b + i == j + s
    ensures a + b + h == j + (r + s)
  {
    assert a + b + h == b + (a + h);
    assert b + (i + r) == (b + i) + r;
  }

  /** The same in a run. */
  lemma {:induction false} RunBalance(w: World, ops: seq<Op>)
    requires Inv(w) && w.pool.Ready() && Run(w, ops)
    ensures multiset(AllGiven(w, ops)) + Holds(w) == Holds(End(w, ops)) + multiset(Released(AllActs(w, ops)))
    decreases |ops|
  {
    hide Inv, Possible, Step, Holds, Given, Acts;
    if ops != [] {
      StepBalance(w, ops[0]);
      StepKeeps(w, ops[0]);
      RunBalance(Step(w, ops[0]), ops[1..]);
      var given, rest := Given(w, ops[0]), AllGiven(Step(w, ops[0]), ops[1..]);
      var acts, later := Acts(w, ops[0]), AllActs(Step(w, ops[0]), ops[1..]);
      ReleasedJoin(acts, later);
      Both(given, rest);
      Both(Released(acts), Released(later));
      Sums(multiset(given), multiset(rest), Holds(w), Holds(Step(w, ops[0])), Holds(End(w, ops)),
           multiset(Released(acts)), multiset(Released(later)));
    }
  }

  /** What destroying the pool frees is what it holds. */
  lemma DestroyBalance(w: World)
    requires Inv(w) && w.pool.Ready()
    ensures multiset(Released(Destroyed(w.pool))) == Holds(w)
  {
    var head := [Touch(w.pool.blocks[0].base, POOL)];
    assert head[1..] == [] && Released(head) == [];
    ReleasedJoin(head, LargeActs(w.pool.large));
    ReleasedJoin(head + LargeActs(w.pool.large), BlockActs(w.pool.blocks));
    LargeReleased(w.pool.large);
    AllocsAre(w);
    BlocksReleased(w.pool.blocks);
  }

  lemma FirstHolds(size: nat, pageSize: nat, base: nat)
    requires POOL <= size
    ensures Holds(First(size, pageSize, base)) == multiset([base])
  {
    var w := First(size, pageSize, base);
    assert Addresses(w.pool.blocks) == [base];
    assert w.large.Keys == {};
  }

  /**
   From ngx_create_pool to ngx_destroy_pool each region that malloc gives is freed exactly once:
   nothing is lost and nothing is freed twice, whatever malloc answers in between.
   */
  lemma LifeBalance(size: nat, pageSize: nat, base: nat, ops: seq<Op>)
    requires POOL <= size && pageSize < U64 && 0 < base && base % MALLOC == 0 && base + size <= TOP
    requires size % ALIGNMENT == 0 || pageSize == 1
    requires Run(First(size, pageSize, base), ops)
    ensures var w := First(size, pageSize, base);
      multiset([base] + AllGiven(w, ops)) == multiset(Released(AllActs(w, ops) + Destroyed(End(w, ops).pool)))
  {
    hide Inv, Run, End, Possible, Created, Holds, Destroyed, AllActs, AllGiven;
    var w := First(size, pageSize, base);
    var given, acts, last := AllGiven(w, ops), AllActs(w, ops), Destroyed(End(w, ops).pool);
    FirstKeeps(size, pageSize, base);
    RunBalance(w, ops);
    RunKeeps(w, ops);
    DestroyBalance(End(w, ops));
    ReleasedJoin(acts, last);
    Both(Released(acts), Released(last));
    Both([base], given);
    FirstHolds(size, pageSize, base);
    assert multiset(Released(acts + last)) == multiset(given) + Holds(w);
    assert Holds(w) == multiset([base]);
    assert multiset([base] + given) == multiset(given) + multiset([base]);
  }

  // -------------------------------------------------------------------------------------------
  // The object
  // -------------------------------------------------------------------------------------------

  /** What an allocation returns. */
  function Answer(w: World, op: Op): Option<nat>
    requires w.pool.Ready()
  {
    match op
    case Alloc(size, align, at, base) =>
      if size <= w.pool.max then Small(w.pool, size, align, w.psize, base).1
      else if at.Some? && Large(w.pool, at.value, w.psize, base).1 then at
      else None
    case Memalign(_, at, base) =>
      if at.Some? && Pushed(w.pool, at.value, w.psize, base).1 then at else None
    case _ => None
  }

  /** A pointer to so many bytes that the pool has handed out and not taken back. */
  predicate Serves(w: World, at: nat, size: nat, align: bool) {
    || (at in w.large && w.large[at] == size)
    || (w.out != [] && var p := w.out[|w.out| - 1]; p.at == at && p.size == size && p.aligned == align)
  }

  /** What is returned is what has been asked for. */
  lemma AnswerServes(w: World, op: Op)
    requires w.pool.Ready() && Answer(w, op).Some?
    ensures var v, at := Step(w, op), Answer(w, op).value;
      && (op.Alloc? ==> Serves(v, at, op.size, op.align))
      && (op.Memalign? ==> Serves(v, at, op.size, false))
  {
    hide Small, Slot;
  }

  /** The pool object is where a world is. */
  ghost predicate At(pool: NgxPool, w: World)
    reads pool
  {
    pool.Valid() && pool.View() == w.pool && pool.PSize() == w.psize
  }

  lemma AtReady(pool: NgxPool, w: World)
    requires At(pool, w)
    ensures w.pool.Ready()
  {
  }

  /** The first block stays where it is, and as large. */
  lemma SizeStays(w: World, op: Op)
    requires w.pool.Ready()
    ensures var b, c := w.pool.blocks[0], Step(w, op).pool.blocks[0]; c.base == b.base && c.end == b.end
    ensures Step(w, op).psize == w.psize
  {
    hide Slot, FirstFit;
    ChargedBases(w.pool.blocks, w.pool.current);
  }

  /** One operation of the object is the step of the world. */
  method StepPool(pool: NgxPool, ghost w: World, op: Op)
    returns (answer: Option<nat>, acts: seq<Act>, ghost looked: nat)
    requires At(pool, w)
    modifies pool
    ensures looked <= |w.pool.blocks| - w.pool.current
    ensures w.pool.Ready() && At(pool, Step(w, op)) && answer == Answer(w, op) && acts == Acts(w, op)
  {
    hide Small, Slot, Freed, LargeActs;
    SizeStays(w, op);
    answer, looked := None, 0;
    match op
    case Alloc(size, align, at, base) =>
      answer, acts, looked := pool.Palloc(size, align, at, base);
    case Memalign(size, at, base) =>
      answer, acts, looked := pool.Pmemalign(at, base);
    case Free(ptr) =>
      var ok;
      ok, acts := pool.Pfree(ptr);
    case Reset =>
      acts := pool.ResetPool();
  }

  /**
   Any run of operations on the object, with what they return and free, and how many blocks each looks
   at: that is at most seven in a run without a reset, however many there are.
   */
  method RunPool(pool: NgxPool, ghost w: World, ops: seq<Op>)
    returns (answers: seq<Option<nat>>, acts: seq<Act>, ghost looks: seq<nat>)
    requires At(pool, w)
    modifies pool
    ensures w.pool.Ready() && At(pool, End(w, ops)) && answers == Answers(w, ops) && acts == AllActs(w, ops)
    ensures |looks| == |ops| && (Stairs(w.pool) && NoReset(ops) ==> forall k :: 0 <= k < |looks| ==> looks[k] <= 7)
  {
    hide Step, Acts, Answer, At, Stairs;
    AtReady(pool, w);
    answers, acts, looks := [], [], [];
    ghost var v := w;
    for i := 0 to |ops|
      invariant At(pool, v) && v.pool.Ready() && End(w, ops) == End(v, ops[i..])
      invariant |looks| == i && (Stairs(w.pool) && NoReset(ops) ==> Stairs(v.pool))
      invariant Stairs(w.pool) && NoReset(ops) ==> forall k :: 0 <= k < |looks| ==> looks[k] <= 7
      invariant Answers(w, ops) == answers + Answers(v, ops[i..]) && AllActs(w, ops) == acts + AllActs(v, ops[i..])
    {
      assert ops[i..][0] == ops[i] && ops[i..][1..] == ops[i + 1..];
      ghost var looked;
      var answer, done;
      answer, done, looked := StepPool(pool, v, ops[i]);
      if Stairs(w.pool) && NoReset(ops) {
        StairsLook(v.pool);
        StairsStep(v, ops[i]);
      }
      v := Step(v, ops[i]);
      answers, acts, looks := answers + [answer], acts + done, looks + [looked];
    }
  }

  lemma StairsLook(p: Pool)
    requires Stairs(p)
    ensures |p.blocks| - p.current <= 7
  {
  }

  /** All that a run returns. */
  function Answers(w: World, ops: seq<Op>): seq<Option<nat>>
    requires w.pool.Ready()
    decreases |ops|
  {
    if ops == [] then [] else [Answer(w, ops[0])] + Answers(Step(w, ops[0]), ops[1..])
  }

  /** A pool made, used in any way and destroyed has freed each region that malloc gave it exactly once. */
  method Life(size: nat, pageSize: nat, base: nat, ops: seq<Op>)
    returns (answers: seq<Option<nat>>, acts: seq<Act>, ghost looks: seq<nat>)
    requires POOL <= size && pageSize < U64 && 0 < base && base % MALLOC == 0 && base + size <= TOP
    requires size % ALIGNMENT == 0 || pageSize == 1
    requires Run(First(size, pageSize, base), ops)
    ensures answers == Answers(First(size, pageSize, base), ops)
    ensures |looks| == |ops| && (NoReset(ops) ==> forall k :: 0 <= k < |looks| ==> looks[k] <= 7)
    ensures var w := First(size, pageSize, base);
      acts == AllActs(w, ops) + Destroyed(End(w, ops).pool) && multiset(Released(acts)) == multiset([base] + AllGiven(w, ops))
  {
    hide Run, End, Created, Destroyed, AllGiven, AllActs, Answers, Released;
    var pool := new NgxPool(size, pageSize, base);
    ghost var w := First(size, pageSize, base);
    FirstSized(pool, size, pageSize, base);
    FirstStairs(size, pageSize, base);
    answers, acts, looks := RunPool(pool, w, ops);
    var last := pool.DestroyPool();
    acts := acts + last;
    LifeBalance(size, pageSize, base, ops);
  }

  lemma FirstStairs(size: nat, pageSize: nat, base: nat)
    requires POOL <= size
    ensures Stairs(First(size, pageSize, base).pool)
  {
  }

  lemma FirstSized(pool: NgxPool, size: nat, pageSize: nat, base: nat)
    requires POOL <= size && pool.Valid() && pool.View() == Created(size, pageSize, base)
    ensures At(pool, First(size, pageSize, base))
  {
  }
}
