/** The pool object, with the loops that walk its blocks and its large list. */
module MemoryPool {

  import opened Options
  import opened PoolSpec

  /** ngx_pool_t, with the blocks and the large list it heads as sequences */
  class NgxPool {
    var blocks: seq<Block>
    var current: nat
    var max: nat
    var large: seq<Node>

    /** The pool as a value. */
    function View(): Pool
      reads this
    {
      Pool(blocks, current, max, large)
    }

    /** The size every block was asked for: psize in ngx_palloc_block. */
    function PSize(): int
      reads this
      requires blocks != []
    {
      blocks[0].end - blocks[0].base
    }

    predicate Valid()
      reads this
    {
      View().Ready() && blocks[0].base <= blocks[0].end
    }

    /** ngx_create_pool, when malloc answers with an address */
    constructor (size: nat, pageSize: nat, address: nat)
      requires POOL <= size
      ensures Valid() && View() == Created(size, pageSize, address)
    {
      var rest := size - POOL;
      var most := (pageSize - 1) % U64;
      blocks := [Block(address, address + POOL, address + size, 0)];
      max := if rest < most then rest else most;
      current := 0;
      large := [];
    }

    /** ngx_palloc_small; base is what malloc answers if a new block is needed, looked how many blocks it looks at */
    method PallocSmall(size: nat, align: bool, base: Option<nat>) returns (r: Option<nat>, ghost looked: nat)
      requires Valid()
      modifies `blocks, `current
      ensures Valid() && (View(), r) == Small(old(View()), size, align, old(PSize()), base)
      ensures 0 < looked <= |old(blocks)| - old(current)
      ensures |blocks| == |old(blocks)| && r.Some? ==>
        forall i :: 0 <= i < |blocks| && i != old(current) + looked - 1 ==> blocks[i] == old(blocks)[i]
    {
      hide AlignUp;
      var p := current;
      looked := 0;
      while p < |blocks|
        invariant current <= p <= |blocks| && looked == p - current
        invariant FirstFit(blocks, current, size, align) == FirstFit(blocks, p, size, align)
      {
        looked := looked + 1;
        var m := blocks[p].last;
        if align {
          m := AlignUp(m);
        }
        if (blocks[p].end - m) % U64 >= size {
          blocks := blocks[p := blocks[p].(last := m + size)];
          return Some(m), looked;
        }
        p := p + 1;
      }
      r := PallocBlock(size, base);
    }

    /** ngx_palloc_block */
    method PallocBlock(size: nat, base: Option<nat>) returns (r: Option<nat>)
      requires Valid()
      modifies `blocks, `current
      ensures Valid()
      ensures base.None? ==> r == None && View() == old(View())
      ensures base.Some? ==> r == Some(AlignUp(base.value + DATA)) && View() == Grown(old(View()), size, old(PSize()), base.value)
    {
      var psize := blocks[0].end - blocks[0].base;
      if base.None? {
        return None;
      }
      var m := AlignUp(base.value + DATA);
      var last, end := m + size, base.value + psize;
      ghost var was := blocks;
      var p := current;
      while p + 1 < |blocks|
        invariant old(current) <= p < |blocks| == |was|
        invariant forall i :: 0 <= i < |was| ==>
          blocks[i] == if old(current) <= i < p then was[i].(failed := was[i].failed + 1) else was[i]
        invariant current == NextCurrent(was, old(current), p)
      {
        if blocks[p].failed > 4 {
          current := p + 1;
        }
        blocks := blocks[p := blocks[p].(failed := blocks[p].failed + 1)];
        p := p + 1;
      }
      assert blocks == Charged(was, old(current));
      blocks := blocks + [Block(base.value, last, end, 0)];
      return Some(m);
    }

    /** The node for a large region; when the pool cannot serve it the region is given back. */
    method PushNode(at: nat, base: Option<nat>) returns (r: Option<nat>, acts: seq<Act>, ghost looked: nat)
      requires Valid()
      modifies this
      ensures Valid() && (View(), r.Some?) == Pushed(old(View()), at, old(PSize()), base)
      ensures r == (if r.Some? then Some(at) else None) && acts == if r.Some? then [] else [Release(at)]
      ensures looked <= |old(blocks)| - old(current)
    {
      hide Small;
      var node;
      node, looked := PallocSmall(NODE, true, base);
      if node.None? {
        return None, [Release(at)], looked;
      }
      large := [Node(node.value, Some(at))] + large;
      return Some(at), [], looked;
    }

    /** ngx_palloc_large; at is what malloc answers for the region */
    method PallocLarge(at: Option<nat>, base: Option<nat>) returns (r: Option<nat>, acts: seq<Act>, ghost looked: nat)
      requires Valid()
      modifies this
      ensures Valid()
      ensures at.None? ==> r == None && View() == old(View())
      ensures at.Some? ==> (View(), r.Some?) == Large(old(View()), at.value, old(PSize()), base)
      ensures r == (if r.Some? then at else None) && acts == Returned(at, r)
      ensures looked <= |old(blocks)| - old(current)
    {
      if at.None? {
        return None, [], 0;
      }
      var n, l := 0, 0;
      while l < |large|
        invariant 0 <= l == n <= 4 || l == |large|
        invariant l <= |large| && large == old(large) && View() == old(View())
        invariant Slot(large, 0) == Slot(large, l)
      {
        if large[l].alloc.None? {
          large := large[l := large[l].(alloc := at)];
          return at, [], 0;
        }
        if n > 3 {
          break;
        }
        n := n + 1;
        l := l + 1;
      }
      assert Slot(large, 0) == -1;
      r, acts, looked := PushNode(at.value, base);
    }

    /** What malloc has given and the pool cannot keep. */
    function Returned(at: Option<nat>, r: Option<nat>): seq<Act> {
      if at.Some? && r.None? then [Release(at.value)] else []
    }

    /** ngx_palloc and ngx_pnalloc */
    method Palloc(size: nat, align: bool, at: Option<nat>, base: Option<nat>)
      returns (r: Option<nat>, acts: seq<Act>, ghost looked: nat)
      requires Valid()
      modifies this
      ensures Valid()
      ensures size <= old(max) ==> (View(), r) == Small(old(View()), size, align, old(PSize()), base)
      ensures size > old(max) && at.None? ==> r == None && View() == old(View())
      ensures size > old(max) && at.Some? ==> (View(), r.Some?) == Large(old(View()), at.value, old(PSize()), base)
      ensures size > old(max) && r.Some? ==> r == at
      ensures acts == if size > old(max) then Returned(at, r) else []
      ensures looked <= |old(blocks)| - old(current)
    {
      hide Small, Large;
      if size <= max {
        acts := [];
        r, looked := PallocSmall(size, align, base);
      } else {
        r, acts, looked := PallocLarge(at, base);
      }
    }

    /** ngx_pmemalign */
    method Pmemalign(at: Option<nat>, base: Option<nat>) returns (r: Option<nat>, acts: seq<Act>, ghost looked: nat)
      requires Valid()
      modifies this
      ensures Valid()
      ensures at.None? ==> r == None && View() == old(View())
      ensures at.Some? ==> (View(), r.Some?) == Pushed(old(View()), at.value, old(PSize()), base)
      ensures (r.Some? ==> r == at) && acts == Returned(at, r)
      ensures looked <= |old(blocks)| - old(current)
    {
      if at.None? {
        return None, [], 0;
      }
      r, acts, looked := PushNode(at.value, base);
    }

    /** ngx_pfree: NULL matches an empty node, and freeing it does nothing */
    method Pfree(ptr: Option<nat>) returns (ok: bool, acts: seq<Act>)
      requires Valid()
      modifies `large
      ensures Valid() && (View(), ok) == Freed(old(View()), ptr)
      ensures acts == if ok && ptr.Some? then [Release(ptr.value)] else []
    {
      var l := 0;
      while l < |large|
        invariant 0 <= l <= |large|
        invariant Holder(large, ptr) == l + Holder(large[l..], ptr)
        invariant large == old(large)
      {
        if ptr == large[l].alloc {
          large := large[l := large[l].(alloc := None)];
          return true, if ptr.Some? then [Release(ptr.value)] else [];
        }
        assert large[l..][1..] == large[l + 1..];
        l := l + 1;
      }
      return false, [];
    }

    /** The walk that frees the large regions */
    method FreeLarge() returns (acts: seq<Act>)
      ensures acts == LargeActs(large)
    {
      hide LargeActs;
      acts := [];
      var l := 0;
      while l < |large|
        invariant 0 <= l <= |large|
        invariant LargeActs(large) == acts + LargeActs(large[l..])
      {
        ActsAt(large, l);
        ghost var was := acts;
        acts := acts + [Touch(large[l].at, NODE)];
        if large[l].alloc.Some? {
          acts := acts + [Release(large[l].alloc.value)];
        }
        acts := acts + [Touch(large[l].at, NODE)];
        assert acts == was + NodeActs(large[l]);
        l := l + 1;
      }
      NoActs(large[l..]);
    }

    lemma ActsAt(ns: seq<Node>, l: nat)
      requires l < |ns|
      ensures LargeActs(ns[l..]) == NodeActs(ns[l]) + LargeActs(ns[l + 1..])
    {
      assert ns[l..][0] == ns[l] && ns[l..][1..] == ns[l + 1..];
    }

    lemma NoActs(l: seq<Node>)
      ensures l == [] ==> LargeActs(l) == []
    {
    }

    /** ngx_reset_pool */
    method ResetPool() returns (acts: seq<Act>)
      requires Valid()
      modifies this
      ensures Valid() && View() == Cleared(old(View())) && current == 0 && large == []
      ensures forall i :: 0 <= i < |blocks| ==> blocks[i].last == blocks[i].base + 56 && blocks[i].failed == 0
      ensures acts == LargeActs(old(large))
    {
      acts := FreeLarge();
      ghost var was := blocks;
      var p := 0;
      while p < |blocks|
        invariant 0 <= p <= |blocks| == |was|
        invariant forall i :: 0 <= i < |was| ==>
          blocks[i] == if i < p then was[i].(last := was[i].base + POOL, failed := 0) else was[i]
        invariant current == old(current) && max == old(max) && large == old(large)
      {
        blocks := blocks[p := blocks[p].(last := blocks[p].base + POOL, failed := 0)];
        p := p + 1;
      }
      current := 0;
      large := [];
    }

    /** ngx_destroy_pool */
    method DestroyPool() returns (acts: seq<Act>)
      requires Valid()
      ensures acts == Destroyed(View())
    {
      var larges := FreeLarge();
      acts := [Touch(blocks[0].base, POOL)] + larges + [Touch(blocks[0].base, DATA)];
      var p := 0;
      while true
        invariant 0 <= p < |blocks|
        invariant acts != [] && acts[|acts| - 1] == Touch(blocks[p].base, DATA)
        invariant Destroyed(View()) == acts[..|acts| - 1] + BlockActs(blocks[p..])
        decreases |blocks| - p
      {
        assert blocks[p..][0] == blocks[p] && blocks[p..][1..] == blocks[p + 1..];
        acts := acts + [Release(blocks[p].base)];
        if p + 1 == |blocks| {
          break;
        }
        p := p + 1;
        acts := acts + [Touch(blocks[p].base, DATA)];
      }
    }
  }
}
