/** Paired bufferevents over real buffers. */
module PairedBufferevents {
  import opened ChainValues
  import opened EvBuffers
  import opened EvBufferSplice
  import opened Options
  import EvBufferSearch
  import PairSpec

  /** struct bufferevent_pair; wrote and got are what the user has written and read */
  class PairEnd {
    const input: EvBuffer
    const output: EvBuffer
    var canRead: bool
    var canWrite: bool
    var high: nat
    var suspended: bool
    ghost var wrote: seq<byte>
    ghost var got: seq<byte>

    constructor ()
      ensures fresh(input) && fresh(output) && fresh(input.Repr) && fresh(output.Repr)
      ensures Valid() && View() == PairSpec.NEW_END
    {
      hide EvBuffer.Valid; hide EvBuffer.Contents; hide EvBuffer.Wired;
      input := new EvBuffer();
      output := new EvBuffer();
      canRead, canWrite, high, suspended := false, true, 0, false;
      wrote, got := [], [];
      new;
      input.SetFreeze(false, true);
      output.SetFreeze(true, true);
    }

    /** All that the two buffers own. */
    ghost function Footprint(): set<object>
      reads input, output
    {
      input.Repr + output.Repr
    }

    /** The buffers are in order, and frozen where only a transfer may touch them. */
    ghost predicate Valid()
      reads this, input, output, input.Repr, output.Repr
    {
      && input in input.Repr && output in output.Repr
      && input.Valid() && output.Valid() && input.Repr !! output.Repr && this !in input.Repr && this !in output.Repr
      && input.freezeEnd && !input.freezeStart && output.freezeStart && !output.freezeEnd
      && high <= SIZE_MAX
    }

    /** The end as the model sees it. */
    ghost function View(): PairSpec.End
      reads this, input, output
    {
      PairSpec.End(wrote, got, input.Contents(), output.Contents(), canRead, canWrite, high, suspended)
    }
  }

  /** Two ends that share nothing. */
  ghost predicate Apart(e: PairEnd, p: PairEnd)
    reads e.input, e.output, p.input, p.output
  {
    e != p && e.Footprint() !! p.Footprint() && e !in p.Footprint() && p !in e.Footprint()
  }

  /** bufferevent_pair_new */
  method NewPair() returns (a: PairEnd, b: PairEnd)
    ensures fresh(a) && fresh(b) && fresh(a.Footprint()) && fresh(b.Footprint())
    ensures a.Valid() && b.Valid() && Apart(a, b)
    ensures PairSpec.Pair(a.View(), b.View()) == PairSpec.Pair(PairSpec.NEW_END, PairSpec.NEW_END)
  {
    hide EvBuffer.Valid; hide EvBuffer.Contents;
    a := new PairEnd();
    b := new PairEnd();
  }

  /** The data that be_pair_transfer moves; returns its `n`. */
  method MoveBytes(out: EvBuffer, inp: EvBuffer, high: nat, ignoreWm: bool) returns (moved: nat)
    requires out.Valid() && inp.Valid() && out.Repr !! inp.Repr && high <= SIZE_MAX
    requires !out.freezeStart && !inp.freezeEnd
    modifies out.Repr, inp.Repr
    ensures out.Valid() && inp.Valid() && out.Repr !! inp.Repr && out in out.Repr && inp in inp.Repr
    ensures fresh(out.Repr + inp.Repr - old(out.Repr + inp.Repr))
    ensures out.freezeEnd == old(out.freezeEnd) && out.freezeStart == old(out.freezeStart)
    ensures inp.freezeEnd == old(inp.freezeEnd) && inp.freezeStart == old(inp.freezeStart)
    ensures moved == PairSpec.Amount(|old(out.Contents())|, |old(inp.Contents())|, high, ignoreWm)
    ensures out.Contents() == old(out.Contents())[moved..]
    ensures inp.Contents() == old(inp.Contents()) + old(out.Contents())[..moved] && inp.totalLen == |inp.Contents()|
  {
    hide Content; hide EvBuffer.Wired; hide DataIndex; hide WholeChunks;
    out.WiredShape();
    inp.WiredShape();
    if high != 0 {
      var size := inp.totalLen;
      if size < high {
        moved := RemoveBuffer(out, inp, high - size);
      } else if ignoreWm {
        moved := out.totalLen;
        var ok := AddBuffer(inp, out);
      } else {
        moved := 0;
      }
    } else {
      moved := out.totalLen;
      var ok := AddBuffer(inp, out);
    }
    out.WiredShape();
    inp.WiredShape();
  }

  /** The same between buffers that are frozen but for the time it takes. */
  method Pour(out: EvBuffer, inp: EvBuffer, high: nat, ignoreWm: bool) returns (moved: nat)
    requires out.Valid() && inp.Valid() && out.Repr !! inp.Repr && high <= SIZE_MAX
    requires out in out.Repr && inp in inp.Repr
    requires out.freezeStart && !out.freezeEnd && inp.freezeEnd && !inp.freezeStart
    modifies out.Repr, inp.Repr
    ensures out.Valid() && inp.Valid() && out.Repr !! inp.Repr && out in out.Repr && inp in inp.Repr
    ensures fresh(out.Repr + inp.Repr - old(out.Repr + inp.Repr))
    ensures out.freezeStart && !out.freezeEnd && inp.freezeEnd && !inp.freezeStart
    ensures moved == PairSpec.Amount(|old(out.Contents())|, |old(inp.Contents())|, high, ignoreWm)
    ensures out.Contents() == old(out.Contents())[moved..]
    ensures inp.Contents() == old(inp.Contents()) + old(out.Contents())[..moved] && inp.totalLen == |inp.Contents()|
  {
    hide Content; hide EvBuffer.Valid; hide PairSpec.Amount;
    out.SetFreeze(true, false);
    inp.SetFreeze(false, false);
    moved := MoveBytes(out, inp, high, ignoreWm);
    out.SetFreeze(true, true);
    inp.SetFreeze(false, true);
  }

  /** be_pair_transfer */
  method Transfer(src: PairEnd, dst: PairEnd, ignoreWm: bool)
    requires src.Valid() && dst.Valid() && Apart(src, dst)
    modifies src.output.Repr, dst.input.Repr, dst`suspended
    ensures src.Valid() && dst.Valid() && Apart(src, dst)
    ensures fresh(src.output.Repr + dst.input.Repr - old(src.output.Repr + dst.input.Repr))
    ensures (src.View(), dst.View()) == PairSpec.Transfer(old(src.View()), old(dst.View()), ignoreWm)
  {
    hide Content; hide EvBuffer.Valid; hide EvBuffer.Contents; hide PairSpec.Amount;
    var n := Pour(src.output, dst.input, dst.high, ignoreWm);
    // The watermark callback on the new input; when it unsuspends there is nothing left to pass on.
    if n > 0 && dst.high != 0 {
      dst.suspended := dst.input.totalLen >= dst.high;
    }
  }

  /** Everything that a call at either end may change. */
  ghost function Whole(e: PairEnd, p: PairEnd): set<object>
    reads e.input, e.output, p.input, p.output
  {
    {e, p} + e.Footprint() + p.Footprint()
  }

  /** A pair in working order. */
  ghost predicate Live(e: PairEnd, p: PairEnd)
    reads e, p, e.input, e.output, p.input, p.output, e.Footprint(), p.Footprint()
  {
    e.Valid() && p.Valid() && Apart(e, p)
  }

  /** be_pair_wants_to_talk, and be_pair_transfer if so */
  method Talk(src: PairEnd, dst: PairEnd)
    requires Live(src, dst)
    modifies src.output.Repr, dst.input.Repr, dst`suspended
    ensures Live(src, dst)
    ensures fresh(src.output.Repr + dst.input.Repr - old(src.output.Repr + dst.input.Repr))
    ensures (src.View(), dst.View()) == PairSpec.Talk(old(src.View()), old(dst.View()))
  {
    hide Content; hide PairSpec.Transfer; hide EvBuffer.Wired;
    if src.canWrite && dst.canRead && !dst.suspended && src.output.totalLen > 0 {
      Transfer(src, dst, false);
    }
  }

  /** bufferevent_inbuf_wm_cb at `e`, down to be_pair_enable */
  method Recheck(e: PairEnd, p: PairEnd)
    requires Live(e, p)
    modifies p.output.Repr, e.input.Repr, e`suspended
    ensures Live(e, p)
    ensures fresh(p.output.Repr + e.input.Repr - old(p.output.Repr + e.input.Repr))
    ensures (e.View(), p.View()) == PairSpec.Recheck(old(e.View()), old(p.View()))
  {
    hide Content; hide PairSpec.Talk; hide EvBuffer.Wired;
    if e.high > 0 && e.input.totalLen >= e.high {
      e.suspended := true;
    } else {
      e.suspended := false;
      if e.canRead {
        Talk(p, e);
      }
    }
  }

  /** bufferevent_write, with be_pair_outbuf_cb */
  method Write(e: PairEnd, p: PairEnd, data: seq<byte>) returns (ok: bool)
    requires Live(e, p)
    modifies e`wrote, e.output.Repr, p.input.Repr, p`suspended
    ensures Live(e, p) && fresh(Whole(e, p) - old(Whole(e, p)))
    ensures ok <==> |data| <= SIZE_MAX - |old(e.output.Contents())| && |data| <= MAX_DATA
    ensures (e.View(), p.View()) == PairSpec.Apply(old(e.View()), old(p.View()), PairSpec.Write(data))
  {
    hide Content; hide PairSpec.Talk; hide EvBuffer.Wired;
    ghost var before := e.View();
    ok := AddOutput(e, data);
    if ok && |data| > 0 {
      Talk(e, p);
    }
    assert |data| == 0 ==> data == [] && before.output + data == before.output && before.wrote + data == before.wrote;
  }

  /** The buffer part of bufferevent_write */
  method AddOutput(e: PairEnd, data: seq<byte>) returns (ok: bool)
    requires e.Valid()
    modifies e`wrote, e.output.Repr
    ensures e.Valid() && fresh(e.output.Repr - old(e.output.Repr))
    ensures ok <==> |data| <= SIZE_MAX - |old(e.output.Contents())| && |data| <= MAX_DATA
    ensures var v := old(e.View());
      e.View() == if ok then v.(output := v.output + data, wrote := v.wrote + data) else v
  {
    hide Content; hide EvBuffer.Wired;
    ok := e.output.Add(data);
    e.output.WiredShape();
    if ok {
      e.wrote := e.wrote + data;
    }
  }

  /** bufferevent_read, with the watermark callback if there is one */
  method Read(e: PairEnd, p: PairEnd, size: nat) returns (data: seq<byte>)
    requires Live(e, p)
    modifies e`got, p.output.Repr, e.input.Repr, e`suspended
    ensures Live(e, p) && fresh(Whole(e, p) - old(Whole(e, p)))
    ensures data == old(e.View()).input[..PairSpec.Min(size, |old(e.View()).input|)]
    ensures data <= old(e.input.Contents()) && |data| <= size && (|data| == size || data == old(e.input.Contents()))
    ensures (e.View(), p.View()) == PairSpec.Apply(old(e.View()), old(p.View()), PairSpec.Read(size))
  {
    hide Content; hide PairSpec.Recheck; hide EvBuffer.Wired;
    data := TakeInput(e, size);
    if |data| > 0 && e.high > 0 {
      Recheck(e, p);
    }
  }

  /** The buffer part of bufferevent_read */
  method TakeInput(e: PairEnd, size: nat) returns (data: seq<byte>)
    requires e.Valid()
    modifies e`got, e.input.Repr
    ensures e.Valid() && fresh(e.input.Repr - old(e.input.Repr))
    ensures var n := PairSpec.Min(size, |old(e.View()).input|);
      data == old(e.View()).input[..n] &&
      e.View() == old(e.View()).(input := old(e.View()).input[n..], got := old(e.View()).got + data)
  {
    hide Content; hide EvBuffer.Wired;
    var n;
    n, data := EvBufferSearch.Remove(e.input, size);
    e.input.WiredShape();
    e.got := e.got + data;
  }

  /** The enabled flags */
  method Allow(e: PairEnd, p: PairEnd, read: bool, write: bool)
    requires Live(e, p)
    modifies e`canRead, e`canWrite
    ensures Live(e, p) && p.View() == old(p.View())
    ensures e.View() == old(e.View()).(canRead := old(e.canRead) || read, canWrite := old(e.canWrite) || write)
  {
    hide Content; hide EvBuffer.Valid; hide EvBuffer.Contents;
    e.canRead := e.canRead || read;
    e.canWrite := e.canWrite || write;
  }

  /** bufferevent_enable, with be_pair_enable */
  method Enable(e: PairEnd, p: PairEnd, read: bool, write: bool)
    requires Live(e, p)
    modifies e, p`suspended, e.Footprint(), p.Footprint()
    ensures Live(e, p) && fresh(Whole(e, p) - old(Whole(e, p)))
    ensures (e.View(), p.View()) == PairSpec.Apply(old(e.View()), old(p.View()), PairSpec.Enable(read, write))
    ensures e.canRead == (old(e.canRead) || read) && e.canWrite == (old(e.canWrite) || write)
    ensures p.canRead == old(p.canRead) && p.canWrite == old(p.canWrite)
  {
    hide Content; hide PairSpec.Talk; hide EvBuffer.Valid; hide EvBuffer.Contents;
    var implRead := read && !e.suspended;
    Allow(e, p, read, write);
    if implRead {
      Talk(p, e);
    }
    if write {
      Talk(e, p);
    }
  }

  /** bufferevent_disable */
  method Disable(e: PairEnd, p: PairEnd, read: bool, write: bool)
    requires Live(e, p)
    modifies e`canRead, e`canWrite
    ensures Live(e, p)
    ensures (e.View(), p.View()) == PairSpec.Apply(old(e.View()), old(p.View()), PairSpec.Disable(read, write))
    ensures e.View() == old(e.View()).(canRead := e.canRead, canWrite := e.canWrite) && p.View() == old(p.View())
    ensures e.canRead == (old(e.canRead) && !read) && e.canWrite == (old(e.canWrite) && !write)
  {
    hide Content; hide EvBuffer.Valid; hide EvBuffer.Contents;
    e.canRead := e.canRead && !read;
    e.canWrite := e.canWrite && !write;
  }

  /** bufferevent_setwatermark for reading */
  method SetHigh(e: PairEnd, p: PairEnd, mark: nat)
    requires Live(e, p) && mark <= SIZE_MAX
    modifies e`high, p.output.Repr, e.input.Repr, e`suspended
    ensures Live(e, p) && fresh(Whole(e, p) - old(Whole(e, p)))
    ensures (e.View(), p.View()) == PairSpec.Apply(old(e.View()), old(p.View()), PairSpec.SetHigh(mark))
    ensures e.high == mark
  {
    hide Content; hide PairSpec.Recheck; hide EvBuffer.Valid; hide EvBuffer.Contents;
    e.high := mark;
    Recheck(e, p);
  }

  /** enum bufferevent_flush_mode */
  datatype FlushMode = Normal | Flushing | Finished

  /** BEV_EVENT_EOF for the partner's event callback, with the directions it is about */
  datatype Eof = Eof(reading: bool, writing: bool)

  /** be_pair_flush; the result is what the partner's event callback is told, if anything */
  method Flush(e: PairEnd, p: PairEnd, read: bool, write: bool, mode: FlushMode) returns (told: Option<Eof>)
    requires Live(e, p)
    modifies e`suspended, p`suspended, e.Footprint(), p.Footprint()
    ensures Live(e, p) && fresh(Whole(e, p) - old(Whole(e, p)))
    ensures (e.View(), p.View()) ==
      if mode.Normal? then (old(e.View()), old(p.View()))
      else PairSpec.Apply(old(e.View()), old(p.View()), PairSpec.Flush(read, write))
    ensures told == if mode.Finished? then Some(Eof(write, read)) else None
  {
    hide Content; hide PairSpec.Transfer; hide EvBuffer.Valid; hide EvBuffer.Contents;
    if mode.Normal? {
      return None;
    }
    if read {
      Transfer(p, e, true);
    }
    if write {
      Transfer(e, p, true);
    }
    return if mode.Finished? then Some(Eof(write, read)) else None;
  }
}
