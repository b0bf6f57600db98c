/** Runs of a pair of bufferevents, over real buffers. */
module PairRuns {
  import opened ChainValues
  import opened EvBuffers
  import opened PairedBufferevents
  import PairSpec

  /** A watermark is a size_t. */
  predicate Callable(op: PairSpec.Op) {
    op.SetHigh? ==> op.mark <= SIZE_MAX
  }

  /** Both ends as the model sees them. */
  ghost function Look(a: PairEnd, b: PairEnd): PairSpec.Pair
    reads a, b, a.input, a.output, b.input, b.output
  {
    PairSpec.Pair(a.View(), b.View())
  }

  /** What a call hands out: as much of the input as is asked for, if it is a read. */
  ghost function Given(e: PairSpec.End, op: PairSpec.Op): seq<byte> {
    if op.Read? then e.input[..PairSpec.Min(op.size, |e.input|)] else []
  }

  /** What it accepts: the data, if it is a write that fits the output. */
  ghost function Accepted(e: PairSpec.End, op: PairSpec.Op): seq<byte> {
    if op.Write? && |op.data| <= SIZE_MAX - |e.output| && |op.data| <= MAX_DATA then op.data else []
  }

  /** One call at end e: what it does to both ends is what the model says, and so is what it accepts and hands out. */
  method StepPair(e: PairEnd, p: PairEnd, op: PairSpec.Op) returns (taken: seq<byte>, out: seq<byte>)
    requires Live(e, p) && Callable(op)
    modifies e, p, e.Footprint(), p.Footprint()
    ensures Live(e, p) && fresh(Whole(e, p) - old(Whole(e, p)))
    ensures (e.View(), p.View()) == PairSpec.Apply(old(e.View()), old(p.View()), op)
    ensures taken == Accepted(old(e.View()), op) && out == Given(old(e.View()), op)
  {
    hide EvBuffer.Valid, EvBuffer.Contents, PairSpec.Apply;
    taken, out := [], [];
    match op
    case Write(data) =>
      var ok := Write(e, p, data);
      if ok {
        taken := data;
      }
    case Read(size) =>
      out := Read(e, p, size);
    case Enable(read, write) =>
      Enable(e, p, read, write);
    case Disable(read, write) =>
      Disable(e, p, read, write);
    case SetHigh(mark) =>
      SetHigh(e, p, mark);
    case Flush(read, write) =>
      var told := Flush(e, p, read, write, Flushing);
  }

  /** One call at either end. */
  method StepEither(a: PairEnd, b: PairEnd, atA: bool, op: PairSpec.Op) returns (taken: seq<byte>, out: seq<byte>)
    requires Live(a, b) && Callable(op)
    modifies a, b, a.Footprint(), b.Footprint()
    ensures Live(a, b) && fresh(Whole(a, b) - old(Whole(a, b)))
    ensures Look(a, b) == PairSpec.Step(old(Look(a, b)), atA, op)
    ensures var e := if atA then old(Look(a, b)).a else old(Look(a, b)).b; taken == Accepted(e, op) && out == Given(e, op)
  {
    hide EvBuffer.Valid, EvBuffer.Contents, PairSpec.Apply, Given, Accepted;
    if atA {
      taken, out := StepPair(a, b, op);
    } else {
      taken, out := StepPair(b, a, op);
    }
  }

  // ---- what has been accepted and handed out ----

  /** A read hands out the front of the input, as many bytes as are asked for or all there are. */
  lemma GivenIs(e: PairSpec.End, size: nat)
    ensures var g := Given(e, PairSpec.Read(size)); g <= e.input && |g| <= size && (|g| == size || g == e.input)
  {
  }

  /** The same has been written at an end, and read. */
  predicate Same(now: PairSpec.End, was: PairSpec.End) {
    now.wrote == was.wrote && now.got == was.got
  }

  lemma TransferGives(src: PairSpec.End, dst: PairSpec.End, ignoreWm: bool)
    ensures var (s, d) := PairSpec.Transfer(src, dst, ignoreWm); Same(s, src) && Same(d, dst)
  {
  }

  lemma TalkGives(src: PairSpec.End, dst: PairSpec.End)
    ensures var (s, d) := PairSpec.Talk(src, dst); Same(s, src) && Same(d, dst)
  {
  }

  lemma RecheckGives(e: PairSpec.End, p: PairSpec.End)
    ensures var (f, q) := PairSpec.Recheck(e, p); Same(f, e) && Same(q, p)
  {
    TalkGives(p, e.(suspended := false));
  }

  /** A call accepts and hands out what it says, and nothing else counts as written or read. */
  lemma ApplyGives(e: PairSpec.End, p: PairSpec.End, op: PairSpec.Op)
    ensures var (f, q) := PairSpec.Apply(e, p, op);
      Same(q, p) && f.got == e.got + Given(e, op) && f.wrote == e.wrote + Accepted(e, op)
  {
    hide PairSpec.Talk, PairSpec.Recheck, PairSpec.Transfer;
    match op
    case Write(data) =>
      TalkGives(e.(output := e.output + data, wrote := e.wrote + data), p);
    case Read(size) =>
      var n := PairSpec.Min(size, |e.input|);
      RecheckGives(e.(input := e.input[n..], got := e.got + e.input[..n]), p);
    case Enable(read, write) =>
      var e1 := e.(canRead := e.canRead || read, canWrite := e.canWrite || write);
      TalkGives(p, e1);
      var (p2, e2) := if read && !e.suspended then PairSpec.Talk(p, e1) else (p, e1);
      TalkGives(e2, p2);
    case Disable(read, write) =>
    case SetHigh(mark) =>
      RecheckGives(e.(high := mark), p);
    case Flush(read, write) =>
      TransferGives(p, e, true);
      var (p1, e1) := if read then PairSpec.Transfer(p, e, true) else (p, e);
      TransferGives(e1, p1, true);
  }

  lemma StepGives(s: PairSpec.Pair, atA: bool, op: PairSpec.Op)
    ensures var t := PairSpec.Step(s, atA, op);
      && t.a.got == s.a.got + (if atA then Given(s.a, op) else [])
      && t.b.got == s.b.got + (if atA then [] else Given(s.b, op))
      && t.a.wrote == s.a.wrote + (if atA then Accepted(s.a, op) else [])
      && t.b.wrote == s.b.wrote + (if atA then [] else Accepted(s.b, op))
  {
    hide PairSpec.Apply, Given, Accepted;
    if atA {
      ApplyGives(s.a, s.b, op);
    } else {
      ApplyGives(s.b, s.a, op);
    }
  }

  // ---- runs ----

  /** What calls at an end have accepted and handed out. */
  datatype Told = Told(accepted: seq<byte>, given: seq<byte>)

  /** With it an end has come from one state to the other. */
  ghost predicate Since(now: PairSpec.End, was: PairSpec.End, told: Told) {
    now.wrote == was.wrote + told.accepted && now.got == was.got + told.given
  }

  lemma SinceStart(e: PairSpec.End)
    ensures Since(e, e, Told([], []))
    ensures forall told: Told :: Since(e, PairSpec.NEW_END, told) ==> e.wrote == told.accepted && e.got == told.given
  {
  }

  lemma SinceMore(now: PairSpec.End, mid: PairSpec.End, was: PairSpec.End, told: Told, taken: seq<byte>, out: seq<byte>)
    requires Since(mid, was, told) && now.wrote == mid.wrote + taken && now.got == mid.got + out
    ensures Since(now, was, Told(told.accepted + taken, told.given + out))
    ensures taken == out == [] ==> Since(now, was, told)
  {
    Assoc(was.wrote, told.accepted, taken);
    Assoc(was.got, told.given, out);
  }

  /** Any calls at both ends, in any order, do to the buffers what they do in the model. */
  method RunPair(a: PairEnd, b: PairEnd, ops: seq<(bool, PairSpec.Op)>) returns (toldA: Told, toldB: Told)
    requires Live(a, b) && forall i :: 0 <= i < |ops| ==> Callable(ops[i].1)
    modifies a, b, a.Footprint(), b.Footprint()
    ensures Live(a, b) && Look(a, b) == PairSpec.Run(old(Look(a, b)), ops)
    ensures Since(Look(a, b).a, old(Look(a, b)).a, toldA) && Since(Look(a, b).b, old(Look(a, b)).b, toldB)
  {
    hide EvBuffer.Valid, EvBuffer.Contents, PairSpec.Apply, PairSpec.Step, Live, Look, Given, Accepted, Since;
    ghost var start := Look(a, b);
    toldA, toldB := Told([], []), Told([], []);
    SinceStart(start.a);
    SinceStart(start.b);
    for i := 0 to |ops|
      invariant Live(a, b) && fresh(Whole(a, b) - old(Whole(a, b)))
      invariant PairSpec.Run(start, ops) == PairSpec.Run(Look(a, b), ops[i..])
      invariant Since(Look(a, b).a, start.a, toldA) && Since(Look(a, b).b, start.b, toldB)
    {
      assert ops[i..][0] == ops[i] && ops[i..][1..] == ops[i + 1..];
      ghost var s := Look(a, b);
      StepGives(s, ops[i].0, ops[i].1);
      var taken, out := StepEither(a, b, ops[i].0, ops[i].1);
      if ops[i].0 {
        SinceMore(Look(a, b).a, s.a, start.a, toldA, taken, out);
        SinceMore(Look(a, b).b, s.b, start.b, toldB, [], []);
        toldA := Told(toldA.accepted + taken, toldA.given + out);
      } else {
        SinceMore(Look(a, b).a, s.a, start.a, toldA, [], []);
        SinceMore(Look(a, b).b, s.b, start.b, toldB, taken, out);
        toldB := Told(toldB.accepted + taken, toldB.given + out);
      }
    }
  }

  /**
   From bufferevent_pair_new on, whatever calls are made at both ends: they end where the run of the
   model does, and what the writes at one end have accepted is what the reads at the other have handed
   out, then its input, then the output that waits, in this order.  Each flag is what the last call
   that named it made it; where one end may write and the other read and has room, all has arrived.
   Nothing waits that could move, and where no mark is passed over no input passes it.
   */
  method RunNewPair(ops: seq<(bool, PairSpec.Op)>) returns (a: PairEnd, b: PairEnd, toldA: Told, toldB: Told)
    requires forall i :: 0 <= i < |ops| ==> Callable(ops[i].1)
    ensures Live(a, b) && Look(a, b) == PairSpec.Run(PairSpec.Pair(PairSpec.NEW_END, PairSpec.NEW_END), ops)
    ensures toldA.accepted == toldB.given + b.input.Contents() + a.output.Contents()
    ensures toldB.accepted == toldA.given + a.input.Contents() + b.output.Contents()
    ensures a.canRead <==> PairSpec.Set(ops, true, true, false)
    ensures a.canWrite <==> PairSpec.Set(ops, true, false, true)
    ensures b.canRead <==> PairSpec.Set(ops, false, true, false)
    ensures b.canWrite <==> PairSpec.Set(ops, false, false, true)
    ensures a.canWrite && b.canRead && (b.high == 0 || |b.input.Contents()| < b.high) ==>
      toldA.accepted == toldB.given + b.input.Contents()
    ensures b.canWrite && a.canRead && (a.high == 0 || |a.input.Contents()| < a.high) ==>
      toldB.accepted == toldA.given + a.input.Contents()
    ensures !PairSpec.WantsToTalk(a.View(), b.View()) && !PairSpec.WantsToTalk(b.View(), a.View())
    ensures PairSpec.Coherent(a.View()) && PairSpec.Coherent(b.View())
    ensures PairSpec.Heeding(PairSpec.Pair(PairSpec.NEW_END, PairSpec.NEW_END), ops) ==>
      PairSpec.Bounded(a.View()) && PairSpec.Bounded(b.View())
  {
    hide EvBuffer.Valid, EvBuffer.Contents, PairSpec.Run, PairSpec.Bounded, PairSpec.WantsToTalk;
    hide PairSpec.Coherent, PairSpec.Set, Since;
    a, b := NewPair();
    toldA, toldB := RunPair(a, b, ops);
    PairSpec.FreshPair(ops);
    PairSpec.FlagsRun(PairSpec.Pair(PairSpec.NEW_END, PairSpec.NEW_END), ops);
    PairSpec.DeliveredRun(ops);
    SinceStart(a.View());
    SinceStart(b.View());
    ghost var s := PairSpec.Pair(PairSpec.NEW_END, PairSpec.NEW_END);
    if PairSpec.Heeding(s, ops) {
      PairSpec.FreshBounded(ops);
    }
  }
}
