/** Whole runs of two buffers against two plain sequences of bytes. */
module EvBufferRuns {
  import opened ChainValues
  import opened EvBuffers
  import opened EvBufferLines
  import opened Options
  import EvBufferExpand
  import EvBufferRead
  import EvBufferReserve
  import EvBufferSearch
  import EvBufferSplice
  import TokenBucket

  /** The plain form of a buffer: its bytes, and whether the front and the end are frozen. */
  datatype Side = Side(data: seq<byte>, front: bool, end: bool)

  /** Two of them; taken is everything that evbuffer_remove and evbuffer_readln have handed out. */
  datatype Plain = Plain(a: Side, b: Side, taken: seq<byte>) {
    function Of(atA: bool): Side {
      if atA then a else b
    }

    function Put(atA: bool, side: Side): Plain {
      if atA then this.(a := side) else this.(b := side)
    }
  }

  /** An operation on one buffer, or out of the other one into it. */
  datatype Op =
    | Add(data: seq<byte>)
    | Prepend(data: seq<byte>)
    | Drain(len: nat)
    | Remove(len: nat)
    | ReadLn(style: EolStyle)
    | Pullup(size: int)
    | Expand(room: nat)
    | Fill(data: seq<byte>, nVecs: nat)   // room reserved in vectors, written and committed
    | Receive(howmuch: int, waiting: int, arriving: seq<byte>)   // from a socket; [] is an error or the end
    | Freeze(front: bool, on: bool)
    | AddBuffer
    | PrependBuffer
    | RemoveBuffer(len: nat)

  /** n, or all there is. */
  function Upto(data: seq<byte>, n: nat): nat {
    if n < |data| then n else |data|
  }

  /** The first terminator of a style: where it is and how long. */
  ghost function LineEnd(data: seq<byte>, style: EolStyle): (r: Option<(nat, nat)>)
    ensures r.Some? ==> Terminator(data, style, 0, r.value.0, r.value.1) && r.value.0 + r.value.1 <= |data|
    ensures r.None? ==> forall i: nat, n: nat :: !Terminator(data, style, 0, i, n)
  {
    if exists i: nat, n: nat :: Terminator(data, style, 0, i, n) then
      var i: nat, n: nat :| Terminator(data, style, 0, i, n);
      TerminatorInData(data, style, 0, i, n);
      Some((i, n))
    else None
  }

  /** What a read takes of what arrives. */
  function Arriving(howmuch: int, waiting: int, arriving: seq<byte>): seq<byte> {
    arriving[..Upto(arriving, TokenBucket.ReadSize(howmuch, waiting))]
  }

  /** That is the front of it, as long as it lasts and a read may ask for. */
  lemma ArrivesMost(howmuch: int, waiting: int, arriving: seq<byte>)
    ensures var n := |Arriving(howmuch, waiting, arriving)|;
      && n <= |arriving| && Arriving(howmuch, waiting, arriving) == arriving[..n]
      && TokenBucket.Askable(howmuch, waiting, n)
      && (n < |arriving| ==> forall k: int :: TokenBucket.Askable(howmuch, waiting, k) ==> k <= n)
  {
    hide TokenBucket.ReadSize;
    TokenBucket.ReadsMost(howmuch, waiting);
  }

  /** What an operation on a single buffer means for a plain one, and what it hands out. */
  ghost function Alone(h: Side, op: Op): (Side, seq<byte>) {
    match op
    case Add(data) => (if h.end then h else h.(data := h.data + data), [])
    case Prepend(data) => (if h.front then h else h.(data := data + h.data), [])
    case Drain(len) => (if h.front then h else h.(data := h.data[Upto(h.data, len)..]), [])
    case Remove(len) =>
      if h.front then (h, [])
      else (h.(data := h.data[Upto(h.data, len)..]), h.data[..Upto(h.data, len)])
    case ReadLn(style) =>
      var line := LineEnd(h.data, style);
      if h.front || line.None? then (h, [])
      else (h.(data := h.data[line.value.0 + line.value.1..]), h.data[..line.value.0])
    case Fill(data, _) => (if h.end then h else h.(data := h.data + data), [])
    case Receive(howmuch, waiting, arriving) =>
      (if h.end then h else h.(data := h.data + Arriving(howmuch, waiting, arriving)), [])
    case Freeze(front, on) => (if front then h.(front := on) else h.(end := on), [])
    case _ => (h, [])
  }

  /** What each operation means for plain sequences. */
  ghost function Next(s: Plain, atA: bool, op: Op): Plain {
    var here, there := s.Of(atA), s.Of(!atA);
    match op
    case AddBuffer =>
      if here.end || there.front then s
      else s.Put(atA, here.(data := here.data + there.data)).Put(!atA, there.(data := []))
    case PrependBuffer =>
      if here.front || there.front then s
      else s.Put(atA, here.(data := there.data + here.data)).Put(!atA, there.(data := []))
    case RemoveBuffer(len) =>
      if here.end || there.front then s
      else
        var n := Upto(there.data, len);
        s.Put(atA, here.(data := here.data + there.data[..n])).Put(!atA, there.(data := there.data[n..]))
    case _ =>
      var (side, out) := Alone(here, op);
      s.Put(atA, side).(taken := s.taken + out)
  }

  /** One chain can hold what is given, and the lengths stay in a size_t. */
  predicate FitsAlone(h: Side, op: Op) {
    match op
    case Add(data) => |data| <= MAX_DATA && |data| + |h.data| <= SIZE_MAX
    case Prepend(data) => |data| <= MAX_DATA && |data| + |h.data| <= SIZE_MAX
    case ReadLn(_) => |h.data| <= SIZE_MAX
    case Fill(data, nVecs) => 0 < |data| <= MAX_DATA && 2 <= nVecs
    case Receive(howmuch, _, _) => howmuch != 0
    case _ => true
  }

  predicate Fits(s: Plain, atA: bool, op: Op) {
    && FitsAlone(s.Of(atA), op)
    && (op.RemoveBuffer? ==> |s.a.data| + |s.b.data| <= SIZE_MAX)
  }

  /** Each operation fits where it happens. */
  ghost predicate Run(s: Plain, ops: seq<(bool, Op)>)
    decreases |ops|
  {
    ops == [] || (Fits(s, ops[0].0, ops[0].1) && Run(Next(s, ops[0].0, ops[0].1), ops[1..]))
  }

  /** Where a run of the plain form ends. */
  ghost function End(s: Plain, ops: seq<(bool, Op)>): Plain
    decreases |ops|
  {
    if ops == [] then s else End(Next(s, ops[0].0, ops[0].1), ops[1..])
  }

  /** What a buffer is in the plain form. */
  ghost function Look(buf: EvBuffer): Side
    requires buf.Valid()
    reads buf, buf.Repr
  {
    Side(buf.Contents(), buf.freezeStart, buf.freezeEnd)
  }

  /** Two buffers in order and apart. */
  ghost predicate Live(a: EvBuffer, b: EvBuffer)
    reads a, b, a.Repr, b.Repr
  {
    a != b && a in a.Repr && b in b.Repr && a.Repr !! b.Repr && a.Valid() && b.Valid()
  }

  lemma LineFound(data: seq<byte>, style: EolStyle, i: nat, n: nat)
    requires Terminator(data, style, 0, i, n)
    ensures LineEnd(data, style) == Some((i, n))
  {
    hide Terminator;
    var line := LineEnd(data, style).value;
    TerminatorUnique(data, style, 0, i, n, line.0, line.1);
  }

  /** evbuffer_readln in the plain form */
  method ReadAt(buf: EvBuffer, style: EolStyle) returns (taken: seq<byte>)
    requires buf.Valid() && |buf.Contents()| <= SIZE_MAX
    modifies buf.Repr
    ensures buf.Valid() && fresh(buf.Repr - old(buf.Repr))
    ensures (Look(buf), taken) == Alone(old(Look(buf)), ReadLn(style))
  {
    hide Content; hide EvBuffer.Wired; hide Terminator; hide LineEnd;
    ghost var was := buf.Contents();
    var line, n, eol := EvBufferLines.ReadLn(buf, style);
    if line.Some? {
      LineFound(was, style, n, eol);
      return line.value;
    }
    return [];
  }

  /** evbuffer_read in the plain form */
  method ReceiveAt(buf: EvBuffer, howmuch: int, waiting: int, arriving: seq<byte>)
    requires buf.Valid() && howmuch != 0
    modifies buf.Repr
    ensures buf.Valid() && fresh(buf.Repr - old(buf.Repr))
    ensures Look(buf) == Alone(old(Look(buf)), Receive(howmuch, waiting, arriving)).0
  {
    hide Content; hide EvBuffer.Valid; hide EvBuffer.Contents; hide EvBufferReserve.Startable;
    Ends(buf.Contents());
    var r, asked := EvBufferRead.Read(buf, howmuch, waiting, arriving, arriving == []);
  }

  lemma Ends<T>(s: seq<T>)
    ensures [] + s == s == s + [] && s[|s|..] == []
  {
  }

  /** An operation on a single buffer; the result is what it hands out. */
  method StepAlone(buf: EvBuffer, op: Op) returns (taken: seq<byte>)
    requires buf.Valid() && FitsAlone(Look(buf), op)
    requires !op.AddBuffer? && !op.PrependBuffer? && !op.RemoveBuffer?
    modifies buf.Repr
    ensures buf.Valid() && fresh(buf.Repr - old(buf.Repr))
    ensures (Look(buf), taken) == Alone(old(Look(buf)), op)
  {
    hide Content; hide EvBuffer.Valid; hide EvBuffer.Contents; hide LineEnd;
    EvBufferSearch.TotalIs(buf);
    Own(buf);
    Ends(buf.Contents());
    taken := [];
    match op {
      case Add(data) => var ok := buf.Add(data);
      case Prepend(data) => var ok := buf.Prepend(data);
      case Drain(len) => var ok, uses := buf.Drain(len);
      case Remove(len) =>
        var n, data := EvBufferSearch.Remove(buf, len);
        taken := data;
      case ReadLn(style) => taken := ReadAt(buf, style);
      case Pullup(size) => var front, uses := buf.Pullup(size);
      case Expand(room) => var ok := EvBufferExpand.Expand(buf, room);
      case Fill(data, nVecs) => var ok := EvBufferReserve.Fill(buf, data, nVecs);
      case Receive(howmuch, waiting, arriving) => ReceiveAt(buf, howmuch, waiting, arriving);
      case Freeze(front, on) => buf.SetFreeze(front, on);
    }
  }

  /** An operation at `here`. */
  method StepAt(here: EvBuffer, there: EvBuffer, op: Op) returns (taken: seq<byte>)
    requires Live(here, there) && Fits(Plain(Look(here), Look(there), []), true, op)
    modifies here.Repr, there.Repr
    ensures Live(here, there) && fresh(here.Repr + there.Repr - old(here.Repr + there.Repr))
    ensures Plain(Look(here), Look(there), taken) == Next(Plain(old(Look(here)), old(Look(there)), []), true, op)
  {
    hide EvBuffer.Contents; hide EvBuffer.Valid; hide Content; hide Alone;
    taken := [];
    if op.AddBuffer? || op.PrependBuffer? || op.RemoveBuffer? {
      SpliceAt(here, there, op);
    } else {
      taken := StepAlone(here, op);
      Own(here);
      Own(there);
    }
  }

  /** An operation that moves data out of one buffer into the other. */
  method SpliceAt(here: EvBuffer, there: EvBuffer, op: Op)
    requires Live(here, there) && Fits(Plain(Look(here), Look(there), []), true, op)
    requires op.AddBuffer? || op.PrependBuffer? || op.RemoveBuffer?
    modifies here.Repr, there.Repr
    ensures Live(here, there) && fresh(here.Repr + there.Repr - old(here.Repr + there.Repr))
    ensures Plain(Look(here), Look(there), []) == Next(Plain(old(Look(here)), old(Look(there)), []), true, op)
  {
    hide EvBuffer.Contents; hide EvBuffer.Valid; hide Content; hide WholeChunks; hide Alone;
    EvBufferSearch.TotalIs(here);
    EvBufferSearch.TotalIs(there);
    Ends(here.Contents());
    Ends(there.Contents());
    match op {
      case AddBuffer => var ok := EvBufferSplice.AddBuffer(here, there);
      case PrependBuffer => var ok := EvBufferSplice.PrependBuffer(here, there);
      case RemoveBuffer(len) => var n := EvBufferSplice.RemoveBuffer(there, here, len);
    }
    Own(here);
    Own(there);
  }

  lemma Own(buf: EvBuffer)
    requires buf.Valid()
    ensures buf in buf.Repr
  {
    buf.WiredShape();
  }

  /** The same step seen from either buffer. */
  lemma Mirrored(s: Plain, op: Op)
    requires Fits(s, false, op)
    ensures Fits(Plain(s.b, s.a, []), true, op)
    ensures var n := Next(Plain(s.b, s.a, []), true, op);
      Next(s, false, op) == Plain(n.b, n.a, s.taken + n.taken)
  {
    hide Alone;
  }

  lemma Prefixed(s: Plain, op: Op)
    requires Fits(s, true, op)
    ensures Fits(Plain(s.a, s.b, []), true, op)
    ensures var n := Next(Plain(s.a, s.b, []), true, op);
      Next(s, true, op) == Plain(n.a, n.b, s.taken + n.taken)
  {
    hide Alone;
  }

  /** Every run of operations on two buffers does what it does to two plain sequences. */
  method RunAll(a: EvBuffer, b: EvBuffer, ops: seq<(bool, Op)>) returns (taken: seq<byte>)
    requires Live(a, b) && Run(Plain(Look(a), Look(b), []), ops)
    modifies a.Repr, b.Repr
    ensures Live(a, b)
    ensures Plain(Look(a), Look(b), taken) == End(Plain(old(Look(a)), old(Look(b)), []), ops)
  {
    hide Next, Fits, Look, EvBuffer.Contents, EvBuffer.Valid;
    taken := [];
    ghost var start := Plain(Look(a), Look(b), []);
    var i := 0;
    while i < |ops|
      invariant 0 <= i <= |ops| && Live(a, b) && fresh(a.Repr + b.Repr - old(a.Repr + b.Repr))
      invariant Run(Plain(Look(a), Look(b), taken), ops[i..])
      invariant End(start, ops) == End(Plain(Look(a), Look(b), taken), ops[i..])
    {
      ghost var s := Plain(Look(a), Look(b), taken);
      assert ops[i..][0] == ops[i] && ops[i..][1..] == ops[i + 1..];
      var out;
      if ops[i].0 {
        Prefixed(s, ops[i].1);
        out := StepAt(a, b, ops[i].1);
      } else {
        Mirrored(s, ops[i].1);
        out := StepAt(b, a, ops[i].1);
      }
      taken := taken + out;
      assert Plain(Look(a), Look(b), taken) == Next(s, ops[i].0, ops[i].1);
      i := i + 1;
    }
  }

  // -------------------------------------------------------------------------------------------
  // A pipe of two buffers
  // -------------------------------------------------------------------------------------------

  /** Bytes go in at the end of a, over to the end of b, and out at the front of b. */
  predicate Piped(atA: bool, op: Op) {
    match op
    case Add(_) => atA
    case Fill(_, _) => atA
    case Receive(_, _, _) => atA
    case Remove(_) => !atA
    case AddBuffer => !atA
    case RemoveBuffer(_) => !atA
    case Pullup(_) => true
    case Expand(_) => true
    case Freeze(_, _) => true
    case _ => false
  }

  /** What an operation puts into the pipe, unless the end of a is frozen. */
  function Entering(s: Plain, op: Op): seq<byte> {
    if s.a.end then []
    else match op
      case Add(data) => data
      case Fill(data, _) => data
      case Receive(howmuch, waiting, arriving) => Arriving(howmuch, waiting, arriving)
      case _ => []
  }

  /** All that a run puts in. */
  ghost function Entered(s: Plain, ops: seq<(bool, Op)>): seq<byte>
    decreases |ops|
  {
    if ops == [] then [] else Entering(s, ops[0].1) + Entered(Next(s, ops[0].0, ops[0].1), ops[1..])
  }

  /** One operation of a pipe keeps the stream. */
  lemma PipeStep(s: Plain, atA: bool, op: Op)
    requires Piped(atA, op)
    ensures var n := Next(s, atA, op);
      n.taken + n.b.data + n.a.data == s.taken + s.b.data + s.a.data + Entering(s, op)
  {
    var a, b := s.a.data, s.b.data;
    match op
    case Add(data) => Assoc(s.taken + b, a, data);
    case Fill(data, _) => Assoc(s.taken + b, a, data);
    case Receive(howmuch, waiting, arriving) => Assoc(s.taken + b, a, Arriving(howmuch, waiting, arriving));
    case Remove(len) =>
      var k := Upto(b, len);
      assert b == b[..k] + b[k..];
      Assoc(s.taken, b[..k], b[k..]);
    case AddBuffer => Assoc(s.taken, b, a);
    case RemoveBuffer(len) =>
      var k := Upto(a, len);
      assert a == a[..k] + a[k..];
      Assoc(s.taken, b, a[..k]);
      Assoc(s.taken + b, a[..k], a[k..]);
    case _ =>
  }

  /** Whatever the pieces in which they are moved, bytes come out once each, in the order they went in. */
  lemma {:induction false} PipeKeeps(s: Plain, ops: seq<(bool, Op)>)
    requires forall k :: 0 <= k < |ops| ==> Piped(ops[k].0, ops[k].1)
    ensures var e := End(s, ops);
      e.taken + e.b.data + e.a.data == s.taken + s.b.data + s.a.data + Entered(s, ops)
    decreases |ops|
  {
    hide Next;
    if ops != [] {
      var n := Next(s, ops[0].0, ops[0].1);
      PipeStep(s, ops[0].0, ops[0].1);
      PipeKeeps(n, ops[1..]);
      Assoc(s.taken + s.b.data + s.a.data, Entering(s, ops[0].1), Entered(n, ops[1..]));
    }
  }
}
