/** What a pair of bufferevents does, on values. */
module PairSpec {
  import opened ChainValues

  /** One end: what has been asked of it, what is on its way, and what it has been told to do. */
  datatype End = End(
    wrote: seq<byte>,    // accepted by bufferevent_write at this end so far
    got: seq<byte>,      // handed out by bufferevent_read at this end so far
    input: seq<byte>,
    output: seq<byte>,
    canRead: bool,       // enabled & EV_READ
    canWrite: bool,      // enabled & EV_WRITE
    high: nat,           // wm_read.high, 0 for none
    suspended: bool)     // read_suspended & BEV_SUSPEND_WM

  datatype Pair = Pair(a: End, b: End)

  datatype Op =
    | Write(data: seq<byte>)
    | Read(size: nat)
    | Enable(read: bool, write: bool)
    | Disable(read: bool, write: bool)
    | SetHigh(mark: nat)
    | Flush(read: bool, write: bool)

  const NEW_END: End := End([], [], [], [], false, true, 0, false)

  function Min(x: nat, y: nat): nat {
    if x < y then x else y
  }

  /** How many of the bytes waiting be_pair_transfer moves to an input that holds `have`. */
  function Amount(waiting: nat, have: nat, high: nat, ignoreWm: bool): (n: nat)
    ensures n <= waiting
    ensures !ignoreWm && 0 < high && have <= high ==> have + n <= high
    ensures n == waiting || (0 < high <= have + n)
  {
    if high == 0 then waiting
    else if have < high then Min(high - have, waiting)
    else if ignoreWm then waiting
    else 0
  }

  /** be_pair_transfer, with the watermark callback that the new input of `dst` sets off. */
  function Transfer(src: End, dst: End, ignoreWm: bool): (r: (End, End)) {
    var n := Amount(|src.output|, |dst.input|, dst.high, ignoreWm);
    (src.(output := src.output[n..]),
     dst.(input := dst.input + src.output[..n],
          suspended := if n == 0 || dst.high == 0 then dst.suspended else |dst.input| + n >= dst.high))
  }

  /** be_pair_wants_to_talk */
  predicate WantsToTalk(src: End, dst: End) {
    src.canWrite && dst.canRead && !dst.suspended && src.output != []
  }

  /** A transfer if it is wanted. */
  function Talk(src: End, dst: End): (End, End) {
    if WantsToTalk(src, dst) then Transfer(src, dst, false) else (src, dst)
  }

  /** bufferevent_inbuf_wm_cb at `e`, whose partner is `p`: suspend, or unsuspend and start reading. */
  function Recheck(e: End, p: End): (End, End) {
    if e.high > 0 && |e.input| >= e.high then (e.(suspended := true), p)
    else
      var e' := e.(suspended := false);
      if e'.canRead then var (q, f) := Talk(p, e'); (f, q) else (e', p)
  }

  /** One call at end `e`, whose partner is `p`. */
  function Apply(e: End, p: End, op: Op): (End, End) {
    match op
    case Write(data) =>
      if |data| > SIZE_MAX - |e.output| || |data| > MAX_DATA || data == [] then (e, p)
      else Talk(e.(output := e.output + data, wrote := e.wrote + data), p)
    case Read(size) =>
      var n := Min(size, |e.input|);
      var e' := e.(input := e.input[n..], got := e.got + e.input[..n]);
      if n == 0 || e.high == 0 then (e', p) else Recheck(e', p)
    case Enable(read, write) =>
      var e1 := e.(canRead := e.canRead || read, canWrite := e.canWrite || write);
      var (p2, e2) := if read && !e.suspended then Talk(p, e1) else (p, e1);
      if write then Talk(e2, p2) else (e2, p2)
    case Disable(read, write) =>
      (e.(canRead := e.canRead && !read, canWrite := e.canWrite && !write), p)
    case SetHigh(mark) =>
      Recheck(e.(high := mark), p)
    case Flush(read, write) =>
      var (p1, e1) := if read then Transfer(p, e, true) else (p, e);
      if write then Transfer(e1, p1, true) else (e1, p1)
  }

  /** One call at either end. */
  function Step(s: Pair, atA: bool, op: Op): Pair {
    if atA then var (e, p) := Apply(s.a, s.b, op); Pair(e, p)
    else var (e, p) := Apply(s.b, s.a, op); Pair(p, e)
  }

  /** Calls at both ends, in any order. */
  function Run(s: Pair, ops: seq<(bool, Op)>): Pair
    decreases |ops|
  {
    if ops == [] then s else Run(Step(s, ops[0].0, ops[0].1), ops[1..])
  }

  // ---- what holds in every run ----

  /** Everything written at `src` has been read at `dst`, waits there, or has not left `src`; in this order. */
  ghost predicate Stream(src: End, dst: End) {
    src.wrote == dst.got + dst.input + src.output
  }

  /** Reading is suspended exactly when the high watermark has been reached. */
  ghost predicate Coherent(e: End) {
    e.suspended <==> e.high > 0 && |e.input| >= e.high
  }

  /** What every reachable state satisfies. */
  ghost predicate Inv(s: Pair) {
    && Stream(s.a, s.b) && Stream(s.b, s.a)
    && Coherent(s.a) && Coherent(s.b)
    && !WantsToTalk(s.a, s.b) && !WantsToTalk(s.b, s.a)
  }

  /** One direction on its own: what a transfer keeps and what it achieves. */
  lemma TransferKeeps(src: End, dst: End, ignoreWm: bool)
    requires Stream(src, dst) && Coherent(dst)
    ensures var (s, d) := Transfer(src, dst, ignoreWm);
      && Stream(s, d) && Coherent(d) && !WantsToTalk(s, d)
      && s == src.(output := s.output) && d == dst.(input := d.input, suspended := d.suspended)
      && (!ignoreWm && dst.high > 0 && |dst.input| <= dst.high ==> |d.input| <= dst.high)
  {
    var n := Amount(|src.output|, |dst.input|, dst.high, ignoreWm);
    assert src.output == src.output[..n] + src.output[n..];
    Rebracket(dst.got, dst.input, src.output[..n], src.output[n..]);
  }

  lemma Rebracket<T>(a: seq<T>, b: seq<T>, c: seq<T>, d: seq<T>)
    ensures a + b + (c + d) == a + (b + c) + d
  {
  }

  /** Both directions of a pair, seen from end `e`, apart from anything still waiting to be passed on. */
  ghost predicate Sound(e: End, p: End) {
    Stream(e, p) && Stream(p, e) && Coherent(e) && Coherent(p)
  }

  /** Nothing more is wanted in either direction. */
  ghost predicate Quiet(e: End, p: End) {
    !WantsToTalk(e, p) && !WantsToTalk(p, e)
  }

  /** A wanted transfer keeps both streams and leaves nothing to say. */
  lemma TalkKeeps(src: End, dst: End)
    requires Sound(src, dst)
    ensures var (s, d) := Talk(src, dst);
      && Sound(s, d) && !WantsToTalk(s, d)
      && s == src.(output := s.output) && d == dst.(input := d.input, suspended := d.suspended)
      && (Bounded(dst) ==> Bounded(d))
      && (WantsToTalk(d, s) ==> WantsToTalk(dst, src))
  {
    hide Stream;
    TransferKeeps(src, dst, false);
    StreamBack(src, dst, Talk(src, dst).0, Talk(src, dst).1);
  }

  /** Moving bytes one way leaves the other way alone. */
  lemma StreamBack(src: End, dst: End, s: End, d: End)
    requires s == src.(output := s.output) && d == dst.(input := d.input, suspended := d.suspended)
    ensures Stream(dst, src) <==> Stream(d, s)
  {
  }

  /** The input has not grown past the high watermark. */
  ghost predicate Bounded(e: End) {
    e.high > 0 ==> |e.input| <= e.high
  }

  /** The watermark callback restores what a change of the input broke. */
  lemma RecheckKeeps(e: End, p: End)
    requires Stream(e, p) && Stream(p, e) && Coherent(p) && !WantsToTalk(e, p)
    ensures var (f, q) := Recheck(e, p);
      Sound(f, q) && Quiet(f, q) && (Bounded(e) ==> Bounded(f)) && q.input == p.input && q.high == p.high
  {
    hide Stream;
    var e' := e.(suspended := false);
    StreamSuspended(e, p, false);
    StreamSuspended(e, p, true);
    if !(e.high > 0 && |e.input| >= e.high) {
      TalkKeeps(p, e');
    }
  }

  lemma StreamSuspended(e: End, p: End, flag: bool)
    ensures Stream(e.(suspended := flag), p) <==> Stream(e, p)
    ensures Stream(p, e.(suspended := flag)) <==> Stream(p, e)
  {
  }

  /** Reading takes bytes off the front of what has arrived. */
  lemma ReadStream(e: End, p: End, n: nat)
    requires Stream(p, e) && n <= |e.input|
    ensures Stream(p, e.(input := e.input[n..], got := e.got + e.input[..n]))
  {
    assert e.input == e.input[..n] + e.input[n..];
    Rebracket(e.got, e.input[..n], e.input[n..], p.output);
    assert e.got + e.input + p.output == (e.got + e.input[..n]) + e.input[n..] + p.output;
  }

  lemma WriteStream(e: End, p: End, data: seq<byte>)
    requires Stream(e, p)
    ensures Stream(e.(output := e.output + data, wrote := e.wrote + data), p)
  {
    Assoc(p.got + p.input, e.output, data);
  }

  /** Every call keeps the invariant. */
  lemma ApplyKeeps(e: End, p: End, op: Op)
    requires Sound(e, p) && Quiet(e, p)
    ensures var (f, q) := Apply(e, p, op); Sound(f, q) && Quiet(f, q)
  {
    match op
    case Write(data) =>
      WriteStream(e, p, data);
      TalkKeeps(e.(output := e.output + data, wrote := e.wrote + data), p);
    case Read(size) =>
      var n := Min(size, |e.input|);
      var e' := e.(input := e.input[n..], got := e.got + e.input[..n]);
      ReadStream(e, p, n);
      RecheckKeeps(e', p);
    case Enable(read, write) =>
      EnableKeeps(e, p, read, write);
    case Disable(read, write) =>
    case SetHigh(mark) =>
      RecheckKeeps(e.(high := mark), p);
    case Flush(read, write) =>
      FlushKeeps(e, p, read, write);
  }

  /** Enabling starts the transfers that become possible. */
  lemma EnableKeeps(e: End, p: End, read: bool, write: bool)
    requires Sound(e, p) && Quiet(e, p)
    ensures var (f, q) := Apply(e, p, Enable(read, write));
      Sound(f, q) && Quiet(f, q) && (Bounded(e) ==> Bounded(f)) && (Bounded(p) ==> Bounded(q))
  {
    hide Stream;
    var e1 := e.(canRead := e.canRead || read, canWrite := e.canWrite || write);
    StreamFlags(e, p, e1);
    TalkKeeps(p, e1);
    var (p2, e2) := if read && !e.suspended then Talk(p, e1) else (p, e1);
    TalkKeeps(e2, p2);
  }

  lemma StreamFlags(e: End, p: End, f: End)
    requires f.wrote == e.wrote && f.got == e.got && f.input == e.input && f.output == e.output
    ensures Stream(f, p) <==> Stream(e, p)
    ensures Stream(p, f) <==> Stream(p, e)
  {
  }

  /** A flush moves everything and keeps the streams. */
  lemma FlushKeeps(e: End, p: End, read: bool, write: bool)
    requires Sound(e, p) && Quiet(e, p)
    ensures var (f, q) := Apply(e, p, Flush(read, write)); Sound(f, q) && Quiet(f, q)
  {
    hide Stream;
    TransferKeeps(p, e, true);
    StreamBack(p, e, Transfer(p, e, true).0, Transfer(p, e, true).1);
    var (p1, e1) := if read then Transfer(p, e, true) else (p, e);
    TransferKeeps(e1, p1, true);
    StreamBack(e1, p1, Transfer(e1, p1, true).0, Transfer(e1, p1, true).1);
  }

  /** No call but flush, and a change of the mark itself, takes an input past its high watermark. */
  lemma ApplyBounded(e: End, p: End, op: Op)
    requires Sound(e, p) && Quiet(e, p) && Bounded(e) && Bounded(p)
    requires !op.Flush? && (op.SetHigh? ==> op.mark == 0 || |e.input| <= op.mark)
    ensures var (f, q) := Apply(e, p, op); Bounded(f) && Bounded(q)
  {
    match op
    case Write(data) =>
      WriteStream(e, p, data);
      TalkKeeps(e.(output := e.output + data, wrote := e.wrote + data), p);
    case Read(size) =>
      var n := Min(size, |e.input|);
      ReadStream(e, p, n);
      RecheckKeeps(e.(input := e.input[n..], got := e.got + e.input[..n]), p);
    case Enable(read, write) =>
      EnableKeeps(e, p, read, write);
    case Disable(read, write) =>
    case SetHigh(mark) =>
      RecheckKeeps(e.(high := mark), p);
  }

  /** In every run of a pair: nothing is lost, doubled or reordered, and nothing waits that could be passed on. */
  lemma {:induction false} RunKeeps(s: Pair, ops: seq<(bool, Op)>)
    requires Inv(s)
    ensures Inv(Run(s, ops))
    decreases |ops|
  {
    if ops != [] {
      if ops[0].0 {
        ApplyKeeps(s.a, s.b, ops[0].1);
      } else {
        ApplyKeeps(s.b, s.a, ops[0].1);
      }
      RunKeeps(Step(s, ops[0].0, ops[0].1), ops[1..]);
    }
  }

  /** From a new pair on. */
  lemma FreshPair(ops: seq<(bool, Op)>)
    ensures Inv(Run(Pair(NEW_END, NEW_END), ops))
  {
    RunKeeps(Pair(NEW_END, NEW_END), ops);
  }

  /** An end that may write, with a partner that may read and has room, has nothing left: all it wrote has arrived. */
  lemma Delivered(s: Pair)
    requires Inv(s) && s.a.canWrite && s.b.canRead && (s.b.high == 0 || |s.b.input| < s.b.high)
    ensures s.a.wrote == s.b.got + s.b.input
  {
    assert s.a.output == [];
  }

  /** A run without flush in which no mark is set below what its input holds at the time. */
  ghost predicate Heeding(s: Pair, ops: seq<(bool, Op)>)
    decreases |ops|
  {
    ops == [] ||
    (&& !ops[0].1.Flush?
     && (ops[0].1.SetHigh? ==>
         ops[0].1.mark == 0 || |(if ops[0].0 then s.a else s.b).input| <= ops[0].1.mark)
     && Heeding(Step(s, ops[0].0, ops[0].1), ops[1..]))
  }

  /** In such a run no input passes its high watermark, wherever the marks are moved. */
  lemma {:induction false} RunBounded(s: Pair, ops: seq<(bool, Op)>)
    requires Inv(s) && Bounded(s.a) && Bounded(s.b) && Heeding(s, ops)
    ensures Bounded(Run(s, ops).a) && Bounded(Run(s, ops).b)
    decreases |ops|
  {
    if ops != [] {
      if ops[0].0 {
        ApplyKeeps(s.a, s.b, ops[0].1);
        ApplyBounded(s.a, s.b, ops[0].1);
      } else {
        ApplyKeeps(s.b, s.a, ops[0].1);
        ApplyBounded(s.b, s.a, ops[0].1);
      }
      RunBounded(Step(s, ops[0].0, ops[0].1), ops[1..]);
    }
  }

  /** From a new pair on. */
  lemma FreshBounded(ops: seq<(bool, Op)>)
    requires Heeding(Pair(NEW_END, NEW_END), ops)
    ensures var s := Run(Pair(NEW_END, NEW_END), ops); Bounded(s.a) && Bounded(s.b)
  {
    RunBounded(Pair(NEW_END, NEW_END), ops);
  }

  // ---- what each call does, and what is left of it ----

  /** Where there is no mark, or a flush finds it reached, all of it moves; else as much as stays below the mark. */
  lemma AmountIs(waiting: nat, have: nat, high: nat, ignoreWm: bool)
    ensures var n := Amount(waiting, have, high, ignoreWm);
      && n <= waiting
      && (high == 0 || (ignoreWm && high <= have) ==> n == waiting)
      && (have < high ==> have + n <= high && (n == waiting || have + n == high))
      && (0 < high <= have && !ignoreWm ==> n == 0)
  {
  }

  /** The flags and the mark that a call leaves: those it names are set, and nothing else is. */
  predicate SetAs(f: End, q: End, e: End, p: End, op: Op) {
    && (f.canRead <==> (op.Enable? && op.read) || (e.canRead && !(op.Disable? && op.read)))
    && (f.canWrite <==> (op.Enable? && op.write) || (e.canWrite && !(op.Disable? && op.write)))
    && f.high == (if op.SetHigh? then op.mark else e.high)
    && q.canRead == p.canRead && q.canWrite == p.canWrite && q.high == p.high
  }

  lemma ApplySets(e: End, p: End, op: Op)
    ensures var (f, q) := Apply(e, p, op); SetAs(f, q, e, p, op)
  {
    hide Apply, SetAs;
    match op
    case Write(data) => WriteSets(e, p, data);
    case Read(size) => ReadSets(e, p, size);
    case Enable(read, write) => EnableSets(e, p, read, write);
    case Disable(read, write) => DisableSets(e, p, read, write);
    case SetHigh(mark) => MarkSets(e, p, mark);
    case Flush(read, write) => FlushSets(e, p, read, write);
  }

  lemma WriteSets(e: End, p: End, data: seq<byte>)
    ensures var (f, q) := Apply(e, p, Write(data)); SetAs(f, q, e, p, Write(data))
  {
    hide Talk;
    TalkLeaves(e.(output := e.output + data, wrote := e.wrote + data), p);
  }

  lemma ReadSets(e: End, p: End, size: nat)
    ensures var (f, q) := Apply(e, p, Read(size)); SetAs(f, q, e, p, Read(size))
  {
    hide Recheck;
    var n := Min(size, |e.input|);
    RecheckLeaves(e.(input := e.input[n..], got := e.got + e.input[..n]), p);
  }

  lemma EnableSets(e: End, p: End, read: bool, write: bool)
    ensures var (f, q) := Apply(e, p, Enable(read, write)); SetAs(f, q, e, p, Enable(read, write))
  {
    hide Talk;
    var e1 := e.(canRead := e.canRead || read, canWrite := e.canWrite || write);
    TalkLeaves(p, e1);
    var (p2, e2) := if read && !e.suspended then Talk(p, e1) else (p, e1);
    TalkLeaves(e2, p2);
  }

  lemma DisableSets(e: End, p: End, read: bool, write: bool)
    ensures var (f, q) := Apply(e, p, Disable(read, write)); SetAs(f, q, e, p, Disable(read, write))
  {
  }

  lemma MarkSets(e: End, p: End, mark: nat)
    ensures var (f, q) := Apply(e, p, SetHigh(mark)); SetAs(f, q, e, p, SetHigh(mark))
  {
    hide Recheck;
    RecheckLeaves(e.(high := mark), p);
  }

  lemma FlushSets(e: End, p: End, read: bool, write: bool)
    ensures var (f, q) := Apply(e, p, Flush(read, write)); SetAs(f, q, e, p, Flush(read, write))
  {
    hide Transfer;
    TransferLeaves(p, e, true);
    var (p1, e1) := if read then Transfer(p, e, true) else (p, e);
    TransferLeaves(e1, p1, true);
  }

  lemma RecheckLeaves(e: End, p: End)
    ensures var (f, q) := Recheck(e, p);
      f == e.(input := f.input, suspended := f.suspended) && q == p.(output := q.output)
  {
    hide Talk;
    TalkLeaves(p, e.(suspended := false));
  }

  lemma TransferLeaves(src: End, dst: End, ignoreWm: bool)
    ensures var (s, d) := Transfer(src, dst, ignoreWm);
      s == src.(output := s.output) && d == dst.(input := d.input, suspended := d.suspended)
  {
  }

  lemma TalkLeaves(src: End, dst: End)
    ensures var (s, d) := Talk(src, dst);
      s == src.(output := s.output) && d == dst.(input := d.input, suspended := d.suspended)
  {
  }

  /** A call that takes bytes off the input takes as many as were asked for, or all there are. */
  lemma ReadTakes(e: End, p: End, size: nat)
    ensures var (f, q) := Apply(e, p, Read(size));
      var n := |f.got| - |e.got|;
      && 0 <= n <= size && n <= |e.input| && (n == size || n == |e.input|)
      && f.got == e.got + e.input[..n] && e.input[n..] <= f.input
  {
    hide Transfer, WantsToTalk;
    var n := Min(size, |e.input|);
    TalkAdds(p, e.(input := e.input[n..], got := e.got + e.input[..n], suspended := false));
  }

  lemma TalkAdds(src: End, dst: End)
    ensures dst.input <= Talk(src, dst).1.input && Talk(src, dst).1.got == dst.got
    ensures Talk(src, dst).0.input == src.input && Talk(src, dst).0.got == src.got
  {
  }

  /**
   Apart from flushes, bytes go over only where the one end may write and the other may read, and only to
   an input that is not suspended; a call takes nothing else off an output.
   */
  predicate MovedAs(f: End, q: End, e: End, p: End) {
    && (q.input != p.input ==> f.canWrite && q.canRead && !p.suspended)
    && (q.output != p.output ==> q.canWrite && f.canRead)
    && p.input <= q.input && (q.input == p.input ==> e.output <= f.output)
  }

  lemma MovesWhere(e: End, p: End, op: Op)
    requires !op.Flush?
    ensures var (f, q) := Apply(e, p, op); MovedAs(f, q, e, p)
  {
    hide Apply, MovedAs;
    match op
    case Write(data) => WriteMoves(e, p, data);
    case Read(size) => ReadMoves(e, p, size);
    case Enable(read, write) => EnableMoves(e, p, read, write);
    case Disable(read, write) => DisableMoves(e, p, read, write);
    case SetHigh(mark) => MarkMoves(e, p, mark);
  }

  lemma WriteMoves(e: End, p: End, data: seq<byte>)
    ensures var (f, q) := Apply(e, p, Write(data)); MovedAs(f, q, e, p)
  {
    hide Talk;
    TalkWhere(e.(output := e.output + data, wrote := e.wrote + data), p);
  }

  lemma ReadMoves(e: End, p: End, size: nat)
    ensures var (f, q) := Apply(e, p, Read(size)); MovedAs(f, q, e, p)
  {
    hide Recheck;
    var n := Min(size, |e.input|);
    RecheckWhere(e.(input := e.input[n..], got := e.got + e.input[..n]), p);
  }

  lemma EnableMoves(e: End, p: End, read: bool, write: bool)
    ensures var (f, q) := Apply(e, p, Enable(read, write)); MovedAs(f, q, e, p)
  {
    hide Talk;
    var e1 := e.(canRead := e.canRead || read, canWrite := e.canWrite || write);
    TalkWhere(p, e1);
    var (p2, e2) := if read && !e.suspended then Talk(p, e1) else (p, e1);
    TalkWhere(e2, p2);
  }

  lemma DisableMoves(e: End, p: End, read: bool, write: bool)
    ensures var (f, q) := Apply(e, p, Disable(read, write)); MovedAs(f, q, e, p)
  {
  }

  lemma MarkMoves(e: End, p: End, mark: nat)
    ensures var (f, q) := Apply(e, p, SetHigh(mark)); MovedAs(f, q, e, p)
  {
    hide Recheck;
    RecheckWhere(e.(high := mark), p);
  }

  lemma RecheckWhere(e: End, p: End)
    ensures var (f, q) := Recheck(e, p);
      && f == e.(input := f.input, suspended := f.suspended) && q == p.(output := q.output)
      && (q.output != p.output ==> p.canWrite && e.canRead)
  {
    hide Talk;
    TalkWhere(p, e.(suspended := false));
  }

  lemma TalkWhere(src: End, dst: End)
    ensures var (s, d) := Talk(src, dst);
      && (s != src || d != dst ==> src.canWrite && dst.canRead && !dst.suspended && src.output != [])
      && s == src.(output := s.output) && d == dst.(input := d.input, suspended := d.suspended)
      && dst.input <= d.input && (d.input == dst.input ==> s.output == src.output)
  {
  }

  /** A flush takes what waits on either side, past the mark only where that has been reached already. */
  lemma FlushMoves(e: End, p: End, read: bool, write: bool)
    ensures var (f, q) := Apply(e, p, Flush(read, write));
      && (read ==> Flushed(p.output, e.input, e.high, q.output, f.input))
      && (!read ==> q.output == p.output && f.input == e.input)
      && (write ==> Flushed(e.output, p.input, p.high, f.output, q.input))
      && (!write ==> f.output == e.output && q.input == p.input)
  {
    hide Transfer, Flushed;
    TransferFlushes(p, e);
    var (p1, e1) := if read then Transfer(p, e, true) else (p, e);
    TransferFlushes(e1, p1);
  }

  lemma TransferFlushes(src: End, dst: End)
    ensures var (s, d) := Transfer(src, dst, true);
      && Flushed(src.output, dst.input, dst.high, s.output, d.input)
      && s.input == src.input && s.high == src.high && d.output == dst.output
  {
    hide Amount;
    AmountIs(|src.output|, |dst.input|, dst.high, true);
    var n := Amount(|src.output|, |dst.input|, dst.high, true);
    assert src.output[..n] + src.output[n..] == src.output;
    assert (dst.input + src.output[..n])[|dst.input|..] == src.output[..n];
  }

  /** What a flush in one direction makes of an output and an input. */
  ghost predicate Flushed(out: seq<byte>, inp: seq<byte>, high: nat, left: seq<byte>, now: seq<byte>) {
    && inp <= now && now[|inp|..] + left == out
    && (high <= |inp| ==> left == [])
    && (|inp| < high ==> |now| <= high && (left == [] || |now| == high))
  }

  // ---- flags over runs ----

  /** A call that sets the flag of an end, for reading or for writing, or clears it. */
  predicate Starts(x: (bool, Op), atA: bool, reading: bool) {
    x.0 == atA && x.1.Enable? && if reading then x.1.read else x.1.write
  }

  predicate Stops(x: (bool, Op), atA: bool, reading: bool) {
    x.0 == atA && x.1.Disable? && if reading then x.1.read else x.1.write
  }

  /** None that clears it comes behind the call at `i`. */
  predicate Unstopped(ops: seq<(bool, Op)>, i: int, atA: bool, reading: bool) {
    forall j :: i < j < |ops| && 0 <= j ==> !Stops(ops[j], atA, reading)
  }

  /** The last call that names the flag has set it, or none does and it was set. */
  ghost predicate Set(ops: seq<(bool, Op)>, atA: bool, reading: bool, before: bool) {
    || (before && forall j :: 0 <= j < |ops| ==> !Stops(ops[j], atA, reading))
    || exists i :: 0 <= i < |ops| && Starts(ops[i], atA, reading) && Unstopped(ops, i, atA, reading)
  }

  lemma SetFirst(ops: seq<(bool, Op)>, atA: bool, reading: bool, before: bool)
    requires ops != []
    ensures var now := Starts(ops[0], atA, reading) || (before && !Stops(ops[0], atA, reading));
      Set(ops, atA, reading, before) <==> Set(ops[1..], atA, reading, now)
  {
    var rest := ops[1..];
    var now := Starts(ops[0], atA, reading) || (before && !Stops(ops[0], atA, reading));
    assert forall j :: 0 <= j < |rest| ==> rest[j] == ops[j + 1];
    assert forall j :: 1 <= j < |ops| ==> ops[j] == rest[j - 1];
    if Set(rest, atA, reading, now) && !(now && forall j :: 0 <= j < |rest| ==> !Stops(rest[j], atA, reading)) {
      var i :| 0 <= i < |rest| && Starts(rest[i], atA, reading) && Unstopped(rest, i, atA, reading);
      assert Starts(ops[i + 1], atA, reading) && Unstopped(ops, i + 1, atA, reading);
    }
  }

  /** In every run each flag is what the last call that named it made it. */
  lemma {:induction false} FlagsRun(s: Pair, ops: seq<(bool, Op)>)
    ensures var t := Run(s, ops);
      && (t.a.canRead <==> Set(ops, true, true, s.a.canRead))
      && (t.a.canWrite <==> Set(ops, true, false, s.a.canWrite))
      && (t.b.canRead <==> Set(ops, false, true, s.b.canRead))
      && (t.b.canWrite <==> Set(ops, false, false, s.b.canWrite))
    decreases |ops|
  {
    hide Apply;
    if ops != [] {
      var t := Step(s, ops[0].0, ops[0].1);
      hide Set;
      ApplySets(s.a, s.b, ops[0].1);
      ApplySets(s.b, s.a, ops[0].1);
      FlagsRun(t, ops[1..]);
      SetFirst(ops, true, true, s.a.canRead);
      SetFirst(ops, true, false, s.a.canWrite);
      SetFirst(ops, false, true, s.b.canRead);
      SetFirst(ops, false, false, s.b.canWrite);
    }
  }

  /**
   So from a new pair on, where writing is still enabled at one end and reading has been enabled at the
   other, whose input has not reached its mark, everything written has arrived.
   */
  lemma DeliveredRun(ops: seq<(bool, Op)>)
    ensures var t := Run(Pair(NEW_END, NEW_END), ops);
      && (Set(ops, true, false, true) && Set(ops, false, true, false) && (t.b.high == 0 || |t.b.input| < t.b.high) ==>
          t.a.wrote == t.b.got + t.b.input)
      && (Set(ops, false, false, true) && Set(ops, true, true, false) && (t.a.high == 0 || |t.a.input| < t.a.high) ==>
          t.b.wrote == t.a.got + t.a.input)
  {
    hide Run, Set;
    var t := Run(Pair(NEW_END, NEW_END), ops);
    FreshPair(ops);
    FlagsRun(Pair(NEW_END, NEW_END), ops);
    if t.a.canWrite && t.b.canRead && (t.b.high == 0 || |t.b.input| < t.b.high) {
      Delivered(t);
    }
    if t.b.canWrite && t.a.canRead && (t.a.high == 0 || |t.a.input| < t.a.high) {
      Delivered(Pair(t.b, t.a));
    }
  }
}
