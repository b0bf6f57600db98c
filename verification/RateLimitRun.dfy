/** Runs of rate-limited bufferevents, as objects, over a window of time. */
module RateLimitRuns {
  import opened Options
  import opened TokenBucket
  import opened RateLimit
  import opened SocketBufferevents

  /** What happens to a bufferevent: its events, its refill timer, and what the program calls. */
  datatype Call =
    | Readable(timeout: bool, high: nat, inputLen: nat, startable: bool, waiting: int, arriving: int, error: SocketError)
    | Writable(timeout: bool, finished: int, accepting: int, error: SocketError)
    | RefillTimer
    | Spend(dir: Dir, bytes: nat)   // the public decrement, without refunds
    | Start(dir: Dir)               // bufferevent_enable
    | Stop(dir: Dir)                // bufferevent_disable
    | Output(more: nat)

  /** When it does, in ticks counted without wrapping. */
  datatype Dated = Dated(time: nat, call: Call)

  /** Times do not go backwards, and none is outside the window. */
  predicate Within(xs: seq<Dated>, from: nat, to: nat)
    decreases |xs|
  {
    if xs == [] then from <= to else from <= xs[0].time <= to && Within(xs[1..], xs[0].time, to)
  }

  // ---- what the calls do, on values ----

  /** A bufferevent: its state, what one call may move without a limit, and what its connection is at. */
  datatype Bev = Bev(s: State, single: nat, singleWrite: nat, connecting: bool, refused: bool)

  /** What a call comes to: the bufferevent after it, what it read and wrote, and whether it lost its connection. */
  datatype Done = Done(bev: Bev, read: nat, wrote: nat, over: bool)

  /** bufferevent_readcb */
  function Reads(b: Bev, call: Call, now: tick): Done
    requires call.Readable?
  {
    var u := Asked(b.s, now);
    var most := if b.s.cfg.Some? then u.level.read else b.single;
    var allowed := if call.high != 0 then MinInt(most, call.high - call.inputLen) else most;
    var asked := ReadSize(ToInt(MaxInt(0, allowed)), call.waiting);
    if call.timeout then Done(b.(s := Disabled(b.s, Reading)), 0, 0, false)
    else if call.high != 0 && call.high <= call.inputLen then Done(b.(s := b.s.Suspended(Reading, Watermark)), 0, 0, false)
    else if asked == 0 && !call.startable then Done(b.(s := u), 0, 0, false)
    else if call.arriving < 0 && call.error.WouldBlock? then Done(b.(s := u), 0, 0, false)
    else if call.arriving < 0 && call.error.ConnectionRefused? then Done(b.(s := u, refused := true), 0, 0, false)
    else if call.arriving <= 0 || asked <= 0 then Done(b.(s := Disabled(u, Reading)), 0, 0, false)
    else Done(b.(s := Charged(u, Reading, MinInt(call.arriving, asked))), MinInt(call.arriving, asked), 0, false)
  }

  /** bufferevent_writecb */
  function Writes(b: Bev, call: Call, now: tick): Done
    requires call.Writable?
  {
    var u := Asked(b.s, now);
    var most := if b.s.cfg.Some? then u.level.write else b.singleWrite;
    var bytes := MinInt(call.accepting, MinInt(most, b.s.outputLen));
    var on := b.(connecting := false, refused := if b.connecting then false else b.refused);
    if call.timeout then Done(b.(s := Disabled(b.s, Writing)), 0, 0, false)
    else if b.connecting && !b.refused && call.finished == 0 then Done(b, 0, 0, false)
    else if b.connecting && (b.refused || call.finished < 0) then Done(on.(s := Cut(b.s)), 0, 0, true)
    else if b.s.outputLen == 0 then Done(on.(s := Idled(u)), 0, 0, false)
    else if call.accepting < 0 && call.error.WouldBlock? then Done(on.(s := u), 0, 0, false)
    else if bytes <= 0 then Done(on.(s := Disabled(u, Writing)), 0, 0, false)
    else Done(on.(s := Idled(Charged(u.(outputLen := MaxInt(0, u.outputLen - bytes)), Writing, bytes))), 0, bytes, false)
  }

  /** The event loop makes a call only when it is due, and a limit never leaves an ssize_t. */
  predicate Due(b: Bev, call: Call) {
    match call
    case Readable(_, _, _, _, _, _, _) => b.s.read.pending
    case Writable(_, _, _, _) => b.s.write.pending
    case RefillTimer => b.s.armed
    case Spend(dir, bytes) => SSIZE_MIN <= b.s.level.Limit(dir) - bytes
    case _ => true
  }

  /** Any call, and nothing when it is not due. */
  function Calls(b: Bev, x: Dated): Done {
    if !Due(b, x.call) then Done(b, 0, 0, false)
    else
      match x.call
      case Readable(_, _, _, _, _, _, _) => Reads(b, x.call, At(x.time))
      case Writable(_, _, _, _) => Writes(b, x.call, At(x.time))
      case RefillTimer => Done(b.(s := Fired(b.s, At(x.time))), 0, 0, false)
      case Spend(dir, bytes) => Done(b.(s := ChargedLimit(b.s, dir, bytes)), 0, 0, false)
      case Start(dir) => Done(b.(s := Enabled(b.s, dir)), 0, 0, false)
      case Stop(dir) => Done(b.(s := Disabled(b.s, dir)), 0, 0, false)
      case Output(more) => Done(b.(s := Queued(b.s, more)), 0, 0, false)
  }

  /** All of them, up to the one that finds the connection lost. */
  function AllCalls(b: Bev, xs: seq<Dated>): Done
    decreases |xs|
  {
    if xs == [] then Done(b, 0, 0, false)
    else
      var now := Calls(b, xs[0]);
      if now.over then now
      else var later := AllCalls(now.bev, xs[1..]); later.(read := now.read + later.read, wrote := now.wrote + later.wrote)
  }

  /** A bufferevent object, as a value. */
  function Seeing(m: Limited): Bev
    reads m, m.limit, m.read, m.write
  {
    Bev(m.View(), m.maxSingleRead, m.maxSingleWrite, m.connecting, m.connectionRefused)
  }

  // ---- the bound ----

  /** What has been moved in a direction, and what may be moved at once, is no more than the bound. */
  ghost predicate Bounded(b: Level, c: Cfg, dir: Dir, moved: nat, from: nat, now: nat) {
    moved + MaxInt(0, Potential(b, c, dir, now)) <= c.Maximum(dir) + (now - from) * c.Rate(dir)
  }

  lemma BoundedFirst(b: Level, c: Cfg, dir: Dir, from: nat)
    requires c.Ok() && b.Within(c)
    ensures Bounded(b, c, dir, 0, from, from)
  {
    PotentialGrows(b, c, dir, from, from);
  }

  /** Time passes. */
  lemma BoundedLater(b: Level, c: Cfg, dir: Dir, moved: nat, from: nat, now: nat, later: nat)
    requires c.Ok() && b.Within(c) && Bounded(b, c, dir, moved, from, now) && from <= now <= later
    ensures Bounded(b, c, dir, moved, from, later)
  {
    hide Potential;
    PotentialGrows(b, c, dir, now, later);
    Span(from, now, later, c.Rate(dir));
  }

  /** Something happens. */
  lemma BoundedEvent(b: Level, c: Cfg, dir: Dir, moved: nat, from: nat, e: Event)
    requires c.Ok() && b.Within(c) && Bounded(b, c, dir, moved, from, e.time) && Allowed(b, c, e)
    ensures After(b, c, e).Within(c) && Bounded(After(b, c, e), c, dir, moved + Bytes(e, dir), from, e.time)
  {
    hide Potential, Allowed, After;
    EventCosts(b, c, dir, e);
  }

  lemma BoundedMeans(b: Level, c: Cfg, dir: Dir, moved: nat, from: nat, now: nat, to: nat)
    requires Bounded(b, c, dir, moved, from, now) && from <= now <= to
    ensures moved <= c.Maximum(dir) + (to - from) * c.Rate(dir)
  {
    MulMono(now - from, to - from, c.Rate(dir));
  }

  /** What a call is to the bucket, if anything. */
  function Meets(b: Bev, x: Dated): Option<Event> {
    if !Due(b, x.call) then None
    else
      match x.call
      case Readable(timeout, high, inputLen, _, _, _, _) =>
        var read := Reads(b, x.call, At(x.time)).read;
        if timeout || (high != 0 && high <= inputLen) then None
        else if read == 0 then Some(Touch(x.time)) else Some(Take(Reading, x.time, read))
      case Writable(timeout, finished, _, _) =>
        var wrote := Writes(b, x.call, At(x.time)).wrote;
        if timeout || (b.connecting && (b.refused || finished <= 0)) then None
        else if wrote == 0 then Some(Touch(x.time)) else Some(Take(Writing, x.time, wrote))
      case RefillTimer => Some(Touch(x.time))
      case Spend(dir, bytes) => Some(Debit(dir, x.time, bytes))
      case _ => None
  }

  /** What an event does to the bucket, and what it moves. */
  ghost predicate Saw(now: State, was: State, c: Cfg, e: Option<Event>, time: nat, read: nat, wrote: nat) {
    && now.cfg == was.cfg
    && match e
       case None => now.level == was.level && read == wrote == 0
       case Some(v) =>
         && v.time == time && Allowed(was.level, c, v) && now.level == After(was.level, c, v)
         && read == Bytes(v, Reading) && wrote == Bytes(v, Writing)
  }

  /** Flags and events are not the bucket's. */
  lemma BucketStays(s: State, dir: Dir, flag: Flag, bytes: int)
    ensures Disabled(s, dir).level == s.level && Disabled(s, dir).cfg == s.cfg
    ensures s.Suspended(dir, flag).level == s.level && s.Suspended(dir, flag).cfg == s.cfg
    ensures Charged(s, dir, bytes).cfg == s.cfg
  {
  }

  lemma ReadsSaw(b: Bev, x: Dated, c: Cfg)
    requires b.s.cfg == Some(c) && x.call.Readable? && Due(b, x.call)
    ensures var d := Reads(b, x.call, At(x.time)); Saw(d.bev.s, b.s, c, Meets(b, x), x.time, d.read, 0)
  {
    hide Updated, ReadSize, ToInt, Charged, Disabled, State.Suspended;
    var d := Reads(b, x.call, At(x.time));
    BucketStays(b.s, Reading, Watermark, d.read);
    BucketStays(Asked(b.s, At(x.time)), Reading, Watermark, d.read);
    StepsAreEvents(b.s, c, Reading, x.time, d.read);
    var u := Asked(b.s, At(x.time));
    var allowed := if x.call.high != 0 then MinInt(u.level.read, x.call.high - x.call.inputLen) else u.level.read;
    CastKeepsAllowance(MaxInt(0, allowed), x.call.waiting);
  }

  lemma WritesSaw(b: Bev, x: Dated, c: Cfg)
    requires b.s.cfg == Some(c) && x.call.Writable? && Due(b, x.call)
    ensures var d := Writes(b, x.call, At(x.time)); Saw(d.bev.s, b.s, c, Meets(b, x), x.time, 0, d.wrote)
  {
    hide Updated, Charged;
    var d := Writes(b, x.call, At(x.time));
    StepsAreEvents(b.s, c, Writing, x.time, d.wrote);
    SentFirst(Asked(b.s, At(x.time)), d.wrote);
  }

  /** What is written comes off the output before it is charged, which makes no difference to the bucket. */
  lemma SentFirst(s: State, bytes: nat)
    ensures forall n: nat ::
      var t := Idled(Charged(s.(outputLen := n), Writing, bytes));
      t.level == Charged(s, Writing, bytes).level && t.cfg == s.cfg
  {
  }

  /** So every call is an event that the bucket allows, or leaves it alone. */
  lemma CallsSaw(b: Bev, x: Dated, c: Cfg)
    requires b.s.cfg == Some(c)
    ensures var d := Calls(b, x); Saw(d.bev.s, b.s, c, Meets(b, x), x.time, d.read, d.wrote)
  {
    hide Updated, Reads, Writes;
    if Due(b, x.call) {
      match x.call
      case Readable(_, _, _, _, _, _, _) =>
        ReadsSaw(b, x, c);
        ReadsOnly(b, x.call, At(x.time));
      case Writable(_, _, _, _) =>
        WritesSaw(b, x, c);
        WritesOnly(b, x.call, At(x.time));
      case RefillTimer => StepsAreEvents(b.s, c, Reading, x.time, 0);
      case Spend(dir, bytes) => StepsAreEvents(b.s, c, dir, x.time, bytes);
      case _ =>
    }
  }

  lemma ReadsOnly(b: Bev, call: Call, now: tick)
    requires call.Readable?
    ensures Reads(b, call, now).wrote == 0 && !Reads(b, call, now).over
  {
  }

  lemma WritesOnly(b: Bev, call: Call, now: tick)
    requires call.Writable?
    ensures Writes(b, call, now).read == 0
  {
  }

  // ---- the object ----

  /** The read event goes off */
  method Read(m: Limited, call: Call, now: tick) returns (read: nat)
    requires m.Valid() && call.Readable? && m.View().read.pending && Possible(m.View(), Ask(now))
    modifies m, m.limit, m.read, m.write
    ensures m.Valid() && Done(Seeing(m), read, 0, false) == Reads(old(Seeing(m)), call, now)
  {
    hide Inv, Updated, Charged, ReadSize, ToInt;
    var outcome, asked := m.ReadCallback(call.timeout, call.high, call.inputLen, call.startable, call.waiting,
                                         call.arriving, call.error, now);
    read := if outcome.Moved? then outcome.bytes else 0;
  }

  lemma AskedOnly(s: State, now: tick)
    ensures Asked(s, now).outputLen == s.outputLen && Asked(s, now).cfg == s.cfg
  {
  }

  /** The write event goes off; a connection that fails leaves no event. */
  method Write(m: Limited, call: Call, now: tick) returns (wrote: nat, over: bool)
    requires m.Valid() && call.Writable? && m.View().write.pending && Possible(m.View(), Ask(now))
    modifies m, m.limit, m.read, m.write
    ensures (!over ==> m.Valid()) && Done(Seeing(m), 0, wrote, over) == Writes(old(Seeing(m)), call, now)
  {
    hide Inv, Updated, Charged, Asked, Idled, Disabled, Cut;
    AskedOnly(m.View(), now);
    var outcome, connected := m.WriteCallback(call.timeout, call.finished, call.accepting, call.error, now);
    over := outcome.Unconnected?;
    wrote := if outcome.Moved? then outcome.bytes else 0;
  }

  /** The refill timer goes off, and what the program calls */
  method Other(m: Limited, x: Dated)
    requires m.Valid() && !x.call.Readable? && !x.call.Writable? && Due(Seeing(m), x.call)
    requires x.call.RefillTimer? ==> Possible(m.View(), Fire(At(x.time)))
    requires x.call.Spend? ==> Possible(m.View(), ChargeLimit(x.call.dir, x.call.bytes))
    modifies m, m.limit, m.read, m.write
    ensures m.Valid() && Done(Seeing(m), 0, 0, false) == Calls(old(Seeing(m)), x)
  {
    hide Inv, Updated;
    match x.call
    case RefillTimer => m.RefillCallback(At(x.time));
    case Spend(dir, bytes) => m.DecrementLimit(dir, bytes);
    case Start(dir) => m.Enable(dir);
    case Stop(dir) => m.Disable(dir);
    case Output(more) => m.AddOutput(more);
    case _ =>
  }

  /** One call */
  method One(m: Limited, x: Dated, ghost c: Cfg) returns (read: nat, wrote: nat, over: bool)
    requires m.Valid() && m.cfg == Some(c) && m.limit.View().Within(c) && c.Ok() && Due(Seeing(m), x.call)
    modifies m, m.limit, m.read, m.write
    ensures !over ==> m.Valid()
    ensures Done(Seeing(m), read, wrote, over) == Calls(old(Seeing(m)), x)
  {
    hide Inv, Limited.Valid, Reads, Writes, Updated, KeepsSigns;
    WithinKeepsSigns(m.limit.View(), c, At(x.time));
    read, wrote, over := 0, 0, false;
    if x.call.Readable? {
      ReadsOnly(Seeing(m), x.call, At(x.time));
      read := Read(m, x.call, At(x.time));
    } else if x.call.Writable? {
      WritesOnly(Seeing(m), x.call, At(x.time));
      wrote, over := Write(m, x.call, At(x.time));
    } else {
      Other(m, x);
    }
  }

  /**
   What rate limiting is for: over any window, whatever its events, its timer and the program do, and
   however the counter wraps, the bufferevent reads at most the burst plus the rate for each tick, and
   writes at most its own.  The run ends where a connection fails.
   */
  method RunWindow(m: Limited, xs: seq<Dated>, ghost c: Cfg, ghost from: nat, ghost to: nat)
    returns (read: nat, wrote: nat, over: bool)
    requires m.Valid() && m.cfg == Some(c) && c.Ok() && m.limit.View().Within(c) && Within(xs, from, to)
    modifies m, m.limit, m.read, m.write
    ensures Done(Seeing(m), read, wrote, over) == AllCalls(old(Seeing(m)), xs)
    ensures (over || m.Valid()) && m.cfg == Some(c) && m.limit.View().Within(c)
    ensures read <= c.Maximum(Reading) + (to - from) * c.Rate(Reading)
    ensures wrote <= c.Maximum(Writing) + (to - from) * c.Rate(Writing)
  {
    hide Inv, Bounded, Potential, Saw, Limited.Valid, Level.Within, Reads, Writes, Calls, Meets;
    read, wrote, over := 0, 0, false;
    ghost var now, b := from, Seeing(m);
    BoundedFirst(m.limit.View(), c, Reading, from);
    BoundedFirst(m.limit.View(), c, Writing, from);
    var i := 0;
    while i < |xs| && !over
      invariant i <= |xs| && (over || m.Valid()) && m.cfg == Some(c) && m.limit.View().Within(c)
      invariant AllCalls(b, xs) == if over then Done(Seeing(m), read, wrote, true) else
        var rest := AllCalls(Seeing(m), xs[i..]); rest.(read := read + rest.read, wrote := wrote + rest.wrote)
      invariant from <= now <= to && Within(xs[i..], now, to)
      invariant Bounded(m.limit.View(), c, Reading, read, from, now)
      invariant Bounded(m.limit.View(), c, Writing, wrote, from, now)
      decreases |xs| - i
    {
      var x := xs[i];
      assert xs[i..][0] == x && xs[i..][1..] == xs[i + 1..];
      NotDue(Seeing(m), x);
      Advance(m.limit.View(), c, read, wrote, from, now, x.time);
      now := x.time;
      if Due(Seeing(m), x.call) {
        ghost var was := Seeing(m);
        CallsSaw(was, x, c);
        var r, w;
        r, w, over := One(m, x, c);
        Seen(m.View(), was.s, c, Meets(was, x), read, wrote, r, w, from, now);
        read, wrote := read + r, wrote + w;
      }
      i := i + 1;
    }
    WithinEnds(xs[i..], now, to);
    BoundedMeans(m.limit.View(), c, Reading, read, from, now, to);
    BoundedMeans(m.limit.View(), c, Writing, wrote, from, now, to);
  }

  lemma NotDue(b: Bev, x: Dated)
    ensures !Due(b, x.call) ==> Calls(b, x) == Done(b, 0, 0, false)
  {
  }

  lemma WithinEnds(xs: seq<Dated>, from: nat, to: nat)
    requires Within(xs, from, to)
    ensures from <= to
  {
  }

  lemma Advance(b: Level, c: Cfg, read: nat, wrote: nat, from: nat, now: nat, later: nat)
    requires c.Ok() && b.Within(c) && from <= now <= later
    requires Bounded(b, c, Reading, read, from, now) && Bounded(b, c, Writing, wrote, from, now)
    ensures Bounded(b, c, Reading, read, from, later) && Bounded(b, c, Writing, wrote, from, later)
  {
    hide Bounded;
    BoundedLater(b, c, Reading, read, from, now, later);
    BoundedLater(b, c, Writing, wrote, from, now, later);
  }

  lemma Seen(now: State, was: State, c: Cfg, e: Option<Event>, read: nat, wrote: nat, r: nat, w: nat, from: nat, time: nat)
    requires c.Ok() && was.level.Within(c) && Saw(now, was, c, e, time, r, w)
    requires Bounded(was.level, c, Reading, read, from, time) && Bounded(was.level, c, Writing, wrote, from, time)
    ensures now.cfg == was.cfg && now.level.Within(c)
    ensures Bounded(now.level, c, Reading, read + r, from, time) && Bounded(now.level, c, Writing, wrote + w, from, time)
  {
    hide Bounded, After, Allowed;
    if e.Some? {
      BoundedEvent(was.level, c, Reading, read, from, e.value);
      BoundedEvent(was.level, c, Writing, wrote, from, e.value);
    }
  }
}
