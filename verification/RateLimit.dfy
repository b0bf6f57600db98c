/**
 Rate limiting of one socket bufferevent: its bucket, the suspend flags of its two directions and
 the timer that refills it, as steps on values, with what every run of them keeps.
 */
module RateLimit {

  import opened Options
  import opened TokenBucket

  /** The BEV_SUSPEND_* bits. */
  datatype Flag = Watermark | Bandwidth | GroupBandwidth | Lookup | FilterRead

  /** One direction: its suspend bits, whether the user enabled it, whether its event is added. */
  datatype HalfState = HalfState(suspended: set<Flag>, enabled: bool, pending: bool) {

    /** An event is added only for a direction that is enabled and not suspended. */
    predicate Quiet() {
      pending ==> enabled && suspended == {}
    }

    /** Enabled and not suspended. */
    predicate Runs() {
      enabled && suspended == {}
    }

    function Suspended(f: Flag): HalfState {
      this.(suspended := suspended + {f}, pending := false)
    }

    function Unsuspended(f: Flag): HalfState {
      this.(suspended := suspended - {f}, pending := pending || (enabled && suspended - {f} == {}))
    }
  }

  /**
   outputLen is the length of the output buffer; armed says that the refill timer is added, limiting
   that there is a struct bufferevent_rate_limit at all.
   */
  datatype State = State(cfg: Option<Cfg>, level: Level, read: HalfState, write: HalfState,
                         armed: bool, outputLen: nat, limiting: bool) {

    function Half(dir: Dir): HalfState {
      if dir.Reading? then read else write
    }

    function Put(dir: Dir, h: HalfState): State {
      if dir.Reading? then this.(read := h) else this.(write := h)
    }

    function Suspended(dir: Dir, f: Flag): State {
      Put(dir, Half(dir).Suspended(f))
    }

    function Unsuspended(dir: Dir, f: Flag): State {
      Put(dir, Half(dir).Unsuspended(f))
    }

    /** Suspended for bandwidth. */
    predicate Choked(dir: Dir) {
      Bandwidth in Half(dir).suspended
    }
  }

  // -------------------------------------------------------------------------------------------
  // Steps
  // -------------------------------------------------------------------------------------------

  /** The steps of a bufferevent. */
  datatype Op =
    | Charge(dir: Dir, bytes: int)        // bufferevent_decrement_*_buckets_, own bucket
    | ChargeLimit(dir: Dir, bytes: int)   // bufferevent_decrement_*_limit
    | Ask(now: tick)                      // bufferevent_update_buckets
    | Fire(now: tick)                     // the refill timer goes off
    | Configure(cfg: Option<Cfg>, now: tick)
    | Suspend(dir: Dir, flag: Flag)
    | Unsuspend(dir: Dir, flag: Flag)
    | Enable(dir: Dir)
    | Disable(dir: Dir)
    | Queue(more: nat)                    // bytes added to the output buffer
    | Sent(less: nat)                     // bytes written to the socket
    | Idle                                // the write callback's check for an empty output buffer

  /** The bandwidth flag and the timer follow the sign of the limit. */
  function Settled(s: State, dir: Dir): State {
    if s.level.Limit(dir) <= 0 then s.Suspended(dir, Bandwidth).(armed := true)
    else if s.Choked(dir) then s.Unsuspended(dir, Bandwidth).(armed := s.armed && s.Choked(Other(dir)))
    else s
  }

  /** Bytes taken from the own bucket */
  function Charged(s: State, dir: Dir, bytes: int): State {
    if s.cfg.None? then s else Settled(s.(level := s.level.Less(dir, bytes)), dir)
  }

  /** The public decrement acts only when the sign changes. */
  function ChargedLimit(s: State, dir: Dir, bytes: int): State {
    var t := s.(level := s.level.Less(dir, bytes));
    if (s.level.Limit(dir) > 0) == (t.level.Limit(dir) > 0) then t
    else if t.level.Limit(dir) <= 0 then t.Suspended(dir, Bandwidth).(armed := true)
    else t.Unsuspended(dir, Bandwidth).(armed := t.armed && t.Choked(Other(dir)))
  }

  /** An update of the bucket */
  function Asked(s: State, now: tick): State {
    if s.cfg.None? then s else s.(level := Updated(s.level, s.cfg.value, now))
  }

  /** One direction of the refill callback. */
  function Freed(s: State, dir: Dir): State {
    if s.Choked(dir) && s.level.Limit(dir) > 0 then s.Unsuspended(dir, Bandwidth) else s
  }

  /** bev_refill_callback_ */
  function Fired(s: State, now: tick): State {
    if s.cfg.None? then s.(armed := false)
    else
      var t := Freed(Freed(Asked(s, now), Reading), Writing);
      t.(armed := t.Choked(Reading) || t.Choked(Writing))
  }

  /** One direction of bufferevent_set_rate_limit. */
  function Set(s: State, dir: Dir): State {
    if s.level.Limit(dir) > 0 then s.Unsuspended(dir, Bandwidth) else s.Suspended(dir, Bandwidth)
  }

  /** bufferevent_set_rate_limit */
  function Configured(s: State, cfg: Option<Cfg>, now: tick): State {
    if cfg.None? then
      if !s.limiting then s
      else s.(cfg := None, armed := false).Unsuspended(Reading, Bandwidth).Unsuspended(Writing, Bandwidth)
    else if s.cfg == cfg then s
    else
      var t := Set(Set(s.(cfg := cfg, limiting := true, level := Initial(s.level, cfg.value, now, s.cfg.Some?)), Reading), Writing);
      t.(armed := t.level.read <= 0 || t.level.write <= 0)
  }

  /** bufferevent_enable */
  function Enabled(s: State, dir: Dir): State {
    var h := s.Half(dir);
    s.Put(dir, h.(enabled := true, pending := h.pending || h.suspended == {}))
  }

  /** bufferevent_disable */
  function Disabled(s: State, dir: Dir): State {
    s.Put(dir, s.Half(dir).(enabled := false, pending := false))
  }

  /** bufferevent_socket_outbuf_cb */
  function Queued(s: State, more: nat): State {
    var w := s.write;
    s.(outputLen := s.outputLen + more, write := w.(pending := w.pending || (0 < more && w.Runs())))
  }

  /** The write event goes when there is nothing to write. */
  function Idled(s: State): State {
    if s.outputLen == 0 then s.(write := s.write.(pending := false)) else s
  }

  /**
   Where each step can happen: the timer goes off only when added, the public decrement asserts a
   configuration, the socket takes no more than there is, only the rate limiter uses its flag, and
   limits stay in the range of an ssize_t.
   */
  predicate Possible(s: State, op: Op) {
    match op
    case Charge(dir, bytes) => s.cfg.Some? ==> SSIZE_MIN <= s.level.Limit(dir) - bytes <= SSIZE_MAX
    case ChargeLimit(dir, bytes) => s.cfg.Some? && SSIZE_MIN <= s.level.Limit(dir) - bytes <= SSIZE_MAX
    case Ask(now) => s.cfg.Some? ==> KeepsSigns(s.level, s.cfg.value, now)
    case Fire(now) => s.armed && (s.cfg.Some? ==> KeepsSigns(s.level, s.cfg.value, now))
    case Configure(cfg, _) => cfg.Some? ==> cfg.value.Ok()
    case Suspend(_, flag) => flag != Bandwidth
    case Unsuspend(_, flag) => flag != Bandwidth
    case Sent(less) => less <= s.outputLen && s.write.pending
    case _ => true
  }

  /** One step. */
  function Step(s: State, op: Op): State
    requires Possible(s, op)
  {
    match op
    case Charge(dir, bytes) => Charged(s, dir, bytes)
    case ChargeLimit(dir, bytes) => ChargedLimit(s, dir, bytes)
    case Ask(now) => Asked(s, now)
    case Fire(now) => Fired(s, now)
    case Configure(cfg, now) => Configured(s, cfg, now)
    case Suspend(dir, flag) => s.Suspended(dir, flag)
    case Unsuspend(dir, flag) => s.Unsuspended(dir, flag)
    case Enable(dir) => Enabled(s, dir)
    case Disable(dir) => Disabled(s, dir)
    case Queue(more) => Queued(s, more)
    case Sent(less) => s.(outputLen := s.outputLen - less)
    case Idle => Idled(s)
  }

  // -------------------------------------------------------------------------------------------
  // What every run keeps
  // -------------------------------------------------------------------------------------------

  /**
   An exhausted direction is choked, the timer runs exactly while some direction is choked, and
   without a configuration none is.
   */
  predicate Governed(s: State) {
    && (s.cfg.Some? ==>
        && s.limiting && s.cfg.value.Ok() && Representable(s.level)
        && (s.level.read <= 0 ==> s.Choked(Reading))
        && (s.level.write <= 0 ==> s.Choked(Writing)))
    && (s.cfg.None? ==> !s.Choked(Reading) && !s.Choked(Writing))
    && (s.armed <==> s.Choked(Reading) || s.Choked(Writing))
  }

  /** Events are added exactly where something can happen. */
  predicate Listening(s: State) {
    && s.read.Quiet() && s.write.Quiet()
    && (s.read.Runs() ==> s.read.pending)
    && (s.write.Runs() && 0 < s.outputLen ==> s.write.pending)
  }

  /** What every reachable state satisfies. */
  predicate Inv(s: State) {
    Governed(s) && Listening(s)
  }

  lemma Unfold(s: State)
    requires Inv(s)
    ensures s.armed <==> s.Choked(Reading) || s.Choked(Writing)
    ensures s.cfg.Some? ==> s.cfg.value.Ok() && Representable(s.level)
    ensures s.read.Quiet() && s.write.Quiet()
    ensures s.cfg.None? ==> !s.armed
    ensures s.cfg.Some? ==> forall dir: Dir :: s.level.Limit(dir) <= 0 ==> s.Choked(dir)
  {
  }

  /** A new bufferevent, before any rate limit: writing is enabled, but no event is added. */
  function Fresh(level: Level): State {
    State(None, level, HalfState({}, false, false), HalfState({}, true, false), false, 0, false)
  }

  /** Asking keeps the invariant. */
  lemma AskedKeeps(s: State, now: tick)
    requires Inv(s) && Possible(s, Ask(now))
    ensures Inv(Asked(s, now))
  {
    hide Updated;
    if s.cfg.Some? {
      UpdatedPositive(s.level, s.cfg.value, now);
    }
  }

  /** So does the timer, */
  lemma FiredKeeps(s: State, now: tick)
    requires Inv(s) && Possible(s, Fire(now))
    ensures Inv(Fired(s, now))
  {
    hide Updated;
    AskedKeeps(s, now);
    var a := Asked(s, now);
    var b := Freed(a, Reading);
    assert b.write == a.write && b.level == a.level;
    var t := Freed(b, Writing);
    assert t.read == b.read;
  }

  /** a change of configuration, */
  lemma ConfiguredKeeps(s: State, cfg: Option<Cfg>, now: tick)
    requires Inv(s) && Possible(s, Configure(cfg, now))
    ensures Inv(Configured(s, cfg, now))
  {
  }

  /** a charge, */
  lemma ChargedKeeps(s: State, dir: Dir, bytes: int)
    requires Inv(s) && Possible(s, Charge(dir, bytes))
    ensures Inv(Charged(s, dir, bytes))
  {
  }

  /** and the public decrement. */
  lemma ChargedLimitKeeps(s: State, dir: Dir, bytes: int)
    requires Inv(s) && Possible(s, ChargeLimit(dir, bytes))
    ensures Inv(ChargedLimit(s, dir, bytes))
  {
  }

  /** Every step keeps the invariant. */
  lemma StepKeeps(s: State, op: Op)
    requires Inv(s) && Possible(s, op)
    ensures Inv(Step(s, op))
  {
    hide Updated, Fired, Asked, Configured, Charged, ChargedLimit;
    match op
    case Charge(dir, bytes) => ChargedKeeps(s, dir, bytes);
    case ChargeLimit(dir, bytes) => ChargedLimitKeeps(s, dir, bytes);
    case Fire(now) => FiredKeeps(s, now);
    case Ask(now) => AskedKeeps(s, now);
    case Configure(cfg, now) => ConfiguredKeeps(s, cfg, now);
    case _ =>
  }

  /** A run: each step possible where it happens. */
  predicate Run(s: State, ops: seq<Op>)
    decreases |ops|
  {
    ops == [] || (Possible(s, ops[0]) && Run(Step(s, ops[0]), ops[1..]))
  }

  /** Where a run ends. */
  function End(s: State, ops: seq<Op>): State
    requires Run(s, ops)
    decreases |ops|
  {
    if ops == [] then s else End(Step(s, ops[0]), ops[1..])
  }

  lemma RunOne(s: State, op: Op, rest: seq<Op>)
    requires Possible(s, op) && Run(Step(s, op), rest)
    ensures Run(s, [op] + rest) && End(s, [op] + rest) == End(Step(s, op), rest)
  {
    assert ([op] + rest)[1..] == rest;
  }

  /** In every state of every run the limits govern the flags, and the flags the timer and the events. */
  lemma {:induction false} RunKeeps(s: State, ops: seq<Op>)
    requires Inv(s) && Run(s, ops)
    ensures Inv(End(s, ops))
    decreases |ops|
  {
    hide Possible, Step, Inv;
    if ops != [] {
      StepKeeps(s, ops[0]);
      RunKeeps(Step(s, ops[0]), ops[1..]);
    }
  }

  /** From a bufferevent that was never limited. */
  lemma FreshRun(level: Level, ops: seq<Op>)
    requires Run(Fresh(level), ops)
    ensures Inv(End(Fresh(level), ops))
  {
    RunKeeps(Fresh(level), ops);
  }

  /** No limit is above what the configuration allows. */
  predicate Clipped(s: State) {
    s.cfg.Some? ==> s.level.Within(s.cfg.value)
  }

  /**
   What a program does that refunds nothing: the remaining conditions are the socket's, the timer's
   and the caller's own.
   */
  predicate Spends(s: State, op: Op) {
    match op
    case Charge(dir, bytes) => 0 <= bytes && (s.cfg.Some? ==> SSIZE_MIN <= s.level.Limit(dir) - bytes)
    case ChargeLimit(dir, bytes) => 0 <= bytes && s.cfg.Some? && SSIZE_MIN <= s.level.Limit(dir) - bytes
    case Ask(_) => true
    case Fire(_) => s.armed
    case _ => Possible(s, op)
  }

  /** Such a step needs nothing of the limits, and keeps them within what is allowed. */
  lemma SpendingKeeps(s: State, op: Op)
    requires Inv(s) && Clipped(s) && Spends(s, op)
    ensures Possible(s, op) && Clipped(Step(s, op))
  {
    hide Updated;
    match op
    case Ask(now) =>
      if s.cfg.Some? {
        WithinKeepsSigns(s.level, s.cfg.value, now);
        UpdatedAdds(s.level, s.cfg.value, now, Reading);
      }
    case Fire(now) =>
      if s.cfg.Some? {
        WithinKeepsSigns(s.level, s.cfg.value, now);
        UpdatedAdds(s.level, s.cfg.value, now, Reading);
      }
    case _ =>
  }

  /** A run of such steps. */
  predicate Spending(s: State, ops: seq<Op>)
    decreases |ops|
  {
    ops == [] || (Spends(s, ops[0]) && (Possible(s, ops[0]) ==> Spending(Step(s, ops[0]), ops[1..])))
  }

  /**
   Without refunds every run is one that RunKeeps speaks of, and every state of it one that Recovers
   and RunBound speak of: no limit ever wraps.
   */
  lemma {:induction false} SpendingRun(s: State, ops: seq<Op>)
    requires Inv(s) && Clipped(s) && Spending(s, ops)
    ensures Run(s, ops) && Inv(End(s, ops)) && Clipped(End(s, ops))
    decreases |ops|
  {
    hide Possible, Step, Inv, Clipped, Spends;
    if ops != [] {
      SpendingKeeps(s, ops[0]);
      StepKeeps(s, ops[0]);
      SpendingRun(Step(s, ops[0]), ops[1..]);
    }
  }

  /** From a bufferevent that was never limited on. */
  lemma FreshSpending(level: Level, ops: seq<Op>)
    requires Spending(Fresh(level), ops)
    ensures Run(Fresh(level), ops) && Inv(End(Fresh(level), ops)) && Clipped(End(Fresh(level), ops))
  {
    SpendingRun(Fresh(level), ops);
  }

  /**
   What the steps do to the bucket is what the events of a window do: bytes moved by a callback are
   a take, a non-negative decrement is a debit, and the timer only touches.
   */
  lemma StepsAreEvents(s: State, c: Cfg, dir: Dir, time: nat, bytes: nat)
    requires s.cfg == Some(c)
    ensures Charged(Asked(s, At(time)), dir, bytes).level == After(s.level, c, Take(dir, time, bytes))
    ensures ChargedLimit(s, dir, bytes).level == After(s.level, c, Debit(dir, time, bytes))
    ensures Fired(s, At(time)).level == Asked(s, At(time)).level == After(s.level, c, Touch(time))
  {
    hide Updated;
  }

  /** A step at a tick counted without wrapping. */
  datatype Timed = Timed(time: nat, op: Op)

  /**
   How the callbacks take these steps under one configuration: they read the counter as it is, move
   no more than an update at that tick allows, and refund nothing.
   */
  predicate Fair(s: State, c: Cfg, x: Timed) {
    match x.op
    case Ask(now) => now == At(x.time)
    case Fire(now) => now == At(x.time)
    case Charge(dir, bytes) =>
      && 0 <= bytes <= MaxInt(0, s.level.Limit(dir))
      && Updated(s.level, c, At(x.time)) == s.level
    case ChargeLimit(_, bytes) => 0 <= bytes
    case Configure(cfg, _) => cfg == s.cfg
    case _ => true
  }

  /** A run in a window of time. */
  predicate Timely(s: State, c: Cfg, xs: seq<Timed>, from: nat, to: nat)
    decreases |xs|
  {
    if xs == [] then from <= to
    else
      && from <= xs[0].time <= to
      && Possible(s, xs[0].op) && Fair(s, c, xs[0])
      && Timely(Step(s, xs[0].op), c, xs[1..], xs[0].time, to)
  }

  /** The bytes that the socket moves in a direction. */
  function Carried(xs: seq<Timed>, dir: Dir): int {
    if xs == [] then 0
    else (if xs[0].op.Charge? && xs[0].op.dir == dir then xs[0].op.bytes else 0) + Carried(xs[1..], dir)
  }

  /** What a step is to the bucket. */
  function Seen(x: Timed): Option<Event> {
    match x.op
    case Ask(_) => Some(Touch(x.time))
    case Fire(_) => Some(Touch(x.time))
    case Charge(dir, bytes) => if 0 <= bytes then Some(Take(dir, x.time, bytes)) else None
    case ChargeLimit(dir, bytes) => if 0 <= bytes then Some(Debit(dir, x.time, bytes)) else None
    case _ => None
  }

  /** What a run is to the bucket. */
  function Events(xs: seq<Timed>): seq<Event> {
    if xs == [] then []
    else (if Seen(xs[0]).Some? then [Seen(xs[0]).value] else []) + Events(xs[1..])
  }

  /** A step of a limited bufferevent is an allowed event of its bucket, or leaves the bucket alone. */
  lemma StepIsEvent(s: State, c: Cfg, x: Timed)
    requires s.cfg == Some(c) && Possible(s, x.op) && Fair(s, c, x)
    ensures Step(s, x.op).cfg == Some(c)
    ensures Seen(x).Some? ==>
      Allowed(s.level, c, Seen(x).value) && Step(s, x.op).level == After(s.level, c, Seen(x).value)
    ensures Seen(x).None? ==> Step(s, x.op).level == s.level
    ensures Seen(x).Some? ==> Seen(x).value.time == x.time
  {
    hide Updated;
  }

  /** A callback asks for its allowance and then moves no more: that is fair. */
  lemma CallbackIsFair(s: State, c: Cfg, time: nat, dir: Dir, bytes: nat)
    requires s.cfg == Some(c) && bytes <= MaxInt(0, Asked(s, At(time)).level.Limit(dir))
    ensures Fair(Asked(s, At(time)), c, Timed(time, Charge(dir, bytes)))
  {
    hide Ticks, Refill;
    Nowhere(At(time));
  }

  lemma EarlierStart(b: Level, c: Cfg, es: seq<Event>, from: nat, mid: nat, to: nat)
    requires from <= mid && Schedule(b, c, es, mid, to)
    ensures Schedule(b, c, es, from, to)
  {
  }

  /** A run is a schedule of events that moves the same bytes. */
  lemma {:induction false} RunIsSchedule(s: State, c: Cfg, xs: seq<Timed>, dir: Dir, from: nat, to: nat)
    requires s.cfg == Some(c) && Timely(s, c, xs, from, to)
    ensures Schedule(s.level, c, Events(xs), from, to)
    ensures Moved(Events(xs), dir) == Carried(xs, dir)
    decreases |xs|
  {
    hide Possible, Step, Allowed, After;
    if xs != [] {
      var x := xs[0];
      StepIsEvent(s, c, x);
      RunIsSchedule(Step(s, x.op), c, xs[1..], dir, x.time, to);
      if Seen(x).Some? {
        assert Events(xs)[1..] == Events(xs[1..]);
      } else {
        assert Events(xs) == Events(xs[1..]);
        EarlierStart(s.level, c, Events(xs), from, x.time, to);
      }
    }
  }

  /**
   What rate limiting is for: in any window of any run under one configuration a bufferevent moves at
   most the burst plus the rate for each tick, however the counter wraps.
   */
  lemma RunBound(s: State, c: Cfg, xs: seq<Timed>, dir: Dir, from: nat, to: nat)
    requires s.cfg == Some(c) && c.Ok() && s.level.Within(c) && Timely(s, c, xs, from, to)
    ensures Carried(xs, dir) <= c.Maximum(dir) + (to - from) * c.Rate(dir)
  {
    RunIsSchedule(s, c, xs, dir, from, to);
    WindowBound(s.level, c, dir, Events(xs), from, to);
  }

  /**
   A refund can do what RefillPositive excludes: a limit of 1, raised by a negative decrement to the
   largest ssize_t, wraps at the next tick, and the direction is then exhausted but not suspended.
   */
  lemma RefundWraps()
    ensures var (s, c) := (Fresh(Level(0, 0, 0)), Cfg(0, 1, 1, 1, 1));
      var ops := [Configure(Some(c), 0), ChargeLimit(Reading, 1 - SSIZE_MAX)];
      && Run(s, ops)
      && (var t := End(s, ops); !KeepsSigns(t.level, c, 1) && Asked(t, 1).level.read < 0 && !Inv(Asked(t, 1)))
  {
    var s, c := Fresh(Level(0, 0, 0)), Cfg(0, 1, 1, 1, 1);
    var ops := [Configure(Some(c), 0), ChargeLimit(Reading, 1 - SSIZE_MAX)];
    var one := Step(s, ops[0]);
    assert one.level == Level(1, 1, 0);
    var t := Step(one, ops[1]);
    assert t.level == Level(SSIZE_MAX, 1, 0);
    RunOne(one, ops[1], []);
    RunOne(s, ops[0], [ops[1]]);
    assert Ticks(0, 1) == 1;
    RefillPositive(SSIZE_MAX, 1, 1, 1);
    RefillAbove(SSIZE_MAX, 1, 1, 1);
  }

  // -------------------------------------------------------------------------------------------
  // No stall
  // -------------------------------------------------------------------------------------------

  /** The timer going off again and again, as long as it is added. */
  function Fires(s: State, ts: seq<tick>): State
    decreases |ts|
  {
    if ts == [] || !s.armed then s else Fires(Fired(s, ts[0]), ts[1..])
  }

  /**
   The ticks credited by readings of the counter to a bucket last updated at `last`: a reading that
   is not ahead of the last one that counted is passed over.
   */
  function Credit(last: tick, ts: seq<tick>): nat
    decreases |ts|
  {
    if ts == [] then 0
    else
      var n := Ticks(last, ts[0]);
      if Advances(n) then n + Credit(ts[0], ts[1..]) else Credit(last, ts[1..])
  }

  /** Firing does not choke a direction, and frees one exactly when its new limit is positive. */
  lemma FiredFrees(s: State, now: tick, dir: Dir)
    requires Inv(s) && Possible(s, Fire(now)) && s.cfg.Some?
    ensures var t := Fired(s, now);
      && t.cfg == s.cfg && t.level == Updated(s.level, s.cfg.value, now)
      && (t.Choked(dir) <==> s.Choked(dir) && t.level.Limit(dir) <= 0)
  {
    hide Updated;
  }

  lemma WithinKeepsSigns(b: Level, c: Cfg, now: tick)
    requires b.Within(c)
    ensures KeepsSigns(b, c, now)
  {
  }

  /** The timer never chokes a direction. */
  lemma {:induction false} StaysFree(s: State, dir: Dir, ts: seq<tick>)
    requires Inv(s) && s.cfg.Some? && s.level.Within(s.cfg.value) && !s.Choked(dir)
    ensures !Fires(s, ts).Choked(dir)
    decreases |ts|
  {
    hide Fired, Updated;
    if ts != [] && s.armed {
      WithinKeepsSigns(s.level, s.cfg.value, ts[0]);
      FiredFrees(s, ts[0], dir);
      FiredKeeps(s, ts[0]);
      UpdatedAdds(s.level, s.cfg.value, ts[0], dir);
      StaysFree(Fired(s, ts[0]), dir, ts[1..]);
    }
  }

  lemma Repaid(limit: int, maximum: nat, rate: nat, n: nat, rest: nat)
    requires 1 <= maximum
    ensures var now := Filled(limit, maximum, rate, n);
      && (now <= 0 ==> (now + rest * rate <= 0 <==> limit + (n + rest) * rate <= 0))
      && (0 < now ==> 0 < limit + (n + rest) * rate)
  {
    assert (n + rest) * rate == n * rate + rest * rate;
    MulMono(0, rest, rate);
  }

  /**
   Whatever the clock does, a choked direction is freed exactly when the ticks credited so far pay
   off its debt.
   */
  lemma {:induction false} Recovers(s: State, dir: Dir, ts: seq<tick>)
    requires Inv(s) && s.cfg.Some? && s.level.Within(s.cfg.value) && s.Choked(dir)
    ensures Fires(s, ts).Choked(dir)
      <==> ts == [] || s.level.Limit(dir) + Credit(s.level.last, ts) * s.cfg.value.Rate(dir) <= 0
    decreases |ts|
  {
    hide Fired, Updated, Inv, Ticks, Filled;
    if ts != [] {
      var c, now, n := s.cfg.value, ts[0], Ticks(s.level.last, ts[0]);
      assert s.armed && c.Ok() by { Unfold(s); }
      WithinKeepsSigns(s.level, c, now);
      FiredFrees(s, now, dir);
      FiredKeeps(s, now);
      UpdatedAdds(s.level, c, now, dir);
      var t := Fired(s, now);
      var rate, rest := c.Rate(dir), Credit(t.level.last, ts[1..]);
      if Advances(n) {
        Repaid(s.level.Limit(dir), c.Maximum(dir), rate, n, rest);
      } else {
        MulMono(0, rest, rate);
      }
      if t.Choked(dir) {
        Recovers(t, dir, ts[1..]);
      } else {
        StaysFree(t, dir, ts[1..]);
      }
    }
  }

  /** Nothing is credited exactly when no reading is ahead of the last update. */
  lemma {:induction false} NoCredit(last: tick, ts: seq<tick>)
    ensures Credit(last, ts) == 0 <==> forall t :: t in ts ==> !Advances(Ticks(last, t))
    decreases |ts|
  {
    hide Ticks;
    if ts != [] {
      assert ts == [ts[0]] + ts[1..];
      if !Advances(Ticks(last, ts[0])) {
        NoCredit(last, ts[1..]);
      } else {
        assert ts[0] in ts;
      }
    }
  }

  /** ev_token_bucket_get_tick_ */
  function TickOf(seconds: nat, micros: nat, msecPerTick: nat): tick
    requires 0 < msecPerTick
  {
    (seconds * 1000 + micros / 1000) % U64 / msecPerTick % U32
  }

  /**
   Reconfiguring keeps the time of the last update, although it is counted in the ticks of the old
   configuration.  However often the timer then goes off, an exhausted direction is freed exactly
   when the debt is paid off by ticks of the new length counted from that time; and as long as no
   reading is ahead of the old count, nothing is credited and it stays suspended.
   */
  lemma ReconfiguredRefills(s: State, cfg: Cfg, now: tick, dir: Dir, ts: seq<tick>)
    requires Inv(s) && s.cfg.Some? && s.cfg.value != cfg && cfg.Ok() && s.level.Limit(dir) <= 0
    ensures var t := Configured(s, Some(cfg), now);
      && t.Choked(dir) && t.armed
      && (Fires(t, ts).Choked(dir) <==> s.level.Limit(dir) + Credit(s.level.last, ts) * cfg.Rate(dir) <= 0)
      && ((forall r :: r in ts ==> !Advances(Ticks(s.level.last, r))) ==> Fires(t, ts).Choked(dir))
  {
    hide Updated, Inv, Fires, Ticks;
    var t := Configured(s, Some(cfg), now);
    Unfold(s);
    assert t.level.Within(cfg) && t.level.Limit(dir) == s.level.Limit(dir) by { InitialWithin(s, cfg, now); }
    ConfiguredKeeps(s, Some(cfg), now);
    Recovers(t, dir, ts);
    NoCredit(s.level.last, ts);
    assert Fires(t, []) == t by { NoFiring(t); }
  }

  lemma NoFiring(s: State)
    ensures Fires(s, []) == s
  {
  }

  lemma InitialWithin(s: State, cfg: Cfg, now: tick)
    requires Inv(s) && s.cfg.Some? && cfg.Ok()
    ensures Initial(s.level, cfg, now, true).Within(cfg)
  {
  }

  /** The counter at some seconds of the clock, when a tick is a second. */
  function SecondsCounter(times: seq<nat>): seq<tick> {
    seq(|times|, k requires 0 <= k < |times| => TickOf(times[k], 0, 1000))
  }

  /** In November 2023, for a bucket whose ticks are milliseconds. */
  const CHANGE: nat := 1_700_000_000

  /** Some time in 2080 */
  const RELEASE: nat := 3_487_918_080

  /**
   An exhausted direction that goes from ticks of a millisecond to ticks of a second: whenever the
   timer goes off in the next 1,787,918,080 seconds, the direction stays suspended.
   */
  lemma LongerTicksStall(s: State, cfg: Cfg, dir: Dir, times: seq<nat>)
    requires Inv(s) && s.cfg.Some? && s.cfg.value != cfg && cfg.Ok() && s.level.Limit(dir) <= 0
    requires s.level.last == TickOf(CHANGE, 0, 1)
    requires forall k :: 0 <= k < |times| ==> CHANGE <= times[k] <= RELEASE
    ensures var t := Fires(Configured(s, Some(cfg), TickOf(CHANGE, 0, 1000)), SecondsCounter(times));
      t.Choked(dir)
  {
    hide Fires, Configured, Inv, Ticks, TickOf;
    var ts := SecondsCounter(times);
    forall r | r in ts
      ensures !Advances(Ticks(s.level.last, r))
    {
      var k :| 0 <= k < |ts| && ts[k] == r;
      SecondsBehind(times[k]);
    }
    ReconfiguredRefills(s, cfg, TickOf(CHANGE, 0, 1000), dir, ts);
  }

  lemma SecondsBehind(seconds: nat)
    requires CHANGE <= seconds <= RELEASE
    ensures !Advances(Ticks(TickOf(CHANGE, 0, 1), TickOf(seconds, 0, 1000)))
  {
    assert TickOf(CHANGE, 0, 1) == RELEASE;
    assert seconds * 1000 % U64 / 1000 == seconds;
  }

  /**
   Such a state is reached by limiting a new bufferevent to a byte for each millisecond and reading
   that byte; the change leaves one that no timer frees before 2080.
   */
  lemma StallReached(times: seq<nat>)
    requires forall k :: 0 <= k < |times| ==> CHANGE <= times[k] <= RELEASE
    ensures var (short, long, now) := (Cfg(0, 1, 1, 1, 1), Cfg(1, 1, 1, 1, 1), TickOf(CHANGE, 0, 1));
      var s := Fresh(Level(0, 0, 0));
      var ops := [Enable(Reading), Configure(Some(short), now), Ask(now), Charge(Reading, 1)];
      && Run(s, ops) && End(s, ops).level.read == 0
      && Fires(Configured(End(s, ops), Some(long), TickOf(CHANGE, 0, 1000)), SecondsCounter(times)).Choked(Reading)
  {
    var short, long, now := Cfg(0, 1, 1, 1, 1), Cfg(1, 1, 1, 1, 1), TickOf(CHANGE, 0, 1);
    var s := Fresh(Level(0, 0, 0));
    var ops := [Enable(Reading), Configure(Some(short), now), Ask(now), Charge(Reading, 1)];
    var begun := Step(s, ops[0]);
    var one := Step(begun, ops[1]);
    assert one.level == Level(1, 1, now);
    StaleUpdate(one.level, short, now);
    assert Step(one, ops[2]) == one;
    var last := Step(one, ops[3]);
    RunOne(one, ops[3], []);
    RunOne(one, ops[2], [ops[3]]);
    RunOne(begun, ops[1], [ops[2], ops[3]]);
    RunOne(s, ops[0], [ops[1], ops[2], ops[3]]);
    RunKeeps(s, ops);
    LongerTicksStall(last, long, Reading, times);
  }

  // -------------------------------------------------------------------------------------------
  // What each step does, and what is left of it
  // -------------------------------------------------------------------------------------------

  /** Bytes come off one limit, as many as were charged, and off nothing else; only updates and a new configuration add. */
  lemma StepCharges(s: State, op: Op)
    requires Possible(s, op)
    ensures var t := Step(s, op);
      && ((op.Charge? && s.cfg.Some?) || op.ChargeLimit? ==>
          && t.level.last == s.level.last
          && t.level.read == s.level.read - (if op.dir.Reading? then op.bytes else 0)
          && t.level.write == s.level.write - (if op.dir.Writing? then op.bytes else 0))
      && (op.Charge? && s.cfg.None? ==> t == s)
      && ((op.Ask? || op.Fire?) && s.cfg.Some? ==> t.level == Updated(s.level, s.cfg.value, op.now))
      && (op.Configure? && op.cfg.Some? && op.cfg != s.cfg ==>
          t.level == Initial(s.level, op.cfg.value, op.now, s.cfg.Some?))
      && (op.Configure? && (op.cfg.None? || op.cfg == s.cfg) ==> t.level == s.level)
      && (op.Suspend? || op.Unsuspend? || op.Enable? || op.Disable? ==> t.level == s.level)
      && (op.Queue? || op.Sent? || op.Idle? ==> t.level == s.level)
  {
    hide Updated, Initial;
  }

  /** What neither a charge, an update nor the timer changes, and what a new configuration does not. */
  predicate Alike(t: State, s: State) {
    && t.read.enabled == s.read.enabled && t.write.enabled == s.write.enabled && t.outputLen == s.outputLen
    && t.read.suspended - {Bandwidth} == s.read.suspended - {Bandwidth}
    && t.write.suspended - {Bandwidth} == s.write.suspended - {Bandwidth}
  }

  lemma ChargedAlike(s: State, dir: Dir, bytes: int)
    ensures Alike(Charged(s, dir, bytes), s) && Charged(s, dir, bytes).cfg == s.cfg
    ensures Alike(ChargedLimit(s, dir, bytes), s) && ChargedLimit(s, dir, bytes).cfg == s.cfg
  {
  }

  lemma FiredAlike(s: State, now: tick)
    ensures Alike(Fired(s, now), s) && Fired(s, now).cfg == s.cfg
    ensures Alike(Asked(s, now), s) && Asked(s, now).cfg == s.cfg
  {
    hide Updated;
  }

  lemma ConfiguredAlike(s: State, cfg: Option<Cfg>, now: tick)
    ensures var t := Configured(s, cfg, now);
      && Alike(t, s) && t.cfg == (if cfg.Some? || s.limiting then cfg else s.cfg)
      && (cfg.Some? && cfg != s.cfg ==>
          (t.Choked(Reading) <==> t.level.read <= 0) && (t.Choked(Writing) <==> t.level.write <= 0))
      && (cfg.None? && s.limiting ==> !t.Choked(Reading) && !t.Choked(Writing))
      && ((if cfg.None? then !s.limiting else cfg == s.cfg) ==> t == s)
  {
    hide Initial;
  }

  /** The configuration is the last one set, a direction is enabled as was said, and the output is queued and not sent. */
  lemma StepSets(s: State, op: Op)
    requires Possible(s, op)
    ensures var t := Step(s, op);
      && t.cfg == (if op.Configure? && (op.cfg.Some? || s.limiting) then op.cfg else s.cfg)
      && (t.read.enabled <==> op == Enable(Reading) || (s.read.enabled && op != Disable(Reading)))
      && (t.write.enabled <==> op == Enable(Writing) || (s.write.enabled && op != Disable(Writing)))
      && t.outputLen == s.outputLen + (if op.Queue? then op.more else 0) - (if op.Sent? then op.less else 0)
      && (op.Configure? && (if op.cfg.None? then !s.limiting else op.cfg == s.cfg) ==> t == s)
  {
    hide Charged, ChargedLimit, Fired, Asked, Configured;
    match op
    case Charge(dir, bytes) => ChargedAlike(s, dir, bytes);
    case ChargeLimit(dir, bytes) => ChargedAlike(s, dir, bytes);
    case Ask(now) => FiredAlike(s, now);
    case Fire(now) => FiredAlike(s, now);
    case Configure(cfg, now) => ConfiguredAlike(s, cfg, now);
    case _ =>
  }

  lemma ChargedFlags(s: State, dir: Dir, bytes: int)
    ensures var t := Charged(s, dir, bytes); s.cfg.Some? ==> (t.Choked(dir) <==> t.level.Limit(dir) <= 0)
    ensures var t := ChargedLimit(s, dir, bytes);
      0 < s.level.Limit(dir) || 0 < t.level.Limit(dir) ==>
        (t.Choked(dir) <==> t.level.Limit(dir) <= 0 || (0 < s.level.Limit(dir) && s.Choked(dir)))
  {
  }

  /** A step takes and gives the flags that it names; the rate limiter's own follow the limits. */
  lemma StepFlags(s: State, op: Op, dir: Dir)
    requires Possible(s, op) && Inv(s)
    ensures var t := Step(s, op);
      && (op.Suspend? && op.dir == dir ==> t.Half(dir).suspended == s.Half(dir).suspended + {op.flag})
      && (op.Unsuspend? && op.dir == dir ==> t.Half(dir).suspended == s.Half(dir).suspended - {op.flag})
      && (!(op.Suspend? && op.dir == dir) && !(op.Unsuspend? && op.dir == dir) ==>
          t.Half(dir).suspended - {Bandwidth} == s.Half(dir).suspended - {Bandwidth})
      && (op.Charge? && op.dir == dir && s.cfg.Some? ==> (t.Choked(dir) <==> t.level.Limit(dir) <= 0))
      && (op.ChargeLimit? && op.dir == dir && (0 < s.level.Limit(dir) || 0 < t.level.Limit(dir)) ==>
          (t.Choked(dir) <==> t.level.Limit(dir) <= 0 || (0 < s.level.Limit(dir) && s.Choked(dir))))
      && (op.Configure? && op.cfg.Some? && op.cfg != s.cfg ==> (t.Choked(dir) <==> t.level.Limit(dir) <= 0))
      && (op.Configure? && op.cfg.None? ==> !t.Choked(dir))
  {
    hide Charged, ChargedLimit, Fired, Asked, Configured;
    match op
    case Charge(d, bytes) =>
      ChargedAlike(s, d, bytes);
      ChargedFlags(s, d, bytes);
    case ChargeLimit(d, bytes) =>
      ChargedAlike(s, d, bytes);
      ChargedFlags(s, d, bytes);
    case Ask(now) => FiredAlike(s, now);
    case Fire(now) => FiredAlike(s, now);
    case Configure(cfg, now) =>
      ConfiguredAlike(s, cfg, now);
      if cfg.None? && !s.limiting {
        NotLimited(s, now);
      }
    case _ =>
  }

  lemma NotLimited(s: State, now: tick)
    requires Inv(s) && !s.limiting
    ensures Configured(s, None, now) == s && !s.Choked(Reading) && !s.Choked(Writing)
  {
  }

  /** An enabled direction listens at once unless it is suspended, and one that is disabled does not. */
  lemma StepListens(s: State, dir: Dir)
    ensures var t := Step(s, Enable(dir)); s.Half(dir).suspended == {} ==> t.Half(dir).pending
    ensures !Step(s, Disable(dir)).Half(dir).pending
    ensures forall flag :: flag != Bandwidth ==> !Step(s, Suspend(dir, flag)).Half(dir).pending
  {
  }

  /** The last step about it enabled the direction, or none was about it and it was enabled. */
  predicate Kept(ops: seq<Op>, dir: Dir, before: bool) {
    || (before && forall j :: 0 <= j < |ops| ==> ops[j] != Disable(dir))
    || exists i :: 0 <= i < |ops| && ops[i] == Enable(dir) && forall j :: i < j < |ops| ==> ops[j] != Disable(dir)
  }

  lemma KeptFirst(ops: seq<Op>, dir: Dir, before: bool)
    requires ops != []
    ensures Kept(ops, dir, before) <==>
      Kept(ops[1..], dir, ops[0] == Enable(dir) || (before && ops[0] != Disable(dir)))
  {
    var rest := ops[1..];
    var now := ops[0] == Enable(dir) || (before && ops[0] != Disable(dir));
    assert forall j :: 0 <= j < |rest| ==> rest[j] == ops[j + 1];
    assert forall j :: 1 <= j < |ops| ==> ops[j] == rest[j - 1];
    if Kept(rest, dir, now) && !(now && forall j :: 0 <= j < |rest| ==> rest[j] != Disable(dir)) {
      var i :| 0 <= i < |rest| && rest[i] == Enable(dir) && forall j :: i < j < |rest| ==> rest[j] != Disable(dir);
      assert ops[i + 1] == Enable(dir);
    }
  }

  /** What was queued less what was sent. */
  function Waiting(ops: seq<Op>): int {
    if ops == [] then 0
    else (if ops[0].Queue? then ops[0].more else 0) - (if ops[0].Sent? then ops[0].less else 0) + Waiting(ops[1..])
  }

  /** In every run a direction is enabled as the last step about it said, and the output is what was queued and not sent. */
  lemma {:induction false} SettingsRun(s: State, ops: seq<Op>)
    requires Run(s, ops)
    ensures var t := End(s, ops);
      && (t.read.enabled <==> Kept(ops, Reading, s.read.enabled))
      && (t.write.enabled <==> Kept(ops, Writing, s.write.enabled))
      && t.outputLen == s.outputLen + Waiting(ops)
    decreases |ops|
  {
    hide Possible, Step;
    if ops != [] {
      hide Kept;
      StepSets(s, ops[0]);
      SettingsRun(Step(s, ops[0]), ops[1..]);
      KeptFirst(ops, Reading, s.read.enabled);
      KeptFirst(ops, Writing, s.write.enabled);
    }
  }

  /** What steps charge to a direction. */
  function Spent(ops: seq<Op>, dir: Dir): int {
    if ops == [] then 0
    else (if (ops[0].Charge? || ops[0].ChargeLimit?) && ops[0].dir == dir then ops[0].bytes else 0) + Spent(ops[1..], dir)
  }

  /** As long as nothing is credited each limit is what it was, less exactly what has been charged. */
  lemma {:induction false} LimitRun(s: State, ops: seq<Op>)
    requires Run(s, ops) && s.cfg.Some? && forall j :: 0 <= j < |ops| ==> !ops[j].Ask? && !ops[j].Fire? && !ops[j].Configure?
    ensures var t := End(s, ops);
      && t.level.read == s.level.read - Spent(ops, Reading) && t.level.write == s.level.write - Spent(ops, Writing)
      && t.level.last == s.level.last && t.cfg == s.cfg
    decreases |ops|
  {
    hide Possible, Step;
    if ops != [] {
      assert !ops[0].Ask? && !ops[0].Fire? && !ops[0].Configure?;
      StepCharges(s, ops[0]);
      StepSets(s, ops[0]);
      LimitRun(Step(s, ops[0]), ops[1..]);
    }
  }

  /** Readings of a clock that does not go back, and is read at least every 2^31 - 1 ticks. */
  predicate Steady(from: nat, times: seq<nat>)
    decreases |times|
  {
    times == [] || (from <= times[0] <= from + 0x7FFF_FFFF && Steady(times[0], times[1..]))
  }

  /** The counter at those times. */
  function Counter(times: seq<nat>): seq<tick> {
    if times == [] then [] else [times[0] % 0x1_0000_0000] + Counter(times[1..])
  }

  lemma {:induction false} CreditInTime(from: nat, times: seq<nat>)
    requires Steady(from, times) && times != []
    ensures Credit(from % 0x1_0000_0000, Counter(times)) == times[|times| - 1] - from
    decreases |times|
  {
    hide Ticks;
    TicksBetween(from, times[0]);
    assert Counter(times)[1..] == Counter(times[1..]);
    if times[1..] != [] {
      if times[0] == from {
        CreditInTime(from, times[1..]);
      } else {
        CreditInTime(times[0], times[1..]);
      }
      assert times[1..][|times| - 2] == times[|times| - 1];
    } else {
      assert Counter(times[1..]) == [];
    }
  }

  /** By the clock: a choked direction is freed exactly when the ticks since its bucket's last update pay its debt. */
  lemma RecoversInTime(s: State, dir: Dir, from: nat, times: seq<nat>)
    requires Inv(s) && s.cfg.Some? && s.level.Within(s.cfg.value) && s.Choked(dir) && s.level.last == from % 0x1_0000_0000
    requires Steady(from, times) && times != []
    ensures Fires(s, Counter(times)).Choked(dir)
      <==> s.level.Limit(dir) + (times[|times| - 1] - from) * s.cfg.value.Rate(dir) <= 0
  {
    hide Fires, Credit, Inv, Steady, Counter;
    CounterSome(times);
    CreditInTime(from, times);
    Recovers(s, dir, Counter(times));
    assert Credit(s.level.last, Counter(times)) == times[|times| - 1] - from;
  }

  lemma CounterSome(times: seq<nat>)
    ensures times != [] ==> Counter(times) != []
  {
  }
}
