/**
 The token bucket of the rate limiter, in the machine arithmetic of an LP64 system, and the bound
 it puts on what a connection moves in any stretch of time.
 */
module TokenBucket {

  const U32: nat := 0x1_0000_0000
  const INT_MAX: nat := 0x7FFF_FFFF
  const U64: nat := 0x1_0000_0000_0000_0000
  const SSIZE_MAX: nat := 0x7FFF_FFFF_FFFF_FFFF
  const SSIZE_MIN: int := -0x8000_0000_0000_0000

  /** evbuffer_read takes at most this much at once */
  const MAX_READ: nat := 4096

  type tick = t: nat | t < U32

  /** The two directions, which have a bucket each */
  datatype Dir = Reading | Writing

  function Other(dir: Dir): Dir {
    if dir.Reading? then Writing else Reading
  }

  /** struct ev_token_bucket_cfg; the source compares configurations by address, here by id. */
  datatype Cfg = Cfg(id: nat, readRate: nat, readMaximum: nat, writeRate: nat, writeMaximum: nat) {

    /** What ev_token_bucket_cfg_new lets through. */
    predicate Ok() {
      && 1 <= readRate <= readMaximum <= SSIZE_MAX
      && 1 <= writeRate <= writeMaximum <= SSIZE_MAX
    }

    function Rate(dir: Dir): nat {
      if dir.Reading? then readRate else writeRate
    }

    function Maximum(dir: Dir): nat {
      if dir.Reading? then readMaximum else writeMaximum
    }
  }

  /** The value of a struct ev_token_bucket. */
  datatype Level = Level(read: int, write: int, last: tick) {

    function Limit(dir: Dir): int {
      if dir.Reading? then read else write
    }

    function Less(dir: Dir, bytes: int): Level {
      if dir.Reading? then this.(read := read - bytes) else this.(write := write - bytes)
    }

    /** Neither limit is above what the configuration allows. */
    predicate Within(c: Cfg) {
      && SSIZE_MIN <= read <= c.readMaximum
      && SSIZE_MIN <= write <= c.writeMaximum
    }
  }

  function MinInt(x: int, y: int): int {
    if x < y then x else y
  }

  function MaxInt(x: int, y: int): int {
    if x < y then y else x
  }

  // -------------------------------------------------------------------------------------------
  // One update
  // -------------------------------------------------------------------------------------------

  /** A size_t read as an ssize_t. */
  function ToSsize(x: nat): int
    requires x < U64
  {
    if x <= SSIZE_MAX then x else x - U64
  }

  /** One direction of ev_token_bucket_update_: every operation is on size_t values. */
  function Refill(limit: int, maximum: nat, rate: nat, n: nat): int
    requires 0 < n
  {
    if (maximum - limit) % U64 / n < rate then maximum
    else ToSsize((limit + n * rate % U64) % U64)
  }

  /** What the comment in the source calls naive: add the ticks' worth and clamp. */
  function Filled(limit: int, maximum: nat, rate: nat, n: nat): int {
    MinInt(maximum, limit + n * rate)
  }

  lemma MulMono(a: nat, b: nat, c: nat)
    requires a <= b
    ensures a * c <= b * c
  {
  }

  lemma DivBelow(a: nat, n: nat, rate: nat)
    requires 0 < n
    ensures a / n < rate <==> a < n * rate
  {
    var q := a / n;
    assert q * n <= a < q * n + n;
    if q < rate {
      MulMono(q + 1, rate, n);
    } else {
      MulMono(rate, q, n);
    }
  }

  /** One direction of the update by what the ticks are worth. */
  function RefilledBy(limit: int, maximum: nat, worth: nat): int {
    if (maximum - limit) % U64 < worth then maximum else ToSsize((limit + worth % U64) % U64)
  }

  lemma RefillWorth(limit: int, maximum: nat, rate: nat, n: nat)
    requires 0 < n
    ensures Refill(limit, maximum, rate, n) == RefilledBy(limit, maximum, n * rate)
  {
    hide ToSsize;
    DivBelow((maximum - limit) % U64, n, rate);
  }

  /** One word up or down. */
  lemma Wrapped(x: int)
    ensures 0 <= x < U64 ==> x % U64 == x
    ensures x < 0 <= x + U64 ==> x % U64 == x + U64
    ensures U64 <= x < 2 * U64 ==> x % U64 == x - U64
  {
  }

  lemma RefilledByExact(limit: int, maximum: nat, worth: nat)
    requires SSIZE_MIN <= limit <= SSIZE_MAX && 1 <= maximum <= SSIZE_MAX && 0 < worth
    ensures RefilledBy(limit, maximum, worth) == MinInt(maximum, limit + worth)
      <==> limit <= maximum || U64 - (limit - maximum) <= worth
  {
    Wrapped(maximum - limit);
    if worth <= (maximum - limit) % U64 {
      Wrapped(worth);
      Wrapped(limit + worth);
    }
  }

  /**
   The update adds the ticks' worth and stops at the maximum, with no overflow on the way, exactly
   when the limit was not above the maximum already (or the ticks are worth so much that the
   difference, taken modulo the word, does not show it).
   */
  lemma RefillExact(limit: int, maximum: nat, rate: nat, n: nat)
    requires SSIZE_MIN <= limit <= SSIZE_MAX && 1 <= rate <= maximum <= SSIZE_MAX && 0 < n <= INT_MAX
    ensures Refill(limit, maximum, rate, n) == Filled(limit, maximum, rate, n)
      <==> limit <= maximum || U64 - (limit - maximum) <= n * rate
  {
    hide Refill, RefilledBy;
    MulMono(1, n, rate);
    RefillWorth(limit, maximum, rate, n);
    RefilledByExact(limit, maximum, n * rate);
  }

  /** The sum stays in the positive half of the word, or comes all the way round. */
  predicate KeepsSign(limit: int, maximum: nat, rate: nat, n: nat) {
    limit <= maximum || limit + n * rate <= SSIZE_MAX || U64 < limit + n * rate
  }

  /**
   A limit that refunds have raised above the maximum is not clamped but added to, and can wrap: an
   update leaves a positive limit positive exactly when the sum does not land in the negative half.
   */
  lemma RefillPositive(limit: int, maximum: nat, rate: nat, n: nat)
    requires 0 < limit <= SSIZE_MAX && 1 <= rate <= maximum <= SSIZE_MAX && 0 < n <= INT_MAX
    ensures 0 < Refill(limit, maximum, rate, n) <==> KeepsSign(limit, maximum, rate, n)
  {
    hide Refill;
    var worth := n * rate;
    assert 0 < worth by { MulMono(1, n, rate); }
    if limit <= maximum {
      RefillExact(limit, maximum, rate, n);
    } else {
      RefillAbove(limit, maximum, rate, n);
      if worth <= U64 - (limit - maximum) {
        WrapSign(limit, maximum, worth);
      }
    }
  }

  /** Above the maximum the room is a wrapped difference, and what does not exceed it is added. */
  lemma RefillAbove(limit: int, maximum: nat, rate: nat, n: nat)
    requires maximum < limit <= SSIZE_MAX && 0 < n
    ensures Refill(limit, maximum, rate, n)
      == (if U64 - (limit - maximum) < n * rate then maximum else ToSsize((limit + n * rate) % U64))
  {
    hide Refill, ToSsize;
    RefillWorth(limit, maximum, rate, n);
    Wrapped(maximum - limit);
    if n * rate <= U64 - (limit - maximum) {
      Wrapped(n * rate);
    }
  }

  lemma WrapSign(limit: int, maximum: nat, worth: nat)
    requires maximum < limit <= SSIZE_MAX && worth <= U64 - (limit - maximum)
    ensures 0 < ToSsize((limit + worth) % U64) <==> limit + worth <= SSIZE_MAX || U64 < limit + worth
  {
  }

  /** The number of ticks between two readings of the tick counter, which wraps. */
  function Ticks(last: tick, now: tick): (n: nat)
    ensures n < U32
  {
    (now - last) % U32
  }

  /** Time went forward: what the update asks of the difference. */
  predicate Advances(n: nat) {
    0 < n <= INT_MAX
  }

  /** ev_token_bucket_update_ on values, in machine arithmetic. */
  function Updated(b: Level, c: Cfg, now: tick): Level {
    var n := Ticks(b.last, now);
    if !Advances(n) then b
    else Level(Refill(b.read, c.readMaximum, c.readRate, n), Refill(b.write, c.writeMaximum, c.writeRate, n), now)
  }

  lemma StaleUpdate(b: Level, c: Cfg, now: tick)
    requires !Advances(Ticks(b.last, now))
    ensures Updated(b, c, now) == b
  {
  }

  /** A bucket not above its maximum gets each tick's rate, up to the maximum, and stays within it. */
  lemma UpdatedAdds(b: Level, c: Cfg, now: tick, dir: Dir)
    requires c.Ok() && b.Within(c)
    ensures var n := Ticks(b.last, now);
      && Updated(b, c, now).Limit(dir)
         == (if Advances(n) then Filled(b.Limit(dir), c.Maximum(dir), c.Rate(dir), n) else b.Limit(dir))
      && Updated(b, c, now).last == (if Advances(n) then now else b.last)
      && Updated(b, c, now).Within(c)
      && b.Limit(dir) <= Updated(b, c, now).Limit(dir)
  {
    var n := Ticks(b.last, now);
    if Advances(n) {
      RefillExact(b.read, c.readMaximum, c.readRate, n);
      RefillExact(b.write, c.writeMaximum, c.writeRate, n);
      MulMono(0, n, c.readRate);
      MulMono(0, n, c.writeRate);
    }
  }

  /** Neither direction wraps into the negative half. */
  predicate KeepsSigns(b: Level, c: Cfg, now: tick) {
    var n := Ticks(b.last, now);
    Advances(n) ==>
      && KeepsSign(b.read, c.readMaximum, c.readRate, n)
      && KeepsSign(b.write, c.writeMaximum, c.writeRate, n)
  }

  /** The limits fit an ssize_t. */
  predicate Representable(b: Level) {
    SSIZE_MIN <= b.read <= SSIZE_MAX && SSIZE_MIN <= b.write <= SSIZE_MAX
  }

  /** An update keeps what was positive positive. */
  lemma UpdatedPositive(b: Level, c: Cfg, now: tick)
    requires c.Ok() && Representable(b) && KeepsSigns(b, c, now)
    ensures Representable(Updated(b, c, now))
    ensures 0 < b.read ==> 0 < Updated(b, c, now).read
    ensures 0 < b.write ==> 0 < Updated(b, c, now).write
  {
    var n := Ticks(b.last, now);
    if Advances(n) {
      if 0 < b.read { RefillPositive(b.read, c.readMaximum, c.readRate, n); }
      if 0 < b.write { RefillPositive(b.write, c.writeMaximum, c.writeRate, n); }
    }
  }

  lemma FilledTwice(limit: int, maximum: nat, rate: nat, n: nat, m: nat)
    ensures Filled(Filled(limit, maximum, rate, n), maximum, rate, m) == Filled(limit, maximum, rate, n + m)
  {
    assert (n + m) * rate == n * rate + m * rate;
    MulMono(0, m, rate);
  }

  lemma Nowhere(last: tick)
    ensures Ticks(last, last) == 0
  {
  }

  lemma FilledGrows(limit: int, maximum: nat, rate: nat, n: nat, m: nat, gap: nat)
    requires limit <= maximum && m <= gap + n
    ensures Filled(limit, maximum, rate, 0) == limit
    ensures Filled(limit, maximum, rate, m) <= Filled(limit, maximum, rate, n) + gap * rate
  {
    var worth, more := n * rate, gap * rate;
    assert (gap + n) * rate == more + worth;
    MulMono(m, gap + n, rate);
    MulMono(0, gap, rate);
  }

  /** The wrapping difference adds up as long as the sum stays below the word. */
  lemma TicksAdd(last: tick, mid: tick, now: tick)
    ensures Ticks(last, now) == (Ticks(last, mid) + Ticks(mid, now)) % U32
  {
  }

  /**
   Two updates that each find time gone forward do what one does, exactly when the two stretches
   together are still short enough for the one to recognise them.
   */
  lemma UpdatesCompose(b: Level, c: Cfg, mid: tick, now: tick)
    requires c.Ok() && b.Within(c)
    requires Advances(Ticks(b.last, mid)) && Advances(Ticks(mid, now))
    ensures Updated(Updated(b, c, mid), c, now) == Updated(b, c, now)
      <==> Ticks(b.last, mid) + Ticks(mid, now) <= INT_MAX
  {
    hide Updated, Ticks, Filled;
    var n, m := Ticks(b.last, mid), Ticks(mid, now);
    var half := Updated(b, c, mid);
    TicksAdd(b.last, mid, now);
    forall dir: Dir
      ensures half.Limit(dir) == Filled(b.Limit(dir), c.Maximum(dir), c.Rate(dir), n)
      ensures half.last == mid && half.Within(c)
      ensures Updated(half, c, now).Limit(dir) == Filled(b.Limit(dir), c.Maximum(dir), c.Rate(dir), n + m)
      ensures Updated(half, c, now).last == now
    {
      UpdatedAdds(b, c, mid, dir);
      UpdatedAdds(half, c, now, dir);
      FilledTwice(b.Limit(dir), c.Maximum(dir), c.Rate(dir), n, m);
    }
    UpdatedAdds(b, c, now, Reading);
    UpdatedAdds(b, c, now, Writing);
    if n + m <= INT_MAX {
      var two, one := Updated(half, c, now), Updated(b, c, now);
      assert two.Limit(Reading) == one.Limit(Reading) && two.Limit(Writing) == one.Limit(Writing);
    } else {
      assert now != b.last by { TicksAdd(b.last, mid, now); Nowhere(b.last); }
    }
  }

  /** struct ev_token_bucket */
  class Bucket {
    var readLimit: int
    var writeLimit: int
    var lastUpdated: tick

    function View(): Level
      reads this
    {
      Level(readLimit, writeLimit, lastUpdated)
    }

    /** ev_token_bucket_init_ with reinitialize off */
    constructor (cfg: Cfg, now: tick)
      ensures View() == Level(cfg.readRate, cfg.writeRate, now)
    {
      readLimit, writeLimit, lastUpdated := cfg.readRate, cfg.writeRate, now;
    }

    /** ev_token_bucket_init_ */
    method Init(cfg: Cfg, now: tick, reinitialize: bool)
      modifies this
      ensures View() == Initial(old(View()), cfg, now, reinitialize)
    {
      if reinitialize {
        if readLimit > cfg.readMaximum {
          readLimit := cfg.readMaximum;
        }
        if writeLimit > cfg.writeMaximum {
          writeLimit := cfg.writeMaximum;
        }
      } else {
        readLimit, writeLimit, lastUpdated := cfg.readRate, cfg.writeRate, now;
      }
    }

    /** ev_token_bucket_decrement_read and ev_token_bucket_decrement_write */
    method Decrement(dir: Dir, bytes: int)
      modifies this
      ensures View() == old(View()).Less(dir, bytes)
    {
      if dir.Reading? {
        readLimit := readLimit - bytes;
      } else {
        writeLimit := writeLimit - bytes;
      }
    }

    /** ev_token_bucket_update_ */
    method Update(cfg: Cfg, now: tick) returns (moved: bool)
      modifies this
      ensures View() == Updated(old(View()), cfg, now)
      ensures moved <==> Advances(Ticks(old(lastUpdated), now))
    {
      hide Refill;
      var n := (now - lastUpdated) % U32;
      if n == 0 || n > INT_MAX {
        return false;
      }
      readLimit := Filling(readLimit, cfg.readMaximum, cfg.readRate, n);
      writeLimit := Filling(writeLimit, cfg.writeMaximum, cfg.writeRate, n);
      lastUpdated := now;
      return true;
    }

    /** One direction of it */
    method Filling(limit: int, maximum: nat, rate: nat, n: nat) returns (filled: int)
      requires 0 < n
      ensures filled == Refill(limit, maximum, rate, n)
    {
      if (maximum - limit) % U64 / n < rate {
        return maximum;
      }
      return ToSsize((limit + n * rate % U64) % U64);
    }
  }

  /** What ev_token_bucket_init_ leaves: a first tick's worth, or the old limits clipped downwards. */
  function Initial(b: Level, c: Cfg, now: tick, reinitialize: bool): Level {
    if reinitialize then Level(MinInt(b.read, c.readMaximum), MinInt(b.write, c.writeMaximum), b.last)
    else Level(c.readRate, c.writeRate, now)
  }

  /**
   An update by the clock: at `to`, up to 2^31 - 1 ticks after the last update at `from`, each direction
   has its rate for each tick, up to the maximum; at the same tick, or later than that, nothing happens.
   */
  lemma UpdatedInTime(b: Level, c: Cfg, from: nat, to: nat)
    requires c.Ok() && b.Within(c) && b.last == from % 0x1_0000_0000 && from <= to < from + 0x1_0000_0000
    ensures var u := Updated(b, c, to % 0x1_0000_0000);
      if 0 < to - from <= 0x7FFF_FFFF then
        && u.last == to % 0x1_0000_0000
        && var (r, w) := (b.read + (to - from) * c.readRate, b.write + (to - from) * c.writeRate);
           && u.read == (if r < c.readMaximum then r else c.readMaximum)
           && u.write == (if w < c.writeMaximum then w else c.writeMaximum)
      else u == b
  {
    hide Updated, Ticks;
    var now := to % 0x1_0000_0000;
    TicksBetween(from, to);
    UpdatedAdds(b, c, now, Reading);
    UpdatedAdds(b, c, now, Writing);
    if !(0 < to - from <= 0x7FFF_FFFF) {
      StaleUpdate(b, c, now);
    }
  }

  lemma TicksBetween(from: nat, to: nat)
    requires from <= to < from + 0x1_0000_0000
    ensures Ticks(from % 0x1_0000_0000, to % 0x1_0000_0000) == to - from
  {
  }

  /** A limit above the maximum is added to all the same, as long as an ssize_t holds the sum. */
  lemma RefillRaised(limit: int, maximum: nat, rate: nat, n: nat)
    requires maximum < limit && limit + n * rate <= SSIZE_MAX && 0 < n
    ensures Refill(limit, maximum, rate, n) == limit + n * rate
  {
    hide Refill;
    MulMono(0, n, rate);
    RefillAbove(limit, maximum, rate, n);
  }

  /**
   A bucket made anew is what an empty one is after a tick; one that is made over has what is left of
   its limits below the maximum, and its time.
   */
  lemma InitialIs(b: Level, c: Cfg, before: nat)
    requires c.Ok()
    ensures var now: tick := (before + 1) % 0x1_0000_0000;
      Initial(b, c, now, false) == Updated(Level(0, 0, before % 0x1_0000_0000), c, now)
    ensures Initial(b, c, before % 0x1_0000_0000, false) == Level(c.readRate, c.writeRate, before % 0x1_0000_0000)
    ensures forall now: tick :: var i := Initial(b, c, now, true);
      && i.last == b.last
      && i.read <= b.read && i.read <= c.readMaximum && (i.read == b.read || i.read == c.readMaximum)
      && i.write <= b.write && i.write <= c.writeMaximum && (i.write == b.write || i.write == c.writeMaximum)
  {
    hide Updated;
    UpdatedInTime(Level(0, 0, before % 0x1_0000_0000), c, before, before + 1);
  }

  // -------------------------------------------------------------------------------------------
  // Reading
  // -------------------------------------------------------------------------------------------

  /** The ssize_t amount cast to int at bufferevent_sock.c:190. */
  function ToInt(x: nat): int {
    var low := x % U32;
    if low <= INT_MAX then low else low - U32
  }

  /** What evbuffer_read(buf, fd, howmuch) asks the kernel for when it believes waiting bytes are there. */
  function ReadSize(howmuch: int, waiting: int): int {
    var n := if waiting <= 0 || waiting > MAX_READ then MAX_READ else waiting;
    if howmuch < 0 || howmuch > n then n else howmuch
  }

  /** What a read may ask for: no more than fits, than is believed to be there, and than is wanted. */
  predicate Askable(howmuch: int, waiting: int, k: int) {
    && k <= 4096
    && (0 < waiting <= 4096 ==> k <= waiting)
    && (0 <= howmuch ==> k <= howmuch)
  }

  /** It asks for the most of that. */
  lemma ReadsMost(howmuch: int, waiting: int)
    ensures 0 <= ReadSize(howmuch, waiting) && Askable(howmuch, waiting, ReadSize(howmuch, waiting))
    ensures forall k: int :: Askable(howmuch, waiting, k) ==> k <= ReadSize(howmuch, waiting)
  {
  }

  /** The cast takes off a multiple of 2^32 and leaves what an int holds; so it changes nothing that one holds. */
  lemma CastIs(x: nat)
    ensures -0x8000_0000 <= ToInt(x) <= 0x7FFF_FFFF && (x - ToInt(x)) % 0x1_0000_0000 == 0
    ensures x <= 0x7FFF_FFFF ==> ToInt(x) == x
  {
    var q := x / 0x1_0000_0000;
    assert x == q * 0x1_0000_0000 + x % 0x1_0000_0000;
  }

  /** So an allowance that an int holds is asked for as it is. */
  lemma CastAsks(howmuch: nat, waiting: int)
    requires howmuch <= 0x7FFF_FFFF
    ensures Askable(howmuch, waiting, ReadSize(ToInt(howmuch), waiting))
    ensures forall k: int :: Askable(howmuch, waiting, k) ==> k <= ReadSize(ToInt(howmuch), waiting)
  {
    hide ReadSize, ToInt;
    CastIs(howmuch);
    ReadsMost(howmuch, waiting);
  }

  /**
   The cast never lets a read go over its allowance, although it may turn it negative; and the read
   asks for nothing, which the caller would take for the end of the stream, exactly when the
   allowance is a multiple of 2^32.
   */
  lemma CastKeepsAllowance(howmuch: nat, waiting: int)
    ensures 0 <= ReadSize(ToInt(howmuch), waiting) <= howmuch
    ensures ReadSize(ToInt(howmuch), waiting) == 0 <==> howmuch % U32 == 0
  {
    assert howmuch % U32 <= howmuch;
  }

  // -------------------------------------------------------------------------------------------
  // Windows
  // -------------------------------------------------------------------------------------------

  /** Something that happens to a bucket, at a tick counted without wrapping. */
  datatype Event =
    | Take(dir: Dir, time: nat, bytes: nat)    // the socket moves bytes, no more than the limit after an update
    | Debit(dir: Dir, time: nat, bytes: nat)   // bufferevent_decrement_*_limit with a non-negative amount
    | Touch(time: nat)                         // an update alone

  /** The wrapped counter at a tick. */
  function At(time: nat): tick {
    time % U32
  }

  /** The bucket after an event; a take comes after an update. */
  function After(b: Level, c: Cfg, e: Event): Level {
    var u := Updated(b, c, At(e.time));
    match e
    case Take(dir, _, bytes) => u.Less(dir, bytes)
    case Debit(dir, _, bytes) => b.Less(dir, bytes)
    case Touch(_) => u
  }

  /** A take respects what get_rlim_max allows; a debit does not leave the range of an ssize_t. */
  predicate Allowed(b: Level, c: Cfg, e: Event) {
    match e
    case Take(dir, time, bytes) => bytes <= MaxInt(0, Updated(b, c, At(time)).Limit(dir))
    case Debit(dir, _, bytes) => SSIZE_MIN <= b.Limit(dir) - bytes
    case Touch(_) => true
  }

  /** Times do not go backwards, none is outside the window, and every event is allowed where it happens. */
  predicate Schedule(b: Level, c: Cfg, es: seq<Event>, from: nat, to: nat)
    decreases |es|
  {
    if es == [] then from <= to
    else
      && from <= es[0].time <= to
      && Allowed(b, c, es[0])
      && Schedule(After(b, c, es[0]), c, es[1..], es[0].time, to)
  }

  /** The bytes an event moves through the socket in a direction. */
  function Bytes(e: Event, dir: Dir): nat {
    if e.Take? && e.dir == dir then e.bytes else 0
  }

  /** What the socket moves in all. */
  function Moved(es: seq<Event>, dir: Dir): nat {
    if es == [] then 0 else Bytes(es[0], dir) + Moved(es[1..], dir)
  }

  /** What an update at a time would leave. */
  function Potential(b: Level, c: Cfg, dir: Dir, time: nat): int {
    Updated(b, c, At(time)).Limit(dir)
  }

  /** A later reading of the wrapped counter credits no more than the ticks since the earlier one adds. */
  lemma TicksGrow(last: tick, time: nat, later: nat)
    requires time <= later
    ensures var n, m := Ticks(last, At(time)), Ticks(last, At(later));
      Advances(m) ==> m <= later - time + (if Advances(n) then n else 0)
  {
    var n, m := Ticks(last, At(time)), Ticks(last, At(later));
    WrapAdds(last, time, later - time);
    ModBelow(n + (later - time));
    if n > INT_MAX && m <= INT_MAX {
      assert n + (later - time) >= U32;
    }
  }

  lemma WrapAdds(last: tick, time: nat, gap: nat)
    ensures Ticks(last, At(time + gap)) == (Ticks(last, At(time)) + gap) % U32
  {
    ModShift(time, last);
    ModShift(time + gap, last);
    assert (time - last) % U32 == Ticks(last, At(time));
    ModShift(time - last, gap);
  }

  lemma ModShift(x: int, y: int)
    ensures (x % U32 - y) % U32 == (x - y) % U32
    ensures (x % U32 + y) % U32 == (x + y) % U32
  {
  }

  lemma ModBelow(x: nat)
    ensures x % U32 <= x && (U32 <= x ==> x % U32 <= x - U32) && (x < U32 ==> x % U32 == x)
  {
  }

  /** However the counter wraps, the potential grows by no more than the rate for each tick that passes. */
  lemma PotentialGrows(b: Level, c: Cfg, dir: Dir, time: nat, later: nat)
    requires c.Ok() && b.Within(c) && time <= later
    ensures b.Limit(dir) <= Potential(b, c, dir, time) <= c.Maximum(dir)
    ensures Potential(b, c, dir, later) <= Potential(b, c, dir, time) + (later - time) * c.Rate(dir)
  {
    hide Updated, Ticks, Filled;
    var n, m := Ticks(b.last, At(time)), Ticks(b.last, At(later));
    UpdatedAdds(b, c, At(time), dir);
    UpdatedAdds(b, c, At(later), dir);
    TicksGrow(b.last, time, later);
    FilledGrows(b.Limit(dir), c.Maximum(dir), c.Rate(dir),
                if Advances(n) then n else 0, if Advances(m) then m else 0, later - time);
  }

  /** A take comes off the potential, and is no more than it; nothing raises it. */
  lemma EventCosts(b: Level, c: Cfg, dir: Dir, e: Event)
    requires c.Ok() && b.Within(c) && Allowed(b, c, e)
    ensures var a, before := After(b, c, e), Potential(b, c, dir, e.time);
      && a.Within(c)
      && Potential(a, c, dir, e.time) <= before - Bytes(e, dir)
      && (0 < Bytes(e, dir) ==> Bytes(e, dir) <= before)
  {
    hide Updated, Filled;
    var a, now := After(b, c, e), At(e.time);
    UpdatedAdds(b, c, now, dir);
    UpdatedAdds(b, c, now, Other(dir));
    UpdatedAdds(a, c, now, dir);
    FilledLess(a.Limit(dir), b.Limit(dir), c.Maximum(dir), c.Rate(dir), Ticks(b.last, now));
    if a.last == now {
      Nowhere(now);
    }
  }

  lemma FilledLess(limit: int, more: int, maximum: nat, rate: nat, n: nat)
    ensures limit <= more ==> Filled(limit, maximum, rate, n) <= Filled(more, maximum, rate, n)
  {
  }

  /** A stretch in two parts. */
  lemma Span(from: nat, mid: nat, to: nat, rate: nat)
    requires from <= mid <= to
    ensures 0 <= (mid - from) * rate && 0 <= (to - mid) * rate
    ensures (to - from) * rate == (mid - from) * rate + (to - mid) * rate
  {
    MulMono(0, mid - from, rate);
    MulMono(0, to - mid, rate);
  }

  /**
   The bound of a token bucket: whatever happens, in any window the socket moves at most what the
   bucket held at its start plus the rate for each tick.
   */
  lemma {:induction false} WindowHolds(b: Level, c: Cfg, dir: Dir, es: seq<Event>, from: nat, to: nat)
    requires c.Ok() && b.Within(c) && Schedule(b, c, es, from, to)
    ensures from <= to
    ensures Moved(es, dir) <= MaxInt(0, Potential(b, c, dir, from)) + (to - from) * c.Rate(dir)
    decreases |es|
  {
    hide After, Allowed, Potential, Bytes;
    var rate := c.Rate(dir);
    if es == [] {
      MulMono(0, to - from, rate);
    } else {
      var e := es[0];
      EventCosts(b, c, dir, e);
      WindowHolds(After(b, c, e), c, dir, es[1..], e.time, to);
      PotentialGrows(b, c, dir, from, e.time);
      Span(from, e.time, to, rate);
    }
  }

  /** In particular at most the burst plus the rate for each tick of the window, wrapping or not. */
  lemma WindowBound(b: Level, c: Cfg, dir: Dir, es: seq<Event>, from: nat, to: nat)
    requires c.Ok() && b.Within(c) && Schedule(b, c, es, from, to)
    ensures Moved(es, dir) <= c.Maximum(dir) + (to - from) * c.Rate(dir)
  {
    WindowHolds(b, c, dir, es, from, to);
    PotentialGrows(b, c, dir, from, from);
  }
}
