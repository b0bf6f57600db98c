/**
 A rate-limiting group, one direction at a time, on values: the shared limit, whether the group is
 suspended, whether an unsuspend missed somebody, and which members carry the group's suspend flag.
 */
module RateGroup {

  import opened TokenBucket

  /** held are the members that carry BEV_SUSPEND_BW_GROUP. */
  datatype Group<M> = Group(limit: int, suspended: bool, pending: bool, members: set<M>, held: set<M>)

  /** What is fixed while the group runs. */
  datatype Rules = Rules(rate: nat, maximum: nat, minShare: nat) {

    /** A configuration that was let through, with the share that set_min_share clips to the rate. */
    predicate Clipped() {
      1 <= rate <= maximum <= SSIZE_MAX && minShare <= rate
    }

    /** And a least share of one byte. */
    predicate Ok() {
      Clipped() && 1 <= minShare
    }
  }

  /** Every step that visits the members says which of them could be locked. */
  datatype Move<M> =
    | Read(who: M, bytes: nat, free: set<M>)   // a member asks, and moves bytes if it is let
    | Tick(n: nat, free: set<M>)               // the group's refill callback, n ticks after the last
    | Decrement(amount: int, free: set<M>)     // bufferevent_rate_limit_group_decrement_*
    | Join(who: M)
    | Leave(who: M)

  /** C's division, which truncates. */
  function Truncated(x: int, n: nat): int
    requires 0 < n
  {
    if x < 0 then -(-x / n) else x / n
  }

  /** What the group lets a member move. */
  function Share<M>(g: Group<M>, r: Rules): int {
    if g.suspended || g.members == {} then 0 else MaxInt(Truncated(g.limit, |g.members|), r.minShare)
  }

  /** bev_group_suspend_reading_ and its write twin */
  function SuspendAll<M>(g: Group<M>, free: set<M>): Group<M> {
    g.(suspended := true, pending := false, held := g.held + g.members * free)
  }

  /** bev_group_unsuspend_reading_ and its write twin */
  function UnsuspendAll<M>(g: Group<M>, free: set<M>): Group<M> {
    g.(suspended := false, held := g.held - free, pending := !(g.members <= free))
  }

  /** The group follows the sign of its limit. */
  function Settle<M>(g: Group<M>, free: set<M>): Group<M> {
    if g.limit <= 0 then SuspendAll(g, free)
    else if g.suspended then UnsuspendAll(g, free)
    else g
  }

  /** A member that asks while the group is suspended picks up the flag it may have missed. */
  function ReadBy<M>(g: Group<M>, who: M, bytes: nat, free: set<M>): Group<M> {
    if g.suspended then g.(held := g.held + {who})
    else if bytes == 0 then g
    else Settle(g.(limit := g.limit - bytes), free)
  }

  /** The limit after some ticks. */
  function Refilled(limit: int, r: Rules, n: nat): int {
    if Advances(n) then Refill(limit, r.maximum, r.rate, n) else limit
  }

  /** bev_group_refill_callback_, one direction */
  function Ticked<M>(g: Group<M>, r: Rules, n: nat, free: set<M>): Group<M> {
    var t := g.(limit := Refilled(g.limit, r, n));
    if t.pending || (t.suspended && t.limit >= r.minShare) then UnsuspendAll(t, free) else t
  }

  /** The public decrement acts only when the sign changes. */
  function Decremented<M>(g: Group<M>, bytes: int, free: set<M>): Group<M> {
    var t := g.(limit := g.limit - bytes);
    if g.limit > 0 && t.limit <= 0 then SuspendAll(t, free)
    else if g.limit <= 0 && t.limit > 0 then UnsuspendAll(t, free)
    else t
  }

  /** A member that carries the flag does not read, and none takes more than its share. */
  predicate Possible<M>(g: Group<M>, r: Rules, m: Move<M>) {
    match m
    case Read(who, bytes, _) =>
      who in g.members && bytes <= Share(g, r) && (who in g.held ==> bytes == 0)
    case Tick(n, _) => Advances(n) ==> KeepsSign(g.limit, r.maximum, r.rate, n)
    case Decrement(amount, _) => SSIZE_MIN <= g.limit - amount <= SSIZE_MAX
    case Join(who) => who !in g.members
    case Leave(who) => who in g.members
  }

  /** One move. */
  function Step<M>(g: Group<M>, r: Rules, m: Move<M>): Group<M> {
    match m
    case Read(who, bytes, free) => ReadBy(g, who, bytes, free)
    case Tick(n, free) => Ticked(g, r, n, free)
    case Decrement(amount, free) => Decremented(g, amount, free)
    case Join(who) => g.(members := g.members + {who}, held := if g.suspended then g.held + {who} else g.held)
    case Leave(who) => g.(members := g.members - {who}, held := g.held - {who})
  }

  // -------------------------------------------------------------------------------------------
  // What every run keeps
  // -------------------------------------------------------------------------------------------

  /**
   An exhausted group is suspended; and where it is not, whoever still carries its flag is known to
   be owed an unsuspend.
   */
  predicate Inv<M>(g: Group<M>) {
    && SSIZE_MIN <= g.limit <= SSIZE_MAX
    && (g.limit <= 0 ==> g.suspended)
    && (g.pending ==> !g.suspended)
    && g.held <= g.members
    && (g.held != {} && !g.suspended ==> g.pending)
  }

  /** The least the limit falls to by members reading. */
  predicate Floor<M>(g: Group<M>, r: Rules) {
    1 - r.minShare <= g.limit
  }

  /** A refill keeps a positive limit positive and does not lower another. */
  lemma RefilledSign(limit: int, r: Rules, n: nat)
    requires r.Clipped() && SSIZE_MIN <= limit <= SSIZE_MAX && (Advances(n) ==> KeepsSign(limit, r.maximum, r.rate, n))
    ensures SSIZE_MIN <= Refilled(limit, r, n) <= SSIZE_MAX
    ensures 0 < limit ==> 0 < Refilled(limit, r, n)
    ensures limit <= 0 ==>
      Refilled(limit, r, n) == if Advances(n) then Filled(limit, r.maximum, r.rate, n) else limit
    ensures limit <= 0 ==> limit <= Refilled(limit, r, n)
  {
    if Advances(n) {
      if 0 < limit {
        RefillPositive(limit, r.maximum, r.rate, n);
      } else {
        RefillExact(limit, r.maximum, r.rate, n);
        MulMono(0, n, r.rate);
      }
    }
  }

  /** A share leaves a running group's limit above minus the least share. */
  lemma ShareFloor<M>(g: Group<M>, r: Rules)
    requires Inv(g) && r.Ok()
    ensures g.members != {} && !g.suspended ==> 1 - r.minShare <= g.limit - Share(g, r) && 1 <= Share(g, r)
    ensures g.suspended ==> Share(g, r) == 0
  {
    if g.members != {} && !g.suspended {
      assert |g.members| != 0;
      QuotientBelow(g.limit, |g.members|);
    }
  }

  lemma QuotientBelow(x: nat, n: nat)
    requires 0 < n
    ensures 0 <= x / n <= x
    ensures x / n == 0 <==> x < n
  {
    var q := x / n;
    assert q * n <= x < q * n + n;
    MulMono(1, n, q);
    if 0 < q {
      MulMono(1, q, n);
    }
  }

  /** The limit divided among so many, where that is more than the least share; else the least share. */
  predicate Divides(share: int, limit: int, n: nat, least: nat) {
    if least < share then n * share <= limit < n * (share + 1) else share == least && limit < n * (least + 1)
  }

  /** That is what a running group lets each member have. */
  lemma ShareDivides<M>(g: Group<M>, r: Rules)
    requires g.members != {} && !g.suspended
    ensures Divides(Share(g, r), g.limit, |g.members|, r.minShare)
  {
    assert |g.members| != 0;
    var n, share := |g.members|, Share(g, r);
    if 0 <= g.limit {
      var q := g.limit / n;
      assert q * n <= g.limit < q * n + n;
      if q <= r.minShare {
        MulMono(q + 1, r.minShare + 1, n);
      }
    } else {
      MulMono(0, r.minShare + 1, n);
    }
  }

  /** So all of them together are let no more than there is, unless the least share alone comes to more. */
  lemma SharesWithin(share: int, limit: int, n: nat, least: nat)
    requires Divides(share, limit, n, least)
    ensures n * least <= limit ==> n * share <= limit
  {
  }

  /** There is only one such share. */
  lemma DividesOnce(share: int, other: int, limit: int, n: nat, least: nat)
    requires Divides(share, limit, n, least) && Divides(other, limit, n, least)
    ensures share == other
  {
    if share < other {
      OneLess(share, other, limit, n, least);
    } else if other < share {
      OneLess(other, share, limit, n, least);
    }
  }

  lemma OneLess(share: int, other: int, limit: int, n: nat, least: nat)
    requires share < other && Divides(share, limit, n, least)
    ensures !Divides(other, limit, n, least)
  {
    if least < other {
      MulMono(0, share + 1, n);
      var gap := other - (share + 1);
      assert n * other == n * (share + 1) + n * gap;
      MulMono(0, gap, n);
    }
  }

  /**
   A running group offers some member nothing, so that its read asks for nothing and looks like the
   end of the stream, exactly when the least share is set to 0 and there are more members than bytes.
   */
  lemma ShareOfNothing<M>(g: Group<M>, r: Rules)
    requires Inv(g) && !g.suspended && g.members != {}
    ensures Share(g, r) == 0 <==> r.minShare == 0 && g.limit < |g.members|
  {
    assert |g.members| != 0;
    QuotientBelow(g.limit, |g.members|);
  }

  /**
   A least share of 0 would not do: a tick then wakes a group whose limit it lifts to exactly 0, and
   that is the only way a tick can break the invariant.
   */
  lemma TickKeepsExactly<M>(g: Group<M>, r: Rules, n: nat, free: set<M>)
    requires Inv(g) && r.Clipped() && Possible(g, r, Tick(n, free))
    ensures Inv(Ticked(g, r, n, free)) <==> !(r.minShare == 0 && g.suspended && Refilled(g.limit, r, n) == 0)
  {
    hide Refilled;
    RefilledSign(g.limit, r, n);
  }

  /**
   It does happen: the only member of a group with a least share of 0 reads the last byte, the refill
   timer goes off within the same tick, and the group runs again with nothing to give.
   */
  lemma ReleasedWithNothing()
    ensures var (r, g) := (Rules(1, 1, 0), Group(1, false, false, {0}, {}));
      var t := Step(g, r, Read(0, 1, {0}));
      var u := Step(t, r, Tick(0, {0}));
      && r.Clipped() && Inv(g) && Possible(g, r, Read(0, 1, {0}))
      && Inv(t) && Possible(t, r, Tick(0, {0}))
      && u.limit == 0 && !u.suspended && !Inv(u)
  {
    var g := Group(1, false, false, {0}, {});
    assert |g.members| == 1;
    assert Share(g, Rules(1, 1, 0)) == 1;
  }

  /** A tick that wakes a group with nothing to give. */
  predicate WakesEmpty<M>(g: Group<M>, r: Rules, m: Move<M>) {
    m.Tick? && r.minShare == 0 && g.suspended && Refilled(g.limit, r, m.n) == 0
  }

  /** Every move keeps the invariant but such a tick, and with a least share of one byte also the floor. */
  lemma StepKeeps<M>(g: Group<M>, r: Rules, m: Move<M>)
    requires Inv(g) && r.Clipped() && Possible(g, r, m)
    ensures Inv(Step(g, r, m)) <==> !WakesEmpty(g, r, m)
    ensures 1 <= r.minShare && Floor(g, r) && (m.Decrement? ==> 1 - r.minShare <= g.limit - m.amount) ==>
      Floor(Step(g, r, m), r)
  {
    hide Refilled, Share;
    match m
    case Read(who, bytes, free) => ShareWithin(g, r);
    case Tick(n, free) => RefilledSign(g.limit, r, n);
    case _ =>
  }

  /** A share is never negative, whatever the limit. */
  lemma ShareNat<M>(g: Group<M>, r: Rules)
    ensures 0 <= Share(g, r) && (g.suspended ==> Share(g, r) == 0)
  {
  }

  /** A share is no more than what is left, or the least share. */
  lemma ShareWithin<M>(g: Group<M>, r: Rules)
    requires Inv(g)
    ensures 0 <= Share(g, r) <= MaxInt(MaxInt(0, g.limit), r.minShare)
    ensures g.suspended ==> Share(g, r) == 0
  {
    if g.members != {} && !g.suspended {
      assert |g.members| != 0;
      QuotientBelow(g.limit, |g.members|);
    }
  }

  /** Moves that are possible where they happen. */
  predicate Run<M>(g: Group<M>, r: Rules, ms: seq<Move<M>>)
    decreases |ms|
  {
    ms == [] || (Possible(g, r, ms[0]) && Run(Step(g, r, ms[0]), r, ms[1..]))
  }

  /** Where a run ends. */
  function End<M>(g: Group<M>, r: Rules, ms: seq<Move<M>>): Group<M>
    decreases |ms|
  {
    if ms == [] then g else End(Step(g, r, ms[0]), r, ms[1..])
  }

  /** The program does not use the public decrement. */
  predicate MembersOnly<M>(ms: seq<Move<M>>) {
    forall k :: 0 <= k < |ms| ==> !ms[k].Decrement?
  }

  /** Every run keeps the invariant; one driven by members and ticks alone never falls below the floor. */
  lemma {:induction false} RunKeeps<M>(g: Group<M>, r: Rules, ms: seq<Move<M>>)
    requires Inv(g) && r.Ok() && Run(g, r, ms)
    ensures Inv(End(g, r, ms))
    ensures Floor(g, r) && MembersOnly(ms) ==> Floor(End(g, r, ms), r)
    decreases |ms|
  {
    hide Possible, Step, Inv, Floor;
    if ms != [] {
      StepKeeps(g, r, ms[0]);
      RunKeeps(Step(g, r, ms[0]), r, ms[1..]);
    }
  }

  /** The bytes that members move in all. */
  function Taken<M>(ms: seq<Move<M>>): nat {
    if ms == [] then 0 else (if ms[0].Read? then ms[0].bytes else 0) + Taken(ms[1..])
  }

  /** The ticks that the group's timer counts as passed. */
  function Passed<M>(ms: seq<Move<M>>): nat {
    if ms == [] then 0 else (if ms[0].Tick? && Advances(ms[0].n) then ms[0].n else 0) + Passed(ms[1..])
  }

  /** A move takes what it moves off the limit, and adds no more than its ticks are worth. */
  lemma StepAccounts<M>(g: Group<M>, r: Rules, m: Move<M>)
    requires Inv(g) && r.Ok() && g.limit <= r.maximum && Possible(g, r, m) && !m.Decrement?
    ensures Step(g, r, m).limit <= r.maximum
    ensures Step(g, r, m).limit <= g.limit - Taken([m]) + Passed([m]) * r.rate
  {
    hide Inv;
    if m.Tick? && Advances(m.n) {
      assert SSIZE_MIN <= g.limit by { InRange(g); }
      RefillExact(g.limit, r.maximum, r.rate, m.n);
    }
  }

  lemma InRange<M>(g: Group<M>)
    requires Inv(g)
    ensures SSIZE_MIN <= g.limit
  {
  }

  lemma Spread(n: nat, m: nat, rate: nat)
    ensures (n + m) * rate == n * rate + m * rate
  {
  }

  /**
   What a group is for: in any run of members and ticks all members together move at most what the
   limit was, the rate for each tick, and the least share, less a byte.
   */
  lemma {:induction false} GroupBound<M>(g: Group<M>, r: Rules, ms: seq<Move<M>>)
    requires Inv(g) && r.Ok() && Floor(g, r) && g.limit <= r.maximum && Run(g, r, ms) && MembersOnly(ms)
    ensures Taken(ms) <= g.limit + Passed(ms) * r.rate + r.minShare - 1
    decreases |ms|
  {
    hide Possible, Step, Inv;
    if ms != [] {
      assert ms == [ms[0]] + ms[1..];
      assert !ms[0].Decrement?;
      StepKeeps(g, r, ms[0]);
      StepAccounts(g, r, ms[0]);
      GroupBound(Step(g, r, ms[0]), r, ms[1..]);
      assert Taken(ms) == Taken([ms[0]]) + Taken(ms[1..]);
      assert Passed(ms) == Passed([ms[0]]) + Passed(ms[1..]);
      Spread(Passed([ms[0]]), Passed(ms[1..]), r.rate);
    }
  }

  // -------------------------------------------------------------------------------------------
  // Windows of time
  // -------------------------------------------------------------------------------------------

  /** A move at a tick counted without wrapping. */
  datatype Timed<M> = Timed(time: nat, move: Move<M>)

  /** The moves alone. */
  function Moves<M>(xs: seq<Timed<M>>): seq<Move<M>> {
    if xs == [] then [] else [xs[0].move] + Moves(xs[1..])
  }

  /** The ticks that the timer would credit if it went off at a time. */
  function Due(last: tick, time: nat): nat {
    if Advances(Ticks(last, At(time))) then Ticks(last, At(time)) else 0
  }

  /** When the bucket was last updated, after a move. */
  function Updating<M>(last: tick, x: Timed<M>): tick {
    if x.move.Tick? && Advances(x.move.n) then At(x.time) else last
  }

  /** A run in a window of time: the timer reads the counter as it is, and it wraps. */
  predicate Timely<M>(last: tick, xs: seq<Timed<M>>, from: nat, to: nat)
    decreases |xs|
  {
    if xs == [] then from <= to
    else
      && from <= xs[0].time <= to
      && (xs[0].move.Tick? ==> xs[0].move.n == Ticks(last, At(xs[0].time)))
      && Timely(Updating(last, xs[0]), xs[1..], xs[0].time, to)
  }

  /** What is due grows no faster than time, and nothing is due right after an update. */
  lemma DueGrows(last: tick, time: nat, later: nat)
    requires time <= later
    ensures Due(last, later) <= later - time + Due(last, time)
    ensures Due(At(time), time) == 0
  {
    TicksGrow(last, time, later);
    Nowhere(At(time));
  }

  /** The ticks credited are no more than were due at the start and have passed since. */
  lemma {:induction false} PassedWithin<M>(last: tick, xs: seq<Timed<M>>, from: nat, to: nat)
    requires Timely(last, xs, from, to)
    ensures from <= to && Passed(Moves(xs)) <= to - from + Due(last, from)
    decreases |xs|
  {
    hide Due, Ticks, Advances;
    if xs != [] {
      var x := xs[0];
      DueGrows(last, from, x.time);
      DueGrows(last, x.time, x.time);
      PassedWithin(Updating(last, x), xs[1..], x.time, to);
      assert Moves(xs)[0] == x.move && Moves(xs)[1..] == Moves(xs[1..]);
      DueIs(last, x.time);
    }
  }

  lemma DueIs(last: tick, time: nat)
    ensures Due(last, time) == if Advances(Ticks(last, At(time))) then Ticks(last, At(time)) else 0
  {
  }

  /**
   The bound by time: in any window all members together move at most what the limit was, the rate for
   each tick of the window and for those that the timer was late at its start, and the least share less
   a byte.  Where it was not late that is the burst instead of the limit.
   */
  lemma GroupWindow<M>(g: Group<M>, r: Rules, last: tick, xs: seq<Timed<M>>, from: nat, to: nat)
    requires Inv(g) && r.Ok() && Floor(g, r) && g.limit <= r.maximum && Run(g, r, Moves(xs)) && MembersOnly(Moves(xs))
    requires Timely(last, xs, from, to)
    ensures Taken(Moves(xs)) <= g.limit + (to - from + Due(last, from)) * r.rate + r.minShare - 1
    ensures last == At(from) ==> Taken(Moves(xs)) <= r.maximum + (to - from) * r.rate + r.minShare - 1
  {
    hide Inv, Run, Due;
    GroupBound(g, r, Moves(xs));
    PassedWithin(last, xs, from, to);
    MulMono(Passed(Moves(xs)), to - from + Due(last, from), r.rate);
    DueGrows(last, from, from);
  }

  lemma ThreeMoves<M>(x: Timed<M>, y: Timed<M>, z: Timed<M>)
    ensures Moves([x, y, z]) == [x.move, y.move, z.move]
  {
    assert [z][1..] == [] && [y, z][1..] == [z] && [x, y, z][1..] == [y, z];
    assert Moves([z]) == [z.move] && Moves([y, z]) == [y.move, z.move];
  }

  /**
   The ticks that the timer is late do count: a group with a burst and a rate of 10 bytes moves 20 at
   one and the same tick, the fifth, because its own bucket is updated by the timer alone.
   */
  lemma LateTimer()
    ensures var g: Group<nat> := Group(10, false, false, {0}, {});
      var xs := [Timed(5, Read(0, 10, {0})), Timed(5, Tick(5, {0})), Timed(5, Read(0, 10, {0}))];
      && Inv(g) && Floor(g, Rules(10, 10, 1)) && Run(g, Rules(10, 10, 1), Moves(xs)) && Timely(0, xs, 5, 5)
      && MembersOnly(Moves(xs)) && Taken(Moves(xs)) == 20
  {
    var g: Group<nat> := Group(10, false, false, {0}, {});
    var r := Rules(10, 10, 1);
    var xs := [Timed(5, Read(0, 10, {0})), Timed(5, Tick(5, {0})), Timed(5, Read(0, 10, {0}))];
    var x, y, z := xs[0].move, xs[1].move, xs[2].move;
    ThreeMoves(xs[0], xs[1], xs[2]);
    assert xs == [xs[0], xs[1], xs[2]] && [x, y, z][1..] == [y, z] && [y, z][1..] == [z];
    assert Taken([z]) == 10 && Taken([y, z]) == 10;
    assert |g.members| == 1 && Share(g, r) == 10;
    var h := Step(g, r, x);
    assert h == Group(0, true, false, {0}, {0});
    var k := Step(h, r, y);
    assert k == Group(10, false, false, {0}, {}) && Share(k, r) == 10;
    assert Run(k, r, [z]) && Run(h, r, [y, z]);
  }

  // -------------------------------------------------------------------------------------------
  // Nobody is stuck
  // -------------------------------------------------------------------------------------------

  /** A tick releases a suspended group exactly when it lifts the limit to the least share. */
  lemma TickReleases<M>(g: Group<M>, r: Rules, n: nat, free: set<M>)
    requires Inv(g) && r.Ok() && Possible(g, r, Tick(n, free)) && g.suspended && g.limit <= 0
    ensures !Ticked(g, r, n, free).suspended <==> Advances(n) && r.minShare <= g.limit + n * r.rate
  {
    hide Refilled;
    RefilledSign(g.limit, r, n);
  }

  /** Two ticks of a fixed configuration always release it. */
  lemma TwoTicksRelease<M>(g: Group<M>, r: Rules, n: nat, m: nat, free: set<M>, again: set<M>)
    requires Inv(g) && r.Ok() && Floor(g, r) && g.limit <= 0
    requires Advances(n) && Advances(m)
    ensures !Ticked(Ticked(g, r, n, free), r, m, again).suspended
  {
    hide Refilled;
    var once := Ticked(g, r, n, free);
    RefilledSign(g.limit, r, n);
    MulMono(1, n, r.rate);
    if once.suspended {
      assert 0 < once.limit < r.minShare;
      assert once.limit <= r.maximum;
      RefillExact(once.limit, r.maximum, r.rate, m);
      MulMono(1, m, r.rate);
      assert Refilled(once.limit, r, m) >= r.minShare by { RefilledIs(once.limit, r, m); }
    }
  }

  lemma RefilledIs(limit: int, r: Rules, n: nat)
    requires Advances(n)
    ensures Refilled(limit, r, n) == Refill(limit, r.maximum, r.rate, n)
  {
  }

  /** And after each release or retry exactly those whose lock was not free still carry the flag. */
  lemma ReleaseFrees<M>(g: Group<M>, r: Rules, n: nat, free: set<M>)
    requires Inv(g) && r.Ok() && Possible(g, r, Tick(n, free))
    requires g.pending || (g.suspended && !Ticked(g, r, n, free).suspended)
    ensures var t := Ticked(g, r, n, free);
      && t.held == g.held - free
      && (t.pending <==> !(g.members <= free))
      && (g.members <= free ==> t.held == {})
  {
    hide Refilled;
    RefilledSign(g.limit, r, n);
  }

  // -------------------------------------------------------------------------------------------
  // What each move does
  // -------------------------------------------------------------------------------------------

  /** A visit that suspends: whoever can be locked has the flag, and nobody loses it. */
  ghost predicate Suspends<M(!new)>(h: Group<M>, g: Group<M>, free: set<M>) {
    && h.suspended && !h.pending && h.members == g.members
    && forall m :: m in h.held <==> m in g.held || (m in g.members && m in free)
  }

  /** One that releases: whoever can be locked has it no more, and somebody who cannot is remembered. */
  ghost predicate Releases<M(!new)>(h: Group<M>, g: Group<M>, free: set<M>) {
    && !h.suspended && h.members == g.members && (h.pending <==> exists m :: m in g.members && m !in free)
    && forall m :: m in h.held <==> m in g.held && m !in free
  }

  /** Bytes read come off the limit, all of them and nothing else; the group is suspended when nothing is left. */
  lemma ReadSays<M(!new)>(g: Group<M>, who: M, bytes: nat, free: set<M>)
    ensures var h := ReadBy(g, who, bytes, free);
      && (g.suspended ==> h == g.(held := g.held + {who}))
      && (!g.suspended ==>
          && h.limit == g.limit - bytes
          && (0 < bytes && h.limit <= 0 ==> Suspends(h, g, free))
          && (bytes == 0 || 0 < h.limit ==> h == g.(limit := h.limit)))
  {
  }

  /** The public decrement takes its amount off the limit, of either sign, and acts where that changes the sign. */
  lemma DecrementSays<M(!new)>(g: Group<M>, amount: int, free: set<M>)
    ensures var h := Decremented(g, amount, free);
      && h.limit == g.limit - amount
      && (h.limit <= 0 < g.limit ==> Suspends(h, g, free))
      && (g.limit <= 0 < h.limit ==> Releases(h, g, free))
      && ((0 < g.limit <==> 0 < h.limit) ==> h == g.(limit := h.limit))
  {
  }

  /** The timer credits the rate for each tick, up to the maximum, and releases a group it lifts to the least share. */
  lemma TickSays<M(!new)>(g: Group<M>, r: Rules, n: nat, free: set<M>)
    requires r.Clipped() && SSIZE_MIN <= g.limit <= r.maximum
    ensures var h := Ticked(g, r, n, free);
      && h.limit == (if 0 < n <= 0x7FFF_FFFF then
                       if g.limit + n * r.rate < r.maximum then g.limit + n * r.rate else r.maximum
                     else g.limit)
      && (g.pending || (g.suspended && r.minShare <= h.limit) ==> Releases(h, g, free))
      && (!g.pending && !(g.suspended && r.minShare <= h.limit) ==> h == g.(limit := h.limit))
  {
    hide Refill;
    if Advances(n) {
      RefillExact(g.limit, r.maximum, r.rate, n);
    }
  }

  /** A member that comes has the flag exactly if the group is suspended; one that goes has it no more. */
  lemma MembersSay<M(!new)>(g: Group<M>, r: Rules, who: M)
    ensures var h := Step(g, r, Join(who));
      && h == g.(members := g.members + {who}, held := h.held)
      && forall m :: m in h.held <==> m in g.held || (m == who && g.suspended)
    ensures var h := Step(g, r, Leave(who));
      && h == g.(members := g.members - {who}, held := h.held)
      && forall m :: m in h.held <==> m in g.held && m != who
  {
  }

  // -------------------------------------------------------------------------------------------
  // The order of a visit
  // -------------------------------------------------------------------------------------------

  /** FOREACH_RANDOM_ORDER: from a random element to the end, then from the start up to it. */
  function Order(n: nat, first: nat): (r: seq<nat>)
    requires first < n || n == first == 0
    ensures |r| == n
  {
    seq(n, k requires 0 <= k < n => if k < n - first then first + k else k - (n - first))
  }

  /** Every member is visited exactly once, wherever the visit starts. */
  lemma OrderOnce(n: nat, first: nat)
    requires first < n
    ensures forall i :: 0 <= i < n ==> i in Order(n, first)
    ensures forall j, k :: 0 <= j < k < n ==> Order(n, first)[j] != Order(n, first)[k]
    ensures forall k :: 0 <= k < n ==> Order(n, first)[k] < n
  {
    forall i | 0 <= i < n
      ensures i in Order(n, first)
    {
      assert Order(n, first)[if i < first then i + (n - first) else i - first] == i;
    }
  }
}
