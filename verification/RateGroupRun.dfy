/** Runs of groups of rate-limited bufferevents, as objects, over a window of time. */
module RateGroupRuns {
  import opened Options
  import opened TokenBucket
  import opened RateLimit
  import opened SocketBufferevents
  import opened RateLimitGroups
  import opened RateLimitRuns
  import RateGroup

  /** What happens to a group: the read event of a member, its own timer, and members that come and go. */
  datatype GroupCall =
    | MemberReads(i: nat, timeout: bool, high: nat, inputLen: nat, startable: bool, waiting: int, arriving: int,
                  error: SocketError, free: seq<bool>, first: nat)
    | Timer(freeRead: seq<bool>, firstRead: nat, freeWrite: seq<bool>, firstWrite: nat)
    | Joins
    | Leaves(i: nat)

  datatype GroupDated = GroupDated(time: nat, call: GroupCall)

  predicate GroupWithin(xs: seq<GroupDated>, from: nat, to: nat)
    decreases |xs|
  {
    if xs == [] then from <= to else from <= xs[0].time <= to && GroupWithin(xs[1..], xs[0].time, to)
  }

  /** Which of the members can be locked, and where the visit starts, for as many as there are. */
  function Locks(free: seq<bool>, n: nat): (r: seq<bool>)
    ensures |r| == n
  {
    seq(n, i requires 0 <= i => i < |free| && free[i])
  }

  function StartAt(first: nat, n: nat): (r: nat)
    ensures r < n || r == n == 0
  {
    if n == 0 then 0 else first % n
  }

  // ---- what the calls do ----

  /** Each member as a value. */
  ghost function Bevs(ms: seq<Limited>): (bs: seq<Bev>)
    reads Parts(ms)
    ensures |bs| == |ms| && forall k :: 0 <= k < |ms| ==> bs[k] == Seeing(ms[k])
  {
    AllParts(ms);
    seq(|ms|, k requires 0 <= k < |ms| && ms[k].Repr() <= Parts(ms) reads Parts(ms) => Seeing(ms[k]))
  }

  lemma AllParts(ms: seq<Limited>)
    ensures forall k :: 0 <= k < |ms| ==> ms[k].Repr() <= Parts(ms)
  {
    forall k | 0 <= k < |ms|
      ensures ms[k].Repr() <= Parts(ms)
    {
      PartsOf(ms, k);
    }
  }

  /** A group object, as a value: what is fixed, its bucket, either direction, and its members. */
  datatype Shot = Shot(cfg: Cfg, minShare: nat, level: Level, read: RateGroup.Group<Limited>,
                       write: RateGroup.Group<Limited>, members: seq<Limited>, bevs: seq<Bev>) {
    function Rules(dir: Dir): RateGroup.Rules {
      RateGroup.Rules(cfg.Rate(dir), cfg.Maximum(dir), minShare)
    }
  }

  ghost function Taking(g: Group): (s: Shot)
    reads g, g.limit, g.read, g.write, Parts(g.members)
    ensures |s.bevs| == |s.members|
  {
    Shot(g.cfg, g.minShare, g.limit.View(), g.View(Reading), g.View(Writing), g.members, Bevs(g.members))
  }

  /** The event loop makes a call only when it is due, on a member that there is, whose own limits do not wrap. */
  ghost predicate GroupDue(s: Shot, x: GroupDated)
    requires |s.bevs| == |s.members|
  {
    match x.call
    case MemberReads(i, _, _, _, _, _, _, _, _, _) =>
      i < |s.members| && s.bevs[i].s.read.pending && Possible(s.bevs[i].s, Ask(At(x.time)))
    case Leaves(i) => i < |s.members|
    case _ => true
  }

  /** What the own bucket of a member lets it read. */
  function Own(b: Bev, now: tick): int {
    if b.s.cfg.Some? then Asked(b.s, now).level.read else b.single
  }

  /** bufferevent_readcb for a member: which way it ends, and what it does to the member and to the group. */
  ghost predicate MemberDone(s: Shot, x: GroupDated, outcome: Outcome, t: Shot)
    requires |s.bevs| == |s.members| && |t.bevs| == |t.members| && x.call.MemberReads? && x.call.i < |s.members|
  {
    var call, m, b := x.call, s.members[x.call.i], s.bevs[x.call.i];
    var full := call.high != 0 && call.high <= call.inputLen;
    var u := Asked(b.s, At(x.time));
    && t == s.(level := t.level, read := t.read, bevs := t.bevs)
    && t.level == s.level.(read := t.read.limit)
    && (outcome.TimedOut? <==> call.timeout)
    && (outcome.Full? <==> !call.timeout && full)
    && (outcome.Suspended? <==> !call.timeout && !full && s.read.suspended)
    && (outcome.TimedOut? || outcome.Full? ==> t.read == s.read)
    && (outcome.TimedOut? ==> t.bevs[call.i].s == Disabled(b.s, Reading))
    && (outcome.Full? ==> t.bevs[call.i].s == b.s.Suspended(Reading, Watermark))
    && (outcome.Suspended? ==> t.bevs[call.i].s == u.Suspended(Reading, GroupBandwidth))
    && (!outcome.TimedOut? && !outcome.Full? ==>
        OneRead(s.read, t.read, s.Rules(Reading), m, outcome, Free(s.members, Locks(call.free, |s.members|))))
    && (!outcome.TimedOut? && !outcome.Full? && !outcome.Suspended? ==>
        exists asked :: MemberAsks(s, x, asked) && Ends(outcome, asked, call.startable, call.arriving, call.error)
                        && Paid(t.bevs[call.i].s, Ended(u, outcome), outcome))
  }

  /** What a member that is let asks the kernel for. */
  ghost predicate MemberAsks(s: Shot, x: GroupDated, asked: int)
    requires |s.bevs| == |s.members| && x.call.MemberReads? && x.call.i < |s.members|
  {
    Let(Own(s.bevs[x.call.i], At(x.time)), RateGroup.Share(s.read, s.Rules(Reading)),
        if x.call.high != 0 then x.call.high - x.call.inputLen else -1, x.call.waiting, asked)
  }

  /** Any call, and nothing when it is not due; read is what a member reads. */
  ghost predicate GroupDone(s: Shot, x: GroupDated, read: nat, t: Shot) {
    && |s.bevs| == |s.members| && |t.bevs| == |t.members|
    && if !GroupDue(s, x) then t == s && read == 0
    else
      match x.call
      case MemberReads(_, _, _, _, _, _, _, _, _, _) =>
        exists outcome: Outcome :: MemberDone(s, x, outcome, t) && read == if outcome.Moved? then outcome.bytes else 0
      case Timer(freeRead, _, freeWrite, _) =>
        var n := Ticks(s.level.last, At(x.time));
        && read == 0
        && t == s.(level := Updated(s.level, s.cfg, At(x.time)), read := t.read, write := t.write, bevs := t.bevs)
        && t.read == RateGroup.Ticked(s.read, s.Rules(Reading), n, Free(s.members, Locks(freeRead, |s.members|)))
        && t.write == RateGroup.Ticked(s.write, s.Rules(Writing), n, Free(s.members, Locks(freeWrite, |s.members|)))
      case Joins =>
        && read == 0 && t == s.(read := t.read, write := t.write, members := t.members, bevs := t.bevs)
        && |t.members| == |s.members| + 1 && t.members[1..] == s.members
        && t.read == RateGroup.Step(s.read, s.Rules(Reading), RateGroup.Join(t.members[0]))
        && t.write == RateGroup.Step(s.write, s.Rules(Writing), RateGroup.Join(t.members[0]))
      case Leaves(i) =>
        && read == 0 && t == s.(read := t.read, write := t.write, members := Without(s.members, i), bevs := t.bevs)
        && t.read == RateGroup.Step(s.read, s.Rules(Reading), RateGroup.Leave(s.members[i]))
        && t.write == RateGroup.Step(s.write, s.Rules(Writing), RateGroup.Leave(s.members[i]))
  }

  // ---- the account ----

  /** What has been moved, what is left and what the timer owes come to no more than there was and the rate. */
  predicate Owed(limit: int, last: tick, rate: nat, moved: nat, start: int, from: nat, now: nat) {
    moved + limit + RateGroup.Due(last, now) * rate <= start + (now - from) * rate
  }

  lemma OwedLater(limit: int, last: tick, rate: nat, moved: nat, start: int, from: nat, now: nat, later: nat)
    requires Owed(limit, last, rate, moved, start, from, now) && from <= now <= later
    ensures Owed(limit, last, rate, moved, start, from, later)
  {
    hide RateGroup.Due;
    RateGroup.DueGrows(last, now, later);
    MulMono(RateGroup.Due(last, later), later - now + RateGroup.Due(last, now), rate);
    RateGroup.Spread(later - now, RateGroup.Due(last, now), rate);
    Span(from, now, later, rate);
  }

  /** A member's read comes off the limit, which does not fall below the floor. */
  lemma OwedRead<M>(g: RateGroup.Group<M>, r: RateGroup.Rules, who: M, bytes: nat, free: set<M>)
    requires RateGroup.Inv(g) && r.Ok() && RateGroup.Floor(g, r) && RateGroup.Possible(g, r, RateGroup.Read(who, bytes, free))
    ensures var h := RateGroup.ReadBy(g, who, bytes, free); h.limit == g.limit - bytes && RateGroup.Floor(h, r)
  {
    RateGroup.StepKeeps(g, r, RateGroup.Read(who, bytes, free));
  }

  /** The timer credits what is due, if that. */
  lemma OwedTick(limit: int, last: tick, r: RateGroup.Rules, moved: nat, start: int, from: nat, now: nat)
    requires r.Ok() && SSIZE_MIN <= limit <= r.maximum && Owed(limit, last, r.rate, moved, start, from, now)
    ensures var n := Ticks(last, At(now));
      var filled := RateGroup.Refilled(limit, r, n);
      && limit <= filled <= r.maximum
      && Owed(filled, if Advances(n) then At(now) else last, r.rate, moved, start, from, now)
  {
    hide Refill;
    var n := Ticks(last, At(now));
    if Advances(n) {
      RefillExact(limit, r.maximum, r.rate, n);
      MulMono(0, n, r.rate);
      RateGroup.DueGrows(last, now, now);
    }
  }

  /** The limit is where it can be, and the account holds. */
  ghost predicate Accounted(s: Shot, moved: nat, start: int, from: nat, now: nat) {
    && s.cfg.Ok() && s.Rules(Reading).Ok() && s.level.Within(s.cfg) && s.level.read == s.read.limit
    && RateGroup.Inv(s.read) && RateGroup.Floor(s.read, s.Rules(Reading))
    && Owed(s.level.read, s.level.last, s.cfg.readRate, moved, start, from, now)
  }

  lemma OwedLess(limit: int, last: tick, rate: nat, moved: nat, start: int, from: nat, now: nat, bytes: nat)
    requires Owed(limit, last, rate, moved, start, from, now)
    ensures Owed(limit - bytes, last, rate, moved + bytes, start, from, now)
  {
  }

  /** What the update does to the account */
  lemma OwedUpdate(b: Level, c: Cfg, r: RateGroup.Rules, moved: nat, start: int, from: nat, now: nat)
    requires r.Ok() && c.Ok() && b.Within(c) && r.rate == c.readRate && r.maximum == c.readMaximum
    requires Owed(b.read, b.last, c.readRate, moved, start, from, now)
    ensures var u := Updated(b, c, At(now));
      u.Within(c) && b.read <= u.read && Owed(u.read, u.last, c.readRate, moved, start, from, now)
  {
    hide Owed;
    OwedTick(b.read, b.last, r, moved, start, from, now);
    UpdatedAdds(b, c, At(now), Reading);
    UpdatedAdds(b, c, At(now), Writing);
  }

  /** A read of a member is accounted for. */
  lemma MemberAccounted(s: Shot, x: GroupDated, outcome: Outcome, t: Shot, moved: nat, start: int, from: nat)
    requires |s.bevs| == |s.members| && |t.bevs| == |t.members| && x.call.MemberReads? && x.call.i < |s.members|
    requires Accounted(s, moved, start, from, x.time) && MemberDone(s, x, outcome, t) && RateGroup.Inv(t.read)
    ensures Accounted(t, moved + if outcome.Moved? then outcome.bytes else 0, start, from, x.time)
  {
    hide RateGroup.Inv, RateGroup.Possible, RateGroup.ReadBy, Paid, MemberAsks, Ends, Owed, Free;
    var read := if outcome.Moved? then outcome.bytes else 0;
    if !outcome.TimedOut? && !outcome.Full? {
      OwedRead(s.read, s.Rules(Reading), s.members[x.call.i], read, Free(s.members, Locks(x.call.free, |s.members|)));
    }
    OwedLess(s.level.read, s.level.last, s.cfg.readRate, moved, start, from, x.time, read);
  }

  /** So is what the timer credits. */
  lemma TimerAccounted(s: Shot, t: Shot, free: set<Limited>, moved: nat, start: int, from: nat, now: nat)
    requires Accounted(s, moved, start, from, now) && RateGroup.Inv(t.read) && t.cfg == s.cfg && t.minShare == s.minShare
    requires t.level == Updated(s.level, s.cfg, At(now))
    requires t.read == RateGroup.Ticked(s.read, s.Rules(Reading), Ticks(s.level.last, At(now)), free)
    ensures Accounted(t, moved, start, from, now)
  {
    hide RateGroup.Inv, Owed, Updated, Ticks, Filled, RateGroup.UnsuspendAll;
    OwedUpdate(s.level, s.cfg, s.Rules(Reading), moved, start, from, now);
    TickedLimit(s.read, s.Rules(Reading), s.level, s.cfg, now, free);
  }

  lemma TickedLimit<M>(g: RateGroup.Group<M>, r: RateGroup.Rules, b: Level, c: Cfg, now: nat, free: set<M>)
    requires g.limit == b.read && r.rate == c.readRate && r.maximum == c.readMaximum
    ensures RateGroup.Ticked(g, r, Ticks(b.last, At(now)), free).limit == Updated(b, c, At(now)).read
  {
    hide Refill;
  }

  /** And whatever leaves the limit alone. */
  lemma StillAccounted(s: Shot, t: Shot, moved: nat, start: int, from: nat, now: nat)
    requires Accounted(s, moved, start, from, now) && RateGroup.Inv(t.read) && t.cfg == s.cfg && t.minShare == s.minShare
    requires t.level == s.level && t.read.limit == s.read.limit
    ensures Accounted(t, moved, start, from, now)
  {
    hide RateGroup.Inv, Owed;
  }

  /** So is every call. */
  lemma GroupAccounted(s: Shot, x: GroupDated, read: nat, t: Shot, moved: nat, start: int, from: nat)
    requires Accounted(s, moved, start, from, x.time) && GroupDone(s, x, read, t) && RateGroup.Inv(t.read)
    ensures Accounted(t, moved + read, start, from, x.time)
  {
    hide RateGroup.Inv, MemberDone, Accounted, Free, Updated, RateGroup.Ticked, Without, Ticks, Locks;
    if GroupDue(s, x) {
      match x.call
      case MemberReads(_, _, _, _, _, _, _, _, _, _) =>
        var outcome: Outcome :| MemberDone(s, x, outcome, t) && read == if outcome.Moved? then outcome.bytes else 0;
        MemberAccounted(s, x, outcome, t, moved, start, from);
      case Timer(freeRead, _, _, _) =>
        TimerAccounted(s, t, Free(s.members, Locks(freeRead, |s.members|)), moved, start, from, x.time);
      case Joins => StillAccounted(s, t, moved, start, from, x.time);
      case Leaves(_) => StillAccounted(s, t, moved, start, from, x.time);
    }
  }

  // ---- the object ----

  lemma OwnIs(m: Limited, now: tick)
    ensures Own(Seeing(m), now) == OwnAt(m, Reading, now)
  {
  }

  /** The limits as the group's model has them. */
  lemma LimitsAre(g: Group)
    ensures g.View(Reading).limit == g.limit.View().read && g.View(Writing).limit == g.limit.View().write
    ensures g.View(Reading).suspended == g.read.suspended
    ensures g.Rules(Reading) == Taking(g).Rules(Reading) && g.Rules(Writing) == Taking(g).Rules(Writing)
  {
  }

  /** What a member changes belongs to the group. */
  lemma InParts(g: Group, i: nat)
    requires g.Sound() && i < |g.members|
    ensures g.members[i].Repr() <= Parts(g.members)
    ensures Ways(g.members, Reading) + Ways(g.members, Writing) <= Parts(g.members)
  {
    PartsOf(g.members, i);
  }

  /** The read event of a member goes off */
  method MemberRead(g: Group, x: GroupDated) returns (read: nat, ghost outcome: Outcome)
    requires g.Valid() && x.call.MemberReads? && x.call.i < |g.members|
    requires g.members[x.call.i].View().read.pending && Possible(g.members[x.call.i].View(), Ask(At(x.time)))
    modifies g.limit, g.read, g.write, Parts(g.members)
    ensures g.Valid() && g.members == old(g.members) && |Taking(g).bevs| == |g.members|
    ensures MemberDone(old(Taking(g)), x, outcome, Taking(g)) && read == if outcome.Moved? then outcome.bytes else 0
  {
    hide Group.Sound, Group.View, RateGroup.Inv, OneRead, Paid, Let, Ends, Ended, Asked, Disabled, Parts, Limited.View;
    var call := x.call;
    var m := g.members[call.i];
    var free, first := Locks(call.free, |g.members|), StartAt(call.first, |g.members|);
    InParts(g, call.i);
    LimitsAre(g);
    OwnIs(m, At(x.time));
    ghost var s := Taking(g);
    var how, asked := g.ReadCallback(m, call.i, call.timeout, call.high, call.inputLen, call.startable, call.waiting,
                                     call.arriving, call.error, At(x.time), free, first);
    LimitsAre(g);
    read, outcome := if how.Moved? then how.bytes else 0, how;
    assert how.TimedOut? || how.Full? || how.Suspended? || MemberAsks(s, x, asked);
  }

  /** The group's timer goes off */
  method GroupTimer(g: Group, x: GroupDated)
    requires g.Valid() && 1 <= g.minShare && g.limit.View().Within(g.cfg) && x.call.Timer?
    modifies g.limit, g.read, g.write, Parts(g.members)
    ensures g.Valid() && g.members == old(g.members) && GroupDone(old(Taking(g)), x, 0, Taking(g))
  {
    hide Group.Sound, Group.View, RateGroup.Inv, RateGroup.Ticked, Parts, Updated, KeepsSigns, Level.Within, Limited.View;
    var n := |g.members|;
    g.ValidIsSound();
    LimitsAre(g);
    WithinKeepsSigns(g.limit.View(), g.cfg, At(x.time));
    GroupWays(g);
    g.RefillCallback(At(x.time), Locks(x.call.freeRead, n), StartAt(x.call.firstRead, n),
                     Locks(x.call.freeWrite, n), StartAt(x.call.firstWrite, n));
  }

  lemma GroupWays(g: Group)
    ensures Ways(g.members, Reading) + Ways(g.members, Writing) <= Parts(g.members)
  {
  }

  lemma PartsMore(m: Limited, ms: seq<Limited>)
    ensures Parts([m] + ms) <= Parts(ms) + m.Repr()
  {
  }

  lemma IsNow(g: Group)
    requires g.Sound()
    ensures g.Is(g.View(Reading), g.View(Writing))
  {
  }

  lemma IsMeans(g: Group, r: RateGroup.Group<Limited>, w: RateGroup.Group<Limited>)
    requires g.Is(r, w)
    ensures g.View(Reading) == r && g.View(Writing) == w
  {
  }

  /** A new bufferevent that reads, added to a group. */
  method AddReader(g: Group) returns (m: Limited)
    requires g.Valid()
    modifies g`members
    ensures g.Valid() && g.members == [m] + old(g.members) && fresh(m.Repr())
    ensures g.View(Reading) == RateGroup.Step(old(g.View(Reading)), g.Rules(Reading), RateGroup.Join(m))
    ensures g.View(Writing) == RateGroup.Step(old(g.View(Writing)), g.Rules(Writing), RateGroup.Join(m))
  {
    hide Group.Sound, Group.Valid, Group.View, Group.Is, Apart, AllValid, RateGroup.Step, Inv;
    hide Limited.Valid, Limited.View, Welcomed;
    ghost var known := Parts(g.members);
    g.ValidIsSound();
    ghost var r, w := g.View(Reading), g.View(Writing);
    IsNow(g);
    m := NewReader();
    assert known !! m.Repr();
    IsMeans(g, r, w);
    g.Add(m);
  }

  /** It joins */
  method GroupJoin(g: Group, x: GroupDated) returns (ghost added: set<object>)
    requires g.Valid() && x.call.Joins?
    modifies g`members
    ensures g.Valid() && GroupDone(old(Taking(g)), x, 0, Taking(g))
    ensures fresh(added) && Parts(g.members) <= old(Parts(g.members)) + added
  {
    hide Group.Valid, Group.View, RateGroup.Step, Parts, Bevs;
    LimitsAre(g);
    var m := AddReader(g);
    added := m.Repr();
    PartsMore(m, old(g.members));
  }

  /** A member leaves it */
  method GroupLeave(g: Group, x: GroupDated)
    requires g.Valid() && x.call.Leaves? && x.call.i < |g.members|
    modifies g`members, Parts(g.members)
    ensures g.Valid() && GroupDone(old(Taking(g)), x, 0, Taking(g)) && Parts(g.members) <= old(Parts(g.members))
  {
    hide Group.Sound, Group.View, RateGroup.Inv, RateGroup.Step, Limited.Valid, Limited.View, State.Unsuspended, Without;
    hide GroupDone, Bevs, Parts;
    g.ValidIsSound();
    LimitsAre(g);
    InParts(g, x.call.i);
    PartsLess(g, x.call.i);
    GroupOwn(g);
    ghost var s := Taking(g);
    g.Remove(g.members[x.call.i], x.call.i);
    LimitsAre(g);
    LeaveDone(s, x, Taking(g));
  }

  /** The group's own parts are none of its members'. */
  lemma GroupOwn(g: Group)
    requires g.Sound()
    ensures g !in Parts(g.members) && g.limit !in Parts(g.members)
  {
    GroupApart(g, g.members);
  }

  lemma LeaveDone(s: Shot, x: GroupDated, t: Shot)
    requires |s.bevs| == |s.members| && |t.bevs| == |t.members| && x.call.Leaves? && x.call.i < |s.members|
    requires t == s.(read := t.read, write := t.write, members := Without(s.members, x.call.i), bevs := t.bevs)
    requires t.read == RateGroup.Step(s.read, s.Rules(Reading), RateGroup.Leave(s.members[x.call.i]))
    requires t.write == RateGroup.Step(s.write, s.Rules(Writing), RateGroup.Leave(s.members[x.call.i]))
    ensures GroupDone(s, x, 0, t)
  {
    hide RateGroup.Step, Without;
  }

  lemma PartsLess(g: Group, i: nat)
    requires g.Sound() && i < |g.members|
    ensures Parts(Without(g.members, i)) <= Parts(g.members)
  {
    LeftParts(g.members, i);
  }

  /** Whether a call is due */
  predicate Ready(g: Group, x: GroupDated)
    reads g, g.members, set m | m in g.members :: m.limit
    reads set m | m in g.members :: m.read, set m | m in g.members :: m.write
  {
    match x.call
    case MemberReads(i, _, _, _, _, _, _, _, _, _) =>
      i < |g.members| && g.members[i].View().read.pending && Possible(g.members[i].View(), Ask(At(x.time)))
    case Leaves(i) => i < |g.members|
    case _ => true
  }

  lemma ReadyIs(g: Group, x: GroupDated)
    ensures Ready(g, x) <==> GroupDue(Taking(g), x)
  {
  }

  /** One call; added are the parts of a member that comes. */
  method GroupOne(g: Group, x: GroupDated) returns (read: nat, ghost added: set<object>)
    requires g.Valid() && 1 <= g.minShare && g.limit.View().Within(g.cfg)
    modifies g`members, g.limit, g.read, g.write, Parts(g.members)
    ensures g.Valid() && GroupDone(old(Taking(g)), x, read, Taking(g))
    ensures fresh(added) && Parts(g.members) <= old(Parts(g.members)) + added
  {
    hide Group.Valid, Parts, Taking, GroupDone, MemberDone, GroupDue;
    read, added := 0, {};
    ReadyIs(g, x);
    ghost var s := Taking(g);
    if !Ready(g, x) {
      NotDone(s, x);
      return;
    }
    match x.call
    case MemberReads(_, _, _, _, _, _, _, _, _, _) =>
      DueMember(g, x);
      ghost var outcome;
      read, outcome := MemberRead(g, x);
      MemberIsDone(s, x, outcome, Taking(g), read);
    case Timer(_, _, _, _) =>
      GroupTimer(g, x);
    case Joins =>
      added := GroupJoin(g, x);
    case Leaves(i) =>
      DueMember(g, x);
      GroupLeave(g, x);
  }

  lemma NotDone(s: Shot, x: GroupDated)
    requires |s.bevs| == |s.members| && !GroupDue(s, x)
    ensures GroupDone(s, x, 0, s)
  {
  }

  lemma DueMember(g: Group, x: GroupDated)
    requires GroupDue(Taking(g), x)
    ensures x.call.Leaves? ==> x.call.i < |g.members|
    ensures x.call.MemberReads? ==>
      && x.call.i < |g.members| && x.call.i < |Taking(g).members|
      && g.members[x.call.i].View().read.pending && Possible(g.members[x.call.i].View(), Ask(At(x.time)))
  {
  }

  lemma MemberIsDone(s: Shot, x: GroupDated, outcome: Outcome, t: Shot, read: nat)
    requires |s.bevs| == |s.members| && |t.bevs| == |t.members| && x.call.MemberReads? && x.call.i < |s.members|
    requires GroupDue(s, x) && MemberDone(s, x, outcome, t) && read == if outcome.Moved? then outcome.bytes else 0
    ensures GroupDone(s, x, read, t)
  {
  }

  /** Each call leads from one state of the group to the next. */
  ghost predicate Trace(shots: seq<Shot>, xs: seq<GroupDated>, got: seq<nat>) {
    && |shots| == |xs| + 1 && |got| == |xs|
    && forall k :: 0 <= k < |xs| ==> GroupDone(shots[k], xs[k], got[k], shots[k + 1])
  }

  function Sum(ns: seq<nat>): nat {
    if ns == [] then 0 else Sum(ns[..|ns| - 1]) + ns[|ns| - 1]
  }

  lemma TraceMore(shots: seq<Shot>, xs: seq<GroupDated>, got: seq<nat>, i: nat, read: nat, shot: Shot)
    requires i < |xs| && Trace(shots, xs[..i], got) && GroupDone(shots[i], xs[i], read, shot)
    ensures Trace(shots + [shot], xs[..i + 1], got + [read]) && Sum(got + [read]) == Sum(got) + read
  {
    hide GroupDone;
    assert (got + [read])[..|got|] == got;
  }

  /**
   What a group is for: over any window, whatever its members read, whoever comes and goes and whenever
   its timer goes off, they read in all at most what the limit was, the rate for each tick of the window
   and for those that the timer was late at its start, and the least share less a byte.  The shots are
   the states the group goes through, and got what each call got.
   */
  method RunGroup(g: Group, xs: seq<GroupDated>, ghost from: nat, ghost to: nat)
    returns (got: seq<nat>, ghost shots: seq<Shot>)
    requires g.Valid() && 1 <= g.minShare && g.limit.View().Within(g.cfg) && 1 - g.minShare <= g.limit.View().read
    requires GroupWithin(xs, from, to)
    modifies g`members, g.limit, g.read, g.write, Parts(g.members)
    ensures g.Valid() && Trace(shots, xs, got) && shots[0] == old(Taking(g)) && shots[|xs|] == Taking(g)
    ensures var late := RateGroup.Due(old(g.limit.View().last), from);
      from <= to && Sum(got) <= old(g.limit.View().read) + (to - from + late) * g.cfg.readRate + g.minShare - 1
  {
    hide Accounted, Parts, Taking, Trace, GroupDone, Group.Valid, RateGroup.Due, Sum, RateGroup.Inv;
    ghost var late := RateGroup.Due(g.limit.View().last, from);
    ghost var start := g.limit.View().read + late * g.cfg.readRate;
    ghost var now := from;
    ghost var added: set<object> := {};
    got, shots := [], [Taking(g)];
    Opens(g, xs, start, from);
    GroupApart(g, g.members);
    for i := 0 to |xs|
      invariant from <= now && GroupWithin(xs[i..], now, to)
      invariant g.Valid() && g.cfg == old(g.cfg) && g.minShare == old(g.minShare)
      invariant Accounted(Taking(g), Sum(got), start, from, now)
      invariant |shots| == i + 1 && Trace(shots, xs[..i], got) && shots[0] == old(Taking(g)) && shots[i] == Taking(g)
      invariant fresh(added) && Parts(g.members) <= old(Parts(g.members)) + added
    {
      var x := xs[i];
      assert xs[i..][0] == x && xs[i..][1..] == xs[i + 1..];
      Later(Taking(g), Sum(got), start, from, now, x.time);
      now := x.time;
      ghost var s, parts := Taking(g), {};
      AccountOf(g, Sum(got), start, from, now);
      var read;
      read, parts := GroupOne(g, x);
      added := added + parts;
      InvOf(g);
      GroupAccounted(s, x, read, Taking(g), Sum(got), start, from);
      TraceMore(shots, xs, got, i, read, Taking(g));
      got, shots := got + [read], shots + [Taking(g)];
    }
    assert xs[..|xs|] == xs;
    Later(Taking(g), Sum(got), start, from, now, to);
    Closes(g, Sum(got), start, from, to);
    RateGroup.Spread(to - from, late, g.cfg.readRate);
  }

  lemma Opens(g: Group, xs: seq<GroupDated>, start: int, from: nat)
    requires g.Valid() && 1 <= g.minShare && g.limit.View().Within(g.cfg) && 1 - g.minShare <= g.limit.View().read
    requires start == g.limit.View().read + RateGroup.Due(g.limit.View().last, from) * g.cfg.readRate
    ensures Accounted(Taking(g), 0, start, from, from) && Trace([Taking(g)], xs[..0], []) && Sum([]) == 0
  {
    LimitsAre(g);
    g.RulesOk(Reading);
  }

  lemma AccountOf(g: Group, moved: nat, start: int, from: nat, now: nat)
    requires Accounted(Taking(g), moved, start, from, now)
    ensures g.limit.View().Within(g.cfg)
  {
  }

  lemma InvOf(g: Group)
    requires g.Valid()
    ensures RateGroup.Inv(Taking(g).read)
  {
  }

  lemma Later(s: Shot, moved: nat, start: int, from: nat, now: nat, later: nat)
    requires Accounted(s, moved, start, from, now) && from <= now <= later
    ensures Accounted(s, moved, start, from, later)
  {
    hide Owed;
    OwedLater(s.level.read, s.level.last, s.cfg.readRate, moved, start, from, now, later);
  }

  lemma Closes(g: Group, moved: nat, start: int, from: nat, now: nat)
    requires Accounted(Taking(g), moved, start, from, now) && from <= now
    ensures moved <= start + (now - from) * g.cfg.readRate + g.minShare - 1
  {
    MulMono(0, RateGroup.Due(g.limit.View().last, now), g.cfg.readRate);
  }
}
