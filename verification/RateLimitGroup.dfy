/** The group object: its bucket, its flags, its member list, and the loops over the members. */
module RateLimitGroups {

  import opened TokenBucket
  import opened RateLimit
  import opened SocketBufferevents
  import RateGroup

  /** Distinct bufferevents share no part. */
  ghost predicate Apart(ms: seq<Limited>) {
    && (forall i, j :: 0 <= i < j < |ms| ==> ms[i].Repr() !! ms[j].Repr())
    && (forall i :: 0 <= i < |ms| ==> ms[i].read != ms[i].write)
  }

  /** All objects of some bufferevents. */
  ghost function Parts(ms: seq<Limited>): set<object> {
    (set m | m in ms :: m as object) + (set m | m in ms :: m.limit as object)
    + Ways(ms, Reading) + Ways(ms, Writing)
  }

  /** Each keeps what it keeps for itself. */
  ghost predicate AllValid(ms: seq<Limited>)
    reads Parts(ms)
  {
    forall m :: m in ms ==> m.Valid()
  }

  /** One direction of every member, as objects and as values. */
  ghost function Ways(ms: seq<Limited>, dir: Dir): set<object> {
    set m | m in ms :: m.Of(dir)
  }

  ghost function Views(ms: seq<Limited>, dir: Dir): (vs: seq<HalfState>)
    reads Ways(ms, dir)
    ensures |vs| == |ms| && forall k :: 0 <= k < |ms| ==> vs[k] == ms[k].Of(dir).View()
  {
    seq(|ms|, k requires 0 <= k < |ms| reads if 0 <= k < |ms| then {ms[k].Of(dir)} else {} => ms[k].Of(dir).View())
  }

  /** The list as a set. */
  ghost function Members(ms: seq<Limited>): set<Limited> {
    set m | m in ms
  }

  /** The members that carry the group's flag. */
  ghost function Held(ms: seq<Limited>, vs: seq<HalfState>): set<Limited>
    requires |vs| == |ms|
  {
    set k | 0 <= k < |ms| && GroupBandwidth in vs[k].suspended :: ms[k]
  }

  /** The members whose lock is free. */
  ghost function Free(ms: seq<Limited>, free: seq<bool>): set<Limited>
    requires |free| == |ms|
  {
    set k | 0 <= k < |ms| && free[k] :: ms[k]
  }

  /** What a visit does to a member. */
  function Flagged(h: HalfState, suspend: bool): HalfState {
    if suspend then h.Suspended(GroupBandwidth) else h.Unsuspended(GroupBandwidth)
  }

  /** What a visit of everybody does, where the locks are free. */
  function Marked(vs: seq<HalfState>, free: seq<bool>, suspend: bool): (r: seq<HalfState>)
    requires |free| == |vs|
    ensures |r| == |vs|
  {
    seq(|vs|, k requires 0 <= k < |vs| => if free[k] then Flagged(vs[k], suspend) else vs[k])
  }

  /** A visit keeps what each bufferevent keeps for itself. */
  lemma FlagKeeps(s: State, dir: Dir, suspend: bool)
    requires Inv(s)
    ensures Inv(s.Put(dir, Flagged(s.Half(dir), suspend)))
  {
    hide Inv;
    StepKeeps(s, if suspend then RateLimit.Suspend(dir, GroupBandwidth) else RateLimit.Unsuspend(dir, GroupBandwidth));
  }

  /** A visit gives the flag to those whose lock is free, or takes it from them. */
  lemma HeldMarked(ms: seq<Limited>, vs: seq<HalfState>, free: seq<bool>)
    requires |vs| == |free| == |ms| && Apart(ms)
    ensures Held(ms, Marked(vs, free, true)) == Held(ms, vs) + Members(ms) * Free(ms, free)
    ensures Held(ms, Marked(vs, free, false)) == Held(ms, vs) - Free(ms, free)
  {
    var on, off := Marked(vs, free, true), Marked(vs, free, false);
    forall k | 0 <= k < |ms|
      ensures ms[k] in Held(ms, vs) <==> GroupBandwidth in vs[k].suspended
      ensures ms[k] in Held(ms, on) <==> GroupBandwidth in vs[k].suspended || free[k]
      ensures ms[k] in Held(ms, off) <==> GroupBandwidth in vs[k].suspended && !free[k]
      ensures ms[k] in Free(ms, free) <==> free[k]
    {
    }
  }

  /** Somebody was missed exactly when not every member's lock was free. */
  lemma Missed(ms: seq<Limited>, free: seq<bool>)
    requires |free| == |ms| && Apart(ms)
    ensures (exists k :: 0 <= k < |ms| && !free[k]) <==> !(Members(ms) <= Free(ms, free))
  {
    forall k | 0 <= k < |ms|
      ensures ms[k] in Free(ms, free) <==> free[k]
    {
    }
    if k :| 0 <= k < |ms| && !free[k] {
      assert ms[k] in Members(ms);
    }
  }

  lemma OthersApart(ms: seq<Limited>, dir: Dir, i: nat)
    requires Apart(ms) && i < |ms|
    ensures forall k :: 0 <= k < |ms| && k != i ==> ms[i].Of(dir) !in ms[k].Repr() && ms[k].Of(dir) != ms[i].Of(dir)
  {
  }

  /** The values after a visit of those before some index and from another on. */
  predicate Halfway(now: seq<HalfState>, vs: seq<HalfState>, free: seq<bool>, suspend: bool, from: int, to: int, below: int)
    requires |now| == |vs| == |free|
  {
    forall k :: 0 <= k < |vs| ==>
      now[k] == if (from <= k < to || k < below) && free[k] then Flagged(vs[k], suspend) else vs[k]
  }

  lemma Unvisited(vs: seq<HalfState>, free: seq<bool>, suspend: bool, from: int)
    requires |vs| == |free|
    ensures Halfway(vs, vs, free, suspend, from, from, 0)
  {
  }

  /** A visit of the next one. */
  function Once(vs: seq<HalfState>, free: bool, suspend: bool, i: nat): (r: seq<HalfState>)
    requires i < |vs|
    ensures |r| == |vs|
  {
    vs[i := if free then Flagged(vs[i], suspend) else vs[i]]
  }

  lemma HalfwayOn(now: seq<HalfState>, vs: seq<HalfState>, free: seq<bool>, suspend: bool, from: int, to: int, below: int)
    requires |now| == |vs| == |free| && Halfway(now, vs, free, suspend, from, to, below)
    ensures 0 <= below <= from <= to < |vs| ==> Halfway(Once(now, free[to], suspend, to), vs, free, suspend, from, to + 1, below)
    ensures 0 <= below < from <= |vs| ==> Halfway(Once(now, free[below], suspend, below), vs, free, suspend, from, to, below + 1)
    ensures 0 <= below == from <= to == |vs| ==> now == Marked(vs, free, suspend)
  {
  }

  /** The body of bev_group_suspend_*_, for one member. */
  method SuspendOne(ms: seq<Limited>, dir: Dir, free: bool, i: nat)
    requires Apart(ms) && AllValid(ms) && i < |ms|
    modifies ms[i].Of(dir)
    ensures AllValid(ms) && Views(ms, dir) == Once(old(Views(ms, dir)), free, true, i)
  {
    hide Inv;
    OthersApart(ms, dir, i);
    assert ms[i].Valid();
    FlagKeeps(ms[i].View(), dir, true);
    Unfold(ms[i].View());
    if free {
      ms[i].Of(dir).Suspend(GroupBandwidth);
    }
  }

  /** The body of bev_group_unsuspend_*_, for one member. */
  method UnsuspendOne(ms: seq<Limited>, dir: Dir, free: bool, i: nat) returns (again: bool)
    requires Apart(ms) && AllValid(ms) && i < |ms|
    modifies ms[i].Of(dir)
    ensures AllValid(ms) && Views(ms, dir) == Once(old(Views(ms, dir)), free, false, i)
    ensures again <==> !free
  {
    hide Inv;
    OthersApart(ms, dir, i);
    assert ms[i].Valid();
    FlagKeeps(ms[i].View(), dir, false);
    again := false;
    if free {
      ms[i].Of(dir).Unsuspend(GroupBandwidth);
    } else {
      again := true;
    }
  }

  /** The loop of bev_group_suspend_*_; free says which members' locks are. */
  method SuspendEach(ms: seq<Limited>, dir: Dir, free: seq<bool>)
    requires Apart(ms) && AllValid(ms) && |free| == |ms|
    modifies Ways(ms, dir)
    ensures AllValid(ms)
    ensures Views(ms, dir) == Marked(old(Views(ms, dir)), free, true)
  {
    hide Apart, Views, Halfway, Marked, Once, AllValid, Parts;
    ghost var vs := Views(ms, dir);
    assert Halfway(vs, vs, free, true, 0, 0, 0) by { Unvisited(vs, free, true, 0); }
    var i := 0;
    while i < |ms|
      invariant 0 <= i <= |ms|
      invariant Halfway(Views(ms, dir), vs, free, true, 0, i, 0) && AllValid(ms)
    {
      HalfwayOn(Views(ms, dir), vs, free, true, 0, i, 0);
      SuspendOne(ms, dir, free[i], i);
      i := i + 1;
    }
    HalfwayOn(Views(ms, dir), vs, free, true, 0, i, 0);
  }

  /** The second loop of FOREACH_RANDOM_ORDER: from the head of the list up to where the visit started. */
  method UnsuspendRest(ms: seq<Limited>, dir: Dir, free: seq<bool>, first: nat, ghost vs: seq<HalfState>, missed: bool)
    returns (again: bool, order: seq<nat>)
    requires Apart(ms) && AllValid(ms) && |free| == |ms| == |vs| && first <= |ms|
    requires Halfway(Views(ms, dir), vs, free, false, first, |ms|, 0)
    modifies Ways(ms, dir)
    ensures AllValid(ms) && Views(ms, dir) == Marked(vs, free, false)
    ensures again <==> missed || exists k :: 0 <= k < first && !free[k]
    ensures |order| == first && forall k :: 0 <= k < first ==> order[k] == k
  {
    hide Apart, Views, Halfway, Marked, Once, AllValid, Parts;
    again, order := missed, [];
    var i := 0;
    while i < first
      invariant 0 <= i <= first && AllValid(ms)
      invariant Halfway(Views(ms, dir), vs, free, false, first, |ms|, i)
      invariant again <==> missed || exists k :: 0 <= k < i && !free[k]
      invariant |order| == i && forall k :: 0 <= k < i ==> order[k] == k
    {
      HalfwayOn(Views(ms, dir), vs, free, false, first, |ms|, i);
      var more := UnsuspendOne(ms, dir, free[i], i);
      again := again || more;
      order := order + [i];
      i := i + 1;
    }
    HalfwayOn(Views(ms, dir), vs, free, false, first, |ms|, i);
  }

  /** FOREACH_RANDOM_ORDER in bev_group_unsuspend_*_, with the order in which it came by. */
  method UnsuspendEach(ms: seq<Limited>, dir: Dir, free: seq<bool>, first: nat)
    returns (again: bool, order: seq<nat>)
    requires Apart(ms) && AllValid(ms) && |free| == |ms| && (first < |ms| || first == |ms| == 0)
    modifies Ways(ms, dir)
    ensures AllValid(ms)
    ensures Views(ms, dir) == Marked(old(Views(ms, dir)), free, false)
    ensures again <==> exists k :: 0 <= k < |ms| && !free[k]
    ensures order == RateGroup.Order(|ms|, first)
  {
    hide Apart, Views, Halfway, Marked, Once, AllValid, Parts;
    ghost var vs := Views(ms, dir);
    assert Halfway(vs, vs, free, false, first, first, 0) by { Unvisited(vs, free, false, first); }
    again, order := false, [];
    var i := first;
    while i < |ms|
      invariant first <= i <= |ms| && |order| == i - first
      invariant Halfway(Views(ms, dir), vs, free, false, first, i, 0) && AllValid(ms)
      invariant again <==> exists k :: first <= k < i && !free[k]
      invariant forall k :: 0 <= k < |order| ==> order[k] == first + k
    {
      HalfwayOn(Views(ms, dir), vs, free, false, first, i, 0);
      var missed := UnsuspendOne(ms, dir, free[i], i);
      again := again || missed;
      order := order + [i];
      i := i + 1;
    }
    var rest;
    again, rest := UnsuspendRest(ms, dir, free, first, vs, again);
    order := order + rest;
  }

  /** Both loops by their effect on who carries the flag. */
  method SuspendMembers(ms: seq<Limited>, dir: Dir, free: seq<bool>)
    requires Apart(ms) && AllValid(ms) && |free| == |ms|
    modifies Ways(ms, dir)
    ensures AllValid(ms)
    ensures Views(ms, dir) == Marked(old(Views(ms, dir)), free, true)
    ensures Held(ms, Views(ms, dir)) == old(Held(ms, Views(ms, dir))) + Members(ms) * Free(ms, free)
  {
    hide Held, Free, Marked, Apart, AllValid;
    HeldMarked(ms, Views(ms, dir), free);
    SuspendEach(ms, dir, free);
  }

  method UnsuspendMembers(ms: seq<Limited>, dir: Dir, free: seq<bool>, first: nat)
    returns (again: bool, order: seq<nat>)
    requires Apart(ms) && AllValid(ms) && |free| == |ms| && (first < |ms| || first == |ms| == 0)
    modifies Ways(ms, dir)
    ensures AllValid(ms)
    ensures Views(ms, dir) == Marked(old(Views(ms, dir)), free, false)
    ensures Held(ms, Views(ms, dir)) == old(Held(ms, Views(ms, dir))) - Free(ms, free)
    ensures again <==> !(Members(ms) <= Free(ms, free))
    ensures order == RateGroup.Order(|ms|, first)
  {
    hide Held, Free, Marked, Apart, AllValid;
    HeldMarked(ms, Views(ms, dir), free);
    Missed(ms, free);
    again, order := UnsuspendEach(ms, dir, free, first);
  }

  /** One direction of the group. */
  class Side {
    var suspended: bool
    var pending: bool

    constructor ()
      ensures !suspended && !pending
    {
      suspended, pending := false, false;
    }
  }

  lemma WaysApart(ms: seq<Limited>)
    requires Apart(ms)
    ensures Ways(ms, Reading) !! Ways(ms, Writing)
    ensures Ways(ms, Reading) + Ways(ms, Writing) <= Parts(ms)
  {
  }

  lemma SideApart(s: Side, ms: seq<Limited>)
    ensures s !in Parts(ms)
  {
    var o: object := s;
    if o in Parts(ms) {
      var m :| m in ms && (o == m || o == m.limit || o == m.read || o == m.write);
      assert false;
    }
  }

  /** What a member may move on its own account. */
  function Own(m: Limited, dir: Dir): int
    reads m, m.limit
  {
    if m.cfg.Some? then m.limit.View().Limit(dir) else if dir.Reading? then m.maxSingleRead else m.maxSingleWrite
  }

  /** And after an update at a tick. */
  function OwnAt(m: Limited, dir: Dir, now: tick): int
    reads m, m.limit
  {
    if m.cfg.Some? then Updated(m.limit.View(), m.cfg.value, now).Limit(dir)
    else if dir.Reading? then m.maxSingleRead else m.maxSingleWrite
  }

  /**
   What a member asks the kernel for, by what its own bucket lets it have, its share, and its wish,
   which is less than 0 for none; it is nothing without a cast exactly if the share is.
   */
  predicate Let(own: int, share: int, wish: int, waiting: int, asked: int) {
    var most := MinInt(own, share);
    var allowed := if wish < 0 then most else MinInt(most, wish);
    0 <= allowed && (allowed == 0 <==> share == 0) && asked == ReadSize(ToInt(allowed), waiting)
  }

  /** A new member, with the flags of its group. */
  function Welcomed(s: State, readSuspended: bool, writeSuspended: bool): State {
    var r := if readSuspended then s.(limiting := true).Suspended(Reading, GroupBandwidth) else s.(limiting := true);
    if writeSuspended then r.Suspended(Writing, GroupBandwidth) else r
  }

  /** It is limited from then on, has the flag of each direction that is suspended, and is otherwise as it was. */
  lemma WelcomedSays(s: State, readSuspended: bool, writeSuspended: bool)
    ensures var t := Welcomed(s, readSuspended, writeSuspended);
      && t == s.(limiting := true, read := t.read, write := t.write)
      && (!readSuspended ==> t.read == s.read)
      && (readSuspended ==> t.read == HalfState(s.read.suspended + {GroupBandwidth}, s.read.enabled, false))
      && (!writeSuspended ==> t.write == s.write)
      && (writeSuspended ==> t.write == HalfState(s.write.suspended + {GroupBandwidth}, s.write.enabled, false))
  {
  }

  /** Whatever moves is within the own allowance, the share and the wish. */
  lemma ReadsWithin(own: int, share: int, wish: int, waiting: int, asked: int, outcome: Outcome,
                    startable: bool, arriving: int, error: SocketError)
    requires Let(own, share, wish, waiting, asked) && Ends(outcome, asked, startable, arriving, error) && outcome.Moved?
    ensures 0 < outcome.bytes <= own && outcome.bytes <= share && (0 <= wish ==> outcome.bytes <= wish)
  {
    hide ReadSize, ToInt;
    var most := MinInt(own, share);
    CastKeepsAllowance(if wish < 0 then most else MinInt(most, wish), waiting);
  }

  /** The group sees one member read, if only nothing. */
  ghost predicate OneRead(was: RateGroup.Group<Limited>, now: RateGroup.Group<Limited>, r: RateGroup.Rules, m: Limited,
                       outcome: Outcome, free: set<Limited>) {
    var bytes := if outcome.Moved? then outcome.bytes else 0;
    RateGroup.Possible(was, r, RateGroup.Read(m, bytes, free)) && now == RateGroup.ReadBy(was, m, bytes, free)
  }

  /**
   The bucket and the timer are as after the read alone; and so is all the rest, unless bytes have
   moved: then the group may have changed its flag.
   */
  predicate Paid(now: State, alone: State, outcome: Outcome) {
    now.level == alone.level && now.armed == alone.armed && (outcome.Moved? || now == alone)
  }

  /** struct bufferevent_rate_limit_group */
  class Group {
    const limit: Bucket
    const read: Side
    const write: Side
    var cfg: Cfg
    var minShare: nat
    var configuredMinShare: nat
    var members: seq<Limited>

    function Of(dir: Dir): Side {
      if dir.Reading? then read else write
    }

    /** One direction of the group as the model sees it. */
    ghost function View(dir: Dir): RateGroup.Group<Limited>
      reads `members, limit, Of(dir), Ways(members, dir)
    {
      RateGroup.Group(limit.View().Limit(dir), Of(dir).suspended, Of(dir).pending,
                      Members(members), Held(members, Views(members, dir)))
    }

    /** What is fixed in one direction. */
    function Rules(dir: Dir): RateGroup.Rules
      reads `cfg, `minShare
    {
      RateGroup.Rules(cfg.Rate(dir), cfg.Maximum(dir), minShare)
    }

    /** The parts are apart, and the members keep what they keep for themselves. */
    ghost predicate Sound()
      reads this, limit, read, write, Parts(members)
    {
      && read != write && limit !in Parts(members)
      && Apart(members) && AllValid(members)
      && cfg.Ok() && minShare <= cfg.readRate && minShare <= cfg.writeRate
    }

    /** And the group keeps its invariant in both directions. */
    ghost predicate Valid()
      reads this, limit, read, write, Parts(members)
    {
      Sound() && RateGroup.Inv(View(Reading)) && RateGroup.Inv(View(Writing))
    }

    lemma NotIn(m: Limited)
      requires Sound() && m.Valid() && m.Repr() !! Parts(members)
      ensures m !in Members(members)
    {
      Outside(m, members);
    }

    lemma ValidIsSound()
      requires Valid()
      ensures Sound()
    {
    }

    lemma RulesOk(dir: Dir)
      requires Sound()
      ensures Rules(dir).Clipped() && (1 <= minShare ==> Rules(dir).Ok())
    {
    }

    /** What a step in one direction leaves alone. */
    twostate predicate Aside(dir: Dir)
      reads this, limit, Parts(members), read, write
    {
      && unchanged(`members, `cfg, `minShare)
      && View(Other(dir)) == old(View(Other(dir)))
      && limit.lastUpdated == old(limit.lastUpdated)
    }

    /** bufferevent_rate_limit_group_new */
    constructor (newCfg: Cfg, tick: tick)
      requires newCfg.Ok()
      ensures Valid() && members == [] && fresh({this, limit, read, write}) && !read.suspended && !write.suspended
      ensures cfg == newCfg && minShare == MinInt(64, MinInt(newCfg.readRate, newCfg.writeRate))
      ensures limit.View() == Level(newCfg.readRate, newCfg.writeRate, tick)
    {
      cfg, members := newCfg, [];
      limit := new Bucket(newCfg, tick);
      read := new Side();
      write := new Side();
      minShare, configuredMinShare := 0, 0;
      new;
      var r := SetMinShare(64);
    }

    /** bufferevent_rate_limit_group_set_min_share; the share is a size_t */
    method SetMinShare(share: nat) returns (r: int)
      modifies `minShare, `configuredMinShare
      ensures r == if share > SSIZE_MAX then -1 else 0
      ensures r < 0 ==> unchanged(this)
      ensures (old(Sound()) ==> Sound()) && (old(Valid()) ==> Valid())
      ensures r == 0 ==> configuredMinShare == share && minShare == MinInt(share, MinInt(cfg.readRate, cfg.writeRate))
    {
      hide Sound, View, RateGroup.Inv;
      if share > SSIZE_MAX {
        return -1;
      }
      var least := share;
      if least > cfg.readRate {
        least := cfg.readRate;
      }
      if least > cfg.writeRate {
        least := cfg.writeRate;
      }
      Keep(share, least);
      return 0;
    }

    method Keep(share: nat, least: nat)
      requires least <= cfg.readRate && least <= cfg.writeRate
      modifies `minShare, `configuredMinShare
      ensures configuredMinShare == share && minShare == least
      ensures (old(Sound()) ==> Sound()) && (old(Valid()) ==> Valid())
    {
      hide Held, Views, Members, Apart, AllValid, RateGroup.Inv, Inv;
      GroupApart(this, members);
      configuredMinShare := share;
      minShare := least;
    }

    /** The buckets' subtraction, for one direction. */
    method Lower(dir: Dir, bytes: int)
      requires Sound()
      modifies limit
      ensures Sound() && Aside(dir)
      ensures View(dir) == old(View(dir)).(limit := old(View(dir)).limit - bytes)
    {
      hide Held, AllValid, Apart, Views, Members;
      limit.Decrement(dir, bytes);
    }

    /** bev_group_suspend_reading_ and bev_group_suspend_writing_ */
    method Suspend(dir: Dir, free: seq<bool>)
      requires Sound() && |free| == |members|
      modifies Of(dir), Ways(members, dir)
      ensures Sound() && Aside(dir) && unchanged(limit)
      ensures View(dir) == RateGroup.SuspendAll(old(View(dir)), Free(members, free))
      ensures Views(members, dir) == Marked(old(Views(members, dir)), free, true)
    {
      hide Held, Free, Marked, Apart, AllValid, Views, Members, RateGroup.Order;
      SideApart(Of(dir), members);
      WaysApart(members);
      Of(dir).suspended := true;
      Of(dir).pending := false;
      SuspendMembers(members, dir, free);
    }

    /** bev_group_unsuspend_reading_ and bev_group_unsuspend_writing_ */
    method Unsuspend(dir: Dir, free: seq<bool>, first: nat) returns (order: seq<nat>)
      requires Sound() && |free| == |members| && (first < |members| || first == |members| == 0)
      modifies Of(dir), Ways(members, dir)
      ensures Sound() && Aside(dir) && unchanged(limit)
      ensures View(dir) == RateGroup.UnsuspendAll(old(View(dir)), Free(members, free))
      ensures Views(members, dir) == Marked(old(Views(members, dir)), free, false)
      ensures order == RateGroup.Order(|members|, first)
    {
      hide Held, Free, Marked, Apart, AllValid, Views, Members, RateGroup.Order;
      SideApart(Of(dir), members);
      WaysApart(members);
      Of(dir).suspended := false;
      var again;
      again, order := UnsuspendMembers(members, dir, free, first);
      Of(dir).pending := again;
    }

    /** One direction of bev_group_refill_callback_, after the update */
    method Release(dir: Dir, free: seq<bool>, first: nat)
      requires Sound() && |free| == |members| && (first < |members| || first == |members| == 0)
      modifies Of(dir), Ways(members, dir)
      ensures Sound() && Aside(dir) && unchanged(limit)
      ensures View(dir) == var g := old(View(dir));
        if g.pending || (g.suspended && g.limit >= minShare) then RateGroup.UnsuspendAll(g, Free(members, free)) else g
    {
      hide Held, Free, Sound, Views;
      if Of(dir).pending || (Of(dir).suspended && limit.View().Limit(dir) >= minShare) {
        var order := Unsuspend(dir, free, first);
      }
    }

    /** bev_group_refill_callback_ */
    method RefillCallback(tick: tick, freeRead: seq<bool>, firstRead: nat, freeWrite: seq<bool>, firstWrite: nat)
      requires Sound() && |freeRead| == |freeWrite| == |members|
      requires firstRead < |members| || firstRead == |members| == 0
      requires firstWrite < |members| || firstWrite == |members| == 0
      modifies limit, read, write, Ways(members, Reading), Ways(members, Writing)
      ensures Sound() && limit.View() == Updated(old(limit.View()), cfg, tick)
      ensures var n := Ticks(old(limit.lastUpdated), tick);
        old(Valid() && KeepsSigns(limit.View(), cfg, tick)) ==>
          (Valid() <==>
            && !RateGroup.WakesEmpty(old(View(Reading)), Rules(Reading), RateGroup.Tick(n, Free(members, freeRead)))
            && !RateGroup.WakesEmpty(old(View(Writing)), Rules(Writing), RateGroup.Tick(n, Free(members, freeWrite))))
      ensures var n := Ticks(old(limit.lastUpdated), tick);
        && View(Reading) == RateGroup.Ticked(old(View(Reading)), Rules(Reading), n, Free(members, freeRead))
        && View(Writing) == RateGroup.Ticked(old(View(Writing)), Rules(Writing), n, Free(members, freeWrite))
    {
      hide Sound, View, Rules, Free, RateGroup.Inv, RateGroup.WakesEmpty, RateGroup.Ticked, KeepsSigns;
      if Valid() && KeepsSigns(limit.View(), cfg, tick) {
        TickKeeps(Reading, tick, Free(members, freeRead));
        TickKeeps(Writing, tick, Free(members, freeWrite));
      }
      RefillBoth(tick, freeRead, firstRead, freeWrite, firstWrite);
    }

    lemma TickKeeps(dir: Dir, tick: tick, free: set<Limited>)
      requires Sound() && RateGroup.Inv(View(dir)) && KeepsSigns(limit.View(), cfg, tick)
      ensures var n := Ticks(limit.lastUpdated, tick);
        RateGroup.Inv(RateGroup.Ticked(View(dir), Rules(dir), n, free)) <==>
          !RateGroup.WakesEmpty(View(dir), Rules(dir), RateGroup.Tick(n, free))
    {
      hide Held, Apart, AllValid, Views, RateGroup.Inv, Refill, KeepsSign;
      RulesOk(dir);
      RateGroup.StepKeeps(View(dir), Rules(dir), RateGroup.Tick(Ticks(limit.lastUpdated, tick), free));
    }

    /** The update and both releases */
    method RefillBoth(tick: tick, freeRead: seq<bool>, firstRead: nat, freeWrite: seq<bool>, firstWrite: nat)
      requires Sound() && |freeRead| == |freeWrite| == |members|
      requires firstRead < |members| || firstRead == |members| == 0
      requires firstWrite < |members| || firstWrite == |members| == 0
      modifies limit, read, write, Ways(members, Reading), Ways(members, Writing)
      ensures Sound() && limit.View() == Updated(old(limit.View()), cfg, tick)
      ensures var n := Ticks(old(limit.lastUpdated), tick);
        && View(Reading) == RateGroup.Ticked(old(View(Reading)), Rules(Reading), n, Free(members, freeRead))
        && View(Writing) == RateGroup.Ticked(old(View(Writing)), Rules(Writing), n, Free(members, freeWrite))
    {
      hide Held, Free, Apart, AllValid, Views, Refill;
      Update(tick);
      Release(Reading, freeRead, firstRead);
      Release(Writing, freeWrite, firstWrite);
    }

    /** The group's part of the update: both directions of its bucket. */
    method Update(tick: tick)
      requires Sound()
      modifies limit
      ensures Sound() && limit.View() == Updated(old(limit.View()), cfg, tick)
      ensures forall dir: Dir :: View(dir) == old(View(dir)).(limit :=
        RateGroup.Refilled(old(View(dir)).limit, Rules(dir), Ticks(old(limit.lastUpdated), tick)))
    {
      hide Held, Free, Apart, AllValid, Views, Refill;
      var moved := limit.Update(cfg, tick);
    }

    /** bufferevent_rate_limit_group_decrement_read and bufferevent_rate_limit_group_decrement_write */
    method Decrement(dir: Dir, amount: int, free: seq<bool>, first: nat)
      requires Sound() && |free| == |members| && (first < |members| || first == |members| == 0)
      requires SSIZE_MIN <= limit.View().Limit(dir) - amount <= SSIZE_MAX
      modifies limit, Of(dir), Ways(members, dir)
      ensures Sound() && Aside(dir) && (old(Valid()) ==> Valid())
      ensures View(dir) == RateGroup.Decremented(old(View(dir)), amount, Free(members, free))
    {
      hide Held, Free, Sound, Views, RateGroup.Inv;
      RulesOk(dir);
      if Valid() {
        RateGroup.StepKeeps(View(dir), Rules(dir), RateGroup.Decrement(amount, Free(members, free)));
      }
      var was := limit.View().Limit(dir);
      Lower(dir, amount);
      var now := limit.View().Limit(dir);
      if was > 0 && now <= 0 {
        Suspend(dir, free);
      } else if was <= 0 && now > 0 {
        var order := Unsuspend(dir, free, first);
      }
    }

    /** The group's part of bufferevent_decrement_read_buckets_ and its write twin */
    method ChargeGroup(dir: Dir, bytes: nat, free: seq<bool>, first: nat)
      requires Sound() && |free| == |members| && (first < |members| || first == |members| == 0)
      modifies limit, Of(dir), Ways(members, dir)
      ensures Sound() && Aside(dir)
      ensures View(dir) == var g := old(View(dir));
        RateGroup.Settle(g.(limit := g.limit - bytes), Free(members, free))
    {
      hide Held, Free, Sound, Views;
      Lower(dir, bytes);
      if limit.View().Limit(dir) <= 0 {
        Suspend(dir, free);
      } else if Of(dir).suspended {
        var order := Unsuspend(dir, free, first);
      }
    }

    /** A member's own part of bufferevent_get_rlim_max_ */
    method AskMember(i: nat, dir: Dir, tick: tick) returns (max: int)
      requires Sound() && i < |members| && Possible(members[i].View(), Ask(tick))
      modifies members[i].limit
      ensures Sound() && Aside(dir) && unchanged(limit) && View(dir) == old(View(dir))
      ensures members[i].View() == Step(old(members[i].View()), Ask(tick))
      ensures max == MaxInt(0, Own(members[i], dir)) && Own(members[i], dir) == old(OwnAt(members[i], dir, tick))
      ensures members[i].View().Half(dir).Runs() || members[i].cfg.None? ==> 0 < max
    {
      hide Held, Inv;
      OneApart(members, i);
      max := members[i].GetMax(dir, tick);
    }

    /** A member that finds its group suspended takes the flag. */
    method Catch(m: Limited, i: nat, dir: Dir)
      requires Sound() && i < |members| && members[i] == m
      modifies m.Of(dir)
      ensures Sound() && Aside(dir)
      ensures View(dir) == old(View(dir)).(held := old(View(dir)).held + {m})
      ensures m.View() == old(m.View()).Suspended(dir, GroupBandwidth)
    {
      hide Held, AllValid, Apart, Members, Inv, Once;
      WaysApart(members);
      HeldOnce(members, Views(members, dir), i);
      OnceAt(Views(members, dir), i);
      SuspendOne(members, dir, true, i);
    }

    lemma Listed(m: Limited, i: nat, dir: Dir)
      requires Sound() && i < |members| && members[i] == m
      ensures Inv(m.View()) && m in View(dir).members
      ensures m in View(dir).held ==> GroupBandwidth in m.Of(dir).suspended
    {
      hide Inv;
      assert m.Valid();
      if m in View(dir).held {
        var k :| 0 <= k < |members| && GroupBandwidth in Views(members, dir)[k].suspended && members[k] == m;
      }
    }

    lemma ShareIs(dir: Dir)
      requires Sound() && members != [] && !Of(dir).suspended
      ensures RateGroup.Share(View(dir), Rules(dir))
        == MaxInt(RateGroup.Truncated(limit.View().Limit(dir), |members|), minShare)
    {
      hide AllValid, Apart, Inv, Held, Members;
      MembersCount(members);
    }

    /** bufferevent_get_rlim_max_ */
    method GetMax(m: Limited, i: nat, dir: Dir, tick: tick) returns (max: int)
      requires Sound() && i < |members| && members[i] == m && Possible(m.View(), Ask(tick))
      modifies m.limit, m.Of(dir)
      ensures Sound() && Aside(dir)
      ensures m.View() == var s := Step(old(m.View()), Ask(tick));
        if old(Of(dir).suspended) then s.Suspended(dir, GroupBandwidth) else s
      ensures Own(m, dir) == old(OwnAt(m, dir, tick))
      ensures m.cfg.None? || m.View().Half(dir).Runs() ==> 0 < Own(m, dir)
      ensures old(Of(dir).suspended) ==>
        max == 0 && View(dir) == old(View(dir)).(held := old(View(dir)).held + {m})
      ensures !old(Of(dir).suspended) ==>
        max == MaxInt(0, MinInt(Own(m, dir), RateGroup.Share(View(dir), Rules(dir)))) && View(dir) == old(View(dir))
      ensures !old(Of(dir).suspended) ==>
        exists share: int :: RateGroup.Divides(share, old(limit.View().Limit(dir)), |members|, minShare)
          && max <= share && max <= MaxInt(0, Own(m, dir)) && (max == share || max == MaxInt(0, Own(m, dir)))
    {
      hide Held, Views, Members, Sound, RateGroup.Share;
      var share;
      max := AskMember(i, dir, tick);
      if Of(dir).suspended {
        Catch(m, i, dir);
        share := 0;
      } else {
        ShareIs(dir);
        share := RateGroup.Truncated(limit.View().Limit(dir), |members|);
        if share < minShare {
          share := minShare;
        }
      }
      if max > share {
        max := share;
      }
      if max < 0 {
        max := 0;
      }
      assert !old(Of(dir).suspended) ==> RateGroup.Divides(share, old(limit.View().Limit(dir)), |members|, minShare) by {
        if !old(Of(dir).suspended) {
          SharesOut(dir);
        }
      }
    }

    /**
     Every member asks in turn, and none reads: together they are let no more than there is, unless the
     least share alone comes to more.
     */
    method AskAll(dir: Dir, tick: tick) returns (offers: seq<nat>)
      requires Sound() && !Of(dir).suspended
      requires forall k :: 0 <= k < |members| ==> Possible(members[k].View(), Ask(tick))
      modifies set m | m in members :: m.limit, Ways(members, dir)
      ensures Sound() && |offers| == |members| && View(dir) == old(View(dir))
      ensures Total(offers) <= MaxInt(0, MaxInt(limit.View().Limit(dir), |members| * minShare))
    {
      hide Sound, RateGroup.Share, RateGroup.Divides, View, Limited.View, Rules;
      offers := [];
      ghost var share := 0;
      if members != [] {
        share := RateGroup.Share(View(dir), Rules(dir));
        SharesOut(dir);
      }
      for i := 0 to |members|
        invariant Sound() && View(dir) == old(View(dir)) && unchanged(limit) && !Of(dir).suspended
        invariant forall k :: i <= k < |members| ==> Possible(members[k].View(), Ask(tick))
        invariant |offers| == i && forall k :: 0 <= k < i ==> offers[k] <= MaxInt(0, share)
      {
        var offer := AskNext(i, dir, tick);
        offers := offers + [offer];
      }
      TotalAtMost(offers, MaxInt(0, share));
      if members != [] {
        WithinAll(share, limit.View().Limit(dir), |members|, minShare);
      }
    }

    /** The next one asks, and those behind it still can. */
    method AskNext(i: nat, dir: Dir, tick: tick) returns (offer: nat)
      requires Sound() && !Of(dir).suspended && i < |members|
      requires forall k :: i <= k < |members| ==> Possible(members[k].View(), Ask(tick))
      modifies members[i].limit, members[i].Of(dir)
      ensures Sound() && View(dir) == old(View(dir)) && unchanged(limit) && !Of(dir).suspended
      ensures forall k :: i < k < |members| ==> Possible(members[k].View(), Ask(tick))
      ensures offer <= MaxInt(0, RateGroup.Share(old(View(dir)), Rules(dir)))
    {
      hide Held, Views, Members, Sound, RateGroup.Share, RateGroup.Divides, Possible, Apart;
      NextApart(i, dir);
      offer := GetMax(members[i], i, dir, tick);
    }

    /** What one member's ask changes is none of the others'. */
    lemma NextApart(i: nat, dir: Dir)
      requires Sound() && i < |members|
      ensures members[i].limit != limit && members[i].Of(dir) in Ways(members, dir)
      ensures forall k :: i < k < |members| ==>
        members[i].limit !in members[k].Repr() && members[i].Of(dir) !in members[k].Repr()
    {
      PartsOf(members, i);
    }

    lemma SharesOut(dir: Dir)
      requires Sound() && members != [] && !Of(dir).suspended
      ensures RateGroup.Divides(RateGroup.Share(View(dir), Rules(dir)), limit.View().Limit(dir), |members|, minShare)
    {
      hide AllValid, Apart, Inv, Held, RateGroup.Share, RateGroup.Divides;
      MembersCount(members);
      RateGroup.ShareDivides(View(dir), Rules(dir));
    }

    /** A member's own part of bufferevent_decrement_read_buckets_ and its write twin */
    method ChargeMember(m: Limited, i: nat, dir: Dir, bytes: int)
      requires Sound() && i < |members| && members[i] == m && Possible(m.View(), Charge(dir, bytes))
      modifies m`refillArmed, m.limit, m.Of(dir)
      ensures Sound() && Aside(dir) && unchanged(limit) && View(dir) == old(View(dir))
      ensures m.View() == Step(old(m.View()), Charge(dir, bytes))
    {
      hide Held, AllValid, Apart, SameFlags, Views;
      ghost var r, w := Views(members, Reading), Views(members, Writing);
      ChargeOne(m, members, i, dir, bytes);
      HeldSame(members, r, Views(members, Reading));
      HeldSame(members, w, Views(members, Writing));
    }

    /** bufferevent_disable of a member */
    method DisableMember(m: Limited, i: nat, dir: Dir)
      requires Sound() && i < |members| && members[i] == m
      modifies m.Of(dir)
      ensures Sound() && Aside(dir) && unchanged(limit) && View(dir) == old(View(dir))
      ensures m.View() == Disabled(old(m.View()), dir)
    {
      hide Held, AllValid, Apart, SameFlags, Views;
      ghost var vs := Views(members, dir);
      WaysApart(members);
      DisableOne(members, i, dir);
      HeldSame(members, vs, Views(members, dir));
    }

    /** LIST_INSERT_HEAD */
    method Insert(m: Limited)
      requires Sound() && m.Valid() && m.Repr() !! Parts(members) && m.limit != limit
      requires GroupBandwidth !in m.read.suspended && GroupBandwidth !in m.write.suspended
      modifies `members, m`rateLimiting
      ensures Sound() && members == [m] + old(members) && m.View() == old(m.View()).(limiting := true)
      ensures forall dir: Dir :: View(dir) == old(View(dir)).(members := old(View(dir)).members + {m})
    {
      hide Held, Views, AllValid, Members, Apart, Parts, Ways, Inv;
      WaysApart(members);
      LimitingKeeps(m.View());
      m.rateLimiting := true;
      Outside(m, members);
      PartsJoin(m, members, limit);
      Joined(m, members, Reading);
      Joined(m, members, Writing);
      GroupApart(this, [m] + members);
      WaysApart([m] + members);
      members := [m] + members;
    }

    /** bufferevent_add_to_rate_limit_group, for a bufferevent that is in no group */
    method Add(m: Limited)
      requires Sound() && m.Valid() && m.Repr() !! Parts(members) && m.limit != limit
      requires GroupBandwidth !in m.read.suspended && GroupBandwidth !in m.write.suspended
      modifies `members, m`rateLimiting, m.read, m.write
      ensures Sound() && members == [m] + old(members) && (old(Valid()) ==> Valid())
      ensures View(Reading) == RateGroup.Step(old(View(Reading)), Rules(Reading), RateGroup.Join(m))
      ensures View(Writing) == RateGroup.Step(old(View(Writing)), Rules(Writing), RateGroup.Join(m))
      ensures m.View() == Welcomed(old(m.View()), read.suspended, write.suspended)
    {
      hide Sound, View, Rules, RateGroup.Inv, RateGroup.Step, Welcomed, Limited.Valid, Limited.View;
      if Valid() {
        JoinKeeps(m, Reading);
        JoinKeeps(m, Writing);
      }
      Join(m);
    }

    lemma JoinKeeps(m: Limited, dir: Dir)
      requires Sound() && m.Valid() && m.Repr() !! Parts(members) && RateGroup.Inv(View(dir))
      ensures RateGroup.Inv(RateGroup.Step(View(dir), Rules(dir), RateGroup.Join(m)))
    {
      hide Held, Views, Members, Sound, RateGroup.Inv, Limited.Valid, Inv, Apart;
      RulesOk(dir);
      NotIn(m);
      RateGroup.StepKeeps(View(dir), Rules(dir), RateGroup.Join(m));
    }

    /** Into the list, and flagged as the group is */
    method Join(m: Limited)
      requires Sound() && m.Valid() && m.Repr() !! Parts(members) && m.limit != limit
      requires GroupBandwidth !in m.read.suspended && GroupBandwidth !in m.write.suspended
      modifies `members, m`rateLimiting, m.read, m.write
      ensures Sound() && members == [m] + old(members)
      ensures View(Reading) == RateGroup.Step(old(View(Reading)), Rules(Reading), RateGroup.Join(m))
      ensures View(Writing) == RateGroup.Step(old(View(Writing)), Rules(Writing), RateGroup.Join(m))
      ensures m.View() == Welcomed(old(m.View()), read.suspended, write.suspended)
    {
      hide Held, Views, Members, Sound, State.Suspended, Limited.Valid, Inv, Apart;
      Insert(m);
      if read.suspended {
        Catch(m, 0, Reading);
      }
      if write.suspended {
        Catch(m, 0, Writing);
      }
    }

    /** LIST_REMOVE */
    method Delist(m: Limited, i: nat)
      requires Sound() && i < |members| && members[i] == m
      modifies `members
      ensures Sound() && members == Without(old(members), i) && m.Valid() && m.Repr() !! Parts(members)
      ensures forall dir: Dir :: View(dir) == old(View(dir)).(members := old(View(dir)).members - {m},
                                                              held := old(View(dir)).held - {m})
    {
      hide Held, Views, AllValid, Members, Apart, Inv, Limited.Valid, Without, Parts, Ways;
      Left(members, i, Reading);
      Left(members, i, Writing);
      GroupApart(this, Without(members, i));
      WaysApart(Without(members, i));
      members := Without(members, i);
    }

    /** The flags of somebody else are no concern of the group. */
    method Depart(m: Limited)
      requires Sound() && m.Valid() && m.Repr() !! Parts(members)
      modifies m.read, m.write
      ensures Sound() && m.Valid() && View(Reading) == old(View(Reading)) && View(Writing) == old(View(Writing))
      ensures m.View() == old(m.View()).Unsuspended(Reading, GroupBandwidth).Unsuspended(Writing, GroupBandwidth)
    {
      hide Held, Views, Members, Limited.Valid, Inv, Apart, AllValid, State.Unsuspended;
      ClearFlags(m);
    }

    /** bufferevent_remove_from_rate_limit_group */
    method Remove(m: Limited, i: nat)
      requires Sound() && i < |members| && members[i] == m
      modifies `members, m.read, m.write
      ensures Sound() && members == Without(old(members), i) && (old(Valid()) ==> Valid())
      ensures m.Valid() && m.Repr() !! Parts(members)
      ensures m.View() == old(m.View()).Unsuspended(Reading, GroupBandwidth).Unsuspended(Writing, GroupBandwidth)
      ensures View(Reading) == RateGroup.Step(old(View(Reading)), Rules(Reading), RateGroup.Leave(m))
      ensures View(Writing) == RateGroup.Step(old(View(Writing)), Rules(Writing), RateGroup.Leave(m))
    {
      hide Held, Views, Members, Sound, Limited.Valid, RateGroup.Inv, Without, Apart, State.Unsuspended, Parts, Ways, Inv;
      RulesOk(Reading);
      RulesOk(Writing);
      Listed(m, i, Reading);
      Listed(m, i, Writing);
      if Valid() {
        RateGroup.StepKeeps(View(Reading), Rules(Reading), RateGroup.Leave(m));
        RateGroup.StepKeeps(View(Writing), Rules(Writing), RateGroup.Leave(m));
      }
      Delist(m, i);
      Depart(m);
    }

    /** bufferevent_decrement_read_buckets_ and bufferevent_decrement_write_buckets_ */
    method DecrementBuckets(m: Limited, i: nat, dir: Dir, bytes: nat, free: seq<bool>, first: nat)
      requires Sound() && i < |members| && members[i] == m && Possible(m.View(), Charge(dir, bytes))
      requires |free| == |members| && first < |members|
      modifies m`refillArmed, m.limit, limit, Of(dir), Ways(members, dir)
      ensures Sound() && Aside(dir)
      ensures m.limit.View() == old(Charged(m.View(), dir, bytes).level)
      ensures m.refillArmed == old(Charged(m.View(), dir, bytes).armed)
      ensures View(dir) == var g := old(View(dir));
        RateGroup.Settle(g.(limit := g.limit - bytes), Free(members, free))
    {
      hide Held, Views, Members, Sound, Free, RateGroup.Settle;
      ApartBuckets(m, i, dir);
      ChargeMember(m, i, dir, bytes);
      ChargeGroup(dir, bytes, free, first);
    }

    lemma ApartBuckets(m: Limited, i: nat, dir: Dir)
      requires Sound() && i < |members| && members[i] == m
      ensures m.limit != limit && m.limit !in Ways(members, dir)
    {
      PartsOf(members, i);
    }

    /** The watermark's own suspend, for a member: bufferevent_wm_suspend_read */
    method Fill(m: Limited, i: nat)
      requires Sound() && i < |members| && members[i] == m
      modifies m.read
      ensures Sound() && Aside(Reading) && unchanged(limit) && View(Reading) == old(View(Reading))
      ensures m.View() == old(m.View()).Suspended(Reading, Watermark)
    {
      hide Held, AllValid, Apart, SameFlags, Views;
      ghost var vs := Views(members, Reading);
      WaysApart(members);
      FillOne(members, i);
      HeldSame(members, vs, Views(members, Reading));
    }

    /** What bytes that a member has read cost it and the group */
    method Pay(m: Limited, i: nat, bytes: nat, free: seq<bool>, first: nat)
      requires Sound() && i < |members| && members[i] == m && m.read.suspended == {} && !read.suspended
      requires 0 < bytes <= RateGroup.Share(View(Reading), Rules(Reading))
      requires m.cfg.Some? ==> bytes <= m.limit.View().Limit(Reading)
      requires |free| == |members| && first < |members|
      modifies m`refillArmed, m.limit, limit, read, Ways(members, Reading)
      ensures Sound() && Aside(Reading) && (old(Valid()) ==> Valid())
      ensures RateGroup.Possible(old(View(Reading)), Rules(Reading), RateGroup.Read(m, bytes, Free(members, free)))
      ensures View(Reading) == RateGroup.ReadBy(old(View(Reading)), m, bytes, Free(members, free))
      ensures m.limit.View() == old(Charged(m.View(), Reading, bytes).level)
      ensures m.refillArmed == old(Charged(m.View(), Reading, bytes).armed)
    {
      hide Held, Views, Members, Sound, RateGroup.Share, RateGroup.Inv, RateGroup.Settle, Inv, Charged, Limited.Valid;
      Listed(m, i, Reading);
      Unfold(m.View());
      if Valid() {
        RulesOk(Reading);
        RateGroup.StepKeeps(View(Reading), Rules(Reading), RateGroup.Read(m, bytes, Free(members, free)));
      }
      DecrementBuckets(m, i, Reading, bytes, free, first);
    }

    /** The read of bufferevent_readcb for a member that is let, and what comes of it */
    method Receive(m: Limited, i: nat, howmuch: nat, startable: bool, waiting: int, arriving: int, error: SocketError,
                   free: seq<bool>, first: nat) returns (outcome: Outcome, asked: int)
      requires Sound() && i < |members| && members[i] == m && m.read.suspended == {} && !read.suspended
      requires howmuch <= RateGroup.Share(View(Reading), Rules(Reading))
      requires m.cfg.Some? ==> howmuch <= m.limit.View().Limit(Reading)
      requires |free| == |members| && first < |members|
      modifies m`refillArmed, m`connectionRefused, m.limit, limit, read, Ways(members, Reading)
      ensures Sound() && Aside(Reading) && (old(Valid()) ==> Valid())
      ensures Touched(outcome) && asked == ReadSize(ToInt(howmuch), waiting)
      ensures Ends(outcome, asked, startable, arriving, error)
      ensures m.connectionRefused == (old(m.connectionRefused) || outcome.Refused?)
      ensures OneRead(old(View(Reading)), View(Reading), Rules(Reading), m, outcome, Free(members, free))
      ensures Paid(m.View(), Ended(old(m.View()), outcome), outcome)
    {
      hide Held, Views, Members, Sound, View, RateGroup.Share, RateGroup.Inv, Inv, Updated, ReadSize, ToInt, Limited.Valid;
      hide Charged, Disabled, RateGroup.ReadBy, RateGroup.Possible;
      MayAsk(m, i, Free(members, free));
      Nothing(m, free);
      CastKeepsAllowance(howmuch, waiting);
      asked := ReadSize(ToInt(howmuch), waiting);
      if asked == 0 && !startable {
        return Aborted, asked;
      }
      var res := if arriving < asked then arriving else asked;
      if res < 0 && error.WouldBlock? {
        return Retry, asked;
      }
      if res < 0 && error.ConnectionRefused? {
        Refuse(m, i);
        return Refused, asked;
      }
      if res <= 0 {
        DisableMember(m, i, Reading);
        return Failed, asked;
      }
      Pay(m, i, res, free, first);
      return Moved(res), asked;
    }

    method Refuse(m: Limited, i: nat)
      requires Sound() && i < |members| && members[i] == m
      modifies m`connectionRefused
      ensures Sound() && Aside(Reading) && unchanged(limit) && View(Reading) == old(View(Reading))
      ensures m.connectionRefused && m.View() == old(m.View())
    {
      hide Held, Apart, Members, Inv;
      m.connectionRefused := true;
    }

    lemma MayAsk(m: Limited, i: nat, free: set<Limited>)
      requires Sound() && i < |members| && members[i] == m
      ensures RateGroup.Possible(View(Reading), Rules(Reading), RateGroup.Read(m, 0, free))
    {
      hide Held, Views, Members, Sound, RateGroup.Share;
      Listed(m, i, Reading);
      RateGroup.ShareNat(View(Reading), Rules(Reading));
    }

    /** A member that reads nothing changes nothing, but for the flag it may have missed. */
    lemma Nothing(m: Limited, free: seq<bool>)
      requires |free| == |members|
      ensures View(Reading).suspended == read.suspended
      ensures var g := View(Reading);
        RateGroup.ReadBy(g, m, 0, Free(members, free)) == if read.suspended then g.(held := g.held + {m}) else g
    {
    }

    /** What a member may read, of what it wishes to: less than 0 for as much as it may */
    method Allowance(m: Limited, i: nat, wish: int, tick: tick) returns (howmuch: int)
      requires Sound() && i < |members| && members[i] == m && m.View().read.pending && Possible(m.View(), Ask(tick))
      requires wish != 0
      modifies m.limit, m.read
      ensures Sound() && Aside(Reading) && (old(Valid()) ==> Valid())
      ensures var a := Asked(old(m.View()), tick);
        m.View() == if read.suspended then a.Suspended(Reading, GroupBandwidth) else a
      ensures read.suspended ==>
        m.read.suspended != {} && View(Reading) == old(View(Reading)).(held := old(View(Reading)).held + {m})
      ensures !read.suspended ==>
        var share := RateGroup.Share(old(View(Reading)), Rules(Reading));
        var most := MinInt(old(OwnAt(m, Reading, tick)), share);
        && m.read.suspended == {} && View(Reading) == old(View(Reading))
        && 0 <= howmuch == (if wish < 0 then most else MinInt(most, wish)) && (howmuch == 0 <==> share == 0)
        && (m.cfg.Some? ==> howmuch <= m.limit.View().Limit(Reading))
    {
      hide Held, Views, Members, Sound, RateGroup.Share, RateGroup.Inv, Inv, Updated, Limited.Valid;
      MayAsk(m, i, {});
      Listed(m, i, Reading);
      Unfold(m.View());
      if Valid() {
        RulesOk(Reading);
        RateGroup.StepKeeps(View(Reading), Rules(Reading), RateGroup.Read(m, 0, {}));
      }
      var readmax := GetMax(m, i, Reading, tick);
      howmuch := if wish < 0 || wish > readmax then readmax else wish;
    }

    /** The part of bufferevent_readcb behind the timeout and the watermark; wish is as in Allowance */
    method Attempt(m: Limited, i: nat, wish: int, startable: bool, waiting: int, arriving: int,
                   error: SocketError, tick: tick, free: seq<bool>, first: nat) returns (outcome: Outcome, asked: int)
      requires Sound() && i < |members| && members[i] == m && m.View().read.pending && Possible(m.View(), Ask(tick))
      requires |free| == |members| && first < |members| && wish != 0
      modifies m`refillArmed, m`connectionRefused, m.limit, limit, read, Ways(members, Reading)
      ensures Sound() && Aside(Reading) && (old(Valid()) ==> Valid())
      ensures if old(read.suspended) then outcome.Suspended? else Touched(outcome)
      ensures OneRead(old(View(Reading)), View(Reading), Rules(Reading), m, outcome, Free(members, free))
      ensures Touched(outcome) ==>
        && Let(old(OwnAt(m, Reading, tick)), RateGroup.Share(old(View(Reading)), Rules(Reading)), wish, waiting, asked)
        && Ends(outcome, asked, startable, arriving, error)
        && Paid(m.View(), Ended(Asked(old(m.View()), tick), outcome), outcome)
      ensures outcome.Suspended? ==> m.View() == Asked(old(m.View()), tick).Suspended(Reading, GroupBandwidth)
      ensures m.connectionRefused == (old(m.connectionRefused) || outcome.Refused?)
    {
      hide Held, Views, Members, Sound, View, RateGroup.Share, RateGroup.Inv, Inv, Updated, ReadSize, ToInt, Limited.Valid;
      hide Asked, Ends, Ended, Paid, RateGroup.Possible;
      MayAsk(m, i, Free(members, free));
      Nothing(m, free);
      assert m.Of(Reading) in Ways(members, Reading);
      var howmuch := Allowance(m, i, wish, tick);
      if m.read.suspended != {} {
        return Suspended, 0;
      }
      outcome, asked := Receive(m, i, howmuch, startable, waiting, arriving, error, free, first);
    }

    /**
     bufferevent_readcb for a member whose event went off, up to the user's callback; the parameters
     are those of Limited.ReadCallback.  The group sees it as one step; the member never goes over
     its own allowance, nor over its share, nor past its watermark, and is charged as on its own.
     */
    method ReadCallback(m: Limited, i: nat, timeout: bool, high: nat, inputLen: nat, startable: bool,
                        waiting: int, arriving: int, error: SocketError, tick: tick, free: seq<bool>, first: nat)
      returns (outcome: Outcome, asked: int)
      requires Sound() && i < |members| && members[i] == m && m.View().read.pending && Possible(m.View(), Ask(tick))
      requires |free| == |members| && first < |members|
      modifies m`refillArmed, m`connectionRefused, m.limit, limit, read, Ways(members, Reading)
      ensures Sound() && Aside(Reading) && (old(Valid()) ==> Valid())
      ensures outcome.TimedOut? <==> timeout
      ensures outcome.Full? <==> !timeout && high != 0 && high <= inputLen
      ensures outcome.Suspended? <==> !outcome.TimedOut? && !outcome.Full? && old(read.suspended)
      ensures outcome.TimedOut? || outcome.Full? || outcome.Suspended? || Touched(outcome)
      ensures outcome.TimedOut? || outcome.Full? ==> View(Reading) == old(View(Reading))
      ensures !outcome.TimedOut? && !outcome.Full? ==>
        OneRead(old(View(Reading)), View(Reading), Rules(Reading), m, outcome, Free(members, free))
      ensures Touched(outcome) ==>
        && Let(old(OwnAt(m, Reading, tick)), RateGroup.Share(old(View(Reading)), Rules(Reading)),
               if high != 0 then high - inputLen else -1, waiting, asked)
        && Ends(outcome, asked, startable, arriving, error)
        && Paid(m.View(), Ended(Asked(old(m.View()), tick), outcome), outcome)
      ensures outcome.TimedOut? ==> m.View() == Disabled(old(m.View()), Reading)
      ensures outcome.Full? ==> m.View() == old(m.View()).Suspended(Reading, Watermark)
      ensures outcome.Suspended? ==> m.View() == Asked(old(m.View()), tick).Suspended(Reading, GroupBandwidth)
      ensures m.connectionRefused == (old(m.connectionRefused) || outcome.Refused?)
    {
      hide Held, Views, Members, Sound, View, RateGroup.Share, RateGroup.Inv, Inv, Limited.Valid;
      hide Asked, Disabled, Ends, Ended, Paid, Let, OneRead;
      var howmuch := -1;
      if timeout {
        DisableMember(m, i, Reading);
        return TimedOut, 0;
      }
      if high != 0 {
        howmuch := high - inputLen;
        if howmuch <= 0 {
          assert m.Of(Reading) in Ways(members, Reading);
          Fill(m, i);
          return Full, 0;
        }
      }
      outcome, asked := Attempt(m, i, howmuch, startable, waiting, arriving, error, tick, free, first);
    }

    /** What the group is, in both directions. */
    ghost predicate Is(r: RateGroup.Group<Limited>, w: RateGroup.Group<Limited>)
      reads this, limit, read, write, Parts(members)
    {
      Sound() && View(Reading) == r && View(Writing) == w
    }

    /** A member that leaves this group is no concern of another. */
    method RemoveFrom(m: Limited, i: nat, other: Group, ghost r: RateGroup.Group<Limited>, ghost w: RateGroup.Group<Limited>)
      requires Sound() && i < |members| && members[i] == m
      requires other.Is(r, w) && other != this && m.Repr() !! Parts(other.members)
      modifies `members, m.read, m.write
      ensures Sound() && members == Without(old(members), i) && m.Valid() && m.Repr() !! Parts(members)
      ensures old(Valid()) ==> Valid()
      ensures m.View() == old(m.View()).Unsuspended(Reading, GroupBandwidth).Unsuspended(Writing, GroupBandwidth)
      ensures View(Reading) == RateGroup.Step(old(View(Reading)), Rules(Reading), RateGroup.Leave(m))
      ensures View(Writing) == RateGroup.Step(old(View(Writing)), Rules(Writing), RateGroup.Leave(m))
      ensures other.Is(r, w) && other.members == old(other.members)
    {
      hide Sound, View, Is, Limited.Valid, Apart, Without, RateGroup.Step, RateGroup.Inv, State.Unsuspended;
      Remove(m, i);
    }

    /** Nor is one that comes into this group. */
    method AddBeside(m: Limited, other: Group, ghost r: RateGroup.Group<Limited>, ghost w: RateGroup.Group<Limited>)
      requires Sound() && m.Valid() && m.Repr() !! Parts(members) && m.limit != limit
      requires GroupBandwidth !in m.read.suspended && GroupBandwidth !in m.write.suspended
      requires other.Is(r, w) && other != this && m.Repr() !! Parts(other.members)
      modifies `members, m`rateLimiting, m.read, m.write
      ensures Sound() && members == [m] + old(members) && (old(Valid()) ==> Valid())
      ensures View(Reading) == RateGroup.Step(old(View(Reading)), Rules(Reading), RateGroup.Join(m))
      ensures View(Writing) == RateGroup.Step(old(View(Writing)), Rules(Writing), RateGroup.Join(m))
      ensures other.Is(r, w) && other.members == old(other.members)
      ensures m.View() == Welcomed(old(m.View()), read.suspended, write.suspended)
    {
      hide Sound, View, Is, Limited.Valid, Limited.View, Welcomed, Apart, RateGroup.Step, RateGroup.Inv;
      Add(m);
    }

    /** bufferevent_add_to_rate_limit_group, for a bufferevent that is at `j` in this group, or in another one */
    method AddFrom(m: Limited, from: Group, j: nat)
      requires Sound() && from.Sound() && j < |from.members| && from.members[j] == m
      requires from != this ==> m.limit != limit && m.Repr() !! Parts(members)
      modifies `members, from`members, m`rateLimiting, m.read, m.write
      ensures Sound() && from.Sound() && (old(Valid() && from.Valid()) ==> Valid() && from.Valid())
      ensures from == this ==>
        members == old(members) && View(Reading) == old(View(Reading)) && View(Writing) == old(View(Writing))
      ensures m.View() == if from == this then old(m.View()) else
        var let := old(m.View()).Unsuspended(Reading, GroupBandwidth).Unsuspended(Writing, GroupBandwidth);
        Welcomed(let, read.suspended, write.suspended)
      ensures from != this ==>
        && members == [m] + old(members) && from.members == Without(old(from.members), j)
        && View(Reading) == RateGroup.Step(old(View(Reading)), Rules(Reading), RateGroup.Join(m))
        && View(Writing) == RateGroup.Step(old(View(Writing)), Rules(Writing), RateGroup.Join(m))
        && from.View(Reading) == RateGroup.Step(old(from.View(Reading)), from.Rules(Reading), RateGroup.Leave(m))
        && from.View(Writing) == RateGroup.Step(old(from.View(Writing)), from.Rules(Writing), RateGroup.Leave(m))
    {
      hide Sound, View, Limited.Valid, Limited.View, Inv, Parts, Without, RateGroup.Step, RateGroup.Inv;
      hide Welcomed, State.Unsuspended;
      if from == this {
        return;
      }
      ghost var s := m.View();
      from.RemoveFrom(m, j, this, View(Reading), View(Writing));
      LetGo(m, s);
      AddBeside(m, from, from.View(Reading), from.View(Writing));
    }
  }

  lemma LetGo(m: Limited, s: State)
    requires m.View() == s.Unsuspended(Reading, GroupBandwidth).Unsuspended(Writing, GroupBandwidth)
    ensures GroupBandwidth !in m.read.suspended && GroupBandwidth !in m.write.suspended
  {
  }

  function Total(ns: seq<nat>): nat {
    if ns == [] then 0 else Total(ns[..|ns| - 1]) + ns[|ns| - 1]
  }

  lemma {:induction false} TotalAtMost(ns: seq<nat>, most: nat)
    requires forall k :: 0 <= k < |ns| ==> ns[k] <= most
    ensures Total(ns) <= |ns| * most
  {
    if ns != [] {
      TotalAtMost(ns[..|ns| - 1], most);
      assert |ns| * most == (|ns| - 1) * most + most;
    }
  }

  lemma WithinAll(share: int, limit: int, n: nat, least: nat)
    requires RateGroup.Divides(share, limit, n, least)
    ensures n * MaxInt(0, share) <= MaxInt(0, MaxInt(limit, n * least))
  {
    MulMono(0, least, n);
  }

  method FillOne(ms: seq<Limited>, i: nat)
    requires Apart(ms) && AllValid(ms) && i < |ms|
    modifies ms[i].read
    ensures AllValid(ms)
    ensures SameFlags(old(Views(ms, Reading)), Views(ms, Reading))
    ensures ms[i].View() == old(ms[i].View()).Suspended(Reading, Watermark)
  {
    hide Inv;
    OneApart(ms, i);
    OthersApart(ms, Reading, i);
    assert ms[i].Valid();
    Unfold(ms[i].View());
    StepKeeps(ms[i].View(), RateLimit.Suspend(Reading, Watermark));
    ms[i].read.Suspend(Watermark);
    assert ms[i].View().Half(Reading) == Views(ms, Reading)[i];
  }

  method DisableOne(ms: seq<Limited>, i: nat, dir: Dir)
    requires Apart(ms) && AllValid(ms) && i < |ms|
    modifies ms[i].Of(dir)
    ensures AllValid(ms)
    ensures SameFlags(old(Views(ms, dir)), Views(ms, dir))
    ensures ms[i].View() == Step(old(ms[i].View()), RateLimit.Disable(dir))
  {
    hide Inv;
    OneApart(ms, i);
    OthersApart(ms, dir, i);
    ms[i].Disable(dir);
    assert ms[i].View().Half(dir) == Views(ms, dir)[i];
  }

  lemma LimitingKeeps(s: State)
    requires Inv(s)
    ensures Inv(s.(limiting := true))
  {
  }

  lemma GroupApart(g: Group, ms: seq<Limited>)
    ensures g !in Parts(ms)
  {
    var o: object := g;
    if o in Parts(ms) {
      var m :| m in ms && (o == m || o == m.limit || o == m.read || o == m.write);
      assert false;
    }
  }

  lemma PartsOf(ms: seq<Limited>, k: nat)
    requires k < |ms|
    ensures ms[k].Repr() <= Parts(ms)
  {
    var m := ms[k];
    assert m in ms;
    assert m.Of(Reading) in Ways(ms, Reading) && m.Of(Writing) in Ways(ms, Writing);
  }

  lemma JoinParts(m: Limited, ms: seq<Limited>)
    requires Apart(ms) && m.Repr() !! Parts(ms) && m.read != m.write
    ensures Apart([m] + ms)
  {
    hide Parts;
    forall k | 0 <= k < |ms|
      ensures ms[k].Repr() !! m.Repr()
    {
      PartsOf(ms, k);
    }
  }

  lemma Outside(m: Limited, ms: seq<Limited>)
    requires m.Valid() && Apart(ms) && m.Repr() !! Parts(ms)
    ensures m !in Members(ms) && Apart([m] + ms)
  {
    JoinParts(m, ms);
    assert m in Members(ms) ==> m as object in Parts(ms);
  }

  lemma WaysJoin(m: Limited, ms: seq<Limited>, dir: Dir)
    ensures Ways([m] + ms, dir) == Ways(ms, dir) + {m.Of(dir)}
  {
    var more := [m] + ms;
    forall x | x in ms
      ensures x in more
    {
      var k :| 0 <= k < |ms| && ms[k] == x;
      assert more[k + 1] == x;
    }
    assert more[0] == m;
  }

  lemma JoinMembers(m: Limited, ms: seq<Limited>)
    ensures Members([m] + ms) == Members(ms) + {m}
  {
  }

  lemma JoinViews(m: Limited, ms: seq<Limited>, dir: Dir)
    ensures Views([m] + ms, dir) == [m.Of(dir).View()] + Views(ms, dir)
  {
  }

  lemma JoinHeld(m: Limited, ms: seq<Limited>, v: HalfState, vs: seq<HalfState>)
    requires |vs| == |ms|
    ensures Held([m] + ms, [v] + vs) == if GroupBandwidth in v.suspended then Held(ms, vs) + {m} else Held(ms, vs)
  {
    var more, ws := [m] + ms, [v] + vs;
    forall k | 0 <= k < |ms| && GroupBandwidth in vs[k].suspended
      ensures ms[k] in Held(more, ws)
    {
      assert ws[k + 1] == vs[k] && more[k + 1] == ms[k];
    }
    if GroupBandwidth in v.suspended {
      assert ws[0] == v && more[0] == m;
    }
  }

  lemma Joined(m: Limited, ms: seq<Limited>, dir: Dir)
    requires m.Valid() && AllValid(ms)
    ensures AllValid([m] + ms)
    ensures Members([m] + ms) == Members(ms) + {m}
    ensures Held([m] + ms, Views([m] + ms, dir))
      == if GroupBandwidth in m.Of(dir).suspended then Held(ms, Views(ms, dir)) + {m} else Held(ms, Views(ms, dir))
  {
    hide Held, Views, Members, Inv;
    JoinMembers(m, ms);
    JoinViews(m, ms, dir);
    JoinHeld(m, ms, m.Of(dir).View(), Views(ms, dir));
  }

  lemma PartsJoin(m: Limited, ms: seq<Limited>, o: object)
    requires o !in m.Repr() && o !in Parts(ms)
    ensures o !in Parts([m] + ms)
  {
    WaysJoin(m, ms, Reading);
    WaysJoin(m, ms, Writing);
  }

  /** The unsuspends at the end of bufferevent_remove_from_rate_limit_group */
  method ClearFlags(m: Limited)
    requires m.Valid()
    modifies m.read, m.write
    ensures m.Valid()
    ensures m.View() == old(m.View()).Unsuspended(Reading, GroupBandwidth).Unsuspended(Writing, GroupBandwidth)
  {
    hide Inv;
    StepKeeps(m.View(), RateLimit.Unsuspend(Reading, GroupBandwidth));
    m.read.Unsuspend(GroupBandwidth);
    StepKeeps(m.View(), RateLimit.Unsuspend(Writing, GroupBandwidth));
    m.write.Unsuspend(GroupBandwidth);
  }

  /** The list without one element. */
  function Without<T>(xs: seq<T>, i: nat): seq<T>
    requires i < |xs|
  {
    xs[..i] + xs[i + 1..]
  }

  lemma WithoutAt(ms: seq<Limited>, i: nat)
    requires Apart(ms) && i < |ms|
    ensures var rest := Without(ms, i);
      && |rest| == |ms| - 1
      && (forall k :: 0 <= k < |rest| ==> rest[k] == ms[if k < i then k else k + 1])
      && (forall m :: m in rest <==> m in ms && m != ms[i])
      && (forall m :: m in rest ==> m.Repr() !! ms[i].Repr())
  {
    var rest := Without(ms, i);
    forall k | 0 <= k < |ms| && k != i
      ensures ms[k] in rest && ms[k].Repr() !! ms[i].Repr()
    {
      assert rest[if k < i then k else k - 1] == ms[k];
    }
    assert ms[i] in ms[i].Repr();
  }

  lemma LeftApart(ms: seq<Limited>, i: nat)
    requires Apart(ms) && i < |ms|
    ensures Apart(Without(ms, i))
  {
    WithoutAt(ms, i);
    hide Without;
  }

  lemma LeftParts(ms: seq<Limited>, i: nat)
    requires Apart(ms) && i < |ms|
    ensures var rest := Without(ms, i);
      && ms[i].Repr() !! Parts(rest) && Parts(rest) <= Parts(ms) && Members(rest) == Members(ms) - {ms[i]}
  {
    hide Without, Apart;
    WithoutAt(ms, i);
  }

  lemma Left(ms: seq<Limited>, i: nat, dir: Dir)
    requires Apart(ms) && AllValid(ms) && i < |ms|
    ensures var rest, m := Without(ms, i), ms[i];
      && Apart(rest) && AllValid(rest) && m.Valid() && m.Repr() !! Parts(rest) && Parts(rest) <= Parts(ms)
      && Members(rest) == Members(ms) - {m}
      && Held(rest, Views(rest, dir)) == Held(ms, Views(ms, dir)) - {m}
  {
    hide Inv, Apart, Held, Parts, Members, Limited.Valid;
    LeftApart(ms, i);
    LeftParts(ms, i);
    WithoutAt(ms, i);
    LeftHeld(ms, Views(ms, dir), i);
    assert Views(Without(ms, i), dir) == Without(Views(ms, dir), i);
  }

  lemma LeftHeld(ms: seq<Limited>, vs: seq<HalfState>, i: nat)
    requires Apart(ms) && |vs| == |ms| && i < |ms|
    ensures |Without(vs, i)| == |Without(ms, i)| && Held(Without(ms, i), Without(vs, i)) == Held(ms, vs) - {ms[i]}
  {
    var rest, ws := Without(ms, i), Without(vs, i);
    forall k | 0 <= k < |ms| && k != i
      ensures ms[k] != ms[i] && (GroupBandwidth in vs[k].suspended ==> ms[k] in Held(rest, ws))
    {
      var j := if k < i then k else k - 1;
      assert rest[j] == ms[k] && ws[j] == vs[k];
    }
  }

  /** No member is listed twice. */
  lemma {:induction false} MembersCount(ms: seq<Limited>)
    requires Apart(ms)
    ensures |Members(ms)| == |ms|
  {
    if ms != [] {
      var last := |ms| - 1;
      MembersCount(ms[..last]);
      assert ms[last] !in Members(ms[..last]);
      assert Members(ms) == Members(ms[..last]) + {ms[last]};
    } else {
      assert Members(ms) == {};
    }
  }

  lemma HeldOnce(ms: seq<Limited>, vs: seq<HalfState>, i: nat)
    requires |vs| == |ms| && i < |ms| && Apart(ms)
    ensures Held(ms, Once(vs, true, true, i)) == Held(ms, vs) + {ms[i]}
  {
    var ws := Once(vs, true, true, i);
    forall k | 0 <= k < |ms|
      ensures GroupBandwidth in ws[k].suspended <==> k == i || GroupBandwidth in vs[k].suspended
    {
    }
    assert ms[i] in Held(ms, ws);
  }

  lemma OnceAt(vs: seq<HalfState>, i: nat)
    requires i < |vs|
    ensures Once(vs, true, true, i)[i] == Flagged(vs[i], true)
  {
  }

  method ChargeOne(m: Limited, ms: seq<Limited>, i: nat, dir: Dir, bytes: int)
    requires Apart(ms) && AllValid(ms) && i < |ms| && ms[i] == m && Possible(m.View(), Charge(dir, bytes))
    modifies m`refillArmed, m.limit, m.Of(dir)
    ensures AllValid(ms)
    ensures SameFlags(old(Views(ms, Reading)), Views(ms, Reading)) && SameFlags(old(Views(ms, Writing)), Views(ms, Writing))
    ensures m.View() == Step(old(m.View()), Charge(dir, bytes))
  {
    hide Inv, Charged;
    OneApart(ms, i);
    ghost var was := m.View();
    FlagUnmoved(was, dir, bytes);
    assert was.Half(Reading) == Views(ms, Reading)[i] && was.Half(Writing) == Views(ms, Writing)[i];
    m.DecrementBuckets(dir, bytes);
    ghost var now := m.View();
    assert now.Half(Reading) == Views(ms, Reading)[i] && now.Half(Writing) == Views(ms, Writing)[i];
  }

  /** Nobody gained or lost the group flag. */
  predicate SameFlags(vs: seq<HalfState>, ws: seq<HalfState>) {
    |vs| == |ws| && forall k :: 0 <= k < |vs| ==> (GroupBandwidth in vs[k].suspended <==> GroupBandwidth in ws[k].suspended)
  }

  lemma OneApart(ms: seq<Limited>, i: nat)
    requires Apart(ms) && i < |ms|
    ensures forall k :: 0 <= k < |ms| && k != i ==> ms[k].Repr() !! ms[i].Repr()
  {
  }

  lemma FlagUnmoved(s: State, dir: Dir, bytes: int)
    ensures forall d: Dir ::
      (GroupBandwidth in Charged(s, dir, bytes).Half(d).suspended <==> GroupBandwidth in s.Half(d).suspended)
  {
  }

  lemma HeldSame(ms: seq<Limited>, vs: seq<HalfState>, ws: seq<HalfState>)
    requires |ms| == |vs| == |ws| && SameFlags(vs, ws)
    ensures Held(ms, vs) == Held(ms, ws)
  {
  }

  method NewReader() returns (m: Limited)
    ensures fresh(m.Repr()) && m.Valid() && m.cfg.None?
    ensures m.View().read.pending && m.read.suspended == m.write.suspended == {}
  {
    m := new Limited();
    m.Enable(Reading);
  }

  /** A new bufferevent that reads, added to a running group. */
  method Newcomer(g: Group) returns (m: Limited)
    requires g.Valid() && !g.read.suspended && !g.write.suspended
    modifies g`members
    ensures g.Valid() && g.members == [m] + old(g.members) && fresh(m.Repr())
    ensures m.View().read.pending && m.cfg.None?
  {
    hide Group.Sound, Group.Valid, Group.View, Apart, AllValid, RateGroup.Step, Inv, Limited.Valid;
    hide Limited.View, Welcomed;
    ghost var known := Parts(g.members);
    g.ValidIsSound();
    m := NewReader();
    assert known !! m.Repr();
    WelcomedFree(m.View());
    g.Add(m);
  }

  /** Where the group runs a new member is as it was. */
  lemma WelcomedFree(s: State)
    ensures Welcomed(s, false, false) == s.(limiting := true)
  {
  }

  /**
   Two members, a limit of one byte and a least share of 0: a read that could have 100 bytes asks for
   nothing and the bufferevent takes it for the end of the stream, or does not come that far.
   */
  method ShareStarves(startable: bool) returns (outcome: Outcome)
    ensures outcome == if startable then Failed else Aborted
  {
    hide Group.Sound, Group.Valid, Group.View, Inv, Updated, Ended, Paid, OneRead, RateGroup.Share;
    var g := new Group(Cfg(0, 1, 1, 1, 1), 0);
    var r := g.SetMinShare(0);
    var b := Newcomer(g);
    var a := Newcomer(g);
    StarvedShare(g);
    g.ValidIsSound();
    var asked;
    outcome, asked := g.ReadCallback(a, 0, false, 0, 0, startable, 100, 100, OtherError, 0, [true, true], 0);
  }

  lemma StarvedShare(g: Group)
    requires g.Valid() && |g.members| == 2 && g.minShare == 0 && !g.read.suspended && g.limit.View().read == 1
    ensures RateGroup.Share(g.View(Reading), g.Rules(Reading)) == 0
  {
    hide Held, Views, Inv;
    MembersCount(g.members);
    RateGroup.ShareOfNothing(g.View(Reading), g.Rules(Reading));
  }
}
