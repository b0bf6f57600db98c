/** The socket bufferevent: its fields, the methods that update them, and its two event callbacks. */
module SocketBufferevents {

  import opened Options
  import opened TokenBucket
  import opened RateLimit

  /** One direction of a bufferevent. */
  class Half {
    var suspended: set<Flag>
    var enabled: bool
    var pending: bool

    function View(): HalfState
      reads this
    {
      HalfState(suspended, enabled, pending)
    }

    constructor (enable: bool)
      ensures View() == HalfState({}, enable, false)
    {
      suspended, enabled, pending := {}, enable, false;
    }

    /** bufferevent_suspend_read_ and bufferevent_suspend_write_ */
    method Suspend(what: Flag)
      requires View().Quiet()
      modifies this
      ensures View() == old(View()).Suspended(what)
    {
      if suspended == {} {
        pending := false;
      }
      suspended := suspended + {what};
    }

    /** bufferevent_unsuspend_read_ and bufferevent_unsuspend_write_ */
    method Unsuspend(what: Flag)
      modifies this
      ensures View() == old(View()).Unsuspended(what)
    {
      suspended := suspended - {what};
      if suspended == {} && enabled {
        pending := true;
      }
    }
  }

  /** What errno says of a call on the socket that failed. */
  datatype SocketError = WouldBlock | ConnectionRefused | OtherError

  /**
   How an event callback ends: before the socket is touched, in an assertion that fails, or with what
   the socket came back with.
   */
  datatype Outcome =
    | TimedOut | Full | Suspended | Aborted | Unfinished | Unconnected
    | Retry | Refused | Failed | Moved(bytes: nat)

  /** A read was attempted. */
  predicate Touched(outcome: Outcome) {
    outcome.Aborted? || outcome.Retry? || outcome.Refused? || outcome.Failed? || outcome.Moved?
  }

  /** Which way a read ends that asked for so much. */
  predicate Ends(outcome: Outcome, asked: int, startable: bool, arriving: int, error: SocketError) {
    && Touched(outcome)
    && (outcome.Aborted? <==> asked == 0 && !startable)
    && (outcome.Moved? <==> 0 < arriving && 0 < asked)
    && (outcome.Moved? ==> outcome.bytes == MinInt(arriving, asked))
    && (outcome.Retry? <==> !outcome.Aborted? && arriving < 0 && error.WouldBlock?)
    && (outcome.Refused? <==> !outcome.Aborted? && arriving < 0 && error.ConnectionRefused?)
  }

  /** What it leaves of a bufferevent that has asked for its allowance. */
  function Ended(s: State, outcome: Outcome): State {
    if outcome.Moved? then Charged(s, Reading, outcome.bytes)
    else if outcome.Failed? then Disabled(s, Reading)
    else s
  }

  /** Nothing happens to it but that bytes read are charged, and that a read that failed ends reading. */
  lemma EndedSays(s: State, outcome: Outcome)
    ensures var t := Ended(s, outcome);
      && (!outcome.Moved? && !outcome.Failed? ==> t == s)
      && (outcome.Failed? ==> t == s.(read := s.read.(enabled := false, pending := false)))
      && (outcome.Moved? ==> t.cfg == s.cfg && t.read.enabled == s.read.enabled && t.write.enabled == s.write.enabled)
      && (outcome.Moved? && s.cfg.Some? ==> t.level == s.level.(read := s.level.read - outcome.bytes))
      && (outcome.Moved? && s.cfg.None? ==> t == s)
  {
  }

  /** Neither event is added. */
  function Cut(s: State): State {
    s.(read := s.read.(pending := false), write := s.write.(pending := false))
  }

  /** A bufferevent over a socket, with its own rate limit but no group. */
  class Limited {
    var cfg: Option<Cfg>
    /** rate_limiting is not NULL */
    var rateLimiting: bool
    const limit: Bucket
    const read: Half
    const write: Half
    var refillArmed: bool
    var outputLen: nat
    var maxSingleRead: nat
    var maxSingleWrite: nat
    /** connection_refused and connecting */
    var connectionRefused: bool
    var connecting: bool

    ghost function Repr(): set<object> {
      {this, limit, read, write}
    }

    function View(): State
      reads this, limit, read, write
    {
      State(cfg, limit.View(), read.View(), write.View(), refillArmed, outputLen, rateLimiting)
    }

    /** What every method keeps. */
    ghost predicate Valid()
      reads this, limit, read, write
    {
      && read != write && Inv(View()) && 0 < maxSingleRead && 0 < maxSingleWrite
    }

    function Of(dir: Dir): Half {
      if dir.Reading? then read else write
    }

    /** bufferevent_socket_new: writing is enabled, reading is not, and no event is added */
    constructor ()
      ensures Valid() && fresh(Repr())
      ensures View() == Fresh(limit.View()) && cfg == None && !connectionRefused && !connecting
    {
      cfg, rateLimiting, refillArmed, outputLen, maxSingleRead, maxSingleWrite := None, false, false, 0, 16384, 16384;
      connectionRefused, connecting := false, false;
      limit := new Bucket(Cfg(0, 0, 0, 0, 0), 0);
      read := new Half(false);
      write := new Half(true);
    }

    /** The own bucket's part of bufferevent_decrement_read_buckets_ and its write twin */
    method DecrementBuckets(dir: Dir, bytes: int)
      requires Valid() && Possible(View(), Charge(dir, bytes))
      modifies `refillArmed, limit, Of(dir)
      ensures Valid() && View() == Step(old(View()), Charge(dir, bytes))
    {
      if cfg.None? {
        return;
      }
      hide Inv;
      Unfold(View());
      ChargedKeeps(View(), dir, bytes);
      limit.Decrement(dir, bytes);
      if limit.View().Limit(dir) <= 0 {
        Of(dir).Suspend(Bandwidth);
        refillArmed := true;
      } else if Bandwidth in Of(dir).suspended {
        if Bandwidth !in Of(Other(dir)).suspended {
          refillArmed := false;
        }
        Of(dir).Unsuspend(Bandwidth);
      }
    }

    /** bufferevent_decrement_read_limit and bufferevent_decrement_write_limit */
    method DecrementLimit(dir: Dir, bytes: int)
      requires Valid() && Possible(View(), ChargeLimit(dir, bytes))
      modifies `refillArmed, limit, Of(dir)
      ensures Valid() && View() == Step(old(View()), ChargeLimit(dir, bytes))
    {
      hide Inv;
      Unfold(View());
      ChargedLimitKeeps(View(), dir, bytes);
      var was := limit.View().Limit(dir);
      limit.Decrement(dir, bytes);
      var now := limit.View().Limit(dir);
      if was > 0 && now <= 0 {
        Of(dir).Suspend(Bandwidth);
        refillArmed := true;
      } else if was <= 0 && now > 0 {
        if Bandwidth !in Of(Other(dir)).suspended {
          refillArmed := false;
        }
        Of(dir).Unsuspend(Bandwidth);
      }
    }

    /** The own bucket's part of bufferevent_get_rlim_max_, with bufferevent_update_buckets inlined */
    method GetMax(dir: Dir, tick: tick) returns (max: int)
      requires Valid() && Possible(View(), Ask(tick))
      modifies limit
      ensures Valid() && View() == Step(old(View()), Ask(tick))
      ensures cfg.Some? ==> max == MaxInt(0, View().level.Limit(dir))
      ensures cfg.None? ==> max == (if dir.Reading? then maxSingleRead else maxSingleWrite)
      ensures View().Half(dir).Runs() ==> 0 < max
    {
      hide Updated, KeepsSigns, Inv;
      AskedKeeps(View(), tick);
      Unfold(Asked(View(), tick));
      if cfg.Some? && tick == limit.lastUpdated {
        Nowhere(tick);
        StaleUpdate(limit.View(), cfg.value, tick);
      }
      max := if dir.Reading? then maxSingleRead else maxSingleWrite;
      if cfg.Some? {
        if tick != limit.lastUpdated {
          var moved := limit.Update(cfg.value, tick);
        }
        max := limit.View().Limit(dir);
      }
      if max < 0 {
        max := 0;
      }
    }

    /** bev_refill_callback_; the timer is not persistent, so going off removes it */
    method RefillCallback(tick: tick)
      requires Valid() && Possible(View(), Fire(tick))
      modifies `refillArmed, limit, read, write
      ensures Valid() && View() == Step(old(View()), Fire(tick))
    {
      hide Updated;
      FiredKeeps(View(), tick);
      refillArmed := false;
      if cfg.None? {
        return;
      }
      var again := false;
      var moved := limit.Update(cfg.value, tick);
      if Bandwidth in read.suspended {
        if limit.readLimit > 0 {
          read.Unsuspend(Bandwidth);
        } else {
          again := true;
        }
      }
      if Bandwidth in write.suspended {
        if limit.writeLimit > 0 {
          write.Unsuspend(Bandwidth);
        } else {
          again := true;
        }
      }
      if again {
        refillArmed := true;
      }
    }

    /** bufferevent_set_rate_limit */
    method SetRateLimit(newCfg: Option<Cfg>, tick: tick)
      requires Valid() && Possible(View(), Configure(newCfg, tick))
      modifies `cfg, `rateLimiting, `refillArmed, limit, read, write
      ensures Valid() && View() == Step(old(View()), Configure(newCfg, tick))
    {
      hide Inv, Initial, HalfState.Suspended, HalfState.Unsuspended;
      Unfold(View());
      ConfiguredKeeps(View(), newCfg, tick);
      if newCfg.None? {
        if rateLimiting {
          cfg := None;
          read.Unsuspend(Bandwidth);
          write.Unsuspend(Bandwidth);
          refillArmed := false;
        }
        return;
      }
      if cfg == newCfg {
        return;
      }
      rateLimiting := true;
      var reinit := cfg.Some?;
      cfg := newCfg;
      limit.Init(newCfg.value, tick, reinit);
      if reinit {
        refillArmed := false;
      }
      var noRead := SetDirection(Reading);
      var noWrite := SetDirection(Writing);
      if noRead || noWrite {
        refillArmed := true;
      }
    }

    /** One direction of bufferevent_set_rate_limit */
    method SetDirection(dir: Dir) returns (suspended: bool)
      requires read != write && View().Half(dir).Quiet()
      modifies Of(dir)
      ensures View() == RateLimit.Set(old(View()), dir)
      ensures suspended <==> View().level.Limit(dir) <= 0
    {
      suspended := limit.View().Limit(dir) <= 0;
      if suspended {
        Of(dir).Suspend(Bandwidth);
      } else {
        Of(dir).Unsuspend(Bandwidth);
      }
    }

    /** bufferevent_enable, for one direction */
    method Enable(dir: Dir)
      requires Valid()
      modifies Of(dir)
      ensures Valid() && View() == Step(old(View()), RateLimit.Enable(dir))
    {
      hide Inv;
      StepKeeps(View(), RateLimit.Enable(dir));
      var h := Of(dir);
      h.enabled := true;
      if h.suspended == {} {
        h.pending := true;
      }
    }

    /** bufferevent_disable, for one direction */
    method Disable(dir: Dir)
      requires Valid()
      modifies Of(dir)
      ensures Valid() && View() == Step(old(View()), RateLimit.Disable(dir))
    {
      hide Inv;
      StepKeeps(View(), RateLimit.Disable(dir));
      var h := Of(dir);
      h.enabled := false;
      h.pending := false;
    }

    /** Bytes added to the output buffer, and bufferevent_socket_outbuf_cb */
    method AddOutput(more: nat)
      requires Valid()
      modifies `outputLen, write
      ensures Valid() && View() == Step(old(View()), Queue(more))
    {
      outputLen := outputLen + more;
      if more > 0 && write.enabled && !write.pending && write.suspended == {} {
        write.pending := true;
      }
    }

    /** The read of bufferevent_readcb, and what comes of it */
    method Receive(howmuch: nat, startable: bool, waiting: int, arriving: int, error: SocketError)
      returns (outcome: Outcome, asked: int)
      requires Valid() && (cfg.Some? ==> howmuch <= MaxInt(0, View().level.read))
      modifies `refillArmed, `connectionRefused, limit, read
      ensures Valid() && asked == ReadSize(ToInt(howmuch), waiting) <= howmuch
      ensures Ends(outcome, asked, startable, arriving, error)
      ensures connectionRefused == (old(connectionRefused) || outcome.Refused?)
      ensures View() == Ended(old(View()), outcome)
      ensures !outcome.Moved? && !outcome.Failed? ==> View() == old(View())
      ensures outcome.Failed? ==> !read.enabled && !read.pending && limit.View() == old(limit.View())
      ensures outcome.Moved? && cfg.Some? ==> limit.View().read == old(limit.View().read) - outcome.bytes
    {
      hide Inv, Charged, ReadSize, ToInt;
      Unfold(View());
      CastKeepsAllowance(howmuch, waiting);
      asked := ReadSize(ToInt(howmuch), waiting);
      if asked == 0 && !startable {
        return Aborted, asked;
      }
      var res := if arriving < asked then arriving else asked;
      if res < 0 && error.WouldBlock? {
        return Retry, asked;
      }
      if res < 0 && error.ConnectionRefused? {
        connectionRefused := true;
        return Refused, asked;
      }
      if res <= 0 {
        Disable(Reading);
        return Failed, asked;
      }
      EndedSays(View(), Moved(res));
      DecrementBuckets(Reading, res);
      return Moved(res), asked;
    }

    /**
     bufferevent_readcb, up to the user's callback.  timeout says that the event is EV_TIMEOUT alone;
     high is the input buffer's high watermark, inputLen its length, and startable whether it has a
     chain for a read of nothing to start in; waiting is what the kernel reports, arriving what it then
     hands over, or less than 0 for an error.
     */
    method ReadCallback(timeout: bool, high: nat, inputLen: nat, startable: bool, waiting: int, arriving: int,
                        error: SocketError, tick: tick)
      returns (outcome: Outcome, asked: int)
      requires Valid() && View().read.pending && Possible(View(), Ask(tick))
      modifies `refillArmed, `connectionRefused, limit, read
      ensures Valid() && (outcome.TimedOut? || outcome.Full? || Touched(outcome))
      ensures outcome.TimedOut? <==> timeout
      ensures outcome.TimedOut? ==> View() == Step(old(View()), RateLimit.Disable(Reading))
      ensures outcome.Full? <==> !timeout && high != 0 && high <= inputLen
      ensures outcome.Full? ==> View() == Step(old(View()), RateLimit.Suspend(Reading, Watermark))
      ensures connectionRefused == (old(connectionRefused) || outcome.Refused?)
      ensures outcome.Moved? ==>
        && 0 < outcome.bytes == MinInt(arriving, asked)
        && (cfg.Some? ==> outcome.bytes <= Step(old(View()), Ask(tick)).level.read)
        && (high != 0 ==> inputLen + outcome.bytes <= high)
      ensures Touched(outcome) ==>
        var u := Step(old(View()), Ask(tick));
        var most := if cfg.Some? then u.level.read else maxSingleRead;
        var allowed := if high != 0 then MinInt(most, high - inputLen) else most;
        && 0 < allowed && asked == ReadSize(ToInt(allowed), waiting) <= allowed
        && Ends(outcome, asked, startable, arriving, error) && View() == Ended(u, outcome)
    {
      hide Updated, Charged, ReadSize, ToInt;
      var howmuch: int := -1;
      asked := 0;
      if timeout {
        Disable(Reading);
        return TimedOut, 0;
      }
      if high != 0 {
        howmuch := high - inputLen;
        if howmuch <= 0 {
          read.Suspend(Watermark);
          return Full, 0;
        }
      }
      var readmax := GetMax(Reading, tick);
      if howmuch < 0 || howmuch > readmax {
        howmuch := readmax;
      }
      if read.suspended != {} {
        assert false;
      }
      outcome, asked := Receive(howmuch, startable, waiting, arriving, error);
    }

    /**
     The part of bufferevent_writecb for a socket that is connecting.  finished is 0 for not yet, less
     than 0 for an error; the result is that, or less than 0 if the connection was refused before.
     */
    method FinishConnecting(finished: int) returns (c: int)
      requires Valid() && connecting
      modifies `connecting, `connectionRefused, read, write
      ensures c == if old(connectionRefused) then -1 else finished
      ensures !connectionRefused && (connecting <==> c == 0)
      ensures 0 <= c ==> Valid() && View() == old(View())
      ensures c < 0 ==> View() == Cut(old(View()))
    {
      c := finished;
      if connectionRefused {
        connectionRefused := false;
        c := -1;
      }
      if c == 0 {
        return;
      }
      connecting := false;
      if c < 0 {
        write.pending := false;
        read.pending := false;
      }
    }

    /**
     bufferevent_writecb, up to the user's callback; connected says that the socket has just been.  A
     connection that fails leaves both directions as enabled as they were, but without events.
     */
    method WriteCallback(timeout: bool, finished: int, accepting: int, error: SocketError, tick: tick)
      returns (outcome: Outcome, connected: bool)
      requires Valid() && View().write.pending && Possible(View(), Ask(tick))
      modifies `refillArmed, `outputLen, `connecting, `connectionRefused, limit, read, write
      ensures Valid() || outcome.Unconnected?
      ensures !outcome.Suspended? && !outcome.Full? && !outcome.Refused? && !outcome.Aborted?
      ensures outcome.TimedOut? <==> timeout
      ensures outcome.TimedOut? ==> View() == Step(old(View()), RateLimit.Disable(Writing))
      ensures outcome.Unfinished? <==> !timeout && old(connecting) && !old(connectionRefused) && finished == 0
      ensures outcome.Unfinished? ==> View() == old(View())
      ensures outcome.Unconnected? <==> !timeout && old(connecting) && (old(connectionRefused) || finished < 0)
      ensures outcome.Unconnected? ==> View() == Cut(old(View()))
      ensures connecting == (old(connecting) && (timeout || outcome.Unfinished?))
      ensures connected <==> !timeout && old(connecting) && !connecting && !outcome.Unconnected?
      ensures connectionRefused == (old(connectionRefused) && (timeout || !old(connecting)))
      ensures !timeout && !outcome.Unfinished? && !outcome.Unconnected? ==>
        var u := Step(old(View()), Ask(tick));
        var most := if cfg.Some? then u.level.write else maxSingleWrite;
        && (outcome.Moved? <==> old(outputLen) == 0 || 0 < accepting)
        && (outcome.Moved? && old(outputLen) == 0 ==> outcome.bytes == 0 && View() == Step(u, Idle))
        && (outcome.Moved? && 0 < old(outputLen) ==>
            && outcome.bytes == MinInt(accepting, MinInt(most, old(outputLen)))
            && 0 < outcome.bytes
            && View() == Idled(Charged(Step(u, Sent(outcome.bytes)), Writing, outcome.bytes)))
        && (outcome.Retry? <==> 0 < old(outputLen) && accepting < 0 && error.WouldBlock?)
        && (outcome.Retry? ==> View() == u)
        && (outcome.Failed? ==> View() == Step(u, RateLimit.Disable(Writing)))
    {
      hide Updated, Inv, Charged, Asked, HalfState.Suspended;
      connected := false;
      if timeout {
        Disable(Writing);
        return TimedOut, false;
      }
      if connecting {
        var c := FinishConnecting(finished);
        if c == 0 {
          return Unfinished, false;
        }
        if c < 0 {
          return Unconnected, false;
        }
        connected := true;
      }
      outcome := Transmit(accepting, error, tick);
    }

    /** The rest of it, on a connected socket */
    method Transmit(accepting: int, error: SocketError, tick: tick) returns (outcome: Outcome)
      requires Valid() && View().write.pending && Possible(View(), Ask(tick))
      modifies `refillArmed, `outputLen, limit, write
      ensures Valid() && (outcome.Retry? || outcome.Failed? || outcome.Moved?)
      ensures var u := Step(old(View()), Ask(tick));
        var most := if cfg.Some? then u.level.write else maxSingleWrite;
        && (outcome.Moved? <==> old(outputLen) == 0 || 0 < accepting)
        && (outcome.Moved? && old(outputLen) == 0 ==> outcome.bytes == 0 && View() == Step(u, Idle))
        && (outcome.Moved? && 0 < old(outputLen) ==>
            && outcome.bytes == MinInt(accepting, MinInt(most, old(outputLen)))
            && 0 < outcome.bytes
            && View() == Idled(Charged(Step(u, Sent(outcome.bytes)), Writing, outcome.bytes)))
        && (outcome.Retry? <==> 0 < old(outputLen) && accepting < 0 && error.WouldBlock?)
        && (outcome.Retry? ==> View() == u)
        && (outcome.Failed? ==> View() == Step(u, RateLimit.Disable(Writing)))
    {
      hide Updated, Inv, Charged, Asked, HalfState.Suspended;
      Unfold(View());
      var atmost := GetMax(Writing, tick);
      ghost var u := View();
      Unfold(u);
      if write.suspended != {} {
        assert false;
      }
      var res := 0;
      if outputLen > 0 {
        if atmost > outputLen {
          atmost := outputLen;
        }
        res := if accepting < atmost then accepting else atmost;
        if res < 0 && error.WouldBlock? {
          return Retry;
        }
        if res <= 0 {
          Disable(Writing);
          return Failed;
        }
        Written(res);
      } else {
        StepKeeps(View(), Idle);
        write.pending := false;
      }
      return Moved(res);
    }

    /** What bufferevent_writecb does after the socket has taken bytes */
    method Written(res: nat)
      requires Valid() && View().write.pending && 0 < res <= outputLen
      requires cfg.Some? ==> res <= View().level.write
      modifies `refillArmed, `outputLen, limit, write
      ensures Valid() && View() == Idled(Charged(Step(old(View()), Sent(res)), Writing, res))
    {
      hide Updated, Inv, Charged;
      Unfold(View());
      StepKeeps(View(), Sent(res));
      outputLen := outputLen - res;
      DecrementBuckets(Writing, res);
      StepKeeps(View(), Idle);
      if outputLen == 0 {
        write.pending := false;
      }
    }
  }

  /**
   An allowance of 2^32 bytes, with 100 of them waiting: the read asks for nothing and the bufferevent
   takes it for the end of the stream, or does not come that far.
   */
  method CastStarves(startable: bool) returns (outcome: Outcome)
    ensures outcome == if startable then Failed else Aborted
  {
    hide Inv, Updated;
    var lim := new Limited();
    lim.Enable(Reading);
    var most := Cfg(0, U32, U32, 1, 1);
    lim.SetRateLimit(Some(most), 0);
    StaleUpdate(lim.View().level, most, 0);
    var asked;
    outcome, asked := lim.ReadCallback(false, 0, 0, startable, 100, 100, OtherError, 0);
  }
}
