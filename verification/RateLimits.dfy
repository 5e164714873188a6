/** Bandwidth suspension of one bufferevent: its token bucket, suspend flags and refill timer
    (bufferevent_ratelim.c, with the suspend flags of bufferevent.c). */
module RateLimits {
  import opened Basics
  import opened TokenBuckets

  /** bufferevent_suspend_flags: watermark, own bandwidth, group bandwidth, name lookup. */
  datatype Reason = WM | BW | BW_GROUP | LOOKUP

  /** What a bufferevent's rate limiting looks like from outside: the fields as one value. */
  datatype Bev = Bev(enabledRead: bool, enabledWrite: bool, readSuspended: set<Reason>, writeSuspended: set<Reason>,
                     cfg: Option<Cfg>, readLimit: int, writeLimit: int, last: nat, timer: bool)

  /** An exhausted bucket suspends its direction, and a suspended direction has a timer; without a
      bucket there is neither. */
  ghost predicate BandwidthOk(v: Bev) {
    if v.cfg.None? then BW !in v.readSuspended && BW !in v.writeSuspended && !v.timer
    else
      && v.cfg.value.Valid()
      && -SSIZE_MAX - 1 <= v.readLimit <= v.cfg.value.readMax && -SSIZE_MAX - 1 <= v.writeLimit <= v.cfg.value.writeMax
      && (v.readLimit <= 0 ==> BW in v.readSuspended)
      && (v.writeLimit <= 0 ==> BW in v.writeSuspended)
      && (BW in v.readSuspended || BW in v.writeSuspended ==> v.timer)
  }

  /** Ticks that count for a refill. */
  function Ticks(last: nat, tick: nat): nat {
    var n := Elapsed(last, tick);
    if n <= INT_MAX then n else 0
  }

  /** The buckets brought up to date, in unbounded arithmetic. */
  function Refilled(v: Bev, tick: nat): Bev {
    var n := Ticks(v.last, tick);
    if v.cfg.None? || n == 0 then v
    else
      v.(readLimit := Min(v.cfg.value.readMax, v.readLimit + n * v.cfg.value.readRate),
         writeLimit := Min(v.cfg.value.writeMax, v.writeLimit + n * v.cfg.value.writeRate),
         last := tick)
  }

  /** A direction is suspended for its bucket exactly while that is exhausted, and then a timer is pending. */
  function ChargedRead(v: Bev, bytes: nat): Bev {
    if v.cfg.None? then v
    else if v.readLimit <= bytes then
      v.(readLimit := v.readLimit - bytes, readSuspended := v.readSuspended + {BW}, timer := true)
    else
      v.(readLimit := v.readLimit - bytes, readSuspended := v.readSuspended - {BW},
         timer := v.timer && (BW in v.readSuspended ==> BW in v.writeSuspended))
  }

  function ChargedWrite(v: Bev, bytes: nat): Bev {
    if v.cfg.None? then v
    else if v.writeLimit <= bytes then
      v.(writeLimit := v.writeLimit - bytes, writeSuspended := v.writeSuspended + {BW}, timer := true)
    else
      v.(writeLimit := v.writeLimit - bytes, writeSuspended := v.writeSuspended - {BW},
         timer := v.timer && (BW in v.writeSuspended ==> BW in v.readSuspended))
  }

  /** The refill timer has fired: it is pending again exactly if a direction stays suspended. */
  function Fired(v: Bev, tick: nat): Bev {
    if v.cfg.None? then v.(timer := false)
    else
      var u := Refilled(v, tick);
      var rs := if u.readLimit > 0 then u.readSuspended - {BW} else u.readSuspended;
      var ws := if u.writeLimit > 0 then u.writeSuspended - {BW} else u.writeSuspended;
      u.(readSuspended := rs, writeSuspended := ws, timer := BW in rs || BW in ws)
  }

  /** A new, changed, same or removed configuration. */
  function Configured(v: Bev, c: Option<Cfg>, tick: nat, same: bool): Bev {
    if c.None? then
      v.(cfg := None, readSuspended := v.readSuspended - {BW}, writeSuspended := v.writeSuspended - {BW}, timer := false)
    else if same then v
    else
      var rl := if v.cfg.Some? then Min(c.value.readMax, v.readLimit) else c.value.readRate;
      var wl := if v.cfg.Some? then Min(c.value.writeMax, v.writeLimit) else c.value.writeRate;
      v.(cfg := c, readLimit := rl, writeLimit := wl, last := if v.cfg.Some? then v.last else tick,
         readSuspended := v.readSuspended - {BW} + (if rl <= 0 then {BW} else {}),
         writeSuspended := v.writeSuspended - {BW} + (if wl <= 0 then {BW} else {}),
         timer := rl <= 0 || wl <= 0)
  }

  /** What the bucket would let through right now. */
  function Credit(v: Bev): nat {
    if v.readLimit > 0 then v.readLimit else 0
  }

  /** The input has reached its high watermark: `high` bytes, or 0 for none, with `held` bytes in it. The
      difference of the two sizes is taken as an ev_ssize_t. */
  predicate AtMark(high: nat, held: nat) {
    high != 0 && ToSsize(high - held) <= 0
  }

  function ToSsize(n: int): int {
    (n + SSIZE_MAX + 1) % TWO64 - SSIZE_MAX - 1
  }

  /** A socket that reports `reported` bytes (FIONREAD; negative for an error) and has `waiting` bytes. With none
      waiting a read may find it `over`, at its end or broken. */
  datatype Socket = Socket(reported: int, waiting: nat, over: bool)

  const MAX_READ := 4096

  /** The bytes evbuffer_read asks the socket for, when told to read `howmuch`. */
  function Request(howmuch: int, reported: int): int {
    var n := if reported <= 0 || reported > MAX_READ then MAX_READ else reported;
    if howmuch < 0 || howmuch > n then n else howmuch
  }

  /** What bucket and watermark admit, with the buckets brought up to date. */
  function Admitted(v: Bev, high: nat, held: nat, maxSingle: nat): int {
    var max := if v.cfg.None? then maxSingle else Credit(v);
    if high == 0 || ToSsize(high - held) > max then max else ToSsize(high - held)
  }

  /** The bytes bufferevent_readcb asks for. */
  function Wanted(v: Bev, high: nat, held: nat, reported: int, maxSingle: nat): int {
    Request(ToInt(Admitted(v, high, held, maxSingle)), reported)
  }

  /** It never asks for more than the bucket lets through and the watermark admits, the cast to int included. */
  lemma {:induction false} WantedWithin(v: Bev, high: nat, held: nat, reported: int, maxSingle: nat)
    requires !AtMark(high, held)
    ensures var n := Wanted(v, high, held, reported, maxSingle);
            && 0 <= n <= MAX_READ && n <= (if v.cfg.None? then maxSingle else Credit(v))
            && (high != 0 ==> n <= ToSsize(high - held))
  {
    hide ToSsize;
  }

  /** It asks for nothing at all exactly if what is admitted is a multiple of 2^32. */
  lemma {:induction false} WantsNothing(v: Bev, high: nat, held: nat, reported: int, maxSingle: nat)
    ensures Wanted(v, high, held, reported, maxSingle) == 0 <==> Admitted(v, high, held, maxSingle) % TWO32 == 0
  {
    hide Admitted;
    var n := Admitted(v, high, held, maxSingle);
    assert ToInt(n) == 0 <==> n % TWO32 == 0;
  }

  /** Short of that cast, a read gets the least of what waits, what bucket and watermark admit, and what the socket
      reports, or 4096 if it reports nothing or more. */
  lemma {:induction false} ReadAmount(v: Bev, tick: nat, high: nat, held: nat, socket: Socket, maxSingle: nat)
    requires !AtMark(high, held) && v.readSuspended == {}
    requires 0 < Admitted(Refilled(v, tick), high, held, maxSingle) <= INT_MAX
    ensures var n := if 1 <= socket.reported <= 4096 then socket.reported else 4096;
            ReadBytes(v, tick, high, held, socket, maxSingle) == Min(socket.waiting, Min(Admitted(Refilled(v, tick), high, held, maxSingle), n))
  {
    hide Refilled, Admitted;
  }

  /** What is admitted: the bucket, or the single-read maximum without one, but not beyond the watermark. */
  lemma {:induction false} AdmittedIs(v: Bev, high: nat, held: nat, maxSingle: nat)
    requires high <= SSIZE_MAX && (high != 0 ==> held < high)
    ensures !AtMark(high, held)
    ensures var bucket := if v.cfg.None? then maxSingle else if v.readLimit > 0 then v.readLimit else 0;
            Admitted(v, high, held, maxSingle) == if high == 0 then bucket else Min(bucket, high - held)
  {
    assert high != 0 ==> ToSsize(high - held) == high - held;
  }

  /** A charge takes exactly its bytes; the direction is suspended for its bucket exactly if that is exhausted then, and
      a pending timer is given up exactly if this direction was the only one that needed it. */
  lemma {:induction false} ChargeIs(v: Bev, bytes: nat)
    requires v.cfg.Some?
    ensures var u := ChargedRead(v, bytes);
            && u == v.(readLimit := v.readLimit - bytes, readSuspended := u.readSuspended, timer := u.timer)
            && (BW in u.readSuspended <==> v.readLimit - bytes <= 0) && u.readSuspended - {BW} == v.readSuspended - {BW}
            && (u.timer <==> v.readLimit - bytes <= 0 || (v.timer && (BW in v.readSuspended ==> BW in v.writeSuspended)))
    ensures var u := ChargedWrite(v, bytes);
            && u == v.(writeLimit := v.writeLimit - bytes, writeSuspended := u.writeSuspended, timer := u.timer)
            && (BW in u.writeSuspended <==> v.writeLimit - bytes <= 0) && u.writeSuspended - {BW} == v.writeSuspended - {BW}
            && (u.timer <==> v.writeLimit - bytes <= 0 || (v.timer && (BW in v.writeSuspended ==> BW in v.readSuspended)))
  {
  }

  /** A refill by `n` ticks adds n times the rate to each bucket, up to its maximum. */
  lemma {:induction false} RefillIs(v: Bev, tick: nat)
    requires BandwidthOk(v) && v.cfg.Some?
    ensures var c, n, u := v.cfg.value, Elapsed(v.last, tick), Refilled(v, tick);
            && u == v.(readLimit := u.readLimit, writeLimit := u.writeLimit, last := u.last)
            && (1 <= n <= 0x7fff_ffff ==>
                  && u.readLimit == Min(c.readMax, v.readLimit + n * c.readRate)
                  && u.writeLimit == Min(c.writeMax, v.writeLimit + n * c.writeRate) && u.last == tick)
            && (n == 0 || n > 0x7fff_ffff ==> u == v)
  {
    hide Elapsed;
  }

  /** The refill timer: each direction that was suspended for its bucket is let go exactly if the refilled bucket is
      positive, and the timer is pending again exactly if one is not let go. */
  lemma {:induction false} FiredIs(v: Bev, tick: nat)
    requires BandwidthOk(v) && v.cfg.Some?
    ensures var u, f := Fired(v, tick), Refilled(v, tick);
            && u == f.(readSuspended := u.readSuspended, writeSuspended := u.writeSuspended, timer := u.timer)
            && (BW in u.readSuspended <==> BW in v.readSuspended && f.readLimit <= 0) && u.readSuspended - {BW} == v.readSuspended - {BW}
            && (BW in u.writeSuspended <==> BW in v.writeSuspended && f.writeLimit <= 0) && u.writeSuspended - {BW} == v.writeSuspended - {BW}
            && (u.timer <==> BW in u.readSuspended || BW in u.writeSuspended)
  {
    hide Refilled;
    RefillIs(v, tick);
  }

  /** A first configuration starts with one tick's rate, a changed one only clips, the same one changes nothing, and
      none lifts the suspensions. Otherwise each direction is suspended exactly if its bucket is empty. */
  lemma {:induction false} ConfiguredIs(v: Bev, c: Option<Cfg>, tick: nat, same: bool)
    requires same ==> c == v.cfg
    ensures var u := Configured(v, c, tick, same);
            && u.cfg == c && u.enabledRead == v.enabledRead && u.enabledWrite == v.enabledWrite
            && u.readSuspended - {BW} == v.readSuspended - {BW} && u.writeSuspended - {BW} == v.writeSuspended - {BW}
            && (c.None? ==> BW !in u.readSuspended && BW !in u.writeSuspended && !u.timer)
            && (c.Some? && same ==> u == v)
            && (c.Some? && !same ==>
                  && (if v.cfg.None? then u.readLimit == c.value.readRate && u.writeLimit == c.value.writeRate && u.last == tick
                      else u.readLimit == Min(c.value.readMax, v.readLimit) && u.writeLimit == Min(c.value.writeMax, v.writeLimit) && u.last == v.last)
                  && (BW in u.readSuspended <==> u.readLimit <= 0) && (BW in u.writeSuspended <==> u.writeLimit <= 0)
                  && (u.timer <==> u.readLimit <= 0 || u.writeLimit <= 0))
  {
  }

  /** A bucket of 2^32 bytes: nothing is read although bytes wait, and reading is disabled as at the end of
      the stream. */
  lemma {:induction false} FullBucketLooksEnded(v: Bev, tick: nat, waiting: nat)
    requires v.cfg.Some? && v.readLimit == v.cfg.value.readMax == TWO32 && v.readSuspended == {} && waiting > 0
    ensures var socket := Socket(waiting, waiting, false);
            ReadBytes(v, tick, 0, 0, socket, 16384) == 0 && !AfterRead(v, tick, 0, 0, socket, 16384).enabledRead
  {
    hide Ticks;
    Product(Ticks(v.last, tick), v.cfg.value.readRate);
    assert Refilled(v, tick).readLimit == TWO32;
  }

  /** How much bufferevent_readcb reads, and what it leaves behind. */
  function ReadBytes(v: Bev, tick: nat, high: nat, held: nat, socket: Socket, maxSingle: nat): nat {
    if AtMark(high, held) || v.readSuspended != {} then 0
    else
      var n := Wanted(Refilled(v, tick), high, held, socket.reported, maxSingle);
      if n < 0 then 0 else Min(socket.waiting, n)
  }

  function AfterRead(v: Bev, tick: nat, high: nat, held: nat, socket: Socket, maxSingle: nat): Bev {
    var u, n := Refilled(v, tick), ReadBytes(v, tick, high, held, socket, maxSingle);
    if AtMark(high, held) then v.(readSuspended := v.readSuspended + {WM})
    else if v.readSuspended != {} then u
    else if n > 0 then ChargedRead(u, n)
    else if Wanted(u, high, held, socket.reported, maxSingle) == 0 || socket.over then u.(enabledRead := false)
    else u
  }

  /** A read that is not at the watermark brings the bucket up to date and takes exactly the bytes read from it. */
  lemma {:induction false} ReadIsCharged(v: Bev, tick: nat, high: nat, held: nat, socket: Socket, maxSingle: nat)
    requires BandwidthOk(v) && v.cfg.Some?
    ensures var n, u := ReadBytes(v, tick, high, held, socket, maxSingle), AfterRead(v, tick, high, held, socket, maxSingle);
            && (!AtMark(high, held) ==> u.readLimit == Refilled(v, tick).readLimit - n && u.last == Refilled(v, tick).last)
            && (AtMark(high, held) ==> n == 0 && u == v.(readSuspended := v.readSuspended + {WM}))
            && (n > 0 ==> v.readSuspended == {} && u.enabledRead == v.enabledRead)
            && (n == 0 && !AtMark(high, held) && v.readSuspended == {} && socket.waiting == 0 ==>
                  u.enabledRead == (v.enabledRead && !socket.over && Admitted(Refilled(v, tick), high, held, maxSingle) % 4294967296 != 0))
  {
    hide Refilled, Wanted, AtMark, Admitted;
    RefillIs(v, tick);
    WantsNothing(Refilled(v, tick), high, held, socket.reported, maxSingle);
  }

  class Bufferevent {
    var enabledRead: bool
    var enabledWrite: bool
    /** Whether the backend is reading or writing (be_ops->enable and disable). */
    var reading: bool
    var writing: bool
    var readSuspended: set<Reason>
    var writeSuspended: set<Reason>
    /** bev->rate_limiting->cfg */
    var cfg: Option<Cfg>
    const limit: TokenBucket
    /** Whether refill_bucket_event is pending. */
    var timer: bool

    /** The backend moves bytes exactly in the enabled directions nobody suspended. */
    ghost predicate BackendOk()
      reads this
    {
      && reading == (enabledRead && readSuspended == {})
      && writing == (enabledWrite && writeSuspended == {})
    }

    ghost function View(): Bev
      reads this, limit
    {
      Bev(enabledRead, enabledWrite, readSuspended, writeSuspended, cfg, limit.readLimit, limit.writeLimit, limit.lastUpdated, timer)
    }

    ghost predicate Valid()
      reads this, limit
    {
      BackendOk() && BandwidthOk(View())
    }

    constructor ()
      ensures Valid() && cfg.None? && fresh(limit)
    {
      enabledRead, enabledWrite, reading, writing := false, false, false, false;
      readSuspended, writeSuspended, cfg, timer := {}, {}, None, false;
      limit := new TokenBucket();
    }

    /** bufferevent_suspend_read_ */
    method SuspendRead(what: Reason)
      requires BackendOk()
      modifies this`reading, this`readSuspended
      ensures BackendOk() && readSuspended == old(readSuspended) + {what}
    {
      if readSuspended == {} {
        reading := false;
      }
      readSuspended := readSuspended + {what};
    }

    /** bufferevent_unsuspend_read_ */
    method UnsuspendRead(what: Reason)
      requires BackendOk()
      modifies this`reading, this`readSuspended
      ensures BackendOk() && readSuspended == old(readSuspended) - {what}
    {
      readSuspended := readSuspended - {what};
      if readSuspended == {} && enabledRead {
        reading := true;
      }
    }

    /** bufferevent_suspend_write_ */
    method SuspendWrite(what: Reason)
      requires BackendOk()
      modifies this`writing, this`writeSuspended
      ensures BackendOk() && writeSuspended == old(writeSuspended) + {what}
    {
      if writeSuspended == {} {
        writing := false;
      }
      writeSuspended := writeSuspended + {what};
    }

    /** bufferevent_unsuspend_write_ */
    method UnsuspendWrite(what: Reason)
      requires BackendOk()
      modifies this`writing, this`writeSuspended
      ensures BackendOk() && writeSuspended == old(writeSuspended) - {what}
    {
      writeSuspended := writeSuspended - {what};
      if writeSuspended == {} && enabledWrite {
        writing := true;
      }
    }

    /** bufferevent_enable */
    method Enable(read: bool, write: bool)
      requires Valid()
      modifies this`enabledRead, this`enabledWrite, this`reading, this`writing
      ensures Valid() && enabledRead == (old(enabledRead) || read) && enabledWrite == (old(enabledWrite) || write)
    {
      var implRead, implWrite := read && readSuspended == {}, write && writeSuspended == {};
      enabledRead, enabledWrite := enabledRead || read, enabledWrite || write;
      if implRead {
        reading := true;
      }
      if implWrite {
        writing := true;
      }
    }

    /** bufferevent_disable */
    method Disable(read: bool, write: bool)
      requires Valid()
      modifies this`enabledRead, this`enabledWrite, this`reading, this`writing
      ensures Valid() && enabledRead == (old(enabledRead) && !read) && enabledWrite == (old(enabledWrite) && !write)
    {
      enabledRead, enabledWrite := enabledRead && !read, enabledWrite && !write;
      if read {
        reading := false;
      }
      if write {
        writing := false;
      }
    }

    /** bufferevent_decrement_read_buckets_ without a group; a charge is not negative. */
    method DecrementRead(bytes: nat)
      requires Valid() && (cfg.Some? ==> limit.readLimit - bytes >= -SSIZE_MAX - 1)
      modifies this`reading, this`readSuspended, this`timer, limit`readLimit
      ensures Valid()
      ensures View() == ChargedRead(old(View()), bytes)
    {
      if cfg.None? {
        return;
      }
      limit.readLimit := limit.readLimit - bytes;
      if limit.readLimit <= 0 {
        SuspendRead(BW);
        timer := true;
      } else if BW in readSuspended {
        if BW !in writeSuspended {
          timer := false;
        }
        UnsuspendRead(BW);
      }
    }

    /** bufferevent_decrement_write_buckets_ without a group */
    method DecrementWrite(bytes: nat)
      requires Valid() && (cfg.Some? ==> limit.writeLimit - bytes >= -SSIZE_MAX - 1)
      modifies this`writing, this`writeSuspended, this`timer, limit`writeLimit
      ensures Valid()
      ensures View() == ChargedWrite(old(View()), bytes)
    {
      if cfg.None? {
        return;
      }
      limit.writeLimit := limit.writeLimit - bytes;
      if limit.writeLimit <= 0 {
        SuspendWrite(BW);
        timer := true;
      } else if BW in writeSuspended {
        if BW !in readSuspended {
          timer := false;
        }
        UnsuspendWrite(BW);
      }
    }

    /** bev_refill_callback_: the timer has fired and is no longer pending. */
    method RefillFired(tick: nat)
      requires Valid() && timer
      modifies this`reading, this`readSuspended, this`writing, this`writeSuspended, this`timer, limit
      ensures Valid()
      ensures View() == Fired(old(View()), tick)
    {
      hide Elapsed, Min;
      timer := false;
      if cfg.None? {
        return;
      }
      var _ := limit.Update(cfg.value, tick);
      var again := false;
      if BW in readSuspended {
        if limit.readLimit > 0 {
          UnsuspendRead(BW);
        } else {
          again := true;
        }
      }
      if BW in writeSuspended {
        if limit.writeLimit > 0 {
          UnsuspendWrite(BW);
        } else {
          again := true;
        }
      }
      if again {
        timer := true;
      }
    }

    /** bufferevent_set_rate_limit; `same` says that the configuration object is the current one. */
    method SetRateLimit(c: Option<Cfg>, tick: nat, same: bool)
      requires Valid() && (c.Some? ==> c.value.Valid()) && (same ==> c == cfg)
      modifies this`reading, this`readSuspended, this`writing, this`writeSuspended, this`timer, this`cfg, limit
      ensures Valid() && View() == Configured(old(View()), c, tick, same)
    {
      if c.None? {
        cfg := None;
        UnsuspendRead(BW);
        UnsuspendWrite(BW);
        timer := false;
        return;
      }
      if same {
        return;
      }
      var reinit := cfg.Some?;
      if reinit {
        limit.Reinit(c.value);
        timer := false;
      } else {
        limit.Init(c.value, tick);
      }
      cfg := c;
      var suspended := Resuspend();
      if suspended {
        timer := true;
      }
    }

    /** The suspensions that follow from the buckets. */
    method Resuspend() returns (suspended: bool)
      requires BackendOk()
      modifies this`reading, this`readSuspended, this`writing, this`writeSuspended
      ensures BackendOk() && (suspended <==> limit.readLimit <= 0 || limit.writeLimit <= 0)
      ensures readSuspended == old(readSuspended) - {BW} + if limit.readLimit <= 0 then {BW} else {}
      ensures writeSuspended == old(writeSuspended) - {BW} + if limit.writeLimit <= 0 then {BW} else {}
    {
      hide BandwidthOk;
      suspended := false;
      if limit.readLimit > 0 {
        UnsuspendRead(BW);
      } else {
        SuspendRead(BW);
        suspended := true;
      }
      if limit.writeLimit > 0 {
        UnsuspendWrite(BW);
      } else {
        SuspendWrite(BW);
        suspended := true;
      }
    }

    /** bufferevent_get_read_max_ without a group */
    method ReadMax(tick: nat, maxSingle: nat) returns (max: nat)
      requires Valid()
      modifies limit
      ensures Valid()
      ensures View() == Refilled(old(View()), tick)
      ensures max == if cfg.None? then maxSingle else Credit(View())
    {
      hide Min;
      if cfg.None? {
        return maxSingle;
      }
      if tick != limit.lastUpdated {
        var _ := limit.Update(cfg.value, tick);
      }
      max := if limit.readLimit < 0 then 0 else limit.readLimit;
    }

    /** bufferevent_readcb for a read event. Asking for no bytes looks like the end of the stream. */
    method ReadReady(tick: nat, high: nat, held: nat, socket: Socket, maxSingle: nat) returns (read: nat)
      requires Valid()
      modifies this`enabledRead, this`enabledWrite, this`reading, this`writing, this`readSuspended, this`timer, limit
      ensures Valid() && read == ReadBytes(old(View()), tick, high, held, socket, maxSingle)
      ensures View() == AfterRead(old(View()), tick, high, held, socket, maxSingle)
    {
      hide Refilled, ToSsize, ChargedRead, BandwidthOk;
      read := 0;
      if AtMark(high, held) {
        MarkOk(View());
        SuspendRead(WM);
        return;
      }
      var max := ReadMax(tick, maxSingle);
      WantedWithin(View(), high, held, socket.reported, maxSingle);
      var howmuch := if high != 0 then ToSsize(high - held) else -1;
      if howmuch < 0 || howmuch > max {
        howmuch := max;
      }
      if readSuspended != {} {
        return;
      }
      var n := Request(ToInt(howmuch), socket.reported);
      if n == 0 || socket.waiting == 0 {
        if n == 0 || socket.over {
          Disable(true, false);
        }
        return;
      }
      read := if socket.waiting > n then n else socket.waiting;
      ReadFits(View(), read);
      DecrementRead(read);
    }
  }

  lemma {:induction false} MarkOk(v: Bev)
    requires BandwidthOk(v)
    ensures BandwidthOk(v.(readSuspended := v.readSuspended + {WM}))
  {
  }

  lemma {:induction false} ReadFits(v: Bev, read: nat)
    requires BandwidthOk(v) && (v.cfg.Some? ==> read <= Credit(v))
    ensures v.cfg.Some? ==> v.readLimit - read >= -SSIZE_MAX - 1
  {
  }
}
