/** Token buckets of bufferevent_ratelim.c: the overflow-safe refill, and how much a bucket lets
    through over a whole run. */
module TokenBuckets {
  import opened Basics

  const TWO32 := 0x1_0000_0000
  const TWO64 := 0x1_0000_0000_0000_0000
  const INT_MAX := 0x7fff_ffff
  const SSIZE_MAX := 0x7fff_ffff_ffff_ffff
  /** EV_RATE_LIMIT_MAX */
  const RATE_MAX := SSIZE_MAX
  const COMMON_TIMEOUT_MICROSECONDS_MASK := 0x000f_ffff

  /** `struct ev_token_bucket_cfg` */
  datatype Cfg = Cfg(readRate: nat, readMax: nat, writeRate: nat, writeMax: nat, msecPerTick: nat) {
    predicate Valid() {
      1 <= readRate <= readMax <= RATE_MAX && 1 <= writeRate <= writeMax <= RATE_MAX
    }
  }

  /** ev_token_bucket_cfg_new */
  function CfgNew(readRate: nat, readBurst: nat, writeRate: nat, writeBurst: nat, sec: nat, usec: nat): (r: Option<Cfg>)
    ensures r.Some? <==> 1 <= readRate <= readBurst <= RATE_MAX && 1 <= writeRate <= writeBurst <= RATE_MAX
    ensures r.Some? ==> r.value.Valid() && r.value == Cfg(readRate, readBurst, writeRate, writeBurst, r.value.msecPerTick)
    ensures r.Some? && usec < 1000000 && sec <= 4294967 - 1 ==> r.value.msecPerTick == sec * 1000 + usec / 1000
  {
    if readRate > readBurst || writeRate > writeBurst || readRate < 1 || writeRate < 1 then None
    else if readRate > RATE_MAX || writeRate > RATE_MAX || readBurst > RATE_MAX || writeBurst > RATE_MAX then None
    else
      var ms := sec * 1000 + usec % (COMMON_TIMEOUT_MICROSECONDS_MASK + 1) / 1000;
      Some(Cfg(readRate, readBurst, writeRate, writeBurst, ms % TWO32))
  }

  /** ev_token_bucket_get_tick_; the tick length must not be below a millisecond. */
  function Tick(sec: nat, usec: nat, cfg: Cfg): (t: nat)
    requires cfg.msecPerTick > 0
    ensures t < TWO32
  {
    (sec * 1000 + usec / 1000) / cfg.msecPerTick % TWO32
  }

  /** One direction of ev_token_bucket_update_, with the wrap-around of its 64-bit arithmetic. */
  function Refill(limit: int, max: nat, rate: nat, ticks: nat): int
    requires ticks > 0
  {
    if (max - limit) % TWO64 / ticks < rate then max
    else
      var sum := (limit + ticks * rate % TWO64) % TWO64;
      if sum > SSIZE_MAX then sum - TWO64 else sum
  }

  /** The overflow-safe refill adds `ticks * rate` and clips at the maximum, as in unbounded
      arithmetic, for every limit that is not above the maximum. */
  lemma {:induction false} RefillIsClippedSum(limit: int, max: nat, rate: nat, ticks: nat)
    requires 0 < ticks && max <= RATE_MAX && -SSIZE_MAX - 1 <= limit <= max
    ensures Refill(limit, max, rate, ticks) == Min(max, limit + ticks * rate)
  {
    var room := max - limit;
    assert room % TWO64 == room;
    QuotientBelow(room, ticks, rate);
    if room >= ticks * rate {
      assert (ticks * rate) % TWO64 == ticks * rate;
    }
  }

  lemma {:induction false} QuotientBelow(d: nat, n: nat, r: nat)
    requires n > 0
    ensures d / n < r <==> d < n * r
  {
    var q := d / n;
    assert d == n * q + d % n;
    if q < r {
      assert n * q <= n * (r - 1) == n * r - n;
    } else {
      assert n * q >= n * r;
    }
  }

  lemma {:induction false} Product(n: nat, r: nat)
    ensures n * r >= 0
    ensures n > 0 ==> n * r >= r
  {
    if n > 0 {
      assert n * r == (n - 1) * r + r;
    }
  }

  /** Ticks between two tick numbers, modulo 2^32. */
  function Elapsed(last: nat, tick: nat): (n: nat)
    ensures n < TWO32
  {
    (tick - last) % TWO32
  }

  /** Tick numbers have 32 bits: the ticks between two that are less than 2^32 apart are seen, a wrap included. */
  lemma {:induction false} ElapsedIs(start: nat, n: nat)
    requires n < 4294967296
    ensures Elapsed(start % 4294967296, (start + n) % 4294967296) == n
  {
    assert ((start + n) % TWO32 - start % TWO32) % TWO32 == n % TWO32;
  }

  /** `struct ev_token_bucket` */
  class TokenBucket {
    var readLimit: int
    var writeLimit: int
    var lastUpdated: nat

    /** No direction is above its maximum. */
    ghost predicate Within(cfg: Cfg)
      reads this
    {
      && -SSIZE_MAX - 1 <= readLimit <= cfg.readMax
      && -SSIZE_MAX - 1 <= writeLimit <= cfg.writeMax
    }

    constructor ()
      ensures readLimit == 0 && writeLimit == 0 && lastUpdated == 0
    {
      readLimit, writeLimit, lastUpdated := 0, 0, 0;
    }

    /** ev_token_bucket_init_, first use */
    method Init(cfg: Cfg, tick: nat)
      requires cfg.Valid()
      modifies this
      ensures readLimit == cfg.readRate && writeLimit == cfg.writeRate && lastUpdated == tick && Within(cfg)
    {
      readLimit, writeLimit, lastUpdated := cfg.readRate, cfg.writeRate, tick;
    }

    /** ev_token_bucket_init_, with a new configuration: limits are only clipped. */
    method Reinit(cfg: Cfg)
      requires cfg.Valid() && -SSIZE_MAX - 1 <= readLimit && -SSIZE_MAX - 1 <= writeLimit
      modifies this`readLimit, this`writeLimit
      ensures Within(cfg) && readLimit == Min(cfg.readMax, old(readLimit)) && writeLimit == Min(cfg.writeMax, old(writeLimit))
    {
      if readLimit > cfg.readMax {
        readLimit := cfg.readMax;
      }
      if writeLimit > cfg.writeMax {
        writeLimit := cfg.writeMax;
      }
    }

    /** ev_token_bucket_update_: the tick counter may wrap around; ticks in the past are ignored. */
    method Update(cfg: Cfg, tick: nat) returns (updated: bool)
      requires cfg.Valid() && Within(cfg)
      modifies this
      ensures Within(cfg) && old(readLimit) <= readLimit && old(writeLimit) <= writeLimit
      ensures var n := Elapsed(old(lastUpdated), tick);
              && (updated <==> 0 < n <= INT_MAX)
              && (if updated then
                    && readLimit == Min(cfg.readMax, old(readLimit) + n * cfg.readRate)
                    && writeLimit == Min(cfg.writeMax, old(writeLimit) + n * cfg.writeRate)
                    && lastUpdated == tick
                  else readLimit == old(readLimit) && writeLimit == old(writeLimit) && lastUpdated == old(lastUpdated))
    {
      hide Refill, Elapsed;
      var n := Elapsed(lastUpdated, tick);
      if n == 0 || n > INT_MAX {
        return false;
      }
      RefillIsClippedSum(readLimit, cfg.readMax, cfg.readRate, n);
      RefillIsClippedSum(writeLimit, cfg.writeMax, cfg.writeRate, n);
      Product(n, cfg.readRate);
      Product(n, cfg.writeRate);
      readLimit := Refill(readLimit, cfg.readMax, cfg.readRate, n);
      writeLimit := Refill(writeLimit, cfg.writeMax, cfg.writeRate, n);
      lastUpdated := tick;
      updated := true;
    }
  }
}
