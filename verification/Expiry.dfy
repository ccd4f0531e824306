/** Request age in 16-bit stamps of four seconds, on chain and on the oracle host. */
module Expiry {
  import opened Bytes

  const CREATED_AT_UNIT_SECS: int := 4
  const QUEUE_TTL_SECONDS: int := 120
  const CLOCK_SKEW_UNITS: int := 15

  /** Rust's i64 division by the unit: truncation toward zero. */
  function StampOf(t: int): int
  {
    if t >= 0 then t / CREATED_AT_UNIT_SECS else -((-t) / CREATED_AT_UNIT_SECS)
  }

  /** `created_at_from`: the low 16 bits of the quotient. */
  function CreatedAtFrom(t: i64): u16 { StampOf(t) % 0x1_0000 }

  /** `wrapping_sub` on u16. */
  function WrappingSub(a: u16, b: u16): u16 { (a - b) % 0x1_0000 }

  function AgeSecs(createdAt: u16, nowStamp: u16): nat { WrappingSub(nowStamp, createdAt) * CREATED_AT_UNIT_SECS }

  /** The purge predicate. */
  predicate Expired(createdAt: u16, nowStamp: u16) { AgeSecs(createdAt, nowStamp) > QUEUE_TTL_SECONDS }

  /** The oracle host's age: a stamp slightly ahead of the host clock reads as new. */
  function HostAgeSecs(createdAt: u16, nowStamp: u16): nat
  {
    if WrappingSub(createdAt, nowStamp) <= CLOCK_SKEW_UNITS then 0 else AgeSecs(createdAt, nowStamp)
  }

  predicate HostExpired(createdAt: u16, nowStamp: u16) { HostAgeSecs(createdAt, nowStamp) > QUEUE_TTL_SECONDS }

  lemma StampDifference(t0: i64, t1: i64)
    requires 0 <= t0 <= t1
    ensures WrappingSub(CreatedAtFrom(t1), CreatedAtFrom(t0)) == (t1 / 4 - t0 / 4) % 0x1_0000
  {
    var a, b := t1 / 4, t0 / 4;
    ModDifference(a, b);
  }

  lemma ModDifference(a: int, b: int)
    ensures (a % 0x1_0000 - b % 0x1_0000) % 0x1_0000 == (a - b) % 0x1_0000
  {
  }

  /** A request is expired exactly when the whole stamps elapsed, modulo the wrap,
      are at least 31: never up to an age of 120 s, always from 124 s to 262140 s. */
  lemma ExpiryExact(t0: i64, t1: i64)
    requires 0 <= t0 <= t1
    ensures Expired(CreatedAtFrom(t0), CreatedAtFrom(t1)) <==> (t1 / 4 - t0 / 4) % 0x1_0000 >= 31
    ensures t1 - t0 <= 120 ==> !Expired(CreatedAtFrom(t0), CreatedAtFrom(t1))
    ensures 124 <= t1 - t0 <= 262140 ==> Expired(CreatedAtFrom(t0), CreatedAtFrom(t1))
  {
    StampDifference(t0, t1);
    var d := t1 / 4 - t0 / 4;
    assert 0 <= d;
    if t1 - t0 <= 262140 {
      assert d <= 65535;
    }
  }

  /** "Older than the TTL" is not the same thing: between 121 s and 123 s it depends
      on the phase of the stamp, and past the wrap an old request reads as new. */
  lemma OlderThanTtlNotAlwaysExpired()
    ensures !Expired(CreatedAtFrom(0), CreatedAtFrom(123)) && 123 - 0 > QUEUE_TTL_SECONDS
    ensures !Expired(CreatedAtFrom(0), CreatedAtFrom(262144)) && 262144 - 0 > QUEUE_TTL_SECONDS
  {
    StampDifference(0, 123);
    StampDifference(0, 262144);
  }

  /** A request is not expired at the very time it was made. */
  lemma FreshNotExpired(t: i64)
    ensures !Expired(CreatedAtFrom(t), CreatedAtFrom(t))
  {
  }

  /** The host decides like the program, except for stamps 1 to 15 units ahead of
      the host clock, which the program would read as almost a full wrap old. */
  lemma HostAgrees(createdAt: u16, nowStamp: u16)
    ensures var ahead := WrappingSub(createdAt, nowStamp);
            && (HostExpired(createdAt, nowStamp) <==> Expired(createdAt, nowStamp) && !(1 <= ahead <= 15))
            && (1 <= ahead <= 15 ==> Expired(createdAt, nowStamp) && HostAgeSecs(createdAt, nowStamp) == 0)
            && (!(1 <= ahead <= 15) ==> HostAgeSecs(createdAt, nowStamp) == 4 * ((nowStamp - createdAt) % 0x1_0000))
  {
    var ahead: int := WrappingSub(createdAt, nowStamp);
    var behind: int := WrappingSub(nowStamp, createdAt);
    if createdAt == nowStamp {
      assert ahead == 0 && behind == 0;
    } else {
      assert ahead + behind == 0x1_0000;
    }
  }
}
