/** Stored records and their time to live (storage/entity.go), and the check a
    write makes before it is proposed (raft_impl.go, SetKV). The clock is the
    parameter `now`, in seconds. */
module Entities {
  import opened Strings

  type Bytes = string

  /** md5 is a free, hence injective, constructor. */
  datatype Fingerprint = NoFingerprint | Md5(of: Bytes)

  datatype Entity = Entity(fingerprint: Fingerprint, key: string, val: Bytes,
                           createdAt: int, updatedAt: int, ttl: int)

  const NEVER_EXPIRED := -2
  const EXPIRED := -1

  const TWO_31 := 0x8000_0000
  const TWO_32 := 0x1_0000_0000

  /** Go's conversion to int32, and the result of int32 arithmetic. */
  function Int32(x: int): (r: int)
    ensures -TWO_31 <= r < TWO_31
    ensures -TWO_31 <= x < TWO_31 ==> r == x
  {
    var m := x % TWO_32;
    if m < TWO_31 then m else m - TWO_32
  }

  function NewEntityWithCreated(key: string, val: Bytes, ttl: int, created: int, now: int): Entity {
    Entity(Md5(val), key, val, created, now, if ttl == 0 then NEVER_EXPIRED else ttl)
  }

  /** EntityExpired overwrites the record's ttl with what is left of it; this
      is the record after that call. */
  function Tick(e: Entity, now: int): Entity {
    if e.ttl == NEVER_EXPIRED || e.ttl == EXPIRED then e
    else
      var left := Int32(e.ttl - Int32(now - e.updatedAt));
      e.(ttl := if left <= 0 then EXPIRED else left)
  }

  predicate EntityExpired(e: Entity, now: int) {
    Tick(e, now).ttl == EXPIRED
  }

  /** What a found record does to a SetKV request: the record to propose, or a
      refusal. `probe` is true when the record is first removed as expired. */
  datatype Prepared = Exists | Propose(probe: bool, entity: Entity)

  /** SetKV before proposing. EntityExpired runs once in probeRemoveExpired
      and, if the record survives, once more on the record it changed. */
  function PrepareSet(last: Option<Entity>, key: string, val: Bytes, ttl: int, overwrite: bool, now: int): Prepared {
    var probe := last.Some? && EntityExpired(last.value, now);
    if !overwrite && last.Some? && !probe then Exists
    else
      var keeps := last.Some? && !probe && !EntityExpired(Tick(last.value, now), now);
      Propose(probe, NewEntityWithCreated(key, val, ttl, if keeps then last.value.createdAt else now, now))
  }

  /** When a record written at u with a positive TTL is visible, at any time t: the
      age and what it leaves of the TTL are int32 numbers, so it shows again in
      the second half of every period of 2^32 seconds, from the point where the
      subtraction no longer wraps. */
  lemma VisibleIff(key: string, val: Bytes, ttl: int, created: int, u: int, t: int)
    requires 0 < ttl < TWO_31
    ensures var age := (t - u) % TWO_32;
            !EntityExpired(NewEntityWithCreated(key, val, ttl, created, u), t) <==> age < ttl || age > ttl + TWO_31
  {
    var age := (t - u) % TWO_32;
    var a := Int32(t - u);
    assert a == if age < TWO_31 then age else age - TWO_32;
    if ttl - a < TWO_31 {
      assert Int32(ttl - a) == ttl - a;
    } else {
      assert (ttl - a) % TWO_32 == ttl - a;
    }
  }

  /** A key written at u with a positive TTL is visible at t exactly while
      t - u < TTL. Sixty-eight years on, the int32 difference wraps; see
      ExpiredComesBack. */
  lemma VisibleWhileYoung(key: string, val: Bytes, ttl: int, created: int, u: int, t: int)
    requires 0 < ttl < TWO_31 && 0 <= t - u < TWO_31
    ensures !EntityExpired(NewEntityWithCreated(key, val, ttl, created, u), t) <==> t - u < ttl
  {
    assert Int32(t - u) == t - u;
    assert Int32(ttl - (t - u)) == ttl - (t - u);
  }

  /** Once expired, a record stays expired until it is rewritten. */
  lemma ExpiredStaysExpired(e: Entity, t: int, later: int)
    requires -TWO_31 < e.ttl < TWO_31
    requires 0 <= t - e.updatedAt <= later - e.updatedAt < TWO_31
    requires e.ttl > 0 || e.ttl == EXPIRED
    requires EntityExpired(e, t)
    ensures EntityExpired(e, later)
  {
    if e.ttl > 0 {
      assert Int32(t - e.updatedAt) == t - e.updatedAt;
      assert Int32(later - e.updatedAt) == later - e.updatedAt;
      assert Int32(e.ttl - (t - e.updatedAt)) == e.ttl - (t - e.updatedAt);
      assert Int32(e.ttl - (later - e.updatedAt)) == e.ttl - (later - e.updatedAt);
    }
  }

  /** The int32 conversion of the age wraps: 2^32 seconds after the write the
      record is as visible as when it was written. */
  lemma ExpiredComesBack(key: string, val: Bytes, u: int)
    ensures var e := NewEntityWithCreated(key, val, 60, u, u);
            EntityExpired(e, u + 60) && !EntityExpired(e, u + TWO_32)
  {
    assert Int32(60) == 60;
    assert TWO_32 % TWO_32 == 0;
  }

  /** What SetKV proposes is the record asked for, written now: its key, value and
      fingerprint, and visible exactly for its TTL, or for ever without one. */
  lemma ProposedIs(last: Option<Entity>, key: string, val: Bytes, ttl: int, overwrite: bool, now: int, t: int)
    requires PrepareSet(last, key, val, ttl, overwrite, now).Propose?
    ensures var e := PrepareSet(last, key, val, ttl, overwrite, now).entity;
            && e.key == key && e.val == val && e.fingerprint == Md5(val) && e.updatedAt == now
            && (0 < ttl < TWO_31 && 0 <= t - now < TWO_31 ==> (!EntityExpired(e, t) <==> t - now < ttl))
            && (ttl == 0 ==> !EntityExpired(e, t))
            && (ttl == EXPIRED ==> EntityExpired(e, t))
  {
    var e := PrepareSet(last, key, val, ttl, overwrite, now).entity;
    if 0 < ttl < TWO_31 && 0 <= t - now < TWO_31 {
      VisibleWhileYoung(key, val, ttl, e.createdAt, now, t);
    }
  }

  /** A record that never expires keeps its creation time over every overwrite. */
  lemma OverwriteKeepsCreatedAt(last: Entity, key: string, val: Bytes, ttl: int, now: int)
    requires last.ttl == NEVER_EXPIRED
    ensures var p := PrepareSet(Some(last), key, val, ttl, true, now);
            p.Propose? && !p.probe && p.entity.createdAt == last.createdAt && p.entity.val == val
  {
  }

  /** For a record with a TTL the double count loses the creation time as soon
      as half of the TTL has passed, although the record is still alive. */
  lemma CreatedAtLostAtHalfTtl(last: Entity, key: string, val: Bytes, ttl: int, now: int)
    requires 0 < last.ttl < TWO_31 && 0 <= now - last.updatedAt < last.ttl
    ensures var p := PrepareSet(Some(last), key, val, ttl, true, now);
            p.Propose? && !p.probe &&
            (p.entity.createdAt == last.createdAt
             <==> 2 * (now - last.updatedAt) < last.ttl || last.createdAt == now)
  {
    var age := now - last.updatedAt;
    assert Int32(age) == age;
    assert Int32(last.ttl - age) == last.ttl - age;
    var once := Tick(last, now);
    assert once.ttl == last.ttl - age;
    assert Int32(once.ttl - age) == once.ttl - age;
  }
}
