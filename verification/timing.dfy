/**
 * The room's timing state: the three cache keys of a room, the expiring cache they live
 * in, the window `start_quiz` writes, and the elapsed time `submit_quiz` derives from it.
 * Time is counted in whole seconds.
 */
module Timing {
  import opened Wrappers

  /** The three per-room entries. */
  datatype Slot = StartAt | EndsAt | Aborted

  function SlotName(slot: Slot): string {
    match slot
    case StartAt => "start_at"
    case EndsAt => "ends_at"
    case Aborted => "aborted"
  }

  /** `_quiz_cache_keys(room_code)[slot]`: `"quiz:<room_code>:<slot>"`. */
  function CacheKey(code: string, slot: Slot): (key: string)
    ensures |key| == 6 + |code| + |SlotName(slot)|
    ensures key[..5] == "quiz:" && key[5..5 + |code|] == code
  {
    "quiz:" + code + ":" + SlotName(slot)
  }

  /** Different rooms or different slots never share a cache key. */
  lemma CacheKeyInjective(c1: string, s1: Slot, c2: string, s2: Slot)
    ensures CacheKey(c1, s1) == CacheKey(c2, s2) <==> c1 == c2 && s1 == s2
  {
    var k1, k2 := CacheKey(c1, s1), CacheKey(c2, s2);
    if k1 == k2 {
      // The last four characters name the slot: "t_at", "s_at" or "rted".
      assert k1[|k1| - 4..] == SlotName(s1)[|SlotName(s1)| - 4..];
      assert k2[|k2| - 4..] == SlotName(s2)[|SlotName(s2)| - 4..];
      assert s1 == s2;
      assert |c1| == |c2|;
    }
  }

  /** What the source stores: an ISO timestamp (a moment, here) or the abort flag. */
  datatype CacheValue = Stamp(at: int) | Flag(on: bool)

  /** Python truthiness of a cached value: a timestamp string is never empty. */
  predicate Truthy(v: Option<CacheValue>) {
    match v
    case None => false
    case Some(Stamp(_)) => true
    case Some(Flag(b)) => b
  }

  /** `_parse_iso(cache.get(key))`: a missing entry reads as None. */
  function StampOf(v: Option<CacheValue>): (t: Option<int>)
    ensures t.Some? ==> v == Some(Stamp(t.value))
    ensures v.Some? && v.value.Stamp? ==> t == Some(v.value.at)
  {
    match v
    case Some(Stamp(at)) => Some(at)
    case _ => None
  }

  /** A cached value with the moment it stops being readable. */
  datatype Entry = Entry(value: CacheValue, expiresAt: int)

  type Cache = map<string, Entry>

  /** `cache.get(key)`: an entry is readable strictly before its expiry moment. */
  function CacheGet(cache: Cache, key: string, now: int): (v: Option<CacheValue>)
    ensures v.Some? <==> key in cache && now < cache[key].expiresAt
    ensures v.Some? ==> v.value == cache[key].value
  {
    if key in cache && now < cache[key].expiresAt then Some(cache[key].value) else None
  }

  /**
   * `cache.set(key, value, timeout)`: a positive timeout keeps the value for that many
   * seconds; a zero or negative timeout leaves the key unreadable.
   */
  function CacheSet(cache: Cache, key: string, value: CacheValue, timeout: int, now: int): (r: Cache)
    ensures timeout > 0 ==> key in r && r[key] == Entry(value, now + timeout)
    ensures timeout <= 0 ==> key !in r
    ensures forall k :: k != key ==> (k in r <==> k in cache) && (k in r ==> r[k] == cache[k])
  {
    if timeout > 0 then cache[key := Entry(value, now + timeout)] else cache - {key}
  }

  /** Reading back: a set key returns the value until the timeout runs out; other keys are untouched. */
  lemma GetAfterSet(cache: Cache, key: string, value: CacheValue, timeout: int, now: int, later: int, other: string)
    requires now <= later
    ensures CacheGet(CacheSet(cache, key, value, timeout, now), key, later) ==
            (if later < now + timeout then Some(value) else None)
    ensures other != key ==>
            CacheGet(CacheSet(cache, key, value, timeout, now), other, later) == CacheGet(cache, other, later)
  {
  }

  /** `ABORT_TTL`: an abort flag stays readable for six hours. */
  const AbortTtl: int := 60 * 60 * 6

  function Max(a: int, b: int): int { if a >= b then a else b }
  function Min(a: int, b: int): int { if a <= b then a else b }

  /** `ends = now + timedelta(minutes=max(1, duration))`. */
  function WindowEnd(now: int, duration: int): (ends: int)
    ensures ends >= now + 60
    ensures duration >= 1 ==> ends == now + 60 * duration
  {
    now + 60 * Max(1, duration)
  }

  /** The timeout both window entries are written with: `duration * 120` seconds. */
  function WindowTtl(duration: int): int {
    duration * 120
  }

  /**
   * For a positive duration the two entries outlive the deadline, so a reader sees both
   * for the whole window; for a zero or negative duration neither is ever readable, so
   * such a room never counts as started.
   */
  lemma WindowEntriesOutliveDeadline(now: int, duration: int)
    ensures duration >= 1 ==> WindowEnd(now, duration) < now + WindowTtl(duration)
    ensures duration <= 0 ==> WindowTtl(duration) <= 0
  {
  }

  /**
   * The elapsed time `submit_quiz` records: `now - start` when a start is known (zero
   * otherwise), replaced by `ends - (start or ends)` once the deadline has passed.
   */
  function Elapsed(start: Option<int>, ends: Option<int>, now: int): (e: int)
    ensures start.None? ==> e == 0
    ensures start.Some? && ends.Some? ==> e == Min(now, ends.value) - start.value
    ensures start.Some? && ends.None? ==> e == now - start.value
  {
    var running := if start.Some? then now - start.value else 0;
    if ends.Some? && now > ends.value then ends.value - start.GetOr(ends.value) else running
  }

  /** Submitted within a started window, the elapsed time lies between zero and the window's length. */
  lemma ElapsedWithinWindow(start: int, ends: int, now: int)
    requires start <= ends && start <= now
    ensures 0 <= Elapsed(Some(start), Some(ends), now) <= ends - start
  {
  }
}
