/** The pool of provider keys: health, cool-downs and the round-robin cursor. */
module KeyPool {
  import opened Option

  datatype KeyStatus = Healthy | Blocked | RateLimited

  datatype KeyEntry = KeyEntry(alias: string, apiKey: string, status: KeyStatus, until: Option<int>)

  /** The pool as a value. */
  datatype Pool = Pool(entries: seq<KeyEntry>, cursor: nat)

  function RefreshEntry(e: KeyEntry, now: int): KeyEntry {
    if e.status.RateLimited? && e.until.Some? && e.until.value <= now
    then e.(status := Healthy, until := None) else e
  }

  function Refresh(entries: seq<KeyEntry>, now: int): seq<KeyEntry> {
    seq(|entries|, i requires 0 <= i < |entries| => RefreshEntry(entries[i], now))
  }

  /** `_is_usable` */
  predicate Usable(e: KeyEntry, now: int) {
    match e.status
    case Blocked => false
    case RateLimited => e.until.Some? && e.until.value <= now
    case Healthy => true
  }

  /** Position `k` past the end wraps round. */
  function Wrap(k: nat, n: nat): nat
    requires k < 2 * n
  {
    if k < n then k else k - n
  }

  lemma WrapIsMod(k: nat, n: nat)
    requires k < 2 * n
    ensures k % n == Wrap(k, n)
  {
    if k >= n {
      assert k == n * 1 + (k - n);
      assert k / n == 1;
    }
  }

  /** The first usable key at or after the cursor, going round once. */
  function Scan(entries: seq<KeyEntry>, cursor: nat, offset: nat, now: int): (found: Option<nat>)
    requires cursor < |entries| && offset <= |entries|
    ensures found.Some? ==> found.value < |entries| && Usable(entries[found.value], now)
    decreases |entries| - offset
  {
    if offset == |entries| then None
    else
      var i := Wrap(cursor + offset, |entries|);
      if Usable(entries[i], now) then Some(i) else Scan(entries, cursor, offset + 1, now)
  }

  /** `acquire_healthy_key`: the pool afterwards and the index handed out. */
  function Acquire(p: Pool, now: int): (Pool, Option<nat>)
    requires WellFormed(p)
  {
    var entries := Refresh(p.entries, now);
    if entries == [] then (p, None)
    else
      match Scan(entries, p.cursor, 0, now)
      case Some(i) => (Pool(entries, Wrap(i + 1, |entries|)), Some(i))
      case None => (Pool(entries, p.cursor), None)
  }

  /** The first entry with this alias, or the length. */
  function IndexOf(entries: seq<KeyEntry>, alias: string): (i: nat)
    ensures i <= |entries|
    ensures i < |entries| ==> entries[i].alias == alias
    ensures forall k | 0 <= k < i :: entries[k].alias != alias
  {
    if entries == [] then 0
    else if entries[0].alias == alias then 0
    else
      var i := IndexOf(entries[1..], alias);
      assert forall k | 1 <= k < i + 1 :: entries[k] == entries[1..][k - 1];
      i + 1
  }

  function MarkAlias(entries: seq<KeyEntry>, alias: string, status: KeyStatus, until: Option<int>): seq<KeyEntry> {
    var i := IndexOf(entries, alias);
    if i < |entries| then entries[i := entries[i].(status := status, until := until)] else entries
  }

  /** Distinct aliases, a cursor inside the pool, and a cool-down end on every rate-limited key. */
  predicate WellFormed(p: Pool) {
    && (p.entries != [] ==> p.cursor < |p.entries|)
    && (forall i, j | 0 <= i < j < |p.entries| :: p.entries[i].alias != p.entries[j].alias)
    && (forall i | 0 <= i < |p.entries| && p.entries[i].status.RateLimited? :: p.entries[i].until.Some?)
  }

  class GroqKeyPool {
    var entries: seq<KeyEntry>
    var roundRobin: nat

    ghost function Value(): Pool
      reads this
    {
      Pool(entries, roundRobin)
    }

    constructor (keys: seq<(string, string)>)
      requires forall i, j | 0 <= i < j < |keys| :: keys[i].0 != keys[j].0
      ensures WellFormed(Value())
      ensures |entries| == |keys| && roundRobin == 0
      ensures forall i | 0 <= i < |keys| :: entries[i] == KeyEntry(keys[i].0, keys[i].1, Healthy, None)
    {
      entries := seq(|keys|, i requires 0 <= i < |keys| => KeyEntry(keys[i].0, keys[i].1, Healthy, None));
      roundRobin := 0;
    }

    /** `_refresh_expired_rate_limits` */
    method RefreshExpiredRateLimits(now: int)
      modifies this
      ensures entries == Refresh(old(entries), now) && roundRobin == old(roundRobin)
      ensures |entries| == |old(entries)| && forall k | 0 <= k < |entries| ::
                var was := old(entries)[k];
                entries[k] == if was.status == RateLimited && was.until.Some? && was.until.value <= now
                              then KeyEntry(was.alias, was.apiKey, Healthy, None) else was
    {
      for i := 0 to |entries|
        invariant |entries| == |old(entries)| && roundRobin == old(roundRobin)
        invariant forall k | 0 <= k < |entries| ::
                    entries[k] == if k < i then RefreshEntry(old(entries)[k], now) else old(entries)[k]
      {
        var entry := entries[i];
        if entry.status == RateLimited && entry.until.Some? && entry.until.value <= now {
          entries := entries[i := entry.(status := Healthy, until := None)];
        }
      }
    }

    /** `acquire_healthy_key` */
    method AcquireHealthyKey(now: int) returns (got: Option<nat>)
      requires WellFormed(Value())
      modifies this
      ensures (Value(), got) == Acquire(old(Value()), now)
    {
      RefreshExpiredRateLimits(now);
      if |entries| == 0 {
        return None;
      }
      hide Refresh, Usable;
      var count := |entries|;
      var offset := 0;
      while offset < count
        invariant 0 <= offset <= count == |entries|
        invariant Value() == Pool(Refresh(old(entries), now), old(roundRobin))
        invariant Scan(entries, roundRobin, 0, now) == Scan(entries, roundRobin, offset, now)
      {
        WrapIsMod(roundRobin + offset, count);
        var idx := (roundRobin + offset) % count;
        if Usable(entries[idx], now) {
          WrapIsMod(idx + 1, count);
          roundRobin := (idx + 1) % count;
          return Some(idx);
        }
        offset := offset + 1;
      }
      got := None;
    }

    method MarkBlocked(alias: string)
      modifies this
      ensures entries == MarkAlias(old(entries), alias, Blocked, None) && roundRobin == old(roundRobin)
      ensures |entries| == |old(entries)| && forall k | 0 <= k < |entries| ::
                var was := old(entries)[k];
                entries[k] == if was.alias == alias && (forall j | 0 <= j < k :: old(entries)[j].alias != alias)
                              then KeyEntry(alias, was.apiKey, Blocked, None) else was
    {
      for i := 0 to |entries|
        invariant entries == old(entries) && roundRobin == old(roundRobin)
        invariant IndexOf(entries, alias) >= i
      {
        if entries[i].alias == alias {
          entries := entries[i := entries[i].(status := Blocked, until := None)];
          return;
        }
      }
    }

    method MarkRateLimited(alias: string, until: int)
      modifies this
      ensures entries == MarkAlias(old(entries), alias, RateLimited, Some(until)) && roundRobin == old(roundRobin)
      ensures |entries| == |old(entries)| && forall k | 0 <= k < |entries| ::
                var was := old(entries)[k];
                entries[k] == if was.alias == alias && (forall j | 0 <= j < k :: old(entries)[j].alias != alias)
                              then KeyEntry(alias, was.apiKey, RateLimited, Some(until)) else was
    {
      for i := 0 to |entries|
        invariant entries == old(entries) && roundRobin == old(roundRobin)
        invariant IndexOf(entries, alias) >= i
      {
        if entries[i].alias == alias {
          entries := entries[i := entries[i].(status := RateLimited, until := Some(until))];
          return;
        }
      }
    }

    method AllExhausted(now: int) returns (exhausted: bool)
      modifies this
      ensures Value() == Pool(Refresh(old(entries), now), old(roundRobin))
      ensures exhausted <==> forall i | 0 <= i < |entries| :: !Usable(entries[i], now)
    {
      RefreshExpiredRateLimits(now);
      exhausted := forall i | 0 <= i < |entries| :: !Usable(entries[i], now);
    }

    /** `earliest_rate_limit_retry_at` */
    method EarliestRateLimitRetryAt(now: int) returns (earliest: Option<int>)
      modifies this
      ensures Value() == Pool(Refresh(old(entries), now), old(roundRobin))
      ensures IsEarliest(entries, earliest)
      ensures forall k | 0 <= k < |entries| && entries[k].status == RateLimited && entries[k].until.Some? ::
                earliest.Some? && earliest.value <= entries[k].until.value
      ensures earliest.Some? ==>
                exists k | 0 <= k < |entries| :: entries[k].status == RateLimited && entries[k].until == earliest
    {
      RefreshExpiredRateLimits(now);
      earliest := None;
      for i := 0 to |entries|
        invariant Value() == Pool(Refresh(old(entries), now), old(roundRobin))
        invariant IsEarliest(entries[..i], earliest)
      {
        var e := entries[i];
        if e.status == RateLimited && e.until.Some? {
          if earliest.None? || e.until.value < earliest.value {
            earliest := e.until;
          }
        }
        assert entries[..i + 1] == entries[..i] + [e];
        assert e in entries[..i + 1];
      }
      assert entries[..|entries|] == entries;
      assert forall k | 0 <= k < |entries| :: entries[k] in entries;
    }

    method AllBlocked() returns (blocked: bool)
      ensures blocked <==> forall i | 0 <= i < |entries| :: entries[i].status.Blocked?
    {
      if |entries| == 0 {
        return true;
      }
      blocked := forall i | 0 <= i < |entries| :: entries[i].status == Blocked;
    }
  }

  /** The minimum cool-down end of the rate-limited keys, or none if no key is rate-limited. */
  predicate IsEarliest(entries: seq<KeyEntry>, earliest: Option<int>) {
    && (forall e | e in entries && e.status.RateLimited? && e.until.Some? ::
          earliest.Some? && earliest.value <= e.until.value)
    && (earliest.Some? ==> exists e | e in entries :: e.status.RateLimited? && e.until == earliest)
  }

  // ---------------------------------------------------------------- bounded waiting

  /** How many positions the cursor still has to pass before it reaches key `i`. */
  function Distance(cursor: nat, i: nat, n: nat): nat
    requires cursor < n && i < n
  {
    if cursor <= i then i - cursor else i + n - cursor
  }

  lemma {:induction false} ScanReaches(entries: seq<KeyEntry>, cursor: nat, offset: nat, i: nat, now: int)
    requires cursor < |entries| && i < |entries| && Usable(entries[i], now)
    requires offset <= Distance(cursor, i, |entries|)
    ensures var found := Scan(entries, cursor, offset, now);
            && found.Some?
            && offset <= Distance(cursor, found.value, |entries|) <= Distance(cursor, i, |entries|)
    decreases |entries| - offset
  {
    var k := Wrap(cursor + offset, |entries|);
    assert Distance(cursor, k, |entries|) == offset;
    if !Usable(entries[k], now) {
      ScanReaches(entries, cursor, offset + 1, i, now);
    }
  }

  /** An acquire either hands out a given usable key or brings the cursor strictly closer to it. */
  lemma AcquireApproaches(p: Pool, i: nat, now: int)
    requires WellFormed(p) && i < |p.entries| && Usable(p.entries[i], now)
    ensures var (p', got) := Acquire(p, now);
            && got.Some? && WellFormed(p') && |p'.entries| == |p.entries|
            && Usable(p.entries[got.value], now)
            && (got.value != i ==>
                  Distance(p'.cursor, i, |p.entries|) < Distance(p.cursor, i, |p.entries|))
  {
    var entries := Refresh(p.entries, now);
    assert Usable(entries[i], now);
    ScanReaches(entries, p.cursor, 0, i, now);
    RefreshKeepsWellFormed(p, now);
  }

  lemma RefreshKeepsWellFormed(p: Pool, now: int)
    requires WellFormed(p)
    ensures WellFormed(Pool(Refresh(p.entries, now), p.cursor))
    ensures forall i | 0 <= i < |p.entries| :: Usable(Refresh(p.entries, now)[i], now) <==> Usable(p.entries[i], now)
  {
  }

  /** A healthy key is usable, a blocked one never, a cooling one from the end of its cool-down on. */
  lemma UsableMeans(e: KeyEntry, now: int)
    ensures e.status == Healthy ==> Usable(e, now)
    ensures e.status == Blocked ==> !Usable(e, now)
    ensures e.status == RateLimited ==> (Usable(e, now) <==> e.until.Some? && e.until.value <= now)
  {
  }

  /** Fairness of one acquire: the key handed out is the first usable one from the cursor on. */
  lemma AcquireMeans(p: Pool, now: int)
    requires WellFormed(p)
    ensures var (p', got) := Acquire(p, now);
            && |p'.entries| == |p.entries|
            && (got.None? <==> forall k | 0 <= k < |p.entries| :: !Usable(p.entries[k], now))
            && (got.None? ==> p'.cursor == p.cursor)
            && (got.Some? ==>
                  var i := got.value;
                  && i < |p.entries| && Usable(p.entries[i], now) && p'.entries[i].status == Healthy
                  && p'.cursor == (if i + 1 < |p.entries| then i + 1 else 0)
                  && forall k | 0 <= k < |p.entries| && Usable(p.entries[k], now) ::
                       (if p.cursor <= i then i - p.cursor else i + |p.entries| - p.cursor)
                       <= (if p.cursor <= k then k - p.cursor else k + |p.entries| - p.cursor))
  {
    RefreshKeepsWellFormed(p, now);
    var entries := Refresh(p.entries, now);
    hide Refresh, WellFormed, Scan;
    forall k | 0 <= k < |entries| && Usable(entries[k], now)
      ensures var found := Scan(entries, p.cursor, 0, now);
              found.Some? && Distance(p.cursor, found.value, |entries|) <= Distance(p.cursor, k, |entries|)
    {
      ScanReaches(entries, p.cursor, 0, k, now);
    }
    RefreshedIsHealthy(p, now);
  }

  lemma RefreshedIsHealthy(p: Pool, now: int)
    ensures forall k | 0 <= k < |p.entries| :: Usable(Refresh(p.entries, now)[k], now) ==>
              Refresh(p.entries, now)[k].status == Healthy
  {
  }

  datatype PoolOp = AcquireKey(now: int) | Block(alias: string) | Limit(alias: string, until: int) | Query(now: int)

  function ApplyOp(p: Pool, op: PoolOp): Pool
    requires WellFormed(p)
  {
    match op
    case AcquireKey(now) => Acquire(p, now).0
    case Block(alias) => p.(entries := MarkAlias(p.entries, alias, Blocked, None))
    case Limit(alias, until) => p.(entries := MarkAlias(p.entries, alias, RateLimited, Some(until)))
    case Query(now) => p.(entries := Refresh(p.entries, now))
  }

  lemma MarkKeepsWellFormed(p: Pool, alias: string, status: KeyStatus, until: Option<int>)
    requires WellFormed(p) && (status.RateLimited? ==> until.Some?)
    ensures WellFormed(p.(entries := MarkAlias(p.entries, alias, status, until)))
    ensures |MarkAlias(p.entries, alias, status, until)| == |p.entries|
  {
    var entries := MarkAlias(p.entries, alias, status, until);
    assert forall k | 0 <= k < |entries| :: entries[k].alias == p.entries[k].alias;
  }

  lemma OpKeepsWellFormed(p: Pool, op: PoolOp)
    requires WellFormed(p)
    ensures WellFormed(ApplyOp(p, op)) && |ApplyOp(p, op).entries| == |p.entries|
    ensures !op.AcquireKey? ==> ApplyOp(p, op).cursor == p.cursor
  {
    match op
    case AcquireKey(now) => RefreshKeepsWellFormed(p, now);
    case Block(alias) => MarkKeepsWellFormed(p, alias, Blocked, None);
    case Limit(alias, until) => MarkKeepsWellFormed(p, alias, RateLimited, Some(until));
    case Query(now) => RefreshKeepsWellFormed(p, now);
  }

  /** What marking does to each key's usability, at the time and later. */
  lemma MarkedMeans(p: Pool, i: nat, until: int, now: int)
    requires WellFormed(p) && i < |p.entries|
    ensures var alias := p.entries[i].alias;
            var blocked, cooled := ApplyOp(p, Block(alias)).entries, ApplyOp(p, Limit(alias, until)).entries;
            && |blocked| == |cooled| == |p.entries|
            && !Usable(blocked[i], now)
            && (Usable(cooled[i], now) <==> until <= now)
            && forall k | 0 <= k < |p.entries| && k != i :: blocked[k] == cooled[k] == p.entries[k]
  {
    assert IndexOf(p.entries, p.entries[i].alias) == i;
  }

  /** Key `i` is usable whenever one of the operations acquires a key. */
  predicate StaysUsable(p: Pool, ops: seq<PoolOp>, i: nat)
    requires WellFormed(p) && i < |p.entries|
    decreases |ops|
  {
    if ops == [] then true
    else
      OpKeepsWellFormed(p, ops[0]);
      && (ops[0].AcquireKey? ==> Usable(p.entries[i], ops[0].now))
      && StaysUsable(ApplyOp(p, ops[0]), ops[1..], i)
  }

  /** One of the acquires hands out key `i`. */
  predicate HandedOut(p: Pool, ops: seq<PoolOp>, i: nat)
    requires WellFormed(p)
    decreases |ops|
  {
    if ops == [] then false
    else
      OpKeepsWellFormed(p, ops[0]);
      || (ops[0].AcquireKey? && Acquire(p, ops[0].now).1 == Some(i))
      || HandedOut(ApplyOp(p, ops[0]), ops[1..], i)
  }

  function CountAcquires(ops: seq<PoolOp>): nat {
    if ops == [] then 0 else (if ops[0].AcquireKey? then 1 else 0) + CountAcquires(ops[1..])
  }

  lemma {:induction false} WaitIsDistance(p: Pool, ops: seq<PoolOp>, i: nat)
    requires WellFormed(p) && i < |p.entries| && StaysUsable(p, ops, i)
    requires CountAcquires(ops) > Distance(p.cursor, i, |p.entries|)
    ensures HandedOut(p, ops, i)
    decreases |ops|
  {
    var op := ops[0];
    OpKeepsWellFormed(p, op);
    if op.AcquireKey? {
      AcquireApproaches(p, i, op.now);
      if Acquire(p, op.now).1 != Some(i) {
        WaitIsDistance(ApplyOp(p, op), ops[1..], i);
      }
    } else {
      WaitIsDistance(ApplyOp(p, op), ops[1..], i);
    }
  }

  /** A key that stays usable is handed out within n acquires, whatever happens to the other keys. */
  lemma BoundedWaiting(p: Pool, ops: seq<PoolOp>, i: nat)
    requires WellFormed(p) && i < |p.entries| && StaysUsable(p, ops, i)
    requires CountAcquires(ops) >= |p.entries|
    ensures HandedOut(p, ops, i)
  {
    WaitIsDistance(p, ops, i);
  }
}
