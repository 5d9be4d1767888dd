/** One provider call with key rotation: why the `while True` loop ends, and what it reports. */
module GroqRotation {
  import opened Option
  import opened KeyPool

  /** What one provider invocation came to, after the error classifiers. */
  datatype Response =
    | Answer(content: string)
    | TokenLimit
    | AuthRejected                       // 401 or 403
    | TooManyRequests(retryAfter: Option<int>)  // 429, with the parsed header if any
    | InfraFailure                       // a timeout or a 5xx
    | OtherFailure

  datatype CallResult =
    | Success(content: string, alias: string, attempt: nat)
    | TokenLimitFailure(alias: string, attempt: nat)
    | InfraError(alias: string, attempt: nat)
    | PoolExhausted
    | AllRateLimited(retrySeconds: Option<int>, retryAt: Option<int>)

  /** `_extract_retry_after_seconds` */
  function RetrySeconds(retryAfter: Option<int>): (s: int)
    ensures s >= 1
    ensures retryAfter.None? ==> s == 60
    ensures retryAfter.Some? && retryAfter.value >= 1 ==> s == retryAfter.value
    ensures retryAfter.Some? && retryAfter.value < 1 ==> s == 1
  {
    if retryAfter.None? then 60 else if retryAfter.value < 1 then 1 else retryAfter.value
  }

  predicate NoneUsable(entries: seq<KeyEntry>, now: int) {
    forall i | 0 <= i < |entries| :: !Usable(entries[i], now)
  }

  predicate EveryBlocked(entries: seq<KeyEntry>) {
    forall i | 0 <= i < |entries| :: entries[i].status.Blocked?
  }

  /** How many keys could be handed out now. */
  function UsableCount(entries: seq<KeyEntry>, now: int): nat {
    if entries == [] then 0
    else (if Usable(entries[0], now) then 1 else 0) + UsableCount(entries[1..], now)
  }

  lemma {:induction false} UsableCountBound(entries: seq<KeyEntry>, now: int)
    ensures UsableCount(entries, now) <= |entries|
    ensures UsableCount(entries, now) == 0 <==> NoneUsable(entries, now)
  {
    if entries != [] {
      UsableCountBound(entries[1..], now);
      assert forall i | 1 <= i < |entries| :: entries[i] == entries[1..][i - 1];
      assert forall i | 0 <= i < |entries[1..]| :: entries[1..][i] == entries[i + 1];
    }
  }

  lemma {:induction false} UsableCountSame(a: seq<KeyEntry>, b: seq<KeyEntry>, now: int)
    requires |a| == |b| && forall i | 0 <= i < |a| :: Usable(a[i], now) == Usable(b[i], now)
    ensures UsableCount(a, now) == UsableCount(b, now)
  {
    if a != [] {
      UsableCountSame(a[1..], b[1..], now);
    }
  }

  lemma {:induction false} UsableCountSet(entries: seq<KeyEntry>, i: nat, e: KeyEntry, now: int)
    requires i < |entries| && Usable(entries[i], now) && !Usable(e, now)
    ensures UsableCount(entries[i := e], now) == UsableCount(entries, now) - 1
  {
    if i > 0 {
      UsableCountSet(entries[1..], i - 1, e, now);
      assert entries[i := e][1..] == entries[1..][i - 1 := e];
    } else {
      assert entries[i := e][1..] == entries[1..];
    }
  }

  /** Retiring the key just handed out leaves one usable key fewer. */
  lemma RetireKey(p: Pool, i: nat, status: KeyStatus, until: Option<int>, now: int)
    requires WellFormed(p) && i < |p.entries| && Usable(p.entries[i], now)
    requires status.Blocked? || (status.RateLimited? && until.Some? && until.value > now)
    ensures var entries := MarkAlias(p.entries, p.entries[i].alias, status, until);
            && WellFormed(p.(entries := entries))
            && UsableCount(entries, now) == UsableCount(p.entries, now) - 1
  {
    var k := IndexOf(p.entries, p.entries[i].alias);
    assert k == i;
    MarkKeepsWellFormed(p, p.entries[i].alias, status, until);
    UsableCountSet(p.entries, i, p.entries[i].(status := status, until := until), now);
  }

  /** An acquire at a fixed time changes no key's usability. */
  lemma AcquireKeepsUsable(p: Pool, now: int)
    requires WellFormed(p)
    ensures var (p', got) := Acquire(p, now);
            && WellFormed(p')
            && UsableCount(p'.entries, now) == UsableCount(p.entries, now)
            && (got.None? <==> UsableCount(p.entries, now) == 0)
            && (got.Some? ==> got.value < |p'.entries| && Usable(p'.entries[got.value], now))
            && (got.None? ==> p'.entries == Refresh(p.entries, now))
  {
    RefreshKeepsWellFormed(p, now);
    var entries := Refresh(p.entries, now);
    UsableCountSame(entries, p.entries, now);
    UsableCountBound(p.entries, now);
    if UsableCount(p.entries, now) > 0 {
      var i :| 0 <= i < |p.entries| && Usable(p.entries[i], now);
      AcquireApproaches(p, i, now);
    } else {
      UsableCountBound(entries, now);
    }
  }

  /** `range(n)` runs this often. */
  function Tries(maxInfraAttempts: int): nat {
    if maxInfraAttempts < 0 then 0 else maxInfraAttempts
  }

  /** Provider calls that this many usable keys can cost. */
  function Budget(usable: nat, attempts: int): nat {
    usable * Tries(attempts)
  }

  lemma OneKeyCost(usable: nat, attempts: int)
    requires usable > 0
    ensures Budget(usable, attempts) == Budget(usable - 1, attempts) + Tries(attempts)
  {
  }

  ghost predicate HasUsable(entries: seq<KeyEntry>, alias: string, now: int) {
    exists i | 0 <= i < |entries| :: Usable(entries[i], now) && entries[i].alias == alias
  }

  /** What a call that stops without any key reports. */
  ghost predicate ReportsPool(entries: seq<KeyEntry>, now: int, result: CallResult) {
    && NoneUsable(entries, now)
    && (result.PoolExhausted? <==> EveryBlocked(entries))
    && (result.AllRateLimited? ==>
          && result.retryAt.Some? && IsEarliest(entries, result.retryAt) && result.retryAt.value > now
          && result.retrySeconds == Some(result.retryAt.value - now))
    && (result.PoolExhausted? || result.AllRateLimited?)
  }

  lemma SomeKeyIsCooling(entries: seq<KeyEntry>, now: int, earliest: Option<int>)
    requires WellFormed(Pool(entries, 0)) && IsEarliest(entries, earliest)
    requires NoneUsable(entries, now)
    requires !EveryBlocked(entries)
    ensures earliest.Some? && earliest.value > now
  {
    var i :| 0 <= i < |entries| && !entries[i].status.Blocked?;
    assert entries[i] in entries && entries[i].status.RateLimited?;
    var e :| e in entries && e.status.RateLimited? && e.until == earliest;
  }

  /** The result a final response calls for, on the given attempt with one key. */
  predicate Concludes(result: CallResult, last: Response, alias: string, attempt: nat, maxAttempts: int) {
    match last
    case Answer(content) => result == Success(content, alias, attempt)
    case TokenLimit => result == TokenLimitFailure(alias, attempt)
    case InfraFailure => result == InfraError(alias, attempt) && attempt == maxAttempts
    case OtherFailure => result == InfraError(alias, attempt)
    case AuthRejected => false
    case TooManyRequests(_) => false
  }

  predicate RetiresKey(r: Response) {
    r.AuthRejected? || r.TooManyRequests?
  }

  /** Responses `lo` to `hi - 1` were all infrastructure failures. */
  ghost predicate OnlyInfra(provider: nat -> Response, lo: nat, hi: nat) {
    forall k: nat | lo <= k < hi :: provider(k).InfraFailure?
  }

  /** Each of the first `n` responses asked for another try. */
  ghost predicate AllRetried(provider: nat -> Response, n: nat) {
    forall k: nat | k < n :: RetiresKey(provider(k)) || provider(k).InfraFailure?
  }

  // ---------------------------------------------------------------- when the loop ends

  /** One turn of the loop either returns or goes on with a changed pool, after so many calls in all. */
  datatype Turn = Returns | GoesOn(pool: Pool, calls: nat)

  /** The attempts from `attempt` on with the key at `i`. */
  function KeyTurn(
    p: Pool, i: nat, provider: nat -> Response, now: int, maxInfraAttempts: int, from: nat, attempt: nat): Turn
    requires i < |p.entries|
    decreases maxInfraAttempts - attempt
  {
    if attempt >= maxInfraAttempts then GoesOn(p, from + attempt)
    else
      match provider(from + attempt)
      case AuthRejected =>
        GoesOn(p.(entries := MarkAlias(p.entries, p.entries[i].alias, Blocked, None)), from + attempt + 1)
      case TooManyRequests(retryAfter) =>
        var until := Some(now + RetrySeconds(retryAfter));
        GoesOn(p.(entries := MarkAlias(p.entries, p.entries[i].alias, RateLimited, until)), from + attempt + 1)
      case InfraFailure =>
        if attempt < maxInfraAttempts - 1 then KeyTurn(p, i, provider, now, maxInfraAttempts, from, attempt + 1)
        else Returns
      case _ => Returns
  }

  /** One turn of the `while True` loop. */
  function LoopTurn(p: Pool, provider: nat -> Response, now: int, maxInfraAttempts: int, calls: nat): Turn
    requires WellFormed(p)
  {
    AcquireKeepsUsable(p, now);
    var (p', got) := Acquire(p, now);
    if got.None? then Returns else KeyTurn(p', got.value, provider, now, maxInfraAttempts, calls, 0)
  }

  /** A turn that goes on has retired exactly one usable key, or none if there was nothing to attempt. */
  lemma {:induction false} KeyTurnRetires(
    p: Pool, i: nat, provider: nat -> Response, now: int, maxInfraAttempts: int, from: nat, attempt: nat)
    requires WellFormed(p) && i < |p.entries| && Usable(p.entries[i], now)
    requires attempt < maxInfraAttempts || attempt == 0
    ensures var turn := KeyTurn(p, i, provider, now, maxInfraAttempts, from, attempt);
            turn.GoesOn? ==>
              && WellFormed(turn.pool)
              && UsableCount(turn.pool.entries, now)
                 == UsableCount(p.entries, now) - (if maxInfraAttempts >= 1 then 1 else 0)
              && turn.calls >= from + (if maxInfraAttempts >= 1 then 1 else 0)
    ensures maxInfraAttempts <= 0 ==> KeyTurn(p, i, provider, now, maxInfraAttempts, from, attempt) == GoesOn(p, from)
    decreases maxInfraAttempts - attempt
  {
    hide UsableCount, WellFormed;
    if attempt < maxInfraAttempts {
      match provider(from + attempt)
      case AuthRejected =>
        RetireKey(p, i, Blocked, None, now);
      case TooManyRequests(retryAfter) =>
        RetireKey(p, i, RateLimited, Some(now + RetrySeconds(retryAfter)), now);
      case InfraFailure =>
        if attempt < maxInfraAttempts - 1 {
          KeyTurnRetires(p, i, provider, now, maxInfraAttempts, from, attempt + 1);
        }
      case _ =>
    }
  }

  lemma LoopTurnRetires(p: Pool, provider: nat -> Response, now: int, maxInfraAttempts: int, calls: nat)
    requires WellFormed(p)
    ensures var turn := LoopTurn(p, provider, now, maxInfraAttempts, calls);
            && (UsableCount(p.entries, now) == 0 ==> turn.Returns?)
            && (UsableCount(p.entries, now) > 0 && maxInfraAttempts <= 0 ==> turn.GoesOn?)
            && (turn.GoesOn? ==>
                  && WellFormed(turn.pool)
                  && UsableCount(turn.pool.entries, now)
                     == UsableCount(p.entries, now) - (if maxInfraAttempts >= 1 then 1 else 0))
  {
    hide UsableCount, WellFormed, KeyTurn, Usable;
    AcquireKeepsUsable(p, now);
    var (p', got) := Acquire(p, now);
    if got.Some? {
      KeyTurnRetires(p', got.value, provider, now, maxInfraAttempts, calls, 0);
    }
  }

  /** What `n` turns of the loop come to. */
  function AfterTurns(p: Pool, provider: nat -> Response, now: int, maxInfraAttempts: int, n: nat): (turn: Turn)
    requires WellFormed(p)
    ensures turn.GoesOn? ==> WellFormed(turn.pool)
  {
    if n == 0 then GoesOn(p, 0)
    else
      match AfterTurns(p, provider, now, maxInfraAttempts, n - 1)
      case Returns => Returns
      case GoesOn(q, calls) =>
        LoopTurnRetires(q, provider, now, maxInfraAttempts, calls);
        LoopTurn(q, provider, now, maxInfraAttempts, calls)
  }

  ghost predicate LoopReturns(p: Pool, provider: nat -> Response, now: int, maxInfraAttempts: int)
    requires WellFormed(p)
  {
    exists n: nat :: AfterTurns(p, provider, now, maxInfraAttempts, n).Returns?
  }

  lemma {:induction false} TurnsRetire(p: Pool, provider: nat -> Response, now: int, maxInfraAttempts: int, n: nat)
    requires WellFormed(p)
    ensures var turn := AfterTurns(p, provider, now, maxInfraAttempts, n);
            && (turn.GoesOn? ==>
                  UsableCount(turn.pool.entries, now)
                  == UsableCount(p.entries, now) - (if maxInfraAttempts >= 1 then n else 0))
            && (UsableCount(p.entries, now) > 0 && maxInfraAttempts <= 0 ==> turn.GoesOn?)
  {
    hide UsableCount, WellFormed, LoopTurn;
    if n > 0 {
      TurnsRetire(p, provider, now, maxInfraAttempts, n - 1);
      var turn := AfterTurns(p, provider, now, maxInfraAttempts, n - 1);
      if turn.GoesOn? {
        LoopTurnRetires(turn.pool, provider, now, maxInfraAttempts, turn.calls);
      }
    }
  }

  /**
   The loop returns exactly if an attempt is configured or no key is usable: with nothing to attempt
   every turn hands out a usable key and leaves it usable.
   */
  lemma LoopReturnsExactlyWhen(p: Pool, provider: nat -> Response, now: int, maxInfraAttempts: int)
    requires WellFormed(p)
    ensures LoopReturns(p, provider, now, maxInfraAttempts)
       <==> maxInfraAttempts >= 1 || UsableCount(p.entries, now) == 0
  {
    hide UsableCount, WellFormed, AfterTurns;
    var n := UsableCount(p.entries, now);
    if maxInfraAttempts >= 1 || n == 0 {
      TurnsRetire(p, provider, now, maxInfraAttempts, n);
      NoKeyReturns(p, provider, now, maxInfraAttempts, n);
    } else {
      forall m: nat ensures !AfterTurns(p, provider, now, maxInfraAttempts, m).Returns? {
        TurnsRetire(p, provider, now, maxInfraAttempts, m);
      }
    }
  }

  /** One healthy key and no attempts: the loop hands the key out for ever. */
  lemma NoAttemptsNeverReturns(key: KeyEntry, provider: nat -> Response, now: int)
    requires key.status.Healthy?
    ensures WellFormed(Pool([key], 0)) && !LoopReturns(Pool([key], 0), provider, now, 0)
  {
    UsableCountBound([key], now);
    assert !NoneUsable([key], now) by {
      assert Usable([key][0], now);
    }
    LoopReturnsExactlyWhen(Pool([key], 0), provider, now, 0);
  }

  /** Once no key is usable the next turn reports the pool. */
  lemma NoKeyReturns(p: Pool, provider: nat -> Response, now: int, maxInfraAttempts: int, n: nat)
    requires WellFormed(p)
    requires var turn := AfterTurns(p, provider, now, maxInfraAttempts, n);
             turn.GoesOn? ==> UsableCount(turn.pool.entries, now) == 0
    ensures AfterTurns(p, provider, now, maxInfraAttempts, n + 1).Returns?
  {
    hide UsableCount, WellFormed, LoopTurn;
    var turn := AfterTurns(p, provider, now, maxInfraAttempts, n);
    if turn.GoesOn? {
      LoopTurnRetires(turn.pool, provider, now, maxInfraAttempts, turn.calls);
    }
  }

  /**
   The attempts with one key: infrastructure failures repeat, anything else decides.  Without an
   attempt to make, the key is given back untried.
   */
  method TryKey(pool: GroqKeyPool, i: nat, provider: nat -> Response, now: int, maxInfraAttempts: int, from: nat)
    returns (result: Option<CallResult>, calls: nat)
    requires WellFormed(pool.Value())
    requires i < |pool.entries| && Usable(pool.entries[i], now)
    modifies pool
    ensures WellFormed(pool.Value()) && |pool.entries| == |old(pool.entries)|
    ensures from <= calls <= from + Tries(maxInfraAttempts) && (calls == from <==> maxInfraAttempts <= 0)
    ensures result.Some? ==>
              calls > from && KeyTurn(old(pool.Value()), i, provider, now, maxInfraAttempts, from, 0).Returns?
    ensures result.None? ==>
              KeyTurn(old(pool.Value()), i, provider, now, maxInfraAttempts, from, 0) == GoesOn(pool.Value(), calls)
    ensures result.Some? ==> result.value.Success? || result.value.TokenLimitFailure? || result.value.InfraError?
    ensures result.Some? ==> result.value.attempt == calls - from && result.value.alias == old(pool.entries)[i].alias
    ensures calls > from ==> OnlyInfra(provider, from, calls - 1)
    ensures result.Some? ==>
              pool.entries == old(pool.entries)
              && Concludes(result.value, provider(calls - 1), pool.entries[i].alias, calls - from, maxInfraAttempts)
    ensures result.None? && calls > from ==>
              RetiresKey(provider(calls - 1))
              && UsableCount(pool.entries, now) == UsableCount(old(pool.entries), now) - 1
    // the last response decides, and what it does to the key
    ensures calls > from ==>
              var e := old(pool.entries)[i];
              && (forall k: nat | from <= k < calls - 1 :: provider(k) == InfraFailure)
              && match provider(calls - 1)
                 case Answer(content) => result == Some(Success(content, e.alias, calls - from))
                 case TokenLimit => result == Some(TokenLimitFailure(e.alias, calls - from))
                 case InfraFailure =>
                   result == Some(InfraError(e.alias, calls - from)) && calls == from + maxInfraAttempts
                 case OtherFailure => result == Some(InfraError(e.alias, calls - from))
                 case AuthRejected =>
                   result == None && pool.entries == old(pool.entries)[i := e.(status := Blocked, until := None)]
                 case TooManyRequests(header) =>
                   && result == None
                   && pool.entries == old(pool.entries)[
                        i := e.(status := RateLimited,
                                until := Some(now + if header.None? then 60
                                                    else if header.value < 1 then 1 else header.value))]
  {
    hide UsableCount, WellFormed;
    ghost var p := pool.Value();
    var alias := pool.entries[i].alias;
    var attempt := 0;
    while attempt < maxInfraAttempts
      invariant pool.Value() == p
      invariant attempt < maxInfraAttempts || (attempt == 0 && maxInfraAttempts <= 0)
      invariant forall k | from <= k < from + attempt :: provider(k).InfraFailure?
      invariant KeyTurn(p, i, provider, now, maxInfraAttempts, from, 0)
             == KeyTurn(p, i, provider, now, maxInfraAttempts, from, attempt)
    {
      calls := from + attempt + 1;
      match provider(from + attempt) {
        case Answer(content) =>
          return Some(Success(content, alias, attempt + 1)), calls;
        case TokenLimit =>
          return Some(TokenLimitFailure(alias, attempt + 1)), calls;
        case AuthRejected =>
          RetireKey(p, i, Blocked, None, now);
          MarkedOne(p, i, Blocked, None);
          pool.MarkBlocked(alias);
          return None, calls;
        case TooManyRequests(retryAfter) =>
          var until := now + RetrySeconds(retryAfter);
          RetireKey(p, i, RateLimited, Some(until), now);
          MarkedOne(p, i, RateLimited, Some(until));
          pool.MarkRateLimited(alias, until);
          return None, calls;
        case InfraFailure =>
          if attempt >= maxInfraAttempts - 1 {
            return Some(InfraError(alias, attempt + 1)), calls;
          }
        case OtherFailure =>
          return Some(InfraError(alias, attempt + 1)), calls;
      }
      attempt := attempt + 1;
    }
    return None, from;
  }

  lemma MarkedOne(p: Pool, i: nat, status: KeyStatus, until: Option<int>)
    requires WellFormed(p) && i < |p.entries|
    ensures MarkAlias(p.entries, p.entries[i].alias, status, until)
         == p.entries[i := p.entries[i].(status := status, until := until)]
  {
    assert IndexOf(p.entries, p.entries[i].alias) == i;
  }

  /** A key in hand that is still usable rules out both pool reports. */
  lemma KeyLeft(entries: seq<KeyEntry>, i: nat, now: int)
    requires i < |entries| && Usable(entries[i], now)
    ensures HasUsable(entries, entries[i].alias, now)
  {
  }

  lemma UsableIsNotBlocked(entries: seq<KeyEntry>, alias: string, now: int)
    requires HasUsable(entries, alias, now)
    ensures !NoneUsable(entries, now) && !EveryBlocked(entries)
  {
  }

  /** What a returning turn reports, after `calls` calls of which `from` were made in earlier turns. */
  ghost predicate TurnReports(
    entries: seq<KeyEntry>, provider: nat -> Response, now: int, maxInfraAttempts: int,
    from: nat, calls: nat, result: CallResult)
  {
    if result.PoolExhausted? || result.AllRateLimited? then calls == from && ReportsPool(entries, now, result)
    else
      && from < calls && result.attempt == calls - from
      && Concludes(result, provider(calls - 1), result.alias, result.attempt, maxInfraAttempts)
      && OnlyInfra(provider, from, calls - 1)
      && HasUsable(entries, result.alias, now)
  }

  /** A turn that goes on has used up one key and its last answer said so. */
  ghost predicate TurnRetires(
    was: seq<KeyEntry>, entries: seq<KeyEntry>, provider: nat -> Response, now: int, from: nat, calls: nat)
  {
    && from < calls
    && UsableCount(entries, now) == UsableCount(was, now) - 1
    && OnlyInfra(provider, from, calls - 1)
    && RetiresKey(provider(calls - 1))
  }

  /** The acquire at the head of the loop, seen through the keys still usable. */
  method NextKey(pool: GroqKeyPool, now: int) returns (key: Option<nat>)
    requires WellFormed(pool.Value())
    modifies pool
    ensures WellFormed(pool.Value()) && |pool.entries| == |old(pool.entries)|
    ensures (pool.Value(), key) == Acquire(old(pool.Value()), now)
    ensures UsableCount(pool.entries, now) == UsableCount(old(pool.entries), now)
    ensures key.None? ==> NoneUsable(pool.entries, now)
    ensures key.Some? ==>
              key.value < |pool.entries| && Usable(pool.entries[key.value], now)
              && UsableCount(pool.entries, now) > 0
  {
    hide UsableCount, Scan, Usable;
    AcquireKeepsUsable(pool.Value(), now);
    key := pool.AcquireHealthyKey(now);
    UsableCountBound(pool.entries, now);
  }

  /** The branch of the loop that finds no key. */
  method ReportPool(pool: GroqKeyPool, now: int) returns (result: CallResult)
    requires WellFormed(pool.Value()) && NoneUsable(pool.entries, now)
    modifies pool
    ensures WellFormed(pool.Value()) && |pool.entries| == |old(pool.entries)|
    ensures ReportsPool(pool.entries, now, result)
    ensures result.PoolExhausted? <==> forall k | 0 <= k < |pool.entries| :: pool.entries[k].status == Blocked
    ensures result.AllRateLimited? ==>
              && result.retryAt.Some? && now < result.retryAt.value
              && result.retrySeconds == Some(result.retryAt.value - now)
              && (forall k | 0 <= k < |pool.entries| && pool.entries[k].status == RateLimited ::
                    pool.entries[k].until.Some? && result.retryAt.value <= pool.entries[k].until.value)
              && exists k | 0 <= k < |pool.entries| ::
                   pool.entries[k].status == RateLimited && pool.entries[k].until == result.retryAt
  {
    var blocked := pool.AllBlocked();
    if blocked {
      return PoolExhausted;
    }
    RefreshKeepsWellFormed(pool.Value(), now);
    var retryAt := pool.EarliestRateLimitRetryAt(now);
    assert forall i | 0 <= i < |pool.entries| ::
        pool.entries[i].status.Blocked? <==> old(pool.entries)[i].status.Blocked?;
    SomeKeyIsCooling(pool.entries, now, retryAt);
    var retrySeconds := None;
    if retryAt.Some? {
      var delta := retryAt.value - now;
      retrySeconds := Some(if delta < 1 then 1 else delta);
    }
    result := AllRateLimited(retrySeconds, retryAt);
  }

  /** One turn: acquire a key and try it, or report the pool. */
  method TakeTurn(pool: GroqKeyPool, provider: nat -> Response, now: int, maxInfraAttempts: int, from: nat)
    returns (result: Option<CallResult>, calls: nat)
    requires WellFormed(pool.Value())
    requires maxInfraAttempts >= 1 || UsableCount(pool.entries, now) == 0
    modifies pool
    ensures WellFormed(pool.Value()) && |pool.entries| == |old(pool.entries)|
    ensures from <= calls <= from + Tries(maxInfraAttempts)
    ensures calls > from ==> UsableCount(old(pool.entries), now) > 0
    ensures result.Some? ==>
              && LoopTurn(old(pool.Value()), provider, now, maxInfraAttempts, from).Returns?
              && TurnReports(pool.entries, provider, now, maxInfraAttempts, from, calls, result.value)
    ensures result.None? ==>
              && LoopTurn(old(pool.Value()), provider, now, maxInfraAttempts, from) == GoesOn(pool.Value(), calls)
              && TurnRetires(old(pool.entries), pool.entries, provider, now, from, calls)
  {
    hide UsableCount, Acquire, Concludes, RetiresKey, WellFormed, OnlyInfra, KeyTurn, Usable, HasUsable;
    hide ReportsPool, NoneUsable, Scan;
    calls := from;
    var key := NextKey(pool, now);
    if key.None? {
      var report := ReportPool(pool, now);
      PoolReported(pool.entries, now, report);
      return Some(report), calls;
    }
    result, calls := TryKey(pool, key.value, provider, now, maxInfraAttempts, from);
    if result.Some? {
      KeyLeft(pool.entries, key.value, now);
    }
  }

  lemma PoolReported(entries: seq<KeyEntry>, now: int, result: CallResult)
    requires ReportsPool(entries, now, result)
    ensures result.PoolExhausted? || result.AllRateLimited?
    ensures NoneUsable(entries, now) && (result.PoolExhausted? <==> EveryBlocked(entries))
  {
  }

  /** What holds between turns. */
  ghost predicate CallSoFar(
    p: Pool, q: Pool, provider: nat -> Response, now: int, maxInfraAttempts: int, turns: nat, calls: nat)
    requires WellFormed(p)
  {
    && WellFormed(q) && |q.entries| == |p.entries|
    && (maxInfraAttempts >= 1 || UsableCount(q.entries, now) == 0)
    && AfterTurns(p, provider, now, maxInfraAttempts, turns) == GoesOn(q, calls)
    && calls + Budget(UsableCount(q.entries, now), maxInfraAttempts)
       <= Budget(UsableCount(p.entries, now), maxInfraAttempts)
    && AllRetried(provider, calls)
    && (calls > 0 ==> RetiresKey(provider(calls - 1)))
  }

  lemma SettingStillFits(
    p: Pool, q: Pool, provider: nat -> Response, now: int, maxInfraAttempts: int, turns: nat, calls: nat)
    requires WellFormed(p) && CallSoFar(p, q, provider, now, maxInfraAttempts, turns, calls)
    ensures maxInfraAttempts >= 1 || UsableCount(q.entries, now) == 0
  {
  }

  lemma CallBegins(p: Pool, provider: nat -> Response, now: int, maxInfraAttempts: int)
    requires WellFormed(p) && (maxInfraAttempts >= 1 || UsableCount(p.entries, now) == 0)
    ensures CallSoFar(p, p, provider, now, maxInfraAttempts, 0, 0)
  {
  }

  lemma CallGoesOn(
    p: Pool, q: Pool, q': Pool, provider: nat -> Response, now: int, maxInfraAttempts: int,
    turns: nat, from: nat, calls: nat)
    requires WellFormed(p) && CallSoFar(p, q, provider, now, maxInfraAttempts, turns, from)
    requires WellFormed(q') && |q'.entries| == |q.entries| && calls <= from + Tries(maxInfraAttempts)
    requires LoopTurn(q, provider, now, maxInfraAttempts, from) == GoesOn(q', calls)
    requires TurnRetires(q.entries, q'.entries, provider, now, from, calls)
    ensures CallSoFar(p, q', provider, now, maxInfraAttempts, turns + 1, calls)
    ensures UsableCount(q'.entries, now) < UsableCount(q.entries, now)
  {
    hide UsableCount, Budget, WellFormed, LoopTurn;
    OneKeyCost(UsableCount(q.entries, now), maxInfraAttempts);
  }

  /** What a call promises about its result and the provider calls behind it. */
  ghost predicate CallReports(
    entries: seq<KeyEntry>, provider: nat -> Response, now: int, maxInfraAttempts: int, calls: nat, result: CallResult)
  {
    // every response but the last asked for another try
    && (calls > 0 ==> AllRetried(provider, calls - 1))
    && if result.PoolExhausted? || result.AllRateLimited? then
         // the last key tried, if any, was retired, and the pool itself is reported
         ReportsPool(entries, now, result) && (calls > 0 ==> RetiresKey(provider(calls - 1)))
       else
         // the result is the one the key's last response calls for, and the key is still usable
         && 0 < calls && result.attempt <= calls
         && Concludes(result, provider(calls - 1), result.alias, result.attempt, maxInfraAttempts)
         && OnlyInfra(provider, calls - result.attempt, calls - 1)
         && HasUsable(entries, result.alias, now)
  }

  lemma CallReturns(
    p: Pool, q: Pool, entries: seq<KeyEntry>, provider: nat -> Response, now: int, maxInfraAttempts: int,
    turns: nat, from: nat, calls: nat, result: CallResult)
    requires WellFormed(p) && CallSoFar(p, q, provider, now, maxInfraAttempts, turns, from)
    requires from <= calls <= from + Tries(maxInfraAttempts)
    requires calls > from ==> UsableCount(q.entries, now) > 0
    requires LoopTurn(q, provider, now, maxInfraAttempts, from).Returns?
    requires TurnReports(entries, provider, now, maxInfraAttempts, from, calls, result)
    ensures AfterTurns(p, provider, now, maxInfraAttempts, turns).GoesOn?
    ensures AfterTurns(p, provider, now, maxInfraAttempts, turns + 1).Returns?
    ensures calls <= Budget(UsableCount(p.entries, now), maxInfraAttempts)
    ensures CallReports(entries, provider, now, maxInfraAttempts, calls, result)
    ensures result.PoolExhausted? || result.AllRateLimited? <==> NoneUsable(entries, now)
    ensures result.PoolExhausted? <==> EveryBlocked(entries)
  {
    hide UsableCount, Budget, WellFormed, LoopTurn, Concludes, Usable, HasUsable, ReportsPool, NoneUsable, EveryBlocked;
    if result.PoolExhausted? || result.AllRateLimited? {
      PoolReported(entries, now, result);
    } else {
      UsableIsNotBlocked(entries, result.alias, now);
      OneKeyCost(UsableCount(q.entries, now), maxInfraAttempts);
    }
  }

  /** The result of a call, told by its last response; all responses before it asked for another try. */
  lemma CallReportsMean(
    entries: seq<KeyEntry>, provider: nat -> Response, now: int, maxInfraAttempts: int, calls: nat, result: CallResult)
    requires CallReports(entries, provider, now, maxInfraAttempts, calls, result)
    ensures forall k: nat | k < calls - 1 ::
              provider(k).AuthRejected? || provider(k).TooManyRequests? || provider(k) == InfraFailure
    ensures calls > 0 ==>
              match provider(calls - 1)
              case Answer(content) => result.Success? && result.content == content
              case TokenLimit => result.TokenLimitFailure?
              case InfraFailure =>
                && result.InfraError? && result.attempt == maxInfraAttempts <= calls
                && forall k: nat | calls - maxInfraAttempts <= k < calls :: provider(k) == InfraFailure
              case OtherFailure => result.InfraError?
              case AuthRejected => result.PoolExhausted? || result.AllRateLimited?
              case TooManyRequests(_) => result.PoolExhausted? || result.AllRateLimited?
    ensures result.AllRateLimited? ==>
              && result.retryAt.Some? && now < result.retryAt.value
              && result.retrySeconds == Some(result.retryAt.value - now)
              && (forall k | 0 <= k < |entries| && entries[k].status == RateLimited && entries[k].until.Some? ::
                    result.retryAt.value <= entries[k].until.value)
    ensures calls == 0 ==> result.PoolExhausted? || result.AllRateLimited?
  {
    assert forall k | 0 <= k < |entries| :: entries[k] in entries;
  }

  /**
   `call_groq_with_rotation` by a single caller at a fixed time, wherever it returns at all: see
   `LoopReturnsExactlyWhen`.
   */
  method CallGroqWithRotation(pool: GroqKeyPool, provider: nat -> Response, now: int, maxInfraAttempts: int)
    returns (result: CallResult, calls: nat, ghost turns: nat)
    requires WellFormed(pool.Value())
    requires maxInfraAttempts >= 1 || UsableCount(pool.entries, now) == 0
    modifies pool
    ensures WellFormed(pool.Value()) && |pool.entries| == |old(pool.entries)|
    // it returns on the first turn that does
    ensures turns > 0 && AfterTurns(old(pool.Value()), provider, now, maxInfraAttempts, turns - 1).GoesOn?
    ensures AfterTurns(old(pool.Value()), provider, now, maxInfraAttempts, turns).Returns?
    // the number of provider calls is bounded by the keys usable at the start
    ensures calls <= Budget(UsableCount(old(pool.entries), now), maxInfraAttempts)
    ensures UsableCount(old(pool.entries), now) <= |pool.entries|
    ensures CallReports(pool.entries, provider, now, maxInfraAttempts, calls, result)
    // the pool itself is reported exactly when no key is left, as exhausted exactly when all are blocked
    ensures result.PoolExhausted? || result.AllRateLimited? <==> NoneUsable(pool.entries, now)
    ensures result.PoolExhausted? <==> EveryBlocked(pool.entries)
  {
    UsableCountBound(pool.entries, now);
    CallBegins(pool.Value(), provider, now, maxInfraAttempts);
    ghost var p := pool.Value();
    assert p.entries == pool.entries;
    hide CallSoFar, WellFormed, UsableCount, Budget, AfterTurns, LoopTurn, TurnReports, TurnRetires, CallReports;
    hide NoneUsable, EveryBlocked, Tries, AllRetried, RetiresKey;
    calls, turns := 0, 0;
    while true
      invariant WellFormed(p) && WellFormed(pool.Value()) && |pool.entries| == |p.entries|
      invariant CallSoFar(p, pool.Value(), provider, now, maxInfraAttempts, turns, calls)
      decreases UsableCount(pool.entries, now)
    {
      ghost var q := pool.Value();
      SettingStillFits(p, q, provider, now, maxInfraAttempts, turns, calls);
      var outcome, after := TakeTurn(pool, provider, now, maxInfraAttempts, calls);
      if outcome.Some? {
        CallReturns(p, q, pool.entries, provider, now, maxInfraAttempts, turns, calls, after, outcome.value);
        return outcome.value, after, turns + 1;
      }
      CallGoesOn(p, q, pool.Value(), provider, now, maxInfraAttempts, turns, calls, after);
      calls, turns := after, turns + 1;
    }
  }
}
