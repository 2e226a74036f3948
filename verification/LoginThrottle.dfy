/**
 * Brute-force protection of the login: failures are counted per username and per client address inside a
 * sliding window, and reaching a limit locks further attempts. Times are microseconds.
 */
module LoginThrottle {
  import opened Lists

  const SECOND: int := 1_000_000

  datatype Failure = Failure(username: string, ip: Option<string>, at: int)

  datatype Policy = Policy(maxPerUsername: int, maxPerIp: int, window: int)

  datatype Attempt = Attempt(now: int, username: string, ip: Option<string>, correct: bool)

  datatype Outcome = Refused(retryAfter: int) | WrongPassword | LoggedIn

  /** The two columns failures are counted by. */
  datatype Key = ByUsername(username: string) | ByIp(ip: string)

  predicate Usable(policy: Policy) {
    policy.maxPerUsername >= 1 && policy.maxPerIp >= 1
  }

  predicate Matches(f: Failure, key: Key) {
    match key
    case ByUsername(u) => f.username == u
    case ByIp(ip) => f.ip == Some(ip)
  }

  predicate Recent(f: Failure, key: Key, start: int) {
    Matches(f, key) && f.at > start
  }

  function RecentFor(key: Key, start: int): Failure -> bool {
    (f: Failure) => Recent(f, key, start)
  }

  function Since(start: int): Failure -> bool {
    (f: Failure) => f.at > start
  }

  function Above(x: int): int -> bool {
    (t: int) => t > x
  }

  function InWindow(table: seq<Failure>, key: Key, start: int): nat {
    Count(table, RecentFor(key, start))
  }

  function Ats(rows: seq<Failure>): seq<int> {
    if rows == [] then [] else Ats(rows[..|rows| - 1]) + [rows[|rows| - 1].at]
  }

  /** The times of a key's failures inside the window, in ascending order. */
  function Times(table: seq<Failure>, key: Key, start: int): seq<int> {
    Sort(Ats(Filter(table, RecentFor(key, start))))
  }

  /** The moment when so many old failures have left the window that fewer than `limit` remain. */
  function UnlockFrom(times: seq<int>, limit: int, window: int): Option<int>
    requires limit >= 1
  {
    if |times| < limit then None else Some(times[|times| - limit] + window)
  }

  function UnlockAt(table: seq<Failure>, key: Key, limit: int, start: int, window: int): Option<int>
    requires limit >= 1
  {
    UnlockFrom(Times(table, key, start), limit, window)
  }

  function Limit(policy: Policy, key: Key): int {
    if key.ByUsername? then policy.maxPerUsername else policy.maxPerIp
  }

  /** The key's failures inside the window that ends now have reached its limit. */
  predicate AtLimit(table: seq<Failure>, key: Key, now: int, policy: Policy) {
    InWindow(table, key, now - policy.window) >= Limit(policy, key)
  }

  /** What a lock means: some applicable limit is reached. */
  predicate Locked(table: seq<Failure>, username: string, ip: Option<string>, now: int, policy: Policy) {
    AtLimit(table, ByUsername(username), now, policy) || (ip.Some? && AtLimit(table, ByIp(ip.value), now, policy))
  }

  function Later(a: Option<int>, b: Option<int>): Option<int> {
    if a.None? then b
    else if b.None? || a.value >= b.value then a
    else b
  }

  function After(t: Option<int>, now: int): Option<int> {
    if t.Some? && t.value > now then t else None
  }

  /** The later of the two unlock times that lie ahead. */
  function UnlockTime(table: seq<Failure>, username: string, ip: Option<string>, now: int, policy: Policy): Option<int>
    requires Usable(policy)
  {
    var start := now - policy.window;
    Later(After(UnlockAt(table, ByUsername(username), policy.maxPerUsername, start, policy.window), now),
          if ip.None? then None
          else After(UnlockAt(table, ByIp(ip.value), policy.maxPerIp, start, policy.window), now))
  }

  function CeilSeconds(delta: int): int {
    -((-delta) / SECOND)
  }

  function SecondsUntilUnlocked(table: seq<Failure>, username: string, ip: Option<string>, now: int, policy: Policy): Option<int>
    requires Usable(policy)
  {
    var unlock := UnlockTime(table, username, ip, now, policy);
    if unlock.None? then None
    else
      var seconds := CeilSeconds(unlock.value - now);
      Some(if seconds < 1 then 1 else seconds)
  }

  // The computed wait is exact.

  lemma {:induction false} AtsMembers(rows: seq<Failure>, x: int)
    ensures |Ats(rows)| == |rows|
    ensures Count(Ats(rows), Above(x)) == Count(rows, Since(x))
  {
    if rows != [] {
      var front, last := rows[..|rows| - 1], rows[|rows| - 1];
      AtsMembers(front, x);
      CountSnoc(Ats(front), last.at, Above(x));
      assert rows == front + [last];
    }
  }

  /** At any later moment the failures still in the window are the listed times above its start. */
  lemma TimesCount(table: seq<Failure>, key: Key, start: int, x: int)
    requires start <= x
    ensures Count(Times(table, key, start), Above(x)) == InWindow(table, key, x)
    ensures Sorted(Times(table, key, start)) && |Times(table, key, start)| == InWindow(table, key, start)
  {
    var recent := RecentFor(key, start);
    var rows := Filter(table, recent);
    FilterMembers(table, recent);
    AtsMembers(rows, x);
    SortSorts(Ats(rows));
    CountPermutation(Ats(rows), Sort(Ats(rows)), Above(x));
    FilterFilter(table, recent, Since(x), RecentFor(key, x));
  }

  /** In ascending times, at least `limit` exceed x exactly when the limit-th from the end does. */
  lemma CountAbove(times: seq<int>, limit: int, x: int)
    requires Sorted(times) && 1 <= limit <= |times|
    ensures Count(times, Above(x)) >= limit <==> times[|times| - limit] > x
  {
    FilterSuffix(times, SearchRight(times, x), Above(x));
  }

  lemma {:induction false} CountAtMostLength<T>(s: seq<T>, p: T -> bool)
    ensures Count(s, p) <= |s|
  {
    if s != [] {
      CountAtMostLength(s[..|s| - 1], p);
    }
  }

  function UnlockOf(table: seq<Failure>, key: Key, now: int, policy: Policy): Option<int>
    requires Usable(policy)
  {
    UnlockAt(table, key, Limit(policy, key), now - policy.window, policy.window)
  }

  /** One key: its unlock time exists exactly when it is at its limit, and then it is the moment the count drops below. */
  lemma KeyUnlocksAt(table: seq<Failure>, key: Key, now: int, policy: Policy)
    requires Usable(policy)
    ensures var unlock := UnlockOf(table, key, now, policy);
            && (unlock.Some? <==> AtLimit(table, key, now, policy))
            && (unlock.Some? ==> unlock.value > now)
            && forall t :: now <= t ==> (AtLimit(table, key, t, policy) <==> unlock.Some? && t < unlock.value)
  {
    forall t | now <= t
      ensures AtLimit(table, key, t, policy) <==> UnlockOf(table, key, now, policy).Some? && t < UnlockOf(table, key, now, policy).value
    {
      KeyLockedUntil(table, key, now, t, policy);
    }
    UnlockIsAhead(table, key, now, policy);
  }

  lemma UnlockIsAhead(table: seq<Failure>, key: Key, now: int, policy: Policy)
    requires Usable(policy)
    ensures UnlockOf(table, key, now, policy).Some? ==> UnlockOf(table, key, now, policy).value > now
  {
    TimesCount(table, key, now - policy.window, now - policy.window);
    KeyLockedUntil(table, key, now, now, policy);
  }

  lemma KeyLockedUntil(table: seq<Failure>, key: Key, now: int, t: int, policy: Policy)
    requires Usable(policy) && now <= t
    ensures AtLimit(table, key, t, policy)
       <==> UnlockOf(table, key, now, policy).Some? && t < UnlockOf(table, key, now, policy).value
  {
    UnlockCounts(table, key, Limit(policy, key), now - policy.window, t - policy.window, policy.window);
  }

  lemma UnlockCounts(table: seq<Failure>, key: Key, limit: int, start: int, later: int, window: int)
    requires limit >= 1 && start <= later
    ensures InWindow(table, key, later) >= limit
       <==> UnlockAt(table, key, limit, start, window).Some? && later + window < UnlockAt(table, key, limit, start, window).value
  {
    TimesCount(table, key, start, later);
    CountUntilUnlock(Times(table, key, start), limit, window, later, InWindow(table, key, later));
  }

  lemma CountUntilUnlock(times: seq<int>, limit: int, window: int, later: int, count: nat)
    requires Sorted(times) && limit >= 1 && Count(times, Above(later)) == count
    ensures count >= limit
       <==> UnlockFrom(times, limit, window).Some? && later + window < UnlockFrom(times, limit, window).value
  {
    if |times| >= limit {
      CountAbove(times, limit, later);
    } else {
      CountAtMostLength(times, Above(later));
    }
  }

  /**
   * The answer is None exactly when no limit is reached. Otherwise, with no new failures, every moment before
   * the unlock time is still locked, the unlock time itself is not, and the answer is that wait in whole
   * seconds, rounded up.
   */
  lemma WaitIsExact(table: seq<Failure>, username: string, ip: Option<string>, now: int, policy: Policy)
    requires Usable(policy)
    ensures var wait := SecondsUntilUnlocked(table, username, ip, now, policy);
            var unlock := UnlockTime(table, username, ip, now, policy);
            && (wait.None? <==> !Locked(table, username, ip, now, policy))
            && (wait.Some? ==>
                  && unlock.Some? && now < unlock.value
                  && (forall t :: now <= t ==> (Locked(table, username, ip, t, policy) <==> t < unlock.value))
                  && (wait.value - 1) * SECOND < unlock.value - now <= wait.value * SECOND)
  {
    KeyUnlocksAt(table, ByUsername(username), now, policy);
    if ip.Some? {
      KeyUnlocksAt(table, ByIp(ip.value), now, policy);
    }
  }

  // The table and the login steps.

  function Purged(table: seq<Failure>, horizon: int): seq<Failure> {
    Filter(table, Since(horizon))
  }

  function Without(table: seq<Failure>, username: string): seq<Failure> {
    Filter(table, OtherThan(username))
  }

  function OtherThan(username: string): Failure -> bool {
    (f: Failure) => f.username != username
  }

  /** One login as the endpoint orders its steps: lock check, password check, then record or clear. */
  function Login(table: seq<Failure>, a: Attempt, policy: Policy): (seq<Failure>, Outcome)
    requires Usable(policy)
  {
    var wait := SecondsUntilUnlocked(table, a.username, a.ip, a.now, policy);
    if wait.Some? then (table, Refused(wait.value))
    else if a.correct then (Without(table, a.username), LoggedIn)
    else (Purged(table, a.now - policy.window) + [Failure(a.username, a.ip, a.now)], WrongPassword)
  }

  /** The same login against a table that is never purged. */
  function UnpurgedLogin(table: seq<Failure>, a: Attempt, policy: Policy): (seq<Failure>, Outcome)
    requires Usable(policy)
  {
    var wait := SecondsUntilUnlocked(table, a.username, a.ip, a.now, policy);
    if wait.Some? then (table, Refused(wait.value))
    else if a.correct then (Without(table, a.username), LoggedIn)
    else (table + [Failure(a.username, a.ip, a.now)], WrongPassword)
  }

  class LoginThrottle {
    var failures: seq<Failure>

    constructor ()
      ensures failures == []
    {
      failures := [];
    }

    method UnlockAfter(key: Key, limit: int, start: int, window: int) returns (unlock: Option<int>)
      requires limit >= 1
      ensures unlock == UnlockAt(failures, key, limit, start, window)
    {
      var times := Times(failures, key, start);
      unlock := if |times| < limit then None else Some(times[|times| - limit] + window);
    }

    method WaitFor(username: string, ip: Option<string>, now: int, policy: Policy) returns (wait: Option<int>)
      requires Usable(policy)
      ensures wait == SecondsUntilUnlocked(failures, username, ip, now, policy)
    {
      var start := now - policy.window;
      var byName := UnlockAfter(ByUsername(username), policy.maxPerUsername, start, policy.window);
      var byIp: Option<int> := None;
      if ip.Some? {
        byIp := UnlockAfter(ByIp(ip.value), policy.maxPerIp, start, policy.window);
      }
      var unlock := Later(After(byName, now), After(byIp, now));
      if unlock.None? {
        return None;
      }
      var seconds := CeilSeconds(unlock.value - now);
      wait := Some(if seconds < 1 then 1 else seconds);
    }

    /** Purges what has left every window, then stores the failure. */
    method RecordFailure(username: string, ip: Option<string>, now: int, policy: Policy)
      modifies this
      ensures failures == Purged(old(failures), now - policy.window) + [Failure(username, ip, now)]
    {
      failures := Filter(failures, Since(now - policy.window));
      failures := failures + [Failure(username, ip, now)];
    }

    method ClearUsernameFailures(username: string)
      modifies this
      ensures failures == Without(old(failures), username)
    {
      failures := Filter(failures, OtherThan(username));
    }

    /** A refused attempt changes nothing; the others leave exactly the table of the pure step. */
    method TryLogin(a: Attempt, policy: Policy) returns (outcome: Outcome)
      requires Usable(policy)
      modifies this
      ensures (failures, outcome) == Login(old(failures), a, policy)
      ensures outcome.Refused? <==> Locked(old(failures), a.username, a.ip, a.now, policy)
      ensures outcome.Refused? ==> failures == old(failures)
      ensures outcome == LoggedIn ==> a.correct && failures == Without(old(failures), a.username)
      ensures outcome == WrongPassword ==>
                !a.correct && failures == Purged(old(failures), a.now - policy.window) + [Failure(a.username, a.ip, a.now)]
    {
      WaitIsExact(failures, a.username, a.ip, a.now, policy);
      var wait := WaitFor(a.username, a.ip, a.now, policy);
      if wait.Some? {
        return Refused(wait.value);
      }
      if !a.correct {
        RecordFailure(a.username, a.ip, a.now, policy);
        return WrongPassword;
      }
      ClearUsernameFailures(a.username);
      outcome := LoggedIn;
    }
  }

  // What every run keeps.

  /** Purging and clearing, seen through one key's window. */
  lemma PurgeKeepsWindows(table: seq<Failure>, horizon: int, key: Key, start: int)
    requires horizon <= start
    ensures Filter(Purged(table, horizon), RecentFor(key, start)) == Filter(table, RecentFor(key, start))
    ensures InWindow(Purged(table, horizon), key, start) == InWindow(table, key, start)
  {
    FilterFilter(table, Since(horizon), RecentFor(key, start), RecentFor(key, start));
  }

  lemma WindowShrinks(table: seq<Failure>, key: Key, start: int, later: int)
    requires start <= later
    ensures InWindow(table, key, later) <= InWindow(table, key, start)
  {
    CountMonotone(table, RecentFor(key, later), RecentFor(key, start));
  }

  lemma ClearNeverRaises(table: seq<Failure>, username: string, key: Key, start: int)
    ensures InWindow(Without(table, username), key, start) <= InWindow(table, key, start)
  {
    var both := (f: Failure) => f.username != username && Recent(f, key, start);
    FilterFilter(table, OtherThan(username), RecentFor(key, start), both);
    CountMonotone(table, both, RecentFor(key, start));
  }

  /** No username and no known address has more failures inside the window than its limit. */
  ghost predicate WithinLimits(table: seq<Failure>, now: int, policy: Policy) {
    forall key: Key :: InWindow(table, key, now - policy.window) <= Limit(policy, key)
  }

  lemma LoginKeepsLimits(table: seq<Failure>, before: int, a: Attempt, policy: Policy)
    requires Usable(policy) && before <= a.now && WithinLimits(table, before, policy)
    ensures WithinLimits(Login(table, a, policy).0, a.now, policy)
  {
    WaitIsExact(table, a.username, a.ip, a.now, policy);
    forall key: Key ensures InWindow(Login(table, a, policy).0, key, a.now - policy.window) <= Limit(policy, key) {
      WindowShrinks(table, key, before - policy.window, a.now - policy.window);
      ClearNeverRaises(table, a.username, key, a.now - policy.window);
      RecordedCount(table, Failure(a.username, a.ip, a.now), key, a.now - policy.window);
    }
  }

  lemma RecordedCount(table: seq<Failure>, f: Failure, key: Key, start: int)
    ensures InWindow(Purged(table, start) + [f], key, start) == InWindow(table, key, start) + (if Recent(f, key, start) then 1 else 0)
  {
    PurgeKeepsWindows(table, start, key, start);
    CountSnoc(Purged(table, start), f, RecentFor(key, start));
  }

  /** A run: the table it ends with, and the answers it gave. */
  function Run(table: seq<Failure>, attempts: seq<Attempt>, policy: Policy): seq<Failure>
    requires Usable(policy)
    decreases |attempts|
  {
    if attempts == [] then table else Run(Login(table, attempts[0], policy).0, attempts[1..], policy)
  }

  function Outcomes(table: seq<Failure>, attempts: seq<Attempt>, policy: Policy): seq<Outcome>
    requires Usable(policy)
    decreases |attempts|
  {
    if attempts == [] then []
    else
      var (after, outcome) := Login(table, attempts[0], policy);
      [outcome] + Outcomes(after, attempts[1..], policy)
  }

  function UnpurgedOutcomes(table: seq<Failure>, attempts: seq<Attempt>, policy: Policy): seq<Outcome>
    requires Usable(policy)
    decreases |attempts|
  {
    if attempts == [] then []
    else
      var (after, outcome) := UnpurgedLogin(table, attempts[0], policy);
      [outcome] + UnpurgedOutcomes(after, attempts[1..], policy)
  }

  /** The wall clock never runs backwards, from `start` on. */
  ghost predicate InTimeOrder(start: int, attempts: seq<Attempt>)
    decreases |attempts|
  {
    attempts == [] || (start <= attempts[0].now && InTimeOrder(attempts[0].now, attempts[1..]))
  }

  function EndOf(start: int, attempts: seq<Attempt>): int
    decreases |attempts|
  {
    if attempts == [] then start else EndOf(attempts[0].now, attempts[1..])
  }

  /** On every run the limits hold, at its last attempt and at every later moment. */
  lemma {:induction false} RunKeepsLimits(table: seq<Failure>, start: int, attempts: seq<Attempt>, now: int, policy: Policy)
    requires Usable(policy) && InTimeOrder(start, attempts) && WithinLimits(table, start, policy)
    requires EndOf(start, attempts) <= now
    ensures WithinLimits(Run(table, attempts, policy), now, policy)
    decreases |attempts|
  {
    if attempts == [] {
      forall key: Key ensures InWindow(table, key, now - policy.window) <= Limit(policy, key) {
        WindowShrinks(table, key, start - policy.window, now - policy.window);
      }
    } else {
      LoginKeepsLimits(table, start, attempts[0], policy);
      RunKeepsLimits(Login(table, attempts[0], policy).0, attempts[0].now, attempts[1..], now, policy);
    }
  }

  /** From an empty table on, no username and no known address ever has more failures in a window than its limit. */
  lemma LimitsHoldFromTheStart(attempts: seq<Attempt>, key: Key, now: int, policy: Policy)
    requires Usable(policy) && (attempts != [] ==> InTimeOrder(attempts[0].now, attempts) && EndOf(attempts[0].now, attempts) <= now)
    ensures InWindow(Run([], attempts, policy), key, now - policy.window) <= Limit(policy, key)
  {
    if attempts != [] {
      assert WithinLimits([], attempts[0].now, policy);
      RunKeepsLimits([], attempts[0].now, attempts, now, policy);
    }
  }

  /** Two tables that hold the same failures after the horizon. */
  ghost predicate Agree(a: seq<Failure>, b: seq<Failure>, horizon: int) {
    Purged(a, horizon) == Purged(b, horizon)
  }

  lemma AgreementDecides(a: seq<Failure>, b: seq<Failure>, horizon: int, attempt: Attempt, policy: Policy)
    requires Usable(policy) && Agree(a, b, horizon) && horizon <= attempt.now - policy.window
    ensures SecondsUntilUnlocked(a, attempt.username, attempt.ip, attempt.now, policy)
         == SecondsUntilUnlocked(b, attempt.username, attempt.ip, attempt.now, policy)
  {
    AgreedTimes(a, b, horizon, ByUsername(attempt.username), attempt.now - policy.window);
    if attempt.ip.Some? {
      AgreedTimes(a, b, horizon, ByIp(attempt.ip.value), attempt.now - policy.window);
    }
    SameTimesSameWait(a, b, attempt.username, attempt.ip, attempt.now, policy);
  }

  lemma AgreedTimes(a: seq<Failure>, b: seq<Failure>, horizon: int, key: Key, start: int)
    requires Agree(a, b, horizon) && horizon <= start
    ensures Times(a, key, start) == Times(b, key, start)
  {
    PurgeKeepsWindows(a, horizon, key, start);
    PurgeKeepsWindows(b, horizon, key, start);
  }

  lemma SameTimesSameWait(a: seq<Failure>, b: seq<Failure>, username: string, ip: Option<string>, now: int, policy: Policy)
    requires Usable(policy) && Times(a, ByUsername(username), now - policy.window) == Times(b, ByUsername(username), now - policy.window)
    requires ip.Some? ==> Times(a, ByIp(ip.value), now - policy.window) == Times(b, ByIp(ip.value), now - policy.window)
    ensures SecondsUntilUnlocked(a, username, ip, now, policy) == SecondsUntilUnlocked(b, username, ip, now, policy)
  {
    assert UnlockTime(a, username, ip, now, policy) == UnlockTime(b, username, ip, now, policy);
  }

  lemma AgreementSurvives(a: seq<Failure>, b: seq<Failure>, horizon: int, attempt: Attempt, policy: Policy)
    requires Usable(policy) && Agree(a, b, horizon) && horizon <= attempt.now - policy.window
    ensures Login(a, attempt, policy).1 == UnpurgedLogin(b, attempt, policy).1
    ensures Agree(Login(a, attempt, policy).0, UnpurgedLogin(b, attempt, policy).0, attempt.now - policy.window)
  {
    var start := attempt.now - policy.window;
    AgreementDecides(a, b, horizon, attempt, policy);
    AgreementAges(a, b, horizon, start);
    AgreementRecords(a, b, start, Failure(attempt.username, attempt.ip, attempt.now));
    AgreementClears(a, b, start, attempt.username);
  }

  lemma AgreementClears(a: seq<Failure>, b: seq<Failure>, horizon: int, username: string)
    requires Agree(a, b, horizon)
    ensures Agree(Without(a, username), Without(b, username), horizon)
  {
    ClearCommutes(a, username, horizon);
    ClearCommutes(b, username, horizon);
  }

  lemma AgreementAges(a: seq<Failure>, b: seq<Failure>, horizon: int, later: int)
    requires Agree(a, b, horizon) && horizon <= later
    ensures Agree(a, b, later)
  {
    FilterFilter(a, Since(horizon), Since(later), Since(later));
    FilterFilter(b, Since(horizon), Since(later), Since(later));
  }

  lemma AgreementRecords(a: seq<Failure>, b: seq<Failure>, horizon: int, f: Failure)
    requires Agree(a, b, horizon)
    ensures Agree(Purged(a, horizon) + [f], b + [f], horizon)
  {
    FilterFilter(a, Since(horizon), Since(horizon), Since(horizon));
    CountAppend(Purged(a, horizon), [f], Since(horizon));
    CountAppend(b, [f], Since(horizon));
  }

  lemma ClearCommutes(table: seq<Failure>, username: string, horizon: int)
    ensures Purged(Without(table, username), horizon) == Without(Purged(table, horizon), username)
  {
    var both := (f: Failure) => f.username != username && f.at > horizon;
    FilterFilter(table, OtherThan(username), Since(horizon), both);
    FilterFilter(table, Since(horizon), OtherThan(username), both);
  }

  /** Deleting failures that left every window never changes a later answer: the purge is invisible. */
  lemma {:induction false} PurgeIsInvisible(a: seq<Failure>, b: seq<Failure>, start: int, attempts: seq<Attempt>, policy: Policy)
    requires Usable(policy) && InTimeOrder(start, attempts) && Agree(a, b, start - policy.window)
    ensures Outcomes(a, attempts, policy) == UnpurgedOutcomes(b, attempts, policy)
    decreases |attempts|
  {
    if attempts != [] {
      AgreementSurvives(a, b, start - policy.window, attempts[0], policy);
      PurgeIsInvisible(Login(a, attempts[0], policy).0, UnpurgedLogin(b, attempts[0], policy).0, attempts[0].now, attempts[1..], policy);
    }
  }

  // Clearing a username.

  /** What survives a successful login are the failures of the other usernames. */
  lemma ClearKeepsOtherUsernames(table: seq<Failure>, username: string, key: Key, start: int)
    requires key.ByUsername?
    ensures InWindow(Without(table, username), key, start) == if key.username == username then 0 else InWindow(table, key, start)
  {
    var both := (f: Failure) => f.username != username && Recent(f, key, start);
    FilterFilter(table, OtherThan(username), RecentFor(key, start), both);
    if key.username == username {
      CountNone(table, both);
    } else {
      CountCongruence(table, both, RecentFor(key, start));
    }
  }

  /**
   * The address counter is not kept, contrary to the intention written at the clearing step: it keeps its
   * value exactly when none of the address's failures in the window carry the cleared username.
   */
  lemma ClearKeepsIpCountIff(table: seq<Failure>, username: string, ip: string, start: int)
    ensures InWindow(Without(table, username), ByIp(ip), start) == InWindow(table, ByIp(ip), start)
       <==> forall f | f in table && Recent(f, ByIp(ip), start) :: f.username != username
  {
    var key := ByIp(ip);
    var kept := (f: Failure) => f.username != username && Recent(f, key, start);
    var lost := (f: Failure) => f.username == username && Recent(f, key, start);
    FilterFilter(table, OtherThan(username), RecentFor(key, start), kept);
    CountUnion(table, kept, lost, RecentFor(key, start));
    CountPositive(table, lost);
  }

  /** One failure and one success: the address's count falls back to zero. */
  lemma ClearForgetsTheAddress()
    ensures var table := [Failure("dispatcher", Some("10.0.0.1"), 1)];
            InWindow(table, ByIp("10.0.0.1"), 0) == 1 && InWindow(Without(table, "dispatcher"), ByIp("10.0.0.1"), 0) == 0
  {
    var table := [Failure("dispatcher", Some("10.0.0.1"), 1)];
    assert table[..0] == [];
    assert Without(table, "dispatcher") == [];
  }

  // What a single attempt does to the counts.

  /** A wrong password that is not refused raises the counts of its username and of its known address by one, and no other. */
  lemma WrongPasswordCounts(table: seq<Failure>, a: Attempt, policy: Policy, key: Key)
    requires Usable(policy) && policy.window > 0 && !Locked(table, a.username, a.ip, a.now, policy) && !a.correct
    ensures var (after, outcome) := Login(table, a, policy);
            && outcome == WrongPassword
            && InWindow(after, key, a.now - policy.window)
            == InWindow(table, key, a.now - policy.window) + (if key == ByUsername(a.username) || (a.ip.Some? && key == ByIp(a.ip.value)) then 1 else 0)
  {
    WaitIsExact(table, a.username, a.ip, a.now, policy);
    RecordedCount(table, Failure(a.username, a.ip, a.now), key, a.now - policy.window);
  }

  /** A right password that is not refused clears its username and leaves the counts of the others. */
  lemma RightPasswordClears(table: seq<Failure>, a: Attempt, policy: Policy, username: string, start: int)
    requires Usable(policy) && !Locked(table, a.username, a.ip, a.now, policy) && a.correct
    ensures var (after, outcome) := Login(table, a, policy);
            && outcome == LoggedIn
            && InWindow(after, ByUsername(username), start) == if username == a.username then 0 else InWindow(table, ByUsername(username), start)
  {
    WaitIsExact(table, a.username, a.ip, a.now, policy);
    ClearKeepsOtherUsernames(table, a.username, ByUsername(username), start);
  }

  // What the table holds after any run, said from the attempts and their answers alone.

  function FailureOf(a: Attempt): Failure {
    Failure(a.username, a.ip, a.now)
  }

  ghost predicate ForgottenBy(attempts: seq<Attempt>, outcomes: seq<Outcome>, i: nat, j: nat)
    requires i < |attempts| == |outcomes| && j < |outcomes|
  {
    i < j && outcomes[j] == LoggedIn && attempts[j].username == attempts[i].username
  }

  /** Attempt i failed on its password, and its username has not logged in since. */
  ghost predicate StillHeld(attempts: seq<Attempt>, outcomes: seq<Outcome>, i: nat)
    requires i < |attempts| == |outcomes|
  {
    outcomes[i] == WrongPassword && forall j: nat | j < |outcomes| :: !ForgottenBy(attempts, outcomes, i, j)
  }

  /** How many of the first n attempts are still held against a selection of failures. */
  ghost function Held(attempts: seq<Attempt>, outcomes: seq<Outcome>, p: Failure -> bool, n: nat): nat
    requires n <= |attempts| == |outcomes|
  {
    if n == 0 then 0
    else Held(attempts, outcomes, p, n - 1) + (if StillHeld(attempts, outcomes, n - 1) && p(FailureOf(attempts[n - 1])) then 1 else 0)
  }

  /** One more attempt that is refused or wrong changes nothing for the earlier ones. */
  lemma {:induction false} HeldSnoc(attempts: seq<Attempt>, outcomes: seq<Outcome>, a: Attempt, outcome: Outcome, p: Failure -> bool, n: nat)
    requires n <= |attempts| == |outcomes| && outcome != LoggedIn
    ensures Held(attempts + [a], outcomes + [outcome], p, n) == Held(attempts, outcomes, p, n)
  {
    if n > 0 {
      HeldSnoc(attempts, outcomes, a, outcome, p, n - 1);
      StillHeldSnoc(attempts, outcomes, a, outcome, n - 1);
    }
  }

  lemma StillHeldSnoc(attempts: seq<Attempt>, outcomes: seq<Outcome>, a: Attempt, outcome: Outcome, i: nat)
    requires i < |attempts| == |outcomes|
    ensures StillHeld(attempts + [a], outcomes + [outcome], i)
       <==> StillHeld(attempts, outcomes, i) && !(outcome == LoggedIn && a.username == attempts[i].username)
  {
    var more, answers, n := attempts + [a], outcomes + [outcome], |attempts|;
    forall j: nat | j < n ensures ForgottenBy(more, answers, i, j) == ForgottenBy(attempts, outcomes, i, j) {
    }
    assert ForgottenBy(more, answers, i, n) <==> outcome == LoggedIn && a.username == attempts[i].username;
    if StillHeld(attempts, outcomes, i) && !ForgottenBy(more, answers, i, n) {
      forall j: nat | j < n + 1 ensures !ForgottenBy(more, answers, i, j) {
        if j < n {
          assert !ForgottenBy(attempts, outcomes, i, j);
        }
      }
    }
    if StillHeld(more, answers, i) {
      forall j: nat | j < n ensures !ForgottenBy(attempts, outcomes, i, j) {
        assert !ForgottenBy(more, answers, i, j);
      }
      assert !ForgottenBy(more, answers, i, n);
    }
  }

  function Sparing(p: Failure -> bool, username: string): Failure -> bool {
    (f: Failure) => p(f) && f.username != username
  }

  /** One more successful attempt takes out the failures of its username. */
  lemma {:induction false} HeldAfterLogin(attempts: seq<Attempt>, outcomes: seq<Outcome>, a: Attempt, p: Failure -> bool, n: nat)
    requires n <= |attempts| == |outcomes|
    ensures Held(attempts + [a], outcomes + [LoggedIn], p, n) == Held(attempts, outcomes, Sparing(p, a.username), n)
  {
    if n > 0 {
      HeldAfterLogin(attempts, outcomes, a, p, n - 1);
      StillHeldSnoc(attempts, outcomes, a, LoggedIn, n - 1);
    }
  }

  lemma LastIsHeld(attempts: seq<Attempt>, outcomes: seq<Outcome>, a: Attempt, outcome: Outcome)
    requires |attempts| == |outcomes|
    ensures StillHeld(attempts + [a], outcomes + [outcome], |attempts|) <==> outcome == WrongPassword
  {
    var more, answers, n := attempts + [a], outcomes + [outcome], |attempts|;
    forall j: nat | j < n + 1 ensures !ForgottenBy(more, answers, n, j) {
    }
  }

  lemma {:induction false} RunSnoc(table: seq<Failure>, attempts: seq<Attempt>, a: Attempt, policy: Policy)
    requires Usable(policy)
    ensures |Outcomes(table, attempts, policy)| == |attempts|
    ensures Run(table, attempts + [a], policy) == Login(Run(table, attempts, policy), a, policy).0
    ensures Outcomes(table, attempts + [a], policy) == Outcomes(table, attempts, policy) + [Login(Run(table, attempts, policy), a, policy).1]
    decreases |attempts|
  {
    if attempts == [] {
      assert [a][1..] == [];
    } else {
      assert (attempts + [a])[1..] == attempts[1..] + [a];
      RunSnoc(Login(table, attempts[0], policy).0, attempts[1..], a, policy);
    }
  }

  lemma {:induction false} OutcomeCount(table: seq<Failure>, attempts: seq<Attempt>, policy: Policy)
    requires Usable(policy)
    ensures |Outcomes(table, attempts, policy)| == |attempts|
    decreases |attempts|
  {
    if attempts != [] {
      OutcomeCount(Login(table, attempts[0], policy).0, attempts[1..], policy);
    }
  }

  /** The selection reaches back no further than `start`. */
  ghost predicate SelectsAfter(p: Failure -> bool, start: int) {
    forall f: Failure :: p(f) ==> f.at > start
  }

  lemma ClearHolds(table: seq<Failure>, username: string, p: Failure -> bool)
    ensures Count(Without(table, username), p) == Count(table, Sparing(p, username))
  {
    FilterFilter(table, OtherThan(username), p, Sparing(p, username));
  }

  lemma RecordHolds(table: seq<Failure>, f: Failure, horizon: int, p: Failure -> bool, start: int)
    requires SelectsAfter(p, start) && horizon <= start
    ensures Count(Purged(table, horizon) + [f], p) == Count(table, p) + (if p(f) then 1 else 0)
  {
    forall x | x in table ensures p(x) == (Since(horizon)(x) && p(x)) {
      if p(x) {
        assert x.at > start;
      }
    }
    FilterFilter(table, Since(horizon), p, p);
    CountSnoc(Purged(table, horizon), f, p);
  }

  /** The three outcomes and their tables. */
  ghost predicate Leaves(table: seq<Failure>, a: Attempt, horizon: int, after: seq<Failure>, outcome: Outcome) {
    match outcome
    case Refused(_) => after == table
    case LoggedIn => a.correct && after == Without(table, a.username)
    case WrongPassword => !a.correct && after == Purged(table, horizon) + [FailureOf(a)]
  }

  lemma LoginIs(table: seq<Failure>, a: Attempt, policy: Policy)
    requires Usable(policy)
    ensures var (after, outcome) := Login(table, a, policy);
            && (outcome.Refused? <==> Locked(table, a.username, a.ip, a.now, policy))
            && Leaves(table, a, a.now - policy.window, after, outcome)
  {
    WaitIsExact(table, a.username, a.ip, a.now, policy);
  }

  ghost predicate HoldsAfter(before: nat, spared: nat, after: nat, outcome: Outcome, selected: bool) {
    match outcome
    case Refused(_) => after == before
    case LoggedIn => after == spared
    case WrongPassword => after == before + (if selected then 1 else 0)
  }

  lemma LoginHolds(table: seq<Failure>, a: Attempt, horizon: int, p: Failure -> bool, start: int, after: seq<Failure>, outcome: Outcome)
    requires SelectsAfter(p, start) && horizon <= start && Leaves(table, a, horizon, after, outcome)
    ensures HoldsAfter(Count(table, p), Count(table, Sparing(p, a.username)), Count(after, p), outcome, p(FailureOf(a)))
  {
    match outcome {
      case Refused(_) =>
      case LoggedIn => ClearHolds(table, a.username, p);
      case WrongPassword => RecordHolds(table, FailureOf(a), horizon, p, start);
    }
  }

  /**
   * After any run from an empty table, what the table holds of the last window is exactly the attempts that failed on
   * their password and whose username has not logged in since.
   */
  lemma {:induction false} RunHolds(attempts: seq<Attempt>, policy: Policy, p: Failure -> bool, start: int)
    requires Usable(policy) && SelectsAfter(p, start) && forall a | a in attempts :: a.now - policy.window <= start
    ensures |Outcomes([], attempts, policy)| == |attempts|
    ensures Count(Run([], attempts, policy), p) == Held(attempts, Outcomes([], attempts, policy), p, |attempts|)
    decreases |attempts|
  {
    OutcomeCount([], attempts, policy);
    if attempts != [] {
      var n := |attempts| - 1;
      var front, a := attempts[..n], attempts[n];
      assert attempts == front + [a];
      var table, outcomes := Run([], front, policy), Outcomes([], front, policy);
      var (after, outcome) := Login(table, a, policy);
      RunSnoc([], front, a, policy);
      LoginIs(table, a, policy);
      LoginHolds(table, a, a.now - policy.window, p, start, after, outcome);
      RunHolds(front, policy, p, start);
      RunHolds(front, policy, Sparing(p, a.username), start);
      HeldAfter(front, outcomes, a, outcome, p, Count(table, p), Count(table, Sparing(p, a.username)), Count(after, p));
    }
  }

  lemma HeldAfter(front: seq<Attempt>, outcomes: seq<Outcome>, a: Attempt, outcome: Outcome, p: Failure -> bool, before: nat, spared: nat, after: nat)
    requires |front| == |outcomes| && HoldsAfter(before, spared, after, outcome, p(FailureOf(a)))
    requires before == Held(front, outcomes, p, |front|) && spared == Held(front, outcomes, Sparing(p, a.username), |front|)
    ensures after == Held(front + [a], outcomes + [outcome], p, |front| + 1)
  {
    LastIsHeld(front, outcomes, a, outcome);
    assert (front + [a])[|front|] == a;
    if outcome == LoggedIn {
      HeldAfterLogin(front, outcomes, a, p, |front|);
    } else {
      HeldSnoc(front, outcomes, a, outcome, p, |front|);
    }
  }

  lemma WindowHolds(attempts: seq<Attempt>, policy: Policy, key: Key, now: int)
    requires Usable(policy) && forall a | a in attempts :: a.now <= now
    ensures |Outcomes([], attempts, policy)| == |attempts|
    ensures InWindow(Run([], attempts, policy), key, now - policy.window)
         == Held(attempts, Outcomes([], attempts, policy), RecentFor(key, now - policy.window), |attempts|)
  {
    RunHolds(attempts, policy, RecentFor(key, now - policy.window), now - policy.window);
  }

  /** The limit of the key is used up by wrong passwords of the window that no later login of their username has cleared. */
  ghost predicate UsedUp(attempts: seq<Attempt>, outcomes: seq<Outcome>, key: Key, now: int, policy: Policy)
    requires |attempts| == |outcomes|
  {
    Held(attempts, outcomes, RecentFor(key, now - policy.window), |attempts|) >= Limit(policy, key)
  }

  /**
   * Every answer of a run follows from the attempts and answers before it: refused exactly if the limit of its username
   * or of its known address is used up; otherwise it depends on the password alone.
   */
  lemma AnswerFollowsFromTheHistory(attempts: seq<Attempt>, a: Attempt, policy: Policy)
    requires Usable(policy) && forall b | b in attempts :: b.now <= a.now
    ensures var outcomes := Outcomes([], attempts, policy);
            var answer := Login(Run([], attempts, policy), a, policy).1;
            && |outcomes| == |attempts| && Outcomes([], attempts + [a], policy) == outcomes + [answer]
            && (answer.Refused? <==> UsedUp(attempts, outcomes, ByUsername(a.username), a.now, policy)
                                     || (a.ip.Some? && UsedUp(attempts, outcomes, ByIp(a.ip.value), a.now, policy)))
            && (!answer.Refused? ==> answer == if a.correct then LoggedIn else WrongPassword)
  {
    RunSnoc([], attempts, a, policy);
    UsedUpIff(attempts, policy, ByUsername(a.username), a.now);
    if a.ip.Some? {
      UsedUpIff(attempts, policy, ByIp(a.ip.value), a.now);
    }
    LoginIs(Run([], attempts, policy), a, policy);
  }

  lemma UsedUpIff(attempts: seq<Attempt>, policy: Policy, key: Key, now: int)
    requires Usable(policy) && forall a | a in attempts :: a.now <= now
    ensures |Outcomes([], attempts, policy)| == |attempts|
    ensures UsedUp(attempts, Outcomes([], attempts, policy), key, now, policy) <==> AtLimit(Run([], attempts, policy), key, now, policy)
  {
    WindowHolds(attempts, policy, key, now);
  }

  lemma {:induction false} HeldAtLeast(attempts: seq<Attempt>, outcomes: seq<Outcome>, p: Failure -> bool, picks: seq<nat>, n: nat)
    requires n <= |attempts| == |outcomes| && forall i, j | 0 <= i < j < |picks| :: picks[i] < picks[j]
    requires forall k | k in picks :: k < n && StillHeld(attempts, outcomes, k) && p(FailureOf(attempts[k]))
    ensures Held(attempts, outcomes, p, n) >= |picks|
  {
    if picks != [] {
      var last := picks[|picks| - 1];
      assert last in picks;
      var front := picks[..|picks| - 1];
      forall k | k in front ensures k < last {
        var i :| 0 <= i < |front| && picks[i] == k;
      }
      HeldAtLeast(attempts, outcomes, p, front, last);
      HeldGrows(attempts, outcomes, p, last + 1, n);
    }
  }

  lemma {:induction false} HeldGrows(attempts: seq<Attempt>, outcomes: seq<Outcome>, p: Failure -> bool, few: nat, many: nat)
    requires few <= many <= |attempts| == |outcomes|
    ensures Held(attempts, outcomes, p, few) <= Held(attempts, outcomes, p, many)
  {
    if few < many {
      HeldGrows(attempts, outcomes, p, few, many - 1);
    }
  }

  ghost predicate HeldAgainst(attempts: seq<Attempt>, outcomes: seq<Outcome>, key: Key, start: int, k: nat) {
    k < |attempts| == |outcomes| && StillHeld(attempts, outcomes, k) && Recent(FailureOf(attempts[k]), key, start)
  }

  /** As many uncleared wrong passwords of one username or address inside one window as its limit make the next attempt refused. */
  lemma WrongPasswordsLock(attempts: seq<Attempt>, a: Attempt, policy: Policy, key: Key, picks: seq<nat>)
    requires Usable(policy) && forall b | b in attempts :: b.now <= a.now
    requires key == ByUsername(a.username) || (a.ip.Some? && key == ByIp(a.ip.value))
    requires |picks| >= Limit(policy, key) && forall i, j | 0 <= i < j < |picks| :: picks[i] < picks[j]
    requires |Outcomes([], attempts, policy)| == |attempts|
    requires forall k | k in picks :: HeldAgainst(attempts, Outcomes([], attempts, policy), key, a.now - policy.window, k)
    ensures Login(Run([], attempts, policy), a, policy).1.Refused?
  {
    HeldUsesUp(attempts, Outcomes([], attempts, policy), key, a.now, policy, picks);
    AnswerFollowsFromTheHistory(attempts, a, policy);
  }

  lemma HeldUsesUp(attempts: seq<Attempt>, outcomes: seq<Outcome>, key: Key, now: int, policy: Policy, picks: seq<nat>)
    requires |attempts| == |outcomes|
    requires |picks| >= Limit(policy, key) && forall i, j | 0 <= i < j < |picks| :: picks[i] < picks[j]
    requires forall k | k in picks :: HeldAgainst(attempts, outcomes, key, now - policy.window, k)
    ensures UsedUp(attempts, outcomes, key, now, policy)
  {
    var p := RecentFor(key, now - policy.window);
    forall k | k in picks ensures k < |attempts| && StillHeld(attempts, outcomes, k) && p(FailureOf(attempts[k])) {
      assert HeldAgainst(attempts, outcomes, key, now - policy.window, k);
    }
    HeldAtLeast(attempts, outcomes, p, picks, |attempts|);
  }
}
