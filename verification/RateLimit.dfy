/** The process-local sliding-window store of http/middleware/rate_limit.go.

    Instants and durations are nanoseconds. An instant is an unbounded integer (Go's time.Time
    spans far more than int64 nanoseconds); a duration is bounded by Go's int64. The clock
    reading of one Hit is its parameter `now`: it is taken under the mutex, so the hits of one
    run come in the order of their readings. */
module RateLimit {

  const SECOND := 1_000_000_000
  const MAX_DURATION := 0x7FFF_FFFF_FFFF_FFFF
  const MIN_DURATION := -0x8000_0000_0000_0000

  /** Go's zero time.Time (1 January of year 1), the store's initial lastSweep. */
  const ZERO_TIME := -62_135_596_800 * SECOND

  /** time.Time.Sub: the difference of two instants saturates at the ends of int64. */
  function Elapsed(later: int, earlier: int): int {
    var d := later - earlier;
    if d > MAX_DURATION then MAX_DURATION else if d < MIN_DURATION then MIN_DURATION else d
  }

  datatype Answer = InvalidBucket | Allowed | Denied(retryAfter: int)

  datatype Store = Store(requests: map<string, seq<int>>, lastSweep: int)

  const EMPTY_STORE := Store(map[], ZERO_TIME)

  /** One call of Hit: its arguments and the clock reading it takes under the mutex. */
  datatype Attempt = Attempt(key: string, limit: int, window: int, now: int)

  predicate WellConfigured(e: Attempt) {
    e.key != "" && e.limit > 0 && e.window > 0
  }

  // ---------------------------------------------------------------- one call

  function Attempts(requests: map<string, seq<int>>, key: string): seq<int> {
    if key in requests then requests[key] else []
  }

  /** The attempts strictly after the cutoff, in their order. */
  function Live(attempts: seq<int>, cutoff: int): seq<int> {
    if attempts == [] then []
    else
      var earlier := Live(attempts[..|attempts| - 1], cutoff);
      var last := attempts[|attempts| - 1];
      if last > cutoff then earlier + [last] else earlier
  }

  function Sweep(requests: map<string, seq<int>>, cutoff: int): map<string, seq<int>> {
    map key | key in requests && Live(requests[key], cutoff) != [] :: Live(requests[key], cutoff)
  }

  function Wait(oldest: int, window: int, now: int): int {
    var wait := Elapsed(oldest + window, now);
    if wait < SECOND then SECOND else wait
  }

  function AnswerTo(store: Store, e: Attempt): Answer {
    var live := Live(Attempts(store.requests, e.key), e.now - e.window);
    if !WellConfigured(e) then InvalidBucket
    else if |live| >= e.limit then Denied(Wait(live[0], e.window, e.now))
    else Allowed
  }

  function AfterHit(store: Store, e: Attempt): Store {
    var cutoff := e.now - e.window;
    var live := Live(Attempts(store.requests, e.key), cutoff);
    match AnswerTo(store, e)
    case InvalidBucket => store
    case Denied(_) => store.(requests := store.requests[e.key := live])
    case Allowed =>
      var recorded := store.requests[e.key := live + [e.now]];
      if Elapsed(e.now, store.lastSweep) > e.window
      then Store(Sweep(recorded, cutoff), e.now)
      else store.(requests := recorded)
  }

  class MemoryRateLimitStore {
    var requests: map<string, seq<int>>
    var lastSweep: int

    constructor ()
      ensures Value() == EMPTY_STORE
    {
      requests, lastSweep := map[], ZERO_TIME;
    }

    function Value(): Store
      reads this
    {
      Store(requests, lastSweep)
    }

    method Hit(key: string, limit: int, window: int, now: int) returns (answer: Answer)
      modifies this
      ensures answer == AnswerTo(old(Value()), Attempt(key, limit, window, now))
      ensures Value() == AfterHit(old(Value()), Attempt(key, limit, window, now))
    {
      if key == "" || limit <= 0 || window <= 0 {
        return InvalidBucket;
      }
      var cutoff := now - window;
      var valid := Prune(Attempts(requests, key), cutoff);
      requests := requests[key := valid];
      if |valid| >= limit {
        var retryAfter := Elapsed(valid[0] + window, now);
        if retryAfter < SECOND {
          retryAfter := SECOND;
        }
        return Denied(retryAfter);
      }
      requests := requests[key := valid + [now]];
      assert requests == old(requests)[key := valid + [now]];
      if Elapsed(now, lastSweep) > window {
        SweepLocked(cutoff);
        lastSweep := now;
      }
      return Allowed;
    }

    method SweepLocked(cutoff: int)
      modifies `requests
      ensures requests == Sweep(old(requests), cutoff)
    {
      var todo := requests.Keys;
      while todo != {}
        invariant todo <= requests.Keys <= old(requests).Keys
        invariant forall key :: key in todo ==> requests[key] == old(requests)[key]
        invariant forall key :: key in old(requests) && key !in todo ==>
          (key in requests <==> Live(old(requests)[key], cutoff) != [])
        invariant forall key :: key in requests && key !in todo ==>
          requests[key] == Live(old(requests)[key], cutoff)
        decreases todo
      {
        var key :| key in todo;
        var valid := Prune(requests[key], cutoff);
        if |valid| == 0 {
          requests := requests - {key};
        } else {
          requests := requests[key := valid];
        }
        todo := todo - {key};
      }
    }
  }

  /** The filtering loop that Hit and sweepLocked share. */
  method Prune(attempts: seq<int>, cutoff: int) returns (valid: seq<int>)
    ensures valid == Live(attempts, cutoff)
  {
    valid := [];
    for i := 0 to |attempts|
      invariant valid == Live(attempts[..i], cutoff)
    {
      assert attempts[..i + 1][..i] == attempts[..i];
      if attempts[i] > cutoff {
        valid := valid + [attempts[i]];
      }
    }
    assert attempts[..|attempts|] == attempts;
  }

  // ---------------------------------------------------------------- what one call keeps

  /** The positions of the attempts that lie in the window. */
  function InWindow(attempts: seq<int>, cutoff: int): set<nat> {
    set i: nat | i < |attempts| && attempts[i] > cutoff
  }

  lemma {:induction false} LiveCounts(attempts: seq<int>, cutoff: int)
    ensures |Live(attempts, cutoff)| == |InWindow(attempts, cutoff)|
  {
    if attempts != [] {
      var last := |attempts| - 1;
      LiveCounts(attempts[..last], cutoff);
      var earlier := InWindow(attempts[..last], cutoff);
      assert InWindow(attempts, cutoff) == if attempts[last] > cutoff then earlier + {last} else earlier;
    }
  }

  /** A hit is allowed exactly if fewer than `limit` stored attempts on its key lie in the window. */
  lemma AllowedIff(store: Store, e: Attempt)
    ensures
      var stored := Attempts(store.requests, e.key);
      AnswerTo(store, e) == Allowed <==>
        e.key != "" && e.limit > 0 && e.window > 0 && |set i: nat | i < |stored| && stored[i] > e.now - e.window| < e.limit
  {
    var stored := Attempts(store.requests, e.key);
    LiveCounts(stored, e.now - e.window);
    assert InWindow(stored, e.now - e.window) == set i: nat | i < |stored| && stored[i] > e.now - e.window;
  }

  /** After a call the list of its own key holds exactly the attempts still in the window and, if it was
      allowed, the new one; of every other key at most attempts that have left the window are dropped,
      and by an invalid call nothing. */
  lemma HitKeeps(store: Store, e: Attempt, key: string, t: int)
    ensures
      var answer, after := AnswerTo(store, e), AfterHit(store, e);
      var had, has := t in Attempts(store.requests, key), t in Attempts(after.requests, key);
      && (answer == InvalidBucket <==> e.key == "" || e.limit <= 0 || e.window <= 0)
      && (answer == InvalidBucket ==> after == store)
      && (answer != InvalidBucket && key == e.key ==>
            (has <==> (had && t > e.now - e.window) || (answer == Allowed && t == e.now)))
      && (answer != InvalidBucket && key != e.key ==> (has ==> had) && (had && t > e.now - e.window ==> has))
      && after.lastSweep == if answer == Allowed && Elapsed(e.now, store.lastSweep) > e.window then e.now else store.lastSweep
  {
    var cutoff := e.now - e.window;
    LiveMembers(Attempts(store.requests, key), cutoff);
    LiveMembers(Attempts(store.requests, e.key), cutoff);
    var live := Live(Attempts(store.requests, e.key), cutoff);
    LiveMembers(live + [e.now], cutoff);
    hide Live, Elapsed;
  }

  // ---------------------------------------------------------------- filtering facts

  lemma LiveAppend(attempts: seq<int>, t: int, cutoff: int)
    ensures Live(attempts + [t], cutoff) == Live(attempts, cutoff) + (if t > cutoff then [t] else [])
  {
  }

  lemma LiveOne(t: int, cutoff: int)
    ensures Live([t], cutoff) == if t > cutoff then [t] else []
  {
  }

  lemma {:induction false} LiveMembers(attempts: seq<int>, cutoff: int)
    ensures forall t :: t in Live(attempts, cutoff) <==> t in attempts && t > cutoff
  {
    if attempts != [] {
      var front := attempts[..|attempts| - 1];
      LiveMembers(front, cutoff);
      assert attempts == front + [attempts[|attempts| - 1]];
    }
  }

  /** Filtering twice is filtering by the later cutoff. */
  lemma {:induction false} LiveTwice(attempts: seq<int>, first: int, second: int)
    requires first <= second
    ensures Live(Live(attempts, first), second) == Live(attempts, second)
  {
    if attempts != [] {
      var front := attempts[..|attempts| - 1];
      LiveTwice(front, first, second);
      LiveAppend(Live(front, first), attempts[|attempts| - 1], second);
    }
  }

  // ---------------------------------------------------------------- runs and the unpruned log

  ghost predicate Serialised(run: seq<Attempt>) {
    forall i, j :: 0 <= i < j < |run| ==> run[i].now <= run[j].now
  }

  function StoreAfter(run: seq<Attempt>): Store {
    if run == [] then EMPTY_STORE
    else AfterHit(StoreAfter(run[..|run| - 1]), run[|run| - 1])
  }

  /** What an unpruned log answers: deny when `limit` accepted attempts lie in the open-left
      window that ends now. */
  function LogAnswer(log: seq<int>, e: Attempt): Answer {
    var live := Live(log, e.now - e.window);
    if !WellConfigured(e) then InvalidBucket
    else if |live| >= e.limit then Denied(Wait(live[0], e.window, e.now))
    else Allowed
  }

  /** The times of every attempt on `key` that the unpruned log has accepted. Nothing is ever
      removed and no other key takes part. */
  function LogAfter(run: seq<Attempt>, key: string): seq<int> {
    if run == [] then []
    else
      var log := LogAfter(run[..|run| - 1], key);
      var e := run[|run| - 1];
      if e.key == key && LogAnswer(log, e) == Allowed then log + [e.now] else log
  }

  /** The times of the attempts on `key` that the store itself has let through. */
  function LetThrough(run: seq<Attempt>, key: string): seq<int> {
    if run == [] then []
    else
      var earlier := LetThrough(run[..|run| - 1], key);
      var e := run[|run| - 1];
      if e.key == key && AnswerTo(StoreAfter(run[..|run| - 1]), e) == Allowed then earlier + [e.now] else earlier
  }

  /** Hits on `key` use the window `w`, and no hit on the store uses a shorter one. */
  ghost predicate WindowOf(run: seq<Attempt>, key: string, w: int) {
    forall e :: e in run ==> e.window >= w && (e.key == key ==> e.window == w)
  }

  lemma StoreGains(run: seq<Attempt>, e: Attempt)
    ensures StoreAfter(run + [e]) == AfterHit(StoreAfter(run), e)
  {
  }

  lemma LogGains(run: seq<Attempt>, e: Attempt, key: string)
    ensures
      var log := LogAfter(run, key);
      LogAfter(run + [e], key) == if e.key == key && LogAnswer(log, e) == Allowed then log + [e.now] else log
  {
  }

  lemma RunPrefix(run: seq<Attempt>, key: string, w: int)
    requires run != [] && Serialised(run) && WindowOf(run, key, w)
    ensures Serialised(run[..|run| - 1]) && WindowOf(run[..|run| - 1], key, w)
  {
  }

  /** Store and log agree on every attempt that can still matter at `now` or later. */
  ghost predicate Agree(stored: seq<int>, log: seq<int>, from: int) {
    forall cutoff :: cutoff >= from ==> Live(stored, cutoff) == Live(log, cutoff)
  }

  lemma AgreeAfterPrune(stored: seq<int>, log: seq<int>, from: int, cutoff: int, later: int)
    requires Agree(stored, log, from)
    requires from <= later && cutoff <= later
    ensures Agree(Live(stored, cutoff), log, later)
  {
    forall c | c >= later ensures Live(Live(stored, cutoff), c) == Live(log, c) {
      LiveTwice(stored, cutoff, c);
    }
  }

  lemma AgreeAfterAppend(stored: seq<int>, log: seq<int>, from: int, t: int)
    requires Agree(stored, log, from)
    ensures Agree(stored + [t], log + [t], from)
  {
  }

  /** What one hit does to the attempts on `key`, before any sweep. */
  function Recorded(stored: seq<int>, e: Attempt, key: string, answer: Answer): seq<int> {
    if e.key != key then stored
    else match answer
    case InvalidBucket => stored
    case Denied(_) => Live(stored, e.now - e.window)
    case Allowed => Live(stored, e.now - e.window) + [e.now]
  }

  lemma HitOnKey(store: Store, e: Attempt, key: string)
    ensures
      var recorded := Recorded(Attempts(store.requests, key), e, key, AnswerTo(store, e));
      var after := Attempts(AfterHit(store, e).requests, key);
      after == recorded || after == Live(recorded, e.now - e.window)
  {
  }

  lemma RecordedAgrees(stored: seq<int>, log: seq<int>, e: Attempt, key: string, answer: Answer, from: int, later: int)
    requires Agree(stored, log, from) && from <= later && e.now - e.window <= later
    ensures Agree(Recorded(stored, e, key, answer), if e.key == key && answer == Allowed then log + [e.now] else log, later)
  {
    AgreeAfterPrune(stored, log, from, e.now - e.window, later);
    if answer == Allowed {
      AgreeAfterAppend(Live(stored, e.now - e.window), log, later, e.now);
    }
  }

  lemma AnswersAgree(store: Store, log: seq<int>, e: Attempt, from: int)
    requires Agree(Attempts(store.requests, e.key), log, from) && from <= e.now - e.window
    ensures AnswerTo(store, e) == LogAnswer(log, e)
  {
  }

  /** One hit on any key keeps the agreement for `key`. */
  lemma HitKeepsAgreement(store: Store, log: seq<int>, key: string, w: int, e: Attempt, before: int)
    requires Agree(Attempts(store.requests, key), log, before - w)
    requires before <= e.now && w <= e.window && (e.key == key ==> e.window == w)
    ensures e.key == key ==> AnswerTo(store, e) == LogAnswer(log, e)
    ensures
      var log' := if e.key == key && LogAnswer(log, e) == Allowed then log + [e.now] else log;
      Agree(Attempts(AfterHit(store, e).requests, key), log', e.now - w)
  {
    hide Live, AfterHit, AnswerTo, LogAnswer, Attempts, Agree;
    var stored, answer := Attempts(store.requests, key), AnswerTo(store, e);
    if e.key == key {
      AnswersAgree(store, log, e, before - w);
    }
    HitOnKey(store, e, key);
    RecordedAgrees(stored, log, e, key, answer, before - w, e.now - w);
    var recorded := Recorded(stored, e, key, answer);
    hide Recorded;
    var log' := if e.key == key && answer == Allowed then log + [e.now] else log;
    AgreeAfterPrune(recorded, log', e.now - w, e.now - e.window, e.now - w);
  }

  /** Where the run's clock stands. */
  function LastReading(run: seq<Attempt>, otherwise: int): int {
    if run == [] then otherwise else run[|run| - 1].now
  }

  lemma {:induction false} RunsAgree(run: seq<Attempt>, key: string, w: int, start: int)
    requires Serialised(run) && WindowOf(run, key, w)
    requires run != [] ==> start <= run[0].now
    ensures Agree(Attempts(StoreAfter(run).requests, key), LogAfter(run, key), LastReading(run, start) - w)
    ensures LetThrough(run, key) == LogAfter(run, key)
  {
    if run != [] {
      var front, e := run[..|run| - 1], run[|run| - 1];
      RunPrefix(run, key, w);
      RunsAgree(front, key, w, start);
      HitKeepsAgreement(StoreAfter(front), LogAfter(front, key), key, w, e, LastReading(front, start));
    }
  }

  /** Main result: pruning a key's list and sweeping everybody's never change an answer. After
      any run, the store answers the next hit on `key` as the unpruned log would. */
  lemma StoreRefinesLog(run: seq<Attempt>, e: Attempt, w: int)
    requires Serialised(run + [e]) && WindowOf(run + [e], e.key, w)
    ensures AnswerTo(StoreAfter(run), e) == LogAnswer(LogAfter(run, e.key), e)
    ensures LetThrough(run, e.key) == LogAfter(run, e.key)
  {
    var all := run + [e];
    assert all[..|all| - 1] == run && all[|all| - 1] == e;
    RunPrefix(all, e.key, w);
    var start := if run == [] then e.now else run[0].now;
    RunsAgree(run, e.key, w, start);
    var before := LastReading(run, start);
    assert before <= e.now;
    HitKeepsAgreement(StoreAfter(run), LogAfter(run, e.key), e.key, w, e, before);
  }

  // ---------------------------------------------------------------- two windows on one store

  /** Runs in which hits on `key` use `own` and hits on every other key use `other`. */
  ghost predicate TwoWindows(run: seq<Attempt>, key: string, own: int, other: int) {
    forall e :: e in run ==> e.window == if e.key == key then own else other
  }

  ghost predicate AlwaysExact(key: string, own: int, other: int) {
    forall run: seq<Attempt>, e: Attempt :: e.key == key && Serialised(run + [e]) && TwoWindows(run + [e], key, own, other) ==>
      AnswerTo(StoreAfter(run), e) == LogAnswer(LogAfter(run, key), e)
  }

  lemma FirstHit(e: Attempt)
    requires WellConfigured(e) && e.now == 0 && e.window < MAX_DURATION
    ensures AfterHit(EMPTY_STORE, e) == Store(map[e.key := [0]], 0)
  {
  }

  lemma SecondHit(other: string, e: Attempt)
    requires WellConfigured(e) && e.now == 1 && e.window > 1 && e.key != other
    ensures AfterHit(Store(map[other := [0]], 0), e) == Store(map[other := [0], e.key := [1]], 0)
  {
    assert Live([], 1 - e.window) == [] && [] + [1] == [1];
    assert map[other := [0]][e.key := [1]] == map[other := [0], e.key := [1]];
  }

  lemma ThirdHit(key: string, e: Attempt)
    requires WellConfigured(e) && e.now == e.window + 1 && e.window < MAX_DURATION && e.key != key
    ensures key !in AfterHit(Store(map[e.key := [0], key := [1]], 0), e).requests
  {
  }

  lemma AbsentKeyIsAllowed(store: Store, e: Attempt)
    requires WellConfigured(e) && e.key !in store.requests
    ensures AnswerTo(store, e) == Allowed
  {
  }

  lemma LoneAttemptDenies(e: Attempt, t: int)
    requires WellConfigured(e) && e.limit == 1 && t > e.now - e.window
    ensures LogAnswer([t], e) == Denied(Wait(t, e.window, e.now))
  {
    LiveOne(t, e.now - e.window);
    hide Live;
  }

  lemma ShorterWindowRun(key: string, otherKey: string, own: int, other: int)
    requires key != otherKey && 0 < other < own
    ensures
      var run := [Attempt(otherKey, 1, other, 0), Attempt(key, 1, own, 1), Attempt(otherKey, 2, other, other + 1)];
      var e := Attempt(key, 1, own, other + 1);
      Serialised(run + [e]) && TwoWindows(run + [e], key, own, other)
  {
  }

  /** A hit with a shorter window sweeps away attempts that still count for a longer one. */
  lemma ShorterWindowLosesAttempts(key: string, otherKey: string, own: int, other: int)
    requires key != "" && otherKey != "" && key != otherKey
    requires 0 < other < own <= MAX_DURATION
    ensures
      var run := [Attempt(otherKey, 1, other, 0), Attempt(key, 1, own, 1), Attempt(otherKey, 2, other, other + 1)];
      var e := Attempt(key, 1, own, other + 1);
      && Serialised(run + [e]) && TwoWindows(run + [e], key, own, other)
      && AnswerTo(StoreAfter(run), e) == Allowed
      && LogAnswer(LogAfter(run, key), e).Denied?
  {
    var a, b, c := Attempt(otherKey, 1, other, 0), Attempt(key, 1, own, 1), Attempt(otherKey, 2, other, other + 1);
    var e := Attempt(key, 1, own, other + 1);
    hide StoreAfter, LogAfter, AnswerTo, AfterHit, LogAnswer, Live, Serialised, TwoWindows;
    ShorterWindowRun(key, otherKey, own, other);
    ShorterWindowStore(a, b, c);
    AbsentKeyIsAllowed(StoreAfter([a, b, c]), e);
    ShorterWindowLog(a, b, c);
    LoneAttemptDenies(e, 1);
  }

  lemma ShorterWindowStore(a: Attempt, b: Attempt, c: Attempt)
    requires WellConfigured(a) && a.now == 0 && a.window < MAX_DURATION && WellConfigured(b) && b.now == 1 && b.window > 1
    requires WellConfigured(c) && c.now == c.window + 1 && c.window == a.window && a.key == c.key && b.key != a.key
    ensures b.key !in StoreAfter([a, b, c]).requests
  {
    hide AfterHit;
    FirstHit(a);
    SecondHit(a.key, b);
    ThirdHit(b.key, c);
    StoreGains([], a);
    StoreGains([a], b);
    StoreGains([a, b], c);
    assert [] + [a] == [a] && [a] + [b] == [a, b] && [a, b] + [c] == [a, b, c];
  }

  lemma ShorterWindowLog(a: Attempt, b: Attempt, c: Attempt)
    requires WellConfigured(b) && b.now == 1 && b.key != a.key && b.key != c.key
    ensures LogAfter([a, b, c], b.key) == [1]
  {
    assert LogAfter([], b.key) == [] && LogAnswer([], b) == Allowed;
    hide LogAfter, StoreAfter, LogAnswer, AfterHit;
    LogGains([], a, b.key);
    LogGains([a], b, b.key);
    LogGains([a, b], c, b.key);
    assert [] + [a] == [a] && [a] + [b] == [a, b] && [a, b] + [c] == [a, b, c];
  }

  /** The store is exact for a key in every run exactly when no other window on the store is
      shorter than the key's own. */
  lemma ExactIffNoShorterWindow(key: string, otherKey: string, own: int, other: int)
    requires key != "" && otherKey != "" && key != otherKey
    requires 0 < own <= MAX_DURATION && 0 < other <= MAX_DURATION
    ensures AlwaysExact(key, own, other) <==> own <= other
  {
    if own <= other {
      forall run: seq<Attempt>, e: Attempt | e.key == key && Serialised(run + [e]) && TwoWindows(run + [e], key, own, other)
        ensures AnswerTo(StoreAfter(run), e) == LogAnswer(LogAfter(run, key), e)
      {
        StoreRefinesLog(run, e, own);
      }
    } else {
      ShorterWindowLosesAttempts(key, otherKey, own, other);
    }
  }

  // ---------------------------------------------------------------- how many get through

  /** The attempts in the open-left interval (from, to]. */
  function Within(log: seq<int>, from: int, to: int): nat {
    if log == [] then 0
    else Within(log[..|log| - 1], from, to) + (if from < log[|log| - 1] <= to then 1 else 0)
  }

  lemma WithinAppend(log: seq<int>, t: int, from: int, to: int)
    ensures Within(log + [t], from, to) == Within(log, from, to) + (if from < t <= to then 1 else 0)
  {
  }

  lemma {:induction false} WithinAtMostLive(log: seq<int>, from: int, to: int, cutoff: int)
    requires cutoff <= from
    ensures Within(log, from, to) <= |Live(log, cutoff)|
  {
    if log != [] {
      WithinAtMostLive(log[..|log| - 1], from, to, cutoff);
    }
  }

  lemma {:induction false} WithinSplits(log: seq<int>, from: int, middle: int, to: int)
    requires from <= middle <= to
    ensures Within(log, from, to) == Within(log, from, middle) + Within(log, middle, to)
  {
    if log != [] {
      WithinSplits(log[..|log| - 1], from, middle, to);
    }
  }

  ghost predicate LimitOf(run: seq<Attempt>, key: string, limit: int) {
    forall e :: e in run && e.key == key ==> e.limit <= limit
  }

  /** Letting one more attempt through keeps a window within its limit. */
  lemma AcceptKeepsBound(log: seq<int>, e: Attempt, w: int, limit: nat, from: int)
    requires LogAnswer(log, e) == Allowed && e.window == w && e.limit <= limit
    requires Within(log, from, from + w) <= limit
    ensures Within(log + [e.now], from, from + w) <= limit
  {
    WithinAppend(log, e.now, from, from + w);
    if from < e.now <= from + w {
      WithinAtMostLive(log, from, from + w, e.now - w);
    }
  }

  lemma {:induction false} LogWindowBounded(run: seq<Attempt>, key: string, w: int, limit: nat, from: int)
    requires WindowOf(run, key, w) && LimitOf(run, key, limit)
    ensures Within(LogAfter(run, key), from, from + w) <= limit
  {
    if run != [] {
      var front, e := run[..|run| - 1], run[|run| - 1];
      LogWindowBounded(front, key, w, limit, from);
      assert e in run;
      if e.key == key && LogAnswer(LogAfter(front, key), e) == Allowed {
        AcceptKeepsBound(LogAfter(front, key), e, w, limit, from);
      }
    }
  }

  lemma {:induction false} LogWindowsBounded(run: seq<Attempt>, key: string, w: int, limit: nat, from: int, k: nat)
    requires w > 0 && WindowOf(run, key, w) && LimitOf(run, key, limit)
    ensures Within(LogAfter(run, key), from, from + k * w) <= k * limit
    decreases k
  {
    if k == 0 {
      WithinEmpty(LogAfter(run, key), from);
    } else {
      LogWindowsBounded(run, key, w, limit, from + w, k - 1);
      LogWindowBounded(run, key, w, limit, from);
      assert from + w + (k - 1) * w == from + k * w;
      assert (k - 1) * w >= 0;
      WithinSplits(LogAfter(run, key), from, from + w, from + k * w);
      assert k * limit == (k - 1) * limit + limit;
    }
  }

  lemma {:induction false} WithinEmpty(log: seq<int>, at: int)
    ensures Within(log, at, at) == 0
  {
    if log != [] {
      WithinEmpty(log[..|log| - 1], at);
    }
  }

  /** Main result: whatever the other keys do, no interval of k windows, wherever it starts,
      lets more than k times the limit through. */
  lemma NoBurstAboveLimit(run: seq<Attempt>, key: string, w: int, limit: nat, from: int, k: nat)
    requires w > 0 && Serialised(run) && WindowOf(run, key, w) && LimitOf(run, key, limit)
    ensures Within(LetThrough(run, key), from, from + k * w) <= k * limit
  {
    RunsAgree(run, key, w, if run == [] then 0 else run[0].now);
    LogWindowsBounded(run, key, w, limit, from, k);
  }

  // ---------------------------------------------------------------- waiting after a denial

  ghost predicate Ascending(log: seq<int>) {
    forall i, j :: 0 <= i < j < |log| ==> log[i] <= log[j]
  }

  lemma {:induction false} LogAscends(run: seq<Attempt>, key: string)
    requires Serialised(run)
    ensures Ascending(LogAfter(run, key))
    ensures forall i :: 0 <= i < |LogAfter(run, key)| ==> run != [] && LogAfter(run, key)[i] <= run[|run| - 1].now
  {
    if run != [] {
      var front, e := run[..|run| - 1], run[|run| - 1];
      LogAscends(front, key);
      assert front != [] ==> front[|front| - 1].now <= e.now;
    }
  }

  lemma {:induction false} LiveAscends(log: seq<int>, cutoff: int)
    requires Ascending(log)
    ensures Ascending(Live(log, cutoff))
  {
    if log != [] {
      var front, last := log[..|log| - 1], log[|log| - 1];
      LiveAscends(front, cutoff);
      LiveMembers(front, cutoff);
      var live := Live(front, cutoff);
      forall i | 0 <= i < |live| ensures live[i] <= last {
        assert live[i] in live;
      }
    }
  }

  lemma {:induction false} LiveKeepsAll(log: seq<int>, cutoff: int)
    requires forall i :: 0 <= i < |log| ==> log[i] > cutoff
    ensures Live(log, cutoff) == log
  {
    if log != [] {
      LiveKeepsAll(log[..|log| - 1], cutoff);
    }
  }

  lemma {:induction false} LiveShrinks(log: seq<int>, cutoff: int)
    ensures |Live(log, cutoff)| <= |log|
    ensures log != [] && log[0] <= cutoff ==> |Live(log, cutoff)| < |log|
  {
    if log != [] {
      LiveShrinks(log[..|log| - 1], cutoff);
    }
  }

  lemma {:induction false} LiveIsWithin(log: seq<int>, from: int, to: int)
    requires forall i :: 0 <= i < |log| ==> log[i] <= to
    ensures |Live(log, from)| == Within(log, from, to)
  {
    if log != [] {
      LiveIsWithin(log[..|log| - 1], from, to);
    }
  }

  /** Main result: the wait a denied hit is told is exact. While nothing else gets through on the
      key (other keys and further denials are free to come in between), the key stays shut until
      the wait is over and is open from then on; only the one-second floor can be too long. */
  lemma DeniedWaitIsExact(run: seq<Attempt>, e: Attempt, between: seq<Attempt>, again: Attempt, w: int, limit: int)
    requires again.key == e.key && e.limit == again.limit == limit
    requires w <= MAX_DURATION && WellConfigured(e)
    requires Serialised(run + [e] + between + [again])
    requires WindowOf(run + [e] + between + [again], e.key, w) && LimitOf(run, e.key, limit)
    requires AnswerTo(StoreAfter(run), e).Denied?
    requires LetThrough(run + [e] + between, e.key) == LetThrough(run, e.key)
    ensures
      var wait := AnswerTo(StoreAfter(run), e).retryAfter;
      var answer := AnswerTo(StoreAfter(run + [e] + between), again);
      && SECOND <= wait
      && (again.now >= e.now + wait ==> answer == Allowed)
      && (again.now < e.now + wait && wait > SECOND ==> answer.Denied?)
  {
    SubRuns(run, e, between, again, w);
    WaitIsExact(run, e, run + [e] + between, again, w, limit);
  }

  lemma WaitIsExact(run: seq<Attempt>, e: Attempt, all: seq<Attempt>, again: Attempt, w: int, limit: int)
    requires again.key == e.key && e.limit == again.limit == limit && e.now <= again.now
    requires w <= MAX_DURATION && WellConfigured(e) && e.window == again.window == w
    requires Serialised(run + [e]) && WindowOf(run + [e], e.key, w) && LimitOf(run, e.key, limit)
    requires Serialised(run) && WindowOf(run, e.key, w)
    requires Serialised(all + [again]) && WindowOf(all + [again], again.key, w)
    requires AnswerTo(StoreAfter(run), e).Denied? && LetThrough(all, e.key) == LetThrough(run, e.key)
    ensures
      var wait := AnswerTo(StoreAfter(run), e).retryAfter;
      var answer := AnswerTo(StoreAfter(all), again);
      && SECOND <= wait
      && (again.now >= e.now + wait ==> answer == Allowed)
      && (again.now < e.now + wait && wait > SECOND ==> answer.Denied?)
  {
    hide StoreAfter, AnswerTo, LogAnswer, LogAfter, LetThrough;
    StoreRefinesLog(run, e, w);
    StoreRefinesLog(all, again, w);
    WaitIsExactOnLog(run, e, again, w, limit);
  }

  lemma WaitIsExactOnLog(run: seq<Attempt>, e: Attempt, again: Attempt, w: int, limit: int)
    requires again.key == e.key && e.limit == again.limit == limit && e.now <= again.now
    requires w <= MAX_DURATION && WellConfigured(e) && e.window == again.window == w
    requires Serialised(run + [e]) && WindowOf(run, e.key, w) && LimitOf(run, e.key, limit) && Serialised(run)
    requires LogAnswer(LogAfter(run, e.key), e).Denied?
    ensures
      var log := LogAfter(run, e.key);
      var wait := LogAnswer(log, e).retryAfter;
      && SECOND <= wait
      && (again.now >= e.now + wait ==> LogAnswer(log, again) == Allowed)
      && (again.now < e.now + wait && wait > SECOND ==> LogAnswer(log, again).Denied?)
  {
    var log := LogAfter(run, e.key);
    LogAscends(run, e.key);
    OldestInWindow(run, e, w, limit);
    var before, after := e.now - w, again.now - w;
    if again.now >= Live(log, before)[0] + w {
      ExpiryMakesRoom(log, before, after);
    } else {
      NoExpiryNoRoom(log, before, after);
    }
  }

  lemma ExpiryMakesRoom(log: seq<int>, before: int, after: int)
    requires before <= after && Live(log, before) != [] && Live(log, before)[0] <= after
    ensures |Live(log, after)| < |Live(log, before)|
  {
    LiveTwice(log, before, after);
    LiveShrinks(Live(log, before), after);
  }

  lemma NoExpiryNoRoom(log: seq<int>, before: int, after: int)
    requires Ascending(log) && before <= after && Live(log, before) != [] && after < Live(log, before)[0]
    ensures Live(log, after) == Live(log, before)
  {
    LiveAscends(log, before);
    LiveTwice(log, before, after);
    LiveKeepsAll(Live(log, before), after);
  }

  lemma SubRuns(run: seq<Attempt>, e: Attempt, between: seq<Attempt>, again: Attempt, w: int)
    requires Serialised(run + [e] + between + [again])
    requires WindowOf(run + [e] + between + [again], e.key, w)
    ensures Serialised(run + [e]) && WindowOf(run + [e], e.key, w) && Serialised(run) && WindowOf(run, e.key, w)
    ensures e.now <= again.now && e.window == w && (again.key == e.key ==> again.window == w)
  {
    var all := run + [e] + between + [again];
    assert all[..|run| + 1] == run + [e];
    assert all[..|run|] == run;
    assert all[|run|] == e && all[|all| - 1] == again;
    forall x | x in run + [e] ensures x in all {
      var i :| 0 <= i < |run + [e]| && (run + [e])[i] == x;
      assert all[i] == x;
    }
    forall i, j | 0 <= i < j < |run + [e]| ensures (run + [e])[i].now <= (run + [e])[j].now {
      assert all[i] == (run + [e])[i] && all[j] == (run + [e])[j];
    }
    forall i, j | 0 <= i < j < |run| ensures run[i].now <= run[j].now {
      assert all[i] == run[i] && all[j] == run[j];
    }
  }

  /** A denied hit finds its window exactly full, and no live attempt lies in the future. */
  lemma OldestInWindow(run: seq<Attempt>, e: Attempt, w: int, limit: int)
    requires Serialised(run + [e]) && WindowOf(run, e.key, w) && LimitOf(run, e.key, limit)
    requires e.window == w && e.limit == limit && LogAnswer(LogAfter(run, e.key), e).Denied?
    ensures
      var live := Live(LogAfter(run, e.key), e.now - w);
      |live| == limit && 0 < limit && e.now - w < live[0] <= e.now
  {
    var log := LogAfter(run, e.key);
    assert forall i :: 0 <= i < |run| ==> run[i] == (run + [e])[i];
    assert (run + [e])[|run|] == e;
    assert Serialised(run);
    LogAscends(run, e.key);
    LogWindowBounded(run, e.key, w, limit, e.now - w);
    LiveIsWithin(log, e.now - w, e.now);
    LiveMembers(log, e.now - w);
    assert Live(log, e.now - w)[0] in Live(log, e.now - w);
  }

  // ---------------------------------------------------------------- the Retry-After header

  /** int((RetryAfter + time.Second - 1) / time.Second): int64 addition wraps around, Go's
      division truncates toward zero. */
  function HeaderSeconds(retryAfter: int): int {
    var sum := WrapInt64(retryAfter + SECOND - 1);
    if sum >= 0 then sum / SECOND else -(-sum / SECOND)
  }

  function WrapInt64(n: int): int {
    (n - MIN_DURATION) % 0x1_0000_0000_0000_0000 + MIN_DURATION
  }

  /** The header is the wait rounded up to whole seconds exactly when the rounding does not overflow. */
  lemma HeaderRoundsUp(retryAfter: int)
    requires SECOND <= retryAfter <= MAX_DURATION
    ensures
      var seconds := HeaderSeconds(retryAfter);
      (retryAfter <= seconds * SECOND < retryAfter + SECOND) <==> retryAfter <= MAX_DURATION - (SECOND - 1)
  {
  }

  /** A denied hit on the key, and a later one that obeys its header, with nothing let through on the
      key in between. */
  ghost predicate ObeysHeader(run: seq<Attempt>, e: Attempt, between: seq<Attempt>, again: Attempt, key: string, w: int) {
    && again.key == e.key == key && e.limit == again.limit && WellConfigured(e)
    && Serialised(run + [e] + between + [again])
    && WindowOf(run + [e] + between + [again], key, w) && LimitOf(run, key, e.limit)
    && AnswerTo(StoreAfter(run), e).Denied?
    && LetThrough(run + [e] + between, key) == LetThrough(run, key)
    && again.now >= e.now + HeaderSeconds(AnswerTo(StoreAfter(run), e).retryAfter) * SECOND
  }

  /** A client that obeys the header is let in, whatever else happens on the store. */
  ghost predicate HeaderIsEnough(key: string, w: int) {
    forall run: seq<Attempt>, e: Attempt, between: seq<Attempt>, again: Attempt ::
      ObeysHeader(run, e, between, again, key, w) ==> AnswerTo(StoreAfter(run + [e] + between), again) == Allowed
  }

  lemma WaitAtMostWindow(run: seq<Attempt>, e: Attempt, w: int)
    requires Serialised(run + [e]) && WindowOf(run + [e], e.key, w) && LimitOf(run, e.key, e.limit) && WellConfigured(e)
    requires e.window == w <= MAX_DURATION && WindowOf(run, e.key, w) && AnswerTo(StoreAfter(run), e).Denied?
    ensures AnswerTo(StoreAfter(run), e).retryAfter <= if w < SECOND then SECOND else w
  {
    hide StoreAfter, AnswerTo, LogAfter, Live, Serialised, WindowOf, LimitOf, LetThrough;
    StoreRefinesLog(run, e, w);
    OldestInWindow(run, e, w, e.limit);
  }

  lemma ObeyedHeaderIsEnough(run: seq<Attempt>, e: Attempt, between: seq<Attempt>, again: Attempt, key: string, w: int)
    requires 0 < w <= MAX_DURATION - (SECOND - 1) && ObeysHeader(run, e, between, again, key, w)
    ensures AnswerTo(StoreAfter(run + [e] + between), again) == Allowed
  {
    hide StoreAfter, AnswerTo, LetThrough, HeaderSeconds, Serialised, WindowOf, LimitOf;
    SubRuns(run, e, between, again, w);
    WaitAtMostWindow(run, e, w);
    DeniedWaitIsExact(run, e, between, again, w, e.limit);
    HeaderRoundsUp(AnswerTo(StoreAfter(run), e).retryAfter);
  }

  lemma OverflowIsNegative(w: int)
    requires MAX_DURATION - (SECOND - 1) < w <= MAX_DURATION
    ensures HeaderSeconds(w) < 0
  {
  }

  lemma LogOfEqualHits(e: Attempt)
    requires WellConfigured(e) && e.limit == 1 && e.now == 0 && SECOND <= e.window <= MAX_DURATION
    ensures LogAfter([e], e.key) == [0] && LogAfter([e, e], e.key) == [0]
    ensures LogAnswer([0], e) == Denied(e.window)
  {
  }

  /** Two hits at one instant under the limit one: the second is denied with the whole window. */
  lemma SecondIsDenied(e: Attempt)
    requires WellConfigured(e) && e.limit == 1 && e.now == 0 && SECOND <= e.window <= MAX_DURATION
    ensures AnswerTo(StoreAfter([e]), e) == Denied(e.window)
    ensures AnswerTo(StoreAfter([e, e]), e) == Denied(e.window)
    ensures LetThrough([e, e], e.key) == LetThrough([e], e.key)
  {
    assert WindowOf([e], e.key, e.window) && WindowOf([e, e], e.key, e.window) && WindowOf([e, e, e], e.key, e.window);
    hide StoreAfter, AnswerTo, LogAnswer, LogAfter, LetThrough, WindowOf, Wait;
    LogOfEqualHits(e);
    assert [e] + [e] == [e, e] && [e, e] + [e] == [e, e, e];
    StoreRefinesLog([e], e, e.window);
    StoreRefinesLog([e, e], e, e.window);
  }

  /** With a longer window the header of the very first denial is a negative number of seconds, and a
      client that obeys it at once is denied again. */
  lemma OverflowedHeaderIsNot(key: string, w: int)
    requires key != "" && MAX_DURATION - (SECOND - 1) < w <= MAX_DURATION
    ensures
      var e := Attempt(key, 1, w, 0);
      ObeysHeader([e], e, [], e, key, w) && AnswerTo(StoreAfter([e] + [e] + []), e) == Denied(w)
  {
    var e := Attempt(key, 1, w, 0);
    SecondIsDenied(e);
    OverflowIsNegative(w);
    assert [e] + [e] + [] == [e, e] && [e] + [e] + [] + [e] == [e, e, e];
    hide StoreAfter, AnswerTo, LetThrough, HeaderSeconds;
  }

  /** Main result: the header is enough in every run exactly if the window leaves room for rounding up
      (section 10.2.3 of RFC 9110). */
  lemma HeaderIsEnoughIff(key: string, w: int)
    requires key != "" && 0 < w <= MAX_DURATION
    ensures HeaderIsEnough(key, w) <==> w <= MAX_DURATION - (SECOND - 1)
  {
    hide StoreAfter, AnswerTo, ObeysHeader;
    if w <= MAX_DURATION - (SECOND - 1) {
      forall run: seq<Attempt>, e: Attempt, between: seq<Attempt>, again: Attempt
        | ObeysHeader(run, e, between, again, key, w)
        ensures AnswerTo(StoreAfter(run + [e] + between), again) == Allowed
      {
        ObeyedHeaderIsEnough(run, e, between, again, key, w);
      }
    } else {
      OverflowedHeaderIsNot(key, w);
    }
  }

  // ---------------------------------------------------------------- what is kept in memory

  ghost predicate KeptAfter(store: Store, bound: int) {
    forall key :: key in store.requests ==> forall t :: t in store.requests[key] ==> t > bound
  }

  lemma HitKeepsBound(store: Store, e: Attempt, w: int)
    requires KeptAfter(store, store.lastSweep - w) && e.window == w && 0 < w && store.lastSweep <= e.now
    ensures KeptAfter(AfterHit(store, e), AfterHit(store, e).lastSweep - w)
    ensures AfterHit(store, e).lastSweep <= e.now
    ensures AnswerTo(store, e) == Allowed && w < MAX_DURATION ==> KeptAfter(AfterHit(store, e), e.now - 2 * w)
  {
    var cutoff := e.now - w;
    var stored := Attempts(store.requests, e.key);
    LiveMembers(stored, cutoff);
    var after := AfterHit(store, e);
    if AnswerTo(store, e) == Allowed {
      var recorded := store.requests[e.key := Live(stored, cutoff) + [e.now]];
      forall key | key in recorded ensures forall t :: t in recorded[key] ==> t > store.lastSweep - w {
      }
      forall key | key in Sweep(recorded, cutoff) ensures forall t :: t in Sweep(recorded, cutoff)[key] ==> t > cutoff {
        LiveMembers(recorded[key], cutoff);
      }
    }
  }

  lemma {:induction false} RunKeepsBound(run: seq<Attempt>, w: int)
    requires 0 < w && Serialised(run)
    requires forall e :: e in run ==> e.window == w && e.now >= ZERO_TIME
    ensures KeptAfter(StoreAfter(run), StoreAfter(run).lastSweep - w)
    ensures run != [] ==> StoreAfter(run).lastSweep <= run[|run| - 1].now
    ensures run == [] ==> StoreAfter(run) == EMPTY_STORE
  {
    if run != [] {
      RunKeepsBound(run[..|run| - 1], w);
      HitKeepsBound(StoreAfter(run[..|run| - 1]), run[|run| - 1], w);
    }
  }

  /** Memory stays bounded: with one window, an accepted hit leaves nothing older than two. */
  lemma AllowedHitForgets(run: seq<Attempt>, e: Attempt, w: int)
    requires 0 < w < MAX_DURATION && Serialised(run + [e])
    requires forall x :: x in run + [e] ==> x.window == w && x.now >= ZERO_TIME
    requires AnswerTo(StoreAfter(run), e) == Allowed
    ensures KeptAfter(StoreAfter(run + [e]), e.now - 2 * w)
  {
    var all := run + [e];
    assert all[..|run|] == run && all[|run|] == e;
    assert forall i :: 0 <= i < |run| ==> all[i] == run[i];
    RunKeepsBound(run, w);
    HitKeepsBound(StoreAfter(run), e, w);
  }
}
