/**
 The in-memory login throttle (backend/app/ratelimit.py): a sliding window of failures per
 address, pruned wherever it is touched, swept once a minute and capped, against the plain log
 of every failure there ever was.
 */
module RateLimit {
  const MAX_TRACKED_IPS: nat := 10_000
  const SWEEP_INTERVAL: real := 60.0

  datatype Failure = Failure(ip: string, at: real)

  /** `_prune`: what is left of a queue without the timestamps at its front that are too old. */
  function Pruned(q: seq<real>, cutoff: real): seq<real> {
    if q != [] && q[0] <= cutoff then Pruned(q[1..], cutoff) else q
  }

  /** The timestamps younger than the cutoff. */
  function Recent(q: seq<real>, cutoff: real): seq<real> {
    if q == [] then []
    else Recent(q[..|q| - 1], cutoff) + (if q[|q| - 1] > cutoff then [q[|q| - 1]] else [])
  }

  /** The failures of one address in the log. */
  function TimesOf(log: seq<Failure>, ip: string): seq<real> {
    if log == [] then []
    else TimesOf(log[..|log| - 1], ip) + (if log[|log| - 1].ip == ip then [log[|log| - 1].at] else [])
  }

  predicate IsSorted(q: seq<real>) {
    forall i, j | 0 <= i < j < |q| :: q[i] <= q[j]
  }

  type Queues = map<string, seq<real>>

  function QueueOf(failures: Queues, ip: string): seq<real> {
    if ip in failures then failures[ip] else []
  }

  /** All queues pruned, the empty ones gone. */
  function AllPruned(failures: Queues, cutoff: real): Queues {
    map ip | ip in failures && Pruned(failures[ip], cutoff) != [] :: Pruned(failures[ip], cutoff)
  }

  function LastOf(failures: Queues, ip: string): real
    requires ip in failures && failures[ip] != []
  {
    failures[ip][|failures[ip]| - 1]
  }

  ghost predicate NoneEmpty(failures: Queues) {
    forall ip | ip in failures :: failures[ip] != []
  }

  /** At most the cap is kept, and nobody who was active after someone that is kept is dropped. */
  ghost predicate KeepsMostRecent(before: Queues, after: Queues)
    requires NoneEmpty(before)
  {
    && after.Keys <= before.Keys && (forall ip | ip in after :: after[ip] == before[ip])
    && (if |before| <= 10_000 then after == before else |after| == 10_000)
    && (forall kept, gone | kept in after && gone in before && gone !in after :: LastOf(before, gone) <= LastOf(before, kept))
  }

  /** The seconds a blocked address is told to wait. */
  function RetryAfter(window: real, oldest: real, now: real): int {
    var seconds := (window - (now - oldest)).Floor + 1;
    if seconds < 1 then 1 else seconds
  }

  /** Every address once. */
  ghost predicate Lists(order: seq<string>, ips: set<string>) {
    && (forall i, j | 0 <= i < j < |order| :: order[i] != order[j])
    && (forall ip :: ip in order <==> ip in ips)
  }

  /** The least recently active first. */
  ghost predicate ByLast(failures: Queues, order: seq<string>)
    requires NoneEmpty(failures)
  {
    && (forall i | 0 <= i < |order| :: order[i] in failures)
    && (forall i, j | 0 <= i < j < |order| :: LastOf(failures, order[i]) <= LastOf(failures, order[j]))
  }

  method Prune(q: seq<real>, cutoff: real) returns (timestamps: seq<real>)
    ensures timestamps == Pruned(q, cutoff)
  {
    timestamps := q;
    while timestamps != [] && timestamps[0] <= cutoff
      invariant Pruned(timestamps, cutoff) == Pruned(q, cutoff)
      decreases |timestamps|
    {
      timestamps := timestamps[1..];
    }
  }

  /** `sorted(_failures, key=...)`: the least recently active address first. */
  method ByAge(failures: Queues) returns (order: seq<string>)
    requires NoneEmpty(failures)
    ensures Lists(order, failures.Keys)
    ensures ByLast(failures, order)
  {
    order := [];
    var todo := failures.Keys;
    while todo != {}
      invariant todo <= failures.Keys && Lists(order, failures.Keys - todo)
      invariant ByLast(failures, order)
      decreases |todo|
    {
      var ip :| ip in todo;
      var at := Place(failures, order, ip);
      InsertLists(order, failures.Keys - todo, ip, at);
      InsertSorts(failures, order, ip, at);
      order := order[..at] + [ip] + order[at..];
      assert failures.Keys - todo + {ip} == failures.Keys - (todo - {ip});
      todo := todo - {ip};
    }
  }

  /** Behind everyone who was last active no later. */
  method Place(failures: Queues, order: seq<string>, ip: string) returns (at: nat)
    requires NoneEmpty(failures) && ByLast(failures, order) && ip in failures
    ensures at <= |order|
    ensures forall i | 0 <= i < at :: LastOf(failures, order[i]) <= LastOf(failures, ip)
    ensures forall i | at <= i < |order| :: LastOf(failures, ip) <= LastOf(failures, order[i])
  {
    at := 0;
    while at < |order| && LastOf(failures, order[at]) <= LastOf(failures, ip)
      invariant 0 <= at <= |order|
      invariant forall i | 0 <= i < at :: LastOf(failures, order[i]) <= LastOf(failures, ip)
    {
      at := at + 1;
    }
  }

  lemma InsertSorts(failures: Queues, order: seq<string>, ip: string, at: nat)
    requires NoneEmpty(failures) && ByLast(failures, order) && ip in failures && at <= |order|
    requires forall i | 0 <= i < at :: LastOf(failures, order[i]) <= LastOf(failures, ip)
    requires forall i | at <= i < |order| :: LastOf(failures, ip) <= LastOf(failures, order[i])
    ensures ByLast(failures, order[..at] + [ip] + order[at..])
  {
  }

  lemma InsertLists(order: seq<string>, ips: set<string>, ip: string, at: nat)
    requires Lists(order, ips) && ip !in ips && at <= |order|
    ensures Lists(order[..at] + [ip] + order[at..], ips + {ip})
  {
    var next := order[..at] + [ip] + order[at..];
    assert next[at] == ip;
    forall x ensures x in next <==> x in ips + {ip} {
      if x in order {
        var i :| 0 <= i < |order| && order[i] == x;
        assert next[if i < at then i else i + 1] == x;
      }
    }
  }

  lemma {:induction false} ListingLength(order: seq<string>, ips: set<string>)
    requires Lists(order, ips)
    ensures |order| == |ips|
  {
    if order == [] {
      if ip :| ip in ips { assert ip in order; }
    } else {
      var last := order[|order| - 1];
      var init := order[..|order| - 1];
      assert order == init + [last];
      forall ip ensures ip in init <==> ip in ips - {last} {
        assert ip in order <==> ip in init || ip == last;
      }
      ListingLength(init, ips - {last});
    }
  }

  lemma FrontLists(order: seq<string>, ips: set<string>, n: nat)
    requires Lists(order, ips) && n <= |order|
    ensures Lists(order[..n], set ip | ip in order[..n]) && (forall ip | ip in order[..n] :: ip in ips)
    ensures |set ip | ip in order[..n]| == n
  {
    ListingLength(order[..n], set ip | ip in order[..n]);
  }

  lemma {:induction false} KeysRemoved(before: Queues, gone: set<string>)
    requires gone <= before.Keys
    ensures |before - gone| == |before| - |gone|
  {
    assert (before - gone).Keys == before.Keys - gone;
    assert |before.Keys - gone| == |before.Keys| - |gone|;
  }

  /** Deleting the front of the list by age leaves the most recently active. */
  lemma EvictionKeepsMostRecent(before: Queues, order: seq<string>, n: nat)
    requires NoneEmpty(before) && Lists(order, before.Keys) && ByLast(before, order)
    requires |before| > MAX_TRACKED_IPS && n == |before| - MAX_TRACKED_IPS <= |order|
    ensures KeepsMostRecent(before, before - set ip | ip in order[..n])
  {
    FrontLists(order, before.Keys, n);
    var dropped := set ip | ip in order[..n];
    var after := before - dropped;
    KeysRemoved(before, dropped);
    forall kept, gone | kept in after && gone in before && gone !in after
      ensures LastOf(before, gone) <= LastOf(before, kept)
    {
      FrontWasActiveFirst(before, order, n, gone, kept);
    }
  }

  lemma FrontWasActiveFirst(failures: Queues, order: seq<string>, n: nat, gone: string, kept: string)
    requires NoneEmpty(failures) && ByLast(failures, order) && n <= |order|
    requires gone in order[..n] && kept in order && kept !in order[..n] && gone in failures && kept in failures
    ensures LastOf(failures, gone) <= LastOf(failures, kept)
  {
    assert order == order[..n] + order[n..];
    var k :| n <= k < |order| && order[k] == kept;
    var g :| 0 <= g < n && order[g] == gone;
  }

  // ---- Pruned queues and the log ----

  lemma {:induction false} RecentFrontDrops(q: seq<real>, cutoff: real)
    requires q != [] && q[0] <= cutoff
    ensures Recent(q[1..], cutoff) == Recent(q, cutoff)
  {
    if |q| == 1 {
      assert q[..0] == [] && q[1..] == [];
    } else {
      RecentFrontDrops(q[..|q| - 1], cutoff);
      assert q[..|q| - 1][1..] == q[1..][..|q| - 2];
    }
  }

  /** Pruning loses nothing younger than its cutoff, nor anything a later cutoff asks for. */
  lemma {:induction false} PruningKeepsRecent(q: seq<real>, cutoff: real, later: real)
    requires cutoff <= later
    ensures Recent(Pruned(q, cutoff), later) == Recent(q, later)
    decreases |q|
  {
    if q != [] && q[0] <= cutoff {
      RecentFrontDrops(q, later);
      PruningKeepsRecent(q[1..], cutoff, later);
    }
  }

  lemma {:induction false} AllRecent(q: seq<real>, cutoff: real)
    requires forall i | 0 <= i < |q| :: q[i] > cutoff
    ensures Recent(q, cutoff) == q
  {
    if q != [] {
      AllRecent(q[..|q| - 1], cutoff);
    }
  }

  /** On a sorted queue pruning leaves exactly what is younger than the cutoff. */
  lemma {:induction false} PrunedIsRecent(q: seq<real>, cutoff: real)
    requires IsSorted(q)
    ensures Pruned(q, cutoff) == Recent(q, cutoff) && IsSorted(Pruned(q, cutoff))
    ensures forall x | x in Pruned(q, cutoff) :: x in q
    decreases |q|
  {
    if q != [] && q[0] <= cutoff {
      RecentFrontDrops(q, cutoff);
      PrunedIsRecent(q[1..], cutoff);
    } else {
      AllRecent(q, cutoff);
    }
  }

  lemma AppendSorted(q: seq<real>, at: real)
    requires IsSorted(q) && forall x | x in q :: x <= at
    ensures IsSorted(q + [at]) && forall x | x in q + [at] :: x <= at
  {
    forall i, j | 0 <= i < j < |q + [at]| ensures (q + [at])[i] <= (q + [at])[j] {
      assert i < |q| && q[i] in q;
    }
  }

  /** The `max`-th youngest failure decides: fewer than `max` are recent exactly once it has aged out. */
  lemma {:induction false} FewRecentExactly(q: seq<real>, cutoff: real, max: nat)
    requires IsSorted(q) && 0 < max <= |q|
    ensures |Recent(q, cutoff)| < max <==> q[|q| - max] <= cutoff
  {
    if q[|q| - 1] <= cutoff {
      NoneRecent(q, cutoff);
    } else if max > 1 {
      FewRecentExactly(q[..|q| - 1], cutoff, max - 1);
    }
  }

  lemma {:induction false} NoneRecent(q: seq<real>, cutoff: real)
    requires forall i | 0 <= i < |q| :: q[i] <= cutoff
    ensures Recent(q, cutoff) == []
  {
    if q != [] {
      NoneRecent(q[..|q| - 1], cutoff);
    }
  }

  /** The wait is over when the oldest failure has aged out, and not a second later than that. */
  lemma RetryIsLeast(window: real, oldest: real, now: real)
    ensures var wait := RetryAfter(window, oldest, now);
            && wait >= 1 && oldest < now + wait as real - window
            && (wait > 1 ==> oldest >= now + (wait - 1) as real - window)
  {
  }

  /** The failures of an address since a moment, by their places in the log. */
  function Since(log: seq<Failure>, ip: string, cutoff: real): set<int> {
    set i | 0 <= i < |log| && log[i].ip == ip && log[i].at > cutoff
  }

  lemma SinceOneMore(log: seq<Failure>, ip: string, cutoff: real)
    requires log != []
    ensures var n := |log| - 1;
            Since(log, ip, cutoff) == Since(log[..n], ip, cutoff) + (if log[n].ip == ip && log[n].at > cutoff then {n} else {})
  {
  }

  lemma RecentAppend(q: seq<real>, at: real, cutoff: real)
    ensures Recent(q + [at], cutoff) == Recent(q, cutoff) + (if at > cutoff then [at] else [])
  {
    assert (q + [at])[..|q|] == q;
  }

  lemma RecentOneMore(log: seq<Failure>, ip: string, cutoff: real)
    requires log != []
    ensures var n := |log| - 1;
            Recent(TimesOf(log, ip), cutoff)
            == Recent(TimesOf(log[..n], ip), cutoff) + (if log[n].ip == ip && log[n].at > cutoff then [log[n].at] else [])
  {
    var n := |log| - 1;
    if log[n].ip == ip {
      RecentAppend(TimesOf(log[..n], ip), log[n].at, cutoff);
    } else {
      assert TimesOf(log[..n], ip) + [] == TimesOf(log[..n], ip);
    }
  }

  /** The first place in the log. */
  ghost predicate IsFirstSince(log: seq<Failure>, ip: string, cutoff: real, i: int) {
    i in Since(log, ip, cutoff) && forall j | j in Since(log, ip, cutoff) :: i <= j
  }

  lemma {:induction false} FirstOfRecent(log: seq<Failure>, ip: string, cutoff: real) returns (i: int)
    requires Recent(TimesOf(log, ip), cutoff) != []
    ensures IsFirstSince(log, ip, cutoff, i) && log[i].at == Recent(TimesOf(log, ip), cutoff)[0]
  {
    var n := |log| - 1;
    RecentOneMore(log, ip, cutoff);
    SinceOneMore(log, ip, cutoff);
    if Recent(TimesOf(log[..n], ip), cutoff) != [] {
      i := FirstOfRecent(log[..n], ip, cutoff);
    } else {
      i := n;
      RecentCounts(log[..n], ip, cutoff);
    }
  }

  lemma {:induction false} RecentCounts(log: seq<Failure>, ip: string, cutoff: real)
    ensures |Recent(TimesOf(log, ip), cutoff)| == |Since(log, ip, cutoff)|
  {
    if log != [] {
      RecentCounts(log[..|log| - 1], ip, cutoff);
      RecentOneMore(log, ip, cutoff);
      SinceOneMore(log, ip, cutoff);
    }
  }

  /** The recent failures are as many as the log has since the cutoff, and the first of them is the oldest. */
  lemma RecentExactly(log: seq<Failure>, ip: string, cutoff: real)
    ensures var recent := Recent(TimesOf(log, ip), cutoff);
            && |recent| == |Since(log, ip, cutoff)|
            && (recent != [] ==> exists i :: IsFirstSince(log, ip, cutoff, i) && log[i].at == recent[0])
  {
    RecentCounts(log, ip, cutoff);
    if Recent(TimesOf(log, ip), cutoff) != [] {
      var i := FirstOfRecent(log, ip, cutoff);
    }
  }

  /**
   A blocked address that waits as long as it is told, and fails no more meanwhile, is let in
   again exactly if its `max`-th youngest failure has aged out by then; with exactly `max`
   failures that is always so.
   */
  lemma WaitingLiftsTheBlockExactly(q: seq<real>, window: real, now: real, max: nat)
    requires IsSorted(q) && 0 < max <= |q| && forall x | x in q :: now - window < x <= now
    ensures var wait := RetryAfter(window, q[0], now);
            && wait >= 1
            && (|Recent(q, now + wait as real - window)| < max <==> q[|q| - max] <= now + wait as real - window)
            && (|q| == max ==> |Recent(q, now + wait as real - window)| < max)
  {
    FewRecentExactly(q, now + RetryAfter(window, q[0], now) as real - window, max);
    assert q[0] in q;
  }

  // ---- Queues that agree with the log ----

  ghost predicate InOrder(failures: Queues, clock: real) {
    forall ip | ip in failures :: UpTo(failures[ip], clock)
  }

  ghost predicate UpTo(q: seq<real>, clock: real) {
    IsSorted(q) && forall x | x in q :: x <= clock
  }

  ghost predicate AgreeAt(failures: Queues, log: seq<Failure>, ip: string, cutoff: real) {
    Recent(QueueOf(failures, ip), cutoff) == Recent(TimesOf(log, ip), cutoff)
  }

  /** No question about a window that starts at `from` or later can tell the queues from the log. */
  ghost predicate Agree(failures: Queues, log: seq<Failure>, from: real) {
    forall ip, cutoff | cutoff >= from :: AgreeAt(failures, log, ip, cutoff)
  }

  lemma PruningOneKeepsOrder(failures: Queues, ip: string, cutoff: real, clock: real)
    requires InOrder(failures, clock)
    ensures InOrder(failures[ip := Pruned(QueueOf(failures, ip), cutoff)], clock)
  {
    PrunedIsRecent(QueueOf(failures, ip), cutoff);
  }

  lemma PruningOneKeepsAgreement(failures: Queues, ip: string, log: seq<Failure>, cutoff: real)
    requires Agree(failures, log, cutoff)
    ensures Agree(failures[ip := Pruned(QueueOf(failures, ip), cutoff)], log, cutoff)
  {
    var next := failures[ip := Pruned(QueueOf(failures, ip), cutoff)];
    forall other, later | later >= cutoff ensures AgreeAt(next, log, other, later) {
      assert AgreeAt(failures, log, other, later);
      if other == ip {
        PruningKeepsRecent(QueueOf(failures, ip), cutoff, later);
      }
    }
  }

  /** What is left of a queue that is asked about is what the log says. */
  lemma Looked(failures: Queues, log: seq<Failure>, ip: string, cutoff: real, clock: real, evicted: bool)
    requires InOrder(failures, clock) && (!evicted ==> Agree(failures, log, cutoff))
    ensures var next := failures[ip := Pruned(QueueOf(failures, ip), cutoff)];
            InOrder(next, clock) && (!evicted ==> Agree(next, log, cutoff))
    ensures !evicted ==> Pruned(QueueOf(failures, ip), cutoff) == Recent(TimesOf(log, ip), cutoff)
  {
    PruningOneKeepsOrder(failures, ip, cutoff, clock);
    PrunedIsRecent(QueueOf(failures, ip), cutoff);
    if !evicted {
      assert AgreeAt(failures, log, ip, cutoff);
      PruningOneKeepsAgreement(failures, ip, log, cutoff);
    }
  }

  lemma PruningAllKeepsOrder(failures: Queues, cutoff: real, clock: real)
    requires InOrder(failures, clock)
    ensures InOrder(AllPruned(failures, cutoff), clock)
  {
    forall ip | ip in failures ensures UpTo(Pruned(failures[ip], cutoff), clock) {
      PrunedIsRecent(failures[ip], cutoff);
    }
  }

  lemma PruningAllKeepsAgreement(failures: Queues, log: seq<Failure>, cutoff: real)
    requires Agree(failures, log, cutoff)
    ensures Agree(AllPruned(failures, cutoff), log, cutoff)
  {
    forall ip, later | later >= cutoff ensures AgreeAt(AllPruned(failures, cutoff), log, ip, later) {
      assert AgreeAt(failures, log, ip, later);
      if ip in failures {
        PruningKeepsRecent(failures[ip], cutoff, later);
      }
    }
  }

  lemma RecentTimesAppend(log: seq<Failure>, ip: string, now: real, other: string, cutoff: real)
    ensures Recent(TimesOf(log + [Failure(ip, now)], other), cutoff)
            == Recent(TimesOf(log, other), cutoff) + (if other == ip && now > cutoff then [now] else [])
  {
    assert (log + [Failure(ip, now)])[..|log|] == log;
    if other != ip {
      assert TimesOf(log, other) + [] == TimesOf(log, other);
    }
  }

  /** What `retry_after_seconds` leaves: the queue it looked at is pruned, and may stay behind empty. */
  function Asked(failures: Queues, ip: string, cutoff: real): Queues {
    if ip in failures then failures[ip := Pruned(failures[ip], cutoff)] else failures
  }

  /** What `record_failed_login` does to one queue, after the sweep. */
  function Recorded(failures: Queues, ip: string, now: real, cutoff: real): Queues {
    failures[ip := Pruned(QueueOf(failures, ip), cutoff) + [now]]
  }

  lemma FailureKeepsOrder(failures: Queues, ip: string, now: real, cutoff: real)
    requires InOrder(failures, now)
    ensures InOrder(Recorded(failures, ip, now, cutoff), now)
  {
    PrunedIsRecent(QueueOf(failures, ip), cutoff);
    AppendSorted(Pruned(QueueOf(failures, ip), cutoff), now);
  }

  lemma RecentRecorded(q: seq<real>, now: real, cutoff: real, later: real)
    requires cutoff <= later
    ensures Recent(Pruned(q, cutoff) + [now], later) == Recent(q, later) + (if now > later then [now] else [])
  {
    PruningKeepsRecent(q, cutoff, later);
  }

  lemma FailureKeepsOthers(failures: Queues, log: seq<Failure>, ip: string, queue: seq<real>, now: real,
        other: string, later: real)
    requires AgreeAt(failures, log, other, later) && other != ip
    ensures AgreeAt(failures[ip := queue], log + [Failure(ip, now)], other, later)
  {
    RecentTimesAppend(log, ip, now, other, later);
    assert QueueOf(failures[ip := queue], other) == QueueOf(failures, other);
  }

  lemma FailureKeepsOwn(failures: Queues, log: seq<Failure>, ip: string, now: real, cutoff: real, later: real)
    requires AgreeAt(failures, log, ip, later) && cutoff <= later
    ensures AgreeAt(Recorded(failures, ip, now, cutoff), log + [Failure(ip, now)], ip, later)
  {
    RecentTimesAppend(log, ip, now, ip, later);
    RecentRecorded(QueueOf(failures, ip), now, cutoff, later);
  }

  lemma FailureKeepsAgreement(failures: Queues, log: seq<Failure>, ip: string, now: real, cutoff: real)
    requires Agree(failures, log, cutoff)
    ensures Agree(Recorded(failures, ip, now, cutoff), log + [Failure(ip, now)], cutoff)
  {
    var queue := Pruned(QueueOf(failures, ip), cutoff) + [now];
    var next, grown := failures[ip := queue], log + [Failure(ip, now)];
    forall other, later | later >= cutoff ensures AgreeAt(next, grown, other, later) {
      assert AgreeAt(failures, log, other, later);
      if other == ip {
        FailureKeepsOwn(failures, log, ip, now, cutoff, later);
      } else {
        FailureKeepsOthers(failures, log, ip, queue, now, other, later);
      }
    }
  }

  lemma FailureKeeps(failures: Queues, log: seq<Failure>, ip: string, now: real, cutoff: real, evicted: bool)
    requires InOrder(failures, now) && (!evicted ==> Agree(failures, log, cutoff))
    ensures var next := Recorded(failures, ip, now, cutoff);
            InOrder(next, now) && (!evicted ==> Agree(next, log + [Failure(ip, now)], cutoff))
  {
    FailureKeepsOrder(failures, ip, now, cutoff);
    if !evicted {
      FailureKeepsAgreement(failures, log, ip, now, cutoff);
    }
  }

  lemma PruningAllKeeps(failures: Queues, log: seq<Failure>, cutoff: real, clock: real, evicted: bool)
    requires InOrder(failures, clock) && (!evicted ==> Agree(failures, log, cutoff))
    ensures var pruned := AllPruned(failures, cutoff);
            NoneEmpty(pruned) && InOrder(pruned, clock) && (!evicted ==> Agree(pruned, log, cutoff))
  {
    PruningAllKeepsOrder(failures, cutoff, clock);
    if !evicted {
      PruningAllKeepsAgreement(failures, log, cutoff);
    }
  }

  lemma EvictingKeepsOrder(before: Queues, after: Queues, clock: real)
    requires NoneEmpty(before) && KeepsMostRecent(before, after) && InOrder(before, clock)
    ensures InOrder(after, clock)
  {
  }

  // ---- The module's state ----

  /** What an address is told: to go on, to wait, or nothing, because an empty queue has no oldest failure. */
  datatype Answer = Allowed | RetryIn(seconds: int) | NoOldest

  class RateLimiter {
    const window: real
    const maxFailures: int
    var failures: Queues
    var lastSweep: real
    /** Every failure there was, the time of the last call, and whether the cap ever evicted anyone. */
    ghost var log: seq<Failure>
    ghost var clock: real
    ghost var evicted: bool

    /** Until something is evicted, no question about the window can tell the queues from the log. */
    ghost predicate Valid()
      reads this
    {
      && InOrder(failures, clock)
      && (!evicted ==> Agree(failures, log, clock - window))
    }

    constructor (window: real, maxFailures: int)
      ensures Valid() && log == [] && !evicted && failures == map[] && clock == 0.0
      ensures this.window == window && this.maxFailures == maxFailures
    {
      this.window, this.maxFailures := window, maxFailures;
      failures, lastSweep := map[], 0.0;
      log, clock, evicted := [], 0.0, false;
    }

    /** `for ip in list(_failures): _prune(_failures[ip], cutoff)`, and the empty queues go. */
    method PruneAll(cutoff: real)
      modifies this`failures
      ensures failures == AllPruned(old(failures), cutoff)
    {
      ghost var before := failures;
      var ips := failures.Keys;
      while ips != {}
        invariant ips <= failures.Keys <= before.Keys
        invariant forall ip | ip in ips :: failures[ip] == before[ip]
        invariant forall ip | ip in before && ip !in ips ::
                    if Pruned(before[ip], cutoff) == [] then ip !in failures
                    else ip in failures && failures[ip] == Pruned(before[ip], cutoff)
        decreases |ips|
      {
        var ip :| ip in ips;
        ips := ips - {ip};
        var left := Prune(failures[ip], cutoff);
        failures := failures[ip := left];
        if failures[ip] == [] {
          failures := failures - {ip};
        }
      }
    }

    /** `for ip in by_age[:n]: del _failures[ip]` */
    method Drop(order: seq<string>)
      requires Lists(order, set ip | ip in order) && forall ip | ip in order :: ip in failures
      modifies this`failures
      ensures failures == old(failures) - set ip | ip in order
    {
      var i := 0;
      while i < |order|
        invariant 0 <= i <= |order|
        invariant failures == old(failures) - set ip | ip in order[..i]
      {
        assert order[..i + 1] == order[..i] + [order[i]];
        failures := failures - {order[i]};
        i := i + 1;
      }
      assert order[..|order|] == order;
    }

    /** Everyone beyond the cap goes, the least recently active first. */
    method EvictOldest()
      requires NoneEmpty(failures) && |failures| > MAX_TRACKED_IPS
      modifies this`failures
      ensures KeepsMostRecent(old(failures), failures)
    {
      ghost var before := failures;
      var order := ByAge(failures);
      ListingLength(order, failures.Keys);
      var n := |failures| - MAX_TRACKED_IPS;
      FrontLists(order, failures.Keys, n);
      Drop(order[..n]);
      EvictionKeepsMostRecent(before, order, n);
    }

    method Evict()
      requires NoneEmpty(failures) && Valid()
      modifies this`failures, this`evicted
      ensures Valid() && KeepsMostRecent(old(failures), failures)
      ensures evicted <==> old(evicted) || |old(failures)| > MAX_TRACKED_IPS
    {
      if |failures| > MAX_TRACKED_IPS {
        EvictOldest();
        EvictingKeepsOrder(old(failures), failures, clock);
        evicted := true;
      }
    }

    /** `_sweep`: at most once a minute, everything that has aged out, and then the least recently active. */
    method Sweep(now: real)
      requires Valid() && now >= clock
      modifies this
      ensures Valid() && clock == now && log == old(log)
      ensures now - old(lastSweep) < 60.0 ==>
                failures == old(failures) && lastSweep == old(lastSweep) && evicted == old(evicted)
      ensures now - old(lastSweep) >= 60.0 ==>
                var pruned := AllPruned(old(failures), now - window);
                && lastSweep == now && |failures| <= 10_000
                && NoneEmpty(pruned) && KeepsMostRecent(pruned, failures)
                && (evicted <==> old(evicted) || |pruned| > 10_000)
    {
      clock := now;
      if now - lastSweep < SWEEP_INTERVAL {
        return;
      }
      lastSweep := now;
      PruneAll(now - window);
      PruningAllKeeps(old(failures), log, now - window, clock, evicted);
      Evict();
    }

    /** `record_failed_login`; `swept` is what the sweep at its start leaves. */
    method RecordFailedLogin(ip: string, now: real) returns (ghost swept: Queues)
      requires Valid() && now >= clock
      modifies this
      ensures Valid() && clock == now && log == old(log) + [Failure(ip, now)]
      ensures failures == Recorded(swept, ip, now, now - window)
      ensures if now - old(lastSweep) < 60.0
              then swept == old(failures) && lastSweep == old(lastSweep) && evicted == old(evicted)
              else lastSweep == now && NoneEmpty(AllPruned(old(failures), now - window))
                   && KeepsMostRecent(AllPruned(old(failures), now - window), swept)
                   && (evicted <==> old(evicted) || |AllPruned(old(failures), now - window)| > 10_000)
    {
      Sweep(now);
      swept := failures;
      var timestamps := if ip in failures then failures[ip] else [];
      timestamps := Prune(timestamps, now - window);
      failures := failures[ip := timestamps + [now]];
      assert failures == Recorded(swept, ip, now, now - window);
      log := log + [Failure(ip, now)];
      FailureKeeps(swept, old(log), ip, now, now - window, evicted);
    }

    /**
     `retry_after_seconds`: an address is refused exactly if at least the maximum of failures in
     the log lie within the window, whichever prunes and sweeps have run. Unless the maximum is
     positive, that takes one failure at least, and an address whose failures have all aged out
     gets no answer at all while its queue is still there.
     */
    method RetryAfterSeconds(ip: string, now: real) returns (answer: Answer)
      requires Valid() && now >= clock
      modifies this
      ensures Valid() && clock == now && log == old(log) && evicted == old(evicted) && lastSweep == old(lastSweep)
      ensures failures == Asked(old(failures), ip, now - window)
      ensures var queue := Pruned(QueueOf(old(failures), ip), now - window);
              && (answer.RetryIn? <==> queue != [] && |queue| >= maxFailures)
              && (answer.NoOldest? <==> queue == [] && ip in old(failures) && maxFailures <= 0)
      ensures !evicted ==>
                var recent := Recent(TimesOf(log, ip), now - window);
                && (answer.RetryIn? <==> Since(log, ip, now - window) != {} && |Since(log, ip, now - window)| >= maxFailures)
                && (answer.RetryIn? <==> recent != [] && |recent| >= maxFailures)
                && (answer.RetryIn? ==> answer.seconds == RetryAfter(window, recent[0], now))
    {
      clock := now;
      RecentExactly(log, ip, now - window);
      if ip !in failures {
        assert !evicted ==> AgreeAt(failures, log, ip, now - window);
        return Allowed;
      }
      var timestamps := Prune(failures[ip], now - window);
      Looked(failures, log, ip, now - window, clock, evicted);
      failures := failures[ip := timestamps];
      assert InOrder(failures, clock) && (!evicted ==> Agree(failures, log, clock - window));
      if |timestamps| < maxFailures {
        return Allowed;
      }
      if timestamps == [] {
        return NoOldest;
      }
      answer := RetryIn(RetryAfter(window, timestamps[0], now));
    }
  }

  lemma OneAddress(failures: Queues, ip: string, cutoff: real)
    requires failures.Keys <= {ip}
    ensures AllPruned(failures, cutoff).Keys <= {ip} && |AllPruned(failures, cutoff)| <= 1
  {
    var pruned := AllPruned(failures, cutoff);
    if ip in pruned {
      assert pruned.Keys == {ip};
    } else {
      assert pruned.Keys == {};
    }
  }

  lemma TwoFailures(ip: string, first: real, second: real, cutoff: real)
    requires first <= second && second > cutoff
    ensures var times := Recent(TimesOf([Failure(ip, first)] + [Failure(ip, second)], ip), cutoff);
            times == if first > cutoff then [first, second] else [second]
  {
    RecentTimesAppend([], ip, first, ip, cutoff);
    RecentTimesAppend([Failure(ip, first)], ip, second, ip, cutoff);
    assert [] + [Failure(ip, first)] == [Failure(ip, first)];
  }

  /** A failure of the only address there is. */
  method FailAlone(limiter: RateLimiter, ip: string, now: real)
    requires limiter.Valid() && !limiter.evicted && limiter.failures.Keys <= {ip} && now >= limiter.clock
    modifies limiter
    ensures limiter.Valid() && !limiter.evicted && limiter.failures.Keys <= {ip} && limiter.clock == now
    ensures limiter.log == old(limiter.log) + [Failure(ip, now)]
  {
    OneAddress(limiter.failures, ip, now - limiter.window);
    ghost var swept := limiter.RecordFailedLogin(ip, now);
    assert swept.Keys <= {ip};
  }

  /** Two requests under way at once fail, where the maximum is one. */
  method FailTwice(ip: string, window: real, start: real, gap: real) returns (limiter: RateLimiter)
    requires start >= 0.0 && gap >= 0.0
    ensures fresh(limiter) && limiter.Valid() && limiter.window == window && limiter.maxFailures == 1
    ensures !limiter.evicted && limiter.clock == start + gap
    ensures limiter.log == [Failure(ip, start)] + [Failure(ip, start + gap)]
  {
    limiter := new RateLimiter(window, 1);
    FailAlone(limiter, ip, start);
    FailAlone(limiter, ip, start + gap);
    assert [] + [Failure(ip, start)] == [Failure(ip, start)];
  }

  /**
   With one failure more than the maximum the wait may be too short: if they are more than a
   second apart, the address is refused again when it comes back as told.
   */
  method WaitMayBeTooShort(ip: string, window: real, start: real, gap: real) returns (told: Answer, again: Answer)
    requires start >= 0.0 && 1.0 < gap < window
    ensures told == RetryIn((window - gap).Floor + 1) && again.RetryIn?
  {
    var limiter := FailTwice(ip, window, start, gap);
    TwoFailures(ip, start, start + gap, start + gap - window);
    told := limiter.RetryAfterSeconds(ip, start + gap);
    var back := start + gap + told.seconds as real;
    TwoFailures(ip, start, start + gap, back - window);
    again := limiter.RetryAfterSeconds(ip, back);
  }
}
