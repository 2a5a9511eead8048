/** Request counters and the snapshot computed from them. */
module Metrics {

  import opened Sums

  /** `m[k] += d`, where a missing key counts as zero. */
  function Bump<K>(m: map<K, int>, k: K, d: int): map<K, int> { m[k := Get(m, k) + d] }

  lemma SumBump<K(!new)>(m: map<K, int>, k: K, d: int)
    ensures Sum(Bump(m, k, d)) == Sum(m) + d
  {
    SumUpdate(m, k, Get(m, k) + d);
  }

  // ---------------------------------------------------------------- counters

  datatype Request = Request(verb: string, route: string, status: int, latencyNs: int)

  datatype Counters = Counters(
    totalCount: int, errorCount: int, statusHits: map<int, int>, pathHits: map<string, int>,
    methodHits: map<string, int>, totalLatencyNs: int, pathLatencyNs: map<string, int>,
    pathLatencyCounts: map<string, int>)

  const ZERO := Counters(0, 0, map[], map[], map[], 0, map[], map[])

  function Record(c: Counters, r: Request): Counters {
    Counters(c.totalCount + 1,
             if r.status >= 400 then c.errorCount + 1 else c.errorCount,
             Bump(c.statusHits, r.status, 1), Bump(c.pathHits, r.route, 1), Bump(c.methodHits, r.verb, 1),
             c.totalLatencyNs + r.latencyNs, Bump(c.pathLatencyNs, r.route, r.latencyNs),
             Bump(c.pathLatencyCounts, r.route, 1))
  }

  function RecordAll(rs: seq<Request>): Counters {
    if rs == [] then ZERO else Record(RecordAll(rs[..|rs| - 1]), rs[|rs| - 1])
  }

  // ---------------------------------------------------------------- conservation

  predicate IsError(status: int) { status >= 400 }

  ghost function ErrorHits(m: map<int, int>): map<int, int> { map s | s in m && IsError(s) :: m[s] }

  lemma ErrorBump(m: map<int, int>, s: int)
    ensures ErrorHits(Bump(m, s, 1)) == if IsError(s) then Bump(ErrorHits(m), s, 1) else ErrorHits(m)
  {
  }

  /** In every run the method, path and status counts each add up to the total, the error
      count to the statuses from 400 on, and the path latencies to the total latency;
      a path has as many latencies as hits. */
  lemma {:induction false} Conservation(rs: seq<Request>)
    ensures var c := RecordAll(rs);
            && c.totalCount == |rs|
            && Sum(c.methodHits) == Sum(c.pathHits) == Sum(c.statusHits) == c.totalCount
            && Sum(ErrorHits(c.statusHits)) == c.errorCount
            && c.pathLatencyCounts == c.pathHits
            && Sum(c.pathLatencyNs) == c.totalLatencyNs
            && c.pathLatencyNs.Keys == c.pathHits.Keys
  {
    if rs != [] {
      var c, r := RecordAll(rs[..|rs| - 1]), rs[|rs| - 1];
      Conservation(rs[..|rs| - 1]);
      SumBump(c.methodHits, r.verb, 1);
      SumBump(c.pathHits, r.route, 1);
      SumBump(c.statusHits, r.status, 1);
      SumBump(c.pathLatencyNs, r.route, r.latencyNs);
      ErrorBump(c.statusHits, r.status);
      SumBump(ErrorHits(c.statusHits), r.status, 1);
    }
  }

  function Count<K(==)>(keys: seq<K>, k: K): nat {
    if keys == [] then 0 else Count(keys[..|keys| - 1], k) + if keys[|keys| - 1] == k then 1 else 0
  }

  function Routes(rs: seq<Request>): seq<string> { seq(|rs|, i requires 0 <= i < |rs| => rs[i].route) }
  function Verbs(rs: seq<Request>): seq<string> { seq(|rs|, i requires 0 <= i < |rs| => rs[i].verb) }
  function Statuses(rs: seq<Request>): seq<int> { seq(|rs|, i requires 0 <= i < |rs| => rs[i].status) }

  /** Each counter is the number of requests with that method, path or status,
      and only what was seen has an entry. */
  lemma {:induction false} CountersAreCounts(rs: seq<Request>)
    ensures var c := RecordAll(rs);
            && (forall k :: Get(c.methodHits, k) == Count(Verbs(rs), k))
            && (forall k :: k in c.methodHits <==> Count(Verbs(rs), k) > 0)
            && (forall k :: Get(c.pathHits, k) == Count(Routes(rs), k))
            && (forall k :: k in c.pathHits <==> Count(Routes(rs), k) > 0)
            && (forall k :: Get(c.statusHits, k) == Count(Statuses(rs), k))
            && (forall k :: k in c.statusHits <==> Count(Statuses(rs), k) > 0)
  {
    if rs != [] {
      var n := |rs| - 1;
      CountersAreCounts(rs[..n]);
      assert Verbs(rs)[..n] == Verbs(rs[..n]);
      assert Routes(rs)[..n] == Routes(rs[..n]);
      assert Statuses(rs)[..n] == Statuses(rs[..n]);
    }
  }

  // ---------------------------------------------------------------- the snapshot

  function Digits(n: nat): string {
    if n < 10 then [('0' as int + n) as char] else Digits(n / 10) + [('0' as int + n % 10) as char]
  }

  /** Decimal text of an integer. */
  function Itoa(n: int): string { if n < 0 then "-" + Digits(-n) else Digits(n) }

  lemma {:induction false} DigitsInjective(m: nat, n: nat)
    requires Digits(m) == Digits(n)
    ensures m == n
  {
    DigitsShape(m);
    DigitsShape(n);
    var s := Digits(m);
    if |s| > 1 {
      assert Digits(m / 10) == s[..|s| - 1] == Digits(n / 10);
      DigitsInjective(m / 10, n / 10);
      assert m % 10 == n % 10;
    }
  }

  lemma {:induction false} DigitsShape(n: nat)
    ensures |Digits(n)| >= 1 && (|Digits(n)| == 1 <==> n < 10) && Digits(n)[0] != '-'
    ensures Digits(n)[|Digits(n)| - 1] as int - '0' as int == n % 10
    ensures n >= 10 ==> Digits(n)[..|Digits(n)| - 1] == Digits(n / 10)
  {
    if n >= 10 {
      DigitsShape(n / 10);
    }
  }

  lemma ItoaInjective(m: int, n: int)
    requires Itoa(m) == Itoa(n)
    ensures m == n
  {
    DigitsShape(if m < 0 then -m else m);
    DigitsShape(if n < 0 then -n else n);
    if m < 0 && n < 0 {
      assert Itoa(m)[1..] == Digits(-m) && Itoa(n)[1..] == Digits(-n);
      DigitsInjective(-m, -n);
    } else if m >= 0 && n >= 0 {
      DigitsInjective(m, n);
    }
  }

  datatype Snapshot = Snapshot(
    totalRequests: int, errorRequests: int, byStatus: map<string, int>, byPath: map<string, int>,
    byMethod: map<string, int>, byPathLatency: map<string, real>, avgLatencyMs: real,
    startedAt: string, uptimeSeconds: real)

  const MILLISECOND: real := 1000000.0

  /** The snapshot mirrors the counters; every status keeps its own entry. */
  ghost predicate Mirrors(s: Snapshot, c: Counters) {
    && s.totalRequests == c.totalCount && s.errorRequests == c.errorCount
    && s.byPath == c.pathHits && s.byMethod == c.methodHits
    && (forall n :: n in c.statusHits ==> Itoa(n) in s.byStatus && s.byStatus[Itoa(n)] == c.statusHits[n])
    && (forall t :: t in s.byStatus ==> exists n :: n in c.statusHits && t == Itoa(n))
    && (forall p :: p in s.byPathLatency <==> p in c.pathLatencyCounts && c.pathLatencyCounts[p] != 0)
    && (forall p :: p in s.byPathLatency ==>
          s.byPathLatency[p] == Get(c.pathLatencyNs, p) as real / c.pathLatencyCounts[p] as real / MILLISECOND)
    && s.avgLatencyMs == (if c.totalCount > 0 then c.totalLatencyNs as real / c.totalCount as real / MILLISECOND
                          else 0.0)
  }

  /** The counters live in fields that every request updates in place. */
  class Stats {
    var totalCount: int
    var errorCount: int
    var statusHits: map<int, int>
    var pathHits: map<string, int>
    var methodHits: map<string, int>
    var totalLatencyNs: int
    var pathLatencyNs: map<string, int>
    var pathLatencyCounts: map<string, int>
    const startedAt: real

    ghost function View(): Counters reads this {
      Counters(totalCount, errorCount, statusHits, pathHits, methodHits, totalLatencyNs, pathLatencyNs,
               pathLatencyCounts)
    }

    constructor (now: real)
      ensures View() == RecordAll([]) && startedAt == now
    {
      startedAt := now;
      totalCount, errorCount, totalLatencyNs := 0, 0, 0;
      statusHits, pathHits, methodHits := map[], map[], map[];
      pathLatencyNs, pathLatencyCounts := map[], map[];
    }

    method RecordRequestMetrics(verb: string, route: string, status: int, latencyNs: int)
      modifies this
      ensures View() == Record(old(View()), Request(verb, route, status, latencyNs))
    {
      totalCount := totalCount + 1;
      methodHits := Bump(methodHits, verb, 1);
      pathHits := Bump(pathHits, route, 1);
      statusHits := Bump(statusHits, status, 1);
      if status >= 400 {
        errorCount := errorCount + 1;
      }
      totalLatencyNs := totalLatencyNs + latencyNs;
      pathLatencyNs := Bump(pathLatencyNs, route, latencyNs);
      pathLatencyCounts := Bump(pathLatencyCounts, route, 1);
    }

    /** `format` prints a time. */
    method SnapshotMetrics(now: real, format: real -> string) returns (s: Snapshot)
      ensures Mirrors(s, View())
      ensures s.startedAt == format(startedAt) && startedAt + s.uptimeSeconds == now
    {
      var byStatus := StatusTexts(statusHits);
      var byPath := CopyMap(pathHits);
      var byMethod := CopyMap(methodHits);
      var byPathLatency := PathAverages(pathLatencyNs, pathLatencyCounts);
      var avgLatencyMs := 0.0;
      if totalCount > 0 {
        avgLatencyMs := totalLatencyNs as real / totalCount as real / MILLISECOND;
      }
      s := Snapshot(totalCount, errorCount, byStatus, byPath, byMethod, byPathLatency, avgLatencyMs,
                    format(startedAt), now - startedAt);
    }
  }

  method CopyMap(m: map<string, int>) returns (c: map<string, int>)
    ensures c == m
  {
    c := map[];
    var rest := m.Keys;
    while rest != {}
      invariant rest <= m.Keys && c == map k | k in m.Keys - rest :: m[k]
      decreases |rest|
    {
      var k :| k in rest;
      c := c[k := m[k]];
      rest := rest - {k};
    }
  }

  /** Some element of a non-empty set. */
  method Pick<T>(s: set<T>) returns (x: T)
    requires s != {}
    ensures x in s
  {
    x :| x in s;
  }

  method StatusTexts(m: map<int, int>) returns (c: map<string, int>)
    ensures forall n :: n in m ==> Itoa(n) in c && c[Itoa(n)] == m[n]
    ensures forall t :: t in c ==> exists n :: n in m && t == Itoa(n)
  {
    c := map[];
    var rest := m.Keys;
    while rest != {}
      invariant rest <= m.Keys
      invariant forall n :: n in m && n !in rest ==> Itoa(n) in c && c[Itoa(n)] == m[n]
      invariant forall t :: t in c ==> exists n :: n in m && t == Itoa(n)
      decreases |rest|
    {
      var k := Pick(rest);
      forall n | n in m && n !in rest ensures Itoa(n) != Itoa(k) {
        if Itoa(n) == Itoa(k) {
          ItoaInjective(n, k);
        }
      }
      c := c[Itoa(k) := m[k]];
      rest := rest - {k};
    }
  }

  function Average(ns: map<string, int>, counts: map<string, int>, p: string): real
    requires p in counts && counts[p] != 0
  {
    Get(ns, p) as real / counts[p] as real / MILLISECOND
  }

  method PathAverages(ns: map<string, int>, counts: map<string, int>) returns (c: map<string, real>)
    ensures c == map p | p in counts && counts[p] != 0 :: Average(ns, counts, p)
  {
    c := map[];
    var rest := counts.Keys;
    while rest != {}
      invariant rest <= counts.Keys
      invariant c == map p | p in counts.Keys - rest && counts[p] != 0 :: Average(ns, counts, p)
      decreases |rest|
    {
      var p :| p in rest;
      rest := rest - {p};
      if counts[p] == 0 {
        continue;
      }
      c := c[p := Get(ns, p) as real / counts[p] as real / MILLISECOND];
    }
  }

  // ---------------------------------------------------------------- averages

  ghost function Total(keys: set<string>, term: string -> real): real
    decreases |keys|
  {
    if keys == {} then 0.0
    else
      var p :| p in keys;
      term(p) + Total(keys - {p}, term)
  }

  lemma {:induction false} TotalOfQuotients(ns: map<string, int>, term: string -> real)
    requires forall p :: p in ns ==> term(p) == ns[p] as real / MILLISECOND
    ensures Total(ns.Keys, term) == Sum(ns) as real / MILLISECOND
    decreases |ns|
  {
    if ns.Keys != {} {
      var p :| p in ns.Keys && Total(ns.Keys, term) == term(p) + Total(ns.Keys - {p}, term);
      assert (ns - {p}).Keys == ns.Keys - {p};
      TotalOfQuotients(ns - {p}, term);
      SumRemove(ns, p);
      SumOfQuotients(ns[p], Sum(ns - {p}));
    } else {
      assert ns == map[];
    }
  }

  lemma SumOfQuotients(a: int, b: int)
    ensures a as real / MILLISECOND + b as real / MILLISECOND == (a + b) as real / MILLISECOND
  {
  }

  function Mean(total: int, count: int): real
    requires count != 0
  {
    total as real / count as real / MILLISECOND
  }

  lemma UndoMean(total: int, count: int)
    requires count != 0
    ensures Mean(total, count) * count as real == total as real / MILLISECOND
  {
    var x, y := total as real, count as real;
    assert x / y / MILLISECOND * y == (x / y * y) / MILLISECOND;
    assert x / y * y == x;
  }

  /** A path's average weighted by its number of requests. */
  function Weighted(s: Snapshot): string -> real {
    (p: string) => if p in s.byPathLatency && p in s.byPath then s.byPathLatency[p] * s.byPath[p] as real else 0.0
  }

  lemma PathTerm(c: Counters, s: Snapshot, p: string)
    requires Mirrors(s, c) && c.pathLatencyCounts == c.pathHits && p in s.byPathLatency && p in c.pathLatencyNs
    ensures Weighted(s)(p) == c.pathLatencyNs[p] as real / MILLISECOND
  {
    UndoMean(c.pathLatencyNs[p], c.pathHits[p]);
    assert s.byPathLatency[p] == Mean(c.pathLatencyNs[p], c.pathHits[p]);
  }

  lemma OverallTerm(c: Counters, s: Snapshot)
    requires Mirrors(s, c) && c.totalCount > 0
    ensures s.avgLatencyMs * s.totalRequests as real == c.totalLatencyNs as real / MILLISECOND
  {
    UndoMean(c.totalLatencyNs, c.totalCount);
    assert s.avgLatencyMs == Mean(c.totalLatencyNs, c.totalCount);
  }

  lemma PathTotal(rs: seq<Request>, s: Snapshot)
    requires Mirrors(s, RecordAll(rs))
    ensures s.byPathLatency.Keys == s.byPath.Keys
    ensures Total(s.byPath.Keys, Weighted(s)) == Sum(RecordAll(rs).pathLatencyNs) as real / MILLISECOND
  {
    var c := RecordAll(rs);
    Conservation(rs);
    PathsHit(rs);
    assert s.byPathLatency.Keys == s.byPath.Keys;
    forall p | p in c.pathLatencyNs ensures Weighted(s)(p) == c.pathLatencyNs[p] as real / MILLISECOND {
      PathTerm(c, s, p);
    }
    TotalOfQuotients(c.pathLatencyNs, Weighted(s));
  }

  /** In every run the overall average latency is the mean of the path averages,
      weighted by the number of requests on each path. */
  lemma OverallIsWeightedMean(rs: seq<Request>, s: Snapshot)
    requires Mirrors(s, RecordAll(rs)) && rs != []
    ensures s.byPathLatency.Keys == s.byPath.Keys && Sum(s.byPath) == s.totalRequests == |rs|
    ensures s.avgLatencyMs * s.totalRequests as real == Total(s.byPath.Keys, Weighted(s))
  {
    Conservation(rs);
    PathTotal(rs, s);
    OverallTerm(RecordAll(rs), s);
  }

  lemma PathsHit(rs: seq<Request>)
    ensures var c := RecordAll(rs); forall p :: p in c.pathHits ==> c.pathHits[p] != 0
  {
    CountersAreCounts(rs);
    var c := RecordAll(rs);
    forall p | p in c.pathHits ensures c.pathHits[p] != 0 {
      assert Get(c.pathHits, p) == Count(Routes(rs), p);
    }
  }

  // ---------------------------------------------------------------- the snapshot in terms of the requests

  /** How many requests of a run have a property. */
  ghost function Hits(rs: seq<Request>, has: Request -> bool): nat {
    |set i: nat | i < |rs| && has(rs[i])|
  }

  lemma HitsSnoc(rs: seq<Request>, has: Request -> bool)
    requires rs != []
    ensures Hits(rs, has) == Hits(rs[..|rs| - 1], has) + if has(rs[|rs| - 1]) then 1 else 0
  {
    var n := |rs| - 1;
    var before := set i: nat | i < n && has(rs[..n][i]);
    var all := set i: nat | i < |rs| && has(rs[i]);
    assert all == if has(rs[n]) then before + {n} else before;
  }

  lemma HitsSomewhere(rs: seq<Request>, has: Request -> bool)
    ensures Hits(rs, has) > 0 <==> exists r :: r in rs && has(r)
  {
    var hits := set i: nat | i < |rs| && has(rs[i]);
    if hits != {} {
      var i :| i in hits;
      assert rs[i] in rs;
    }
    if r :| r in rs && has(r) {
      var i: nat :| i < |rs| && rs[i] == r;
      assert i in hits;
    }
  }

  function OnRoute(route: string): Request -> bool { (r: Request) => r.route == route }
  function ByVerb(verb: string): Request -> bool { (r: Request) => r.verb == verb }
  function WithStatus(status: int): Request -> bool { (r: Request) => r.status == status }
  function Failing(): Request -> bool { (r: Request) => 400 <= r.status }

  lemma {:induction false} CountsAreHits(rs: seq<Request>, route: string, verb: string, status: int)
    ensures Count(Routes(rs), route) == Hits(rs, OnRoute(route))
    ensures Count(Verbs(rs), verb) == Hits(rs, ByVerb(verb))
    ensures Count(Statuses(rs), status) == Hits(rs, WithStatus(status))
    ensures RecordAll(rs).errorCount == Hits(rs, Failing())
  {
    if rs != [] {
      var n := |rs| - 1;
      assert Verbs(rs)[..n] == Verbs(rs[..n]);
      assert Routes(rs)[..n] == Routes(rs[..n]);
      assert Statuses(rs)[..n] == Statuses(rs[..n]);
      CountsAreHits(rs[..n], route, verb, status);
      HitsSnoc(rs, OnRoute(route));
      HitsSnoc(rs, ByVerb(verb));
      HitsSnoc(rs, WithStatus(status));
      HitsSnoc(rs, Failing());
    } else {
      HitsSomewhere(rs, OnRoute(route));
      HitsSomewhere(rs, ByVerb(verb));
      HitsSomewhere(rs, WithStatus(status));
      HitsSomewhere(rs, Failing());
    }
  }

  function Everywhere(): Request -> bool { (r: Request) => true }

  /** Nanoseconds spent on the requests with a property, added up from the first. */
  function Spent(rs: seq<Request>, has: Request -> bool): int {
    if rs == [] then 0 else (if has(rs[0]) then rs[0].latencyNs else 0) + Spent(rs[1..], has)
  }

  lemma {:induction false} SpentSnoc(rs: seq<Request>, r: Request, has: Request -> bool)
    ensures Spent(rs + [r], has) == Spent(rs, has) + if has(r) then r.latencyNs else 0
  {
    if rs == [] {
      assert (rs + [r])[1..] == [];
    } else {
      assert (rs + [r])[1..] == rs[1..] + [r];
      SpentSnoc(rs[1..], r, has);
    }
  }

  lemma {:induction false} LatenciesAreSpent(rs: seq<Request>, route: string)
    ensures RecordAll(rs).totalLatencyNs == Spent(rs, Everywhere())
    ensures Get(RecordAll(rs).pathLatencyNs, route) == Spent(rs, OnRoute(route))
  {
    if rs != [] {
      var n := |rs| - 1;
      assert rs == rs[..n] + [rs[n]];
      LatenciesAreSpent(rs[..n], route);
      SpentSnoc(rs[..n], rs[n], Everywhere());
      SpentSnoc(rs[..n], rs[n], OnRoute(route));
    }
  }

  /** A snapshot counts the requests so far: all of them, those with a status of 400 or more, and those of each
      method, path and status, leaving out what did not occur. */
  lemma SnapshotCounts(rs: seq<Request>, s: Snapshot, route: string, verb: string, status: int)
    requires Mirrors(s, RecordAll(rs))
    ensures s.totalRequests == |rs| && s.errorRequests == Hits(rs, Failing())
    ensures (route in s.byPath <==> Hits(rs, OnRoute(route)) > 0)
            && (route in s.byPath ==> s.byPath[route] == Hits(rs, OnRoute(route)))
    ensures (verb in s.byMethod <==> Hits(rs, ByVerb(verb)) > 0)
            && (verb in s.byMethod ==> s.byMethod[verb] == Hits(rs, ByVerb(verb)))
    ensures (Itoa(status) in s.byStatus <==> Hits(rs, WithStatus(status)) > 0)
            && (Itoa(status) in s.byStatus ==> s.byStatus[Itoa(status)] == Hits(rs, WithStatus(status)))
  {
    Conservation(rs);
    CountersAreCounts(rs);
    CountsAreHits(rs, route, verb, status);
    StatusKept(s, RecordAll(rs), status);
  }

  lemma StatusKept(s: Snapshot, c: Counters, status: int)
    requires Mirrors(s, c)
    ensures Itoa(status) in s.byStatus <==> status in c.statusHits
    ensures status in c.statusHits ==> s.byStatus[Itoa(status)] == c.statusHits[status]
  {
    if Itoa(status) in s.byStatus {
      var n :| n in c.statusHits && Itoa(status) == Itoa(n);
      ItoaInjective(status, n);
    }
  }

  /** Its averages are in milliseconds: nanoseconds spent, divided by the number of requests and by a million. */
  lemma SnapshotAverages(rs: seq<Request>, s: Snapshot, route: string)
    requires Mirrors(s, RecordAll(rs))
    ensures if rs == [] then s.avgLatencyMs == 0.0
            else s.avgLatencyMs == Spent(rs, Everywhere()) as real / |rs| as real / 1000000.0
    ensures route in s.byPathLatency <==> Hits(rs, OnRoute(route)) > 0
    ensures route in s.byPathLatency ==>
              s.byPathLatency[route]
              == Spent(rs, OnRoute(route)) as real / Hits(rs, OnRoute(route)) as real / 1000000.0
  {
    Conservation(rs);
    CountersAreCounts(rs);
    CountsAreHits(rs, route, "", 0);
    LatenciesAreSpent(rs, route);
    assert route in RecordAll(rs).pathHits ==> Get(RecordAll(rs).pathHits, route) == Hits(rs, OnRoute(route));
  }

  // ---------------------------------------------------------------- decimal texts

  /** The number a text of decimal digits stands for. */
  function ValueOf(s: string): int {
    if s == [] then 0 else 10 * ValueOf(s[..|s| - 1]) + (s[|s| - 1] as int - '0' as int)
  }

  predicate Decimal(s: string) {
    && |s| > 0 && (forall k :: 0 <= k < |s| ==> '0' <= s[k] <= '9')
    && (|s| > 1 ==> s[0] != '0')
  }

  lemma {:induction false} DigitsRead(n: nat)
    ensures Decimal(Digits(n)) && ValueOf(Digits(n)) == n && (n > 0 ==> Digits(n)[0] != '0')
  {
    if n >= 10 {
      var s := Digits(n / 10);
      DigitsRead(n / 10);
      assert Digits(n)[..|s|] == s && Digits(n)[|s|] as int - '0' as int == n % 10;
    }
  }

  /** The text of an integer is its decimal numeral, behind a minus sign if it is negative. */
  lemma ItoaReads(n: int)
    ensures var s := Itoa(n);
            if n >= 0 then Decimal(s) && ValueOf(s) == n
            else |s| > 0 && s[0] == '-' && Decimal(s[1..]) && ValueOf(s[1..]) == -n
  {
    DigitsRead(if n < 0 then -n else n);
    if n < 0 {
      assert Itoa(n)[1..] == Digits(-n);
    }
  }
}
