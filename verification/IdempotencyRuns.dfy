/** What a lookup finds, told from the events before it: the latest publication under its key. */
module IdempotencyRuns {
  import opened Models
  import opened Idempotency

  /** The m-th event publishes an answer under this endpoint and key. */
  ghost predicate Publishes(h: Hash, run: seq<Event>, m: nat, e: Endpoint, key: string) {
    && m < |run| && run[m].Publish?
    && var s := After(h, run[..m]);
       && run[m].t in s.threads && s.threads[run[m].t].phase.Ready?
       && s.threads[run[m].t].request.endpoint == e && s.threads[run[m].t].request.key == key
  }

  /** The request answered by the m-th event, and its response. */
  ghost function PublishedRequest(h: Hash, run: seq<Event>, m: nat, e: Endpoint, key: string): Request
    requires Publishes(h, run, m, e, key)
  {
    After(h, run[..m]).threads[run[m].t].request
  }

  ghost function PublishedResponse(h: Hash, run: seq<Event>, m: nat, e: Endpoint, key: string): Response
    requires Publishes(h, run, m, e, key)
  {
    After(h, run[..m]).threads[run[m].t].phase.response
  }

  /** The m-th event is the last of the first n to publish under this endpoint and key. */
  ghost predicate Latest(h: Hash, run: seq<Event>, m: nat, n: nat, e: Endpoint, key: string) {
    m < n && Publishes(h, run, m, e, key) && forall k :: m < k < n ==> !Publishes(h, run, k, e, key)
  }

  ghost predicate NonePublished(h: Hash, run: seq<Event>, n: nat, e: Endpoint, key: string) {
    forall m :: 0 <= m < n ==> !Publishes(h, run, m, e, key)
  }

  // ---------------------------------------------------------------- prefixes

  lemma {:induction false} ValidPrefix(h: Hash, run: seq<Event>, n: nat)
    requires Valid(h, run) && n <= |run|
    ensures Valid(h, run[..n])
  {
    if n == |run| {
      assert run[..n] == run;
    } else {
      ValidPrefix(h, run[..|run| - 1], n);
      PrefixOfFront(run, n);
    }
  }

  lemma StepAt(h: Hash, run: seq<Event>, n: nat)
    requires Valid(h, run) && n < |run|
    ensures Enabled(After(h, run[..n]), run[n])
    ensures After(h, run[..n + 1]) == Next(h, After(h, run[..n]), run[n])
  {
    ValidPrefix(h, run, n + 1);
    var front := run[..n + 1];
    assert front[..n] == run[..n] && front[n] == run[n];
  }

  // ---------------------------------------------------------------- the cache is the latest publication

  /** The cache entry under a key: what was published last, or nothing. */
  ghost predicate Remembers(h: Hash, run: seq<Event>, n: nat, e: Endpoint, key: string)
    requires n <= |run|
  {
    var cache := After(h, run[..n]).caches.Of(e);
    && (key !in cache <==> NonePublished(h, run, n, e, key))
    && forall m :: Latest(h, run, m, n, e, key) ==> HoldsEntry(h, run, cache, m, e, key)
  }

  ghost predicate HoldsEntry(h: Hash, run: seq<Event>, cache: map<string, Entry>, m: nat, e: Endpoint, key: string)
    requires Publishes(h, run, m, e, key)
  {
    && key in cache && cache[key].requestHash == h(PublishedRequest(h, run, m, e, key).payload)
    && cache[key].response == PublishedResponse(h, run, m, e, key)
  }

  /** A step that publishes under the key puts its answer there, whatever was there before. */
  lemma PublishStep(h: Hash, run: seq<Event>, n: nat, e: Endpoint, key: string)
    requires Valid(h, run) && n < |run| && key != "" && Publishes(h, run, n, e, key)
    ensures HoldsEntry(h, run, After(h, run[..n + 1]).caches.Of(e), n, e, key)
  {
    StepAt(h, run, n);
    var s := After(h, run[..n]);
    var r := s.threads[run[n].t].request;
    PutGet(s.caches, r.endpoint, r.key, Entry(h(r.payload), s.threads[run[n].t].phase.response), e);
  }

  /** Any other step leaves what is under the key alone. */
  lemma OtherStep(h: Hash, run: seq<Event>, n: nat, e: Endpoint, key: string)
    requires Valid(h, run) && n < |run| && key != "" && !Publishes(h, run, n, e, key)
    ensures var was, now := After(h, run[..n]).caches.Of(e), After(h, run[..n + 1]).caches.Of(e);
            (key in now <==> key in was) && (key in was ==> now[key] == was[key])
  {
    StepAt(h, run, n);
    var s := After(h, run[..n]);
    if run[n].Publish? && s.threads[run[n].t].request.key != "" {
      var r := s.threads[run[n].t].request;
      PutGet(s.caches, r.endpoint, r.key, Entry(h(r.payload), s.threads[run[n].t].phase.response), e);
    }
  }

  lemma LatestStep(h: Hash, run: seq<Event>, m: nat, n: nat, e: Endpoint, key: string)
    requires n < |run|
    ensures Publishes(h, run, n, e, key) ==> (Latest(h, run, m, n + 1, e, key) <==> m == n)
    ensures !Publishes(h, run, n, e, key) ==> (Latest(h, run, m, n + 1, e, key) <==> Latest(h, run, m, n, e, key))
  {
  }

  lemma NoneStep(h: Hash, run: seq<Event>, n: nat, e: Endpoint, key: string)
    ensures NonePublished(h, run, n + 1, e, key) <==> NonePublished(h, run, n, e, key) && !Publishes(h, run, n, e, key)
  {
  }

  lemma RememberPublished(h: Hash, run: seq<Event>, n: nat, e: Endpoint, key: string)
    requires Valid(h, run) && n < |run| && key != "" && Publishes(h, run, n, e, key)
    ensures Remembers(h, run, n + 1, e, key)
  {
    PublishStep(h, run, n, e, key);
    var next := n + 1;
    forall m | Latest(h, run, m, next, e, key)
      ensures HoldsEntry(h, run, After(h, run[..next]).caches.Of(e), m, e, key)
    {
      LatestStep(h, run, m, n, e, key);
    }
  }

  lemma RememberOther(h: Hash, run: seq<Event>, n: nat, e: Endpoint, key: string)
    requires Valid(h, run) && n < |run| && key != "" && !Publishes(h, run, n, e, key)
    requires Remembers(h, run, n, e, key)
    ensures Remembers(h, run, n + 1, e, key)
  {
    NoneStep(h, run, n, e, key);
    OtherStep(h, run, n, e, key);
    var next := n + 1;
    forall m | Latest(h, run, m, next, e, key)
      ensures HoldsEntry(h, run, After(h, run[..next]).caches.Of(e), m, e, key)
    {
      LatestStep(h, run, m, n, e, key);
      assert HoldsEntry(h, run, After(h, run[..n]).caches.Of(e), m, e, key);
    }
  }

  lemma {:induction false} CacheIsLatest(h: Hash, run: seq<Event>, n: nat, e: Endpoint, key: string)
    requires Valid(h, run) && n <= |run| && key != ""
    ensures Remembers(h, run, n, e, key)
  {
    if n == 0 {
      assert run[..0] == [];
    } else {
      var m := n - 1;
      if Publishes(h, run, m, e, key) {
        RememberPublished(h, run, m, e, key);
      } else {
        CacheIsLatest(h, run, m, e, key);
        RememberOther(h, run, m, e, key);
      }
      assert m + 1 == n;
    }
  }

  // ---------------------------------------------------------------- lookups

  /** The phase of the request whose lookup is the n-th event, right after it. */
  ghost function Found(h: Hash, run: seq<Event>, n: nat): Phase
    requires Valid(h, run) && n < |run| && run[n].Lookup?
  {
    StepAt(h, run, n);
    After(h, run[..n + 1]).threads[run[n].t].phase
  }

  ghost function Asking(h: Hash, run: seq<Event>, n: nat): Request
    requires Valid(h, run) && n < |run| && run[n].Lookup?
  {
    StepAt(h, run, n);
    After(h, run[..n]).threads[run[n].t].request
  }

  lemma LookupEntry(h: Hash, run: seq<Event>, n: nat)
    requires Valid(h, run) && n < |run| && run[n].Lookup?
    ensures var r := Asking(h, run, n);
            var cache := After(h, run[..n]).caches.Of(r.endpoint);
            Found(h, run, n) ==
              if r.key == "" || r.key !in cache then Missed
              else if cache[r.key].requestHash != h(r.payload) then Done(Conflict)
              else Done(Replay(cache[r.key].response))
  {
    StepAt(h, run, n);
  }

  /** In every run a lookup without a key misses. With a key it misses exactly when nothing was published under
      it before; otherwise the latest publication decides: another payload hash is a conflict, the same hash a
      replay of its response. */
  lemma LookupSeesLatest(h: Hash, run: seq<Event>, n: nat)
    requires Valid(h, run) && n < |run| && run[n].Lookup?
    ensures var r := Asking(h, run, n);
            && (Found(h, run, n) == Missed <==> r.key == "" || NonePublished(h, run, n, r.endpoint, r.key))
            && forall m :: r.key != "" && Latest(h, run, m, n, r.endpoint, r.key) ==>
                 Found(h, run, n) ==
                   if h(PublishedRequest(h, run, m, r.endpoint, r.key).payload) != h(r.payload) then Done(Conflict)
                   else Done(Replay(PublishedResponse(h, run, m, r.endpoint, r.key)))
  {
    var r := Asking(h, run, n);
    LookupEntry(h, run, n);
    if r.key != "" {
      CacheIsLatest(h, run, n, r.endpoint, r.key);
      forall m | Latest(h, run, m, n, r.endpoint, r.key)
        ensures HoldsEntry(h, run, After(h, run[..n]).caches.Of(r.endpoint), m, r.endpoint, r.key)
      {
      }
    }
  }

  /** There is a latest publication unless there is none at all. */
  lemma {:induction false} SomeLatest(h: Hash, run: seq<Event>, n: nat, e: Endpoint, key: string) returns (m: nat)
    requires n <= |run| && !NonePublished(h, run, n, e, key)
    ensures Latest(h, run, m, n, e, key)
  {
    NoneStep(h, run, n - 1, e, key);
    if Publishes(h, run, n - 1, e, key) {
      m := n - 1;
    } else {
      m := SomeLatest(h, run, n - 1, e, key);
    }
  }

  /** So of two answers published under a key, later requests get the second. */
  lemma SecondAnswerWins(h: Hash, run: seq<Event>, n: nat)
    requires Valid(h, run) && n < |run| && run[n].Lookup?
    requires var r := Asking(h, run, n); r.key != "" && !NonePublished(h, run, n, r.endpoint, r.key)
    ensures var r := Asking(h, run, n);
            exists m :: Latest(h, run, m, n, r.endpoint, r.key) && Found(h, run, n) ==
              if h(PublishedRequest(h, run, m, r.endpoint, r.key).payload) != h(r.payload) then Done(Conflict)
              else Done(Replay(PublishedResponse(h, run, m, r.endpoint, r.key)))
  {
    var r := Asking(h, run, n);
    var m := SomeLatest(h, run, n, r.endpoint, r.key);
    LookupSeesLatest(h, run, n);
  }
}
