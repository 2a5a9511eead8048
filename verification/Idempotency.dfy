/** The four idempotency caches. A keyed request looks its key up, computes, and publishes
    in separate critical sections, so requests interleave freely between those steps. */
module Idempotency {
  import opened Models

  datatype Endpoint = ScanEndpoint | DecideEndpoint | TransformEndpoint | AnonymizeEndpoint

  /** `payload` is the part of a request that is hashed; ids and trace data in `meta` are not. */
  datatype Request = Request(endpoint: Endpoint, key: string, payload: string, meta: string)

  /** A response depends on the whole request and, for a decision, on the receipt saved for it. */
  datatype Response = Response(request: Request, receipt: Option<string>)

  datatype Entry = Entry(requestHash: string, response: Response)

  type Hash = string -> string

  // ---------------------------------------------------------------- the caches

  datatype Caches = Caches(scans: map<string, Entry>, decisions: map<string, Entry>,
                           transforms: map<string, Entry>, anonymizes: map<string, Entry>) {
    function Of(e: Endpoint): map<string, Entry> {
      match e
      case ScanEndpoint => scans
      case DecideEndpoint => decisions
      case TransformEndpoint => transforms
      case AnonymizeEndpoint => anonymizes
    }

    function Put(e: Endpoint, key: string, entry: Entry): Caches {
      match e
      case ScanEndpoint => this.(scans := scans[key := entry])
      case DecideEndpoint => this.(decisions := decisions[key := entry])
      case TransformEndpoint => this.(transforms := transforms[key := entry])
      case AnonymizeEndpoint => this.(anonymizes := anonymizes[key := entry])
    }
  }

  datatype Reply =
    | Answer(response: Response)   // computed for this request
    | Replay(response: Response)   // taken from the cache
    | Conflict                     // 409: the key was used with another payload
    | Failure                      // 500: receipt not saved or response not encoded

  /** What a request with a key finds: nothing, or the reply it gets at once. */
  function LookupReply(h: Hash, c: Caches, r: Request): Option<Reply> {
    if r.key !in c.Of(r.endpoint) then None
    else
      var existing := c.Of(r.endpoint)[r.key];
      if existing.requestHash != h(r.payload) then Some(Conflict) else Some(Replay(existing.response))
  }

  function Published(h: Hash, c: Caches, r: Request, response: Response): Caches {
    c.Put(r.endpoint, r.key, Entry(h(r.payload), response))
  }

  /** The maps guarded by the server's mutex; each method body is one critical section. */
  class CacheMaps {
    var scans: map<string, Entry>
    var decisions: map<string, Entry>
    var transforms: map<string, Entry>
    var anonymizes: map<string, Entry>

    ghost function View(): Caches reads this { Caches(scans, decisions, transforms, anonymizes) }

    constructor ()
      ensures View() == EMPTY
    {
      scans, decisions, transforms, anonymizes := map[], map[], map[], map[];
    }

    method Lookup(h: Hash, r: Request) returns (reply: Option<Reply>)
      ensures reply == LookupReply(h, View(), r)
    {
      var cache := match r.endpoint {
        case ScanEndpoint => scans
        case DecideEndpoint => decisions
        case TransformEndpoint => transforms
        case AnonymizeEndpoint => anonymizes
      };
      if r.key in cache {
        if cache[r.key].requestHash != h(r.payload) {
          return Some(Conflict);
        }
        return Some(Replay(cache[r.key].response));
      }
      return None;
    }

    method Publish(h: Hash, r: Request, response: Response)
      modifies this
      ensures View() == Published(h, old(View()), r, response)
    {
      var entry := Entry(h(r.payload), response);
      match r.endpoint {
        case ScanEndpoint => scans := scans[r.key := entry];
        case DecideEndpoint => decisions := decisions[r.key := entry];
        case TransformEndpoint => transforms := transforms[r.key := entry];
        case AnonymizeEndpoint => anonymizes := anonymizes[r.key := entry];
      }
    }
  }

  const EMPTY := Caches(map[], map[], map[], map[])

  // ---------------------------------------------------------------- the protocol

  /** A request past a missed lookup is in flight until it replies. */
  datatype Phase = Arrived | Missed | Ready(response: Response) | Done(reply: Reply)

  datatype Thread = Thread(request: Request, phase: Phase)

  /** What computing a response comes to; a decision saves a receipt under a fresh id first. */
  datatype Outcome = Computed(receiptId: string) | NotComputed

  datatype Event =
    | Arrive(t: nat, request: Request)
    | Lookup(t: nat)
    | Compute(t: nat, outcome: Outcome)
    | Publish(t: nat)

  datatype State = State(caches: Caches, receipts: set<string>, threads: map<nat, Thread>)

  const INITIAL := State(EMPTY, {}, map[])

  predicate Enabled(s: State, e: Event) {
    match e
    case Arrive(t, r) => t !in s.threads
    case Lookup(t) => t in s.threads && s.threads[t].phase == Arrived
    case Compute(t, o) =>
      t in s.threads && s.threads[t].phase == Missed && (o.Computed? ==> o.receiptId !in s.receipts)
    case Publish(t) => t in s.threads && s.threads[t].phase.Ready?
  }

  function SetPhase(s: State, t: nat, p: Phase): State
    requires t in s.threads
  {
    s.(threads := s.threads[t := s.threads[t].(phase := p)])
  }

  function ResponseTo(r: Request, id: string): Response {
    Response(r, if r.endpoint == DecideEndpoint then Some(id) else None)
  }

  function Next(h: Hash, s: State, e: Event): State
    requires Enabled(s, e)
  {
    match e
    case Arrive(t, r) => s.(threads := s.threads[t := Thread(r, Arrived)])
    case Lookup(t) =>
      var r := s.threads[t].request;
      var found := if r.key == "" then None else LookupReply(h, s.caches, r);
      SetPhase(s, t, if found.Some? then Done(found.value) else Missed)
    case Compute(t, o) =>
      var r := s.threads[t].request;
      if o.NotComputed? then SetPhase(s, t, Done(Failure))
      else
        var s' := if r.endpoint == DecideEndpoint then s.(receipts := s.receipts + {o.receiptId}) else s;
        SetPhase(s', t, Ready(ResponseTo(r, o.receiptId)))
    case Publish(t) =>
      var r, response := s.threads[t].request, s.threads[t].phase.response;
      var s' := if r.key == "" then s else s.(caches := Published(h, s.caches, r, response));
      SetPhase(s', t, Done(Answer(response)))
  }

  ghost predicate Valid(h: Hash, run: seq<Event>) {
    run == [] || (Valid(h, run[..|run| - 1]) && Enabled(After(h, run[..|run| - 1]), run[|run| - 1]))
  }

  ghost function After(h: Hash, run: seq<Event>): State {
    if run == [] then INITIAL
    else
      var s, e := After(h, run[..|run| - 1]), run[|run| - 1];
      if Enabled(s, e) then Next(h, s, e) else s
  }

  // ---------------------------------------------------------------- justification

  predicate SameSlot(r: Request, q: Request) { r.endpoint == q.endpoint && r.key == q.key }

  predicate Answered(s: State, t: nat) {
    t in s.threads && s.threads[t].phase.Done? && s.threads[t].phase.reply.Answer?
  }

  predicate InFlight(s: State, t: nat) { t in s.threads && (s.threads[t].phase.Missed? || s.threads[t].phase.Ready?) }

  /** Thread u computed and published this response for this endpoint, key and hash. */
  ghost predicate Justifies(h: Hash, s: State, u: nat, e: Endpoint, key: string, entry: Entry) {
    && Answered(s, u)
    && var w := s.threads[u];
       && w.request.endpoint == e && w.request.key == key
       && entry == Entry(h(w.request.payload), w.phase.reply.response)
  }

  /** Every cache entry was published by a request of that endpoint, key and hash. */
  ghost predicate CachesJustified(h: Hash, s: State) {
    forall e, k :: k in s.caches.Of(e) ==> k != "" && exists u :: Justifies(h, s, u, e, k, s.caches.Of(e)[k])
  }

  /** Whatever was answered under a key is still remembered under it, by some response. */
  ghost predicate AnsweredCached(s: State) {
    forall t :: Answered(s, t) && s.threads[t].request.key != "" ==>
      s.threads[t].request.key in s.caches.Of(s.threads[t].request.endpoint)
  }

  predicate Carries(th: Thread, response: Response) {
    || th.phase == Ready(response)
    || (th.phase.Done? && th.phase.reply in {Answer(response), Replay(response)})
  }

  /** A response belongs to a request of the endpoint and its receipt is on record. */
  predicate SavedFor(s: State, r: Request, response: Response) {
    && response.request.endpoint == r.endpoint
    && (r.endpoint == DecideEndpoint ==> response.receipt.Some? && response.receipt.value in s.receipts)
  }

  ghost predicate ResponsesSaved(s: State) {
    forall t, response :: t in s.threads && Carries(s.threads[t], response) ==>
      SavedFor(s, s.threads[t].request, response)
  }

  /** An answer is about its own request. */
  ghost predicate OwnAnswers(s: State) {
    forall t :: t in s.threads ==>
      && (s.threads[t].phase.Ready? ==> s.threads[t].phase.response.request == s.threads[t].request)
      && (Answered(s, t) ==> s.threads[t].phase.reply.response.request == s.threads[t].request)
  }

  /** A replay or a conflict goes back to an answer under the same key with the same,
      respectively a different, hash. */
  ghost predicate ReplyJustified(h: Hash, s: State, r: Request, reply: Reply) {
    match reply
    case Replay(response) =>
      exists u :: AnsweredAs(h, s, u, r, h(r.payload)) && s.threads[u].phase.reply.response == response
    case Conflict => exists u :: Answered(s, u) && AnsweredAs(h, s, u, r, h(s.threads[u].request.payload))
                                 && h(s.threads[u].request.payload) != h(r.payload)
    case _ => true
  }

  ghost predicate AnsweredAs(h: Hash, s: State, u: nat, r: Request, hash: string) {
    Answered(s, u) && SameSlot(s.threads[u].request, r) && h(s.threads[u].request.payload) == hash
  }

  ghost predicate RepliesJustified(h: Hash, s: State) {
    forall t :: t in s.threads && s.threads[t].phase.Done? ==>
      ReplyJustified(h, s, s.threads[t].request, s.threads[t].phase.reply)
  }

  ghost predicate Inv(h: Hash, s: State) {
    CachesJustified(h, s) && AnsweredCached(s) && ResponsesSaved(s) && OwnAnswers(s) && RepliesJustified(h, s)
  }

  // ---------------------------------------------------------------- every step keeps the invariant

  /** A step touches one thread, which had not replied yet, and forgets no receipt. */
  lemma StepFrame(h: Hash, s: State, e: Event)
    requires Enabled(s, e)
    ensures var s' := Next(h, s, e);
            && (forall u :: u in s.threads && u != e.t ==> u in s'.threads && s'.threads[u] == s.threads[u])
            && (forall u :: u in s'.threads ==> u in s.threads || u == e.t)
            && e.t in s'.threads && (e.t in s.threads ==> s'.threads[e.t].request == s.threads[e.t].request)
            && (forall u :: Answered(s, u) ==> u != e.t && Answered(s', u) && s'.threads[u] == s.threads[u])
            && s.receipts <= s'.receipts
            && (!e.Publish? ==> s'.caches == s.caches)
  {
  }

  lemma JustifiedStays(h: Hash, s: State, e: Event, r: Request, reply: Reply)
    requires Enabled(s, e) && ReplyJustified(h, s, r, reply)
    ensures ReplyJustified(h, Next(h, s, e), r, reply)
  {
    StepFrame(h, s, e);
    var s' := Next(h, s, e);
    match reply
    case Replay(response) =>
      var u :| AnsweredAs(h, s, u, r, h(r.payload)) && s.threads[u].phase.reply.response == response;
      assert AnsweredAs(h, s', u, r, h(r.payload));
    case Conflict =>
      var u :| Answered(s, u) && AnsweredAs(h, s, u, r, h(s.threads[u].request.payload))
               && h(s.threads[u].request.payload) != h(r.payload);
      assert AnsweredAs(h, s', u, r, h(s'.threads[u].request.payload));
    case _ =>
  }

  lemma PutGet(c: Caches, e: Endpoint, key: string, entry: Entry, e': Endpoint)
    ensures c.Put(e, key, entry).Of(e') == if e' == e then c.Of(e)[key := entry] else c.Of(e')
  {
  }

  lemma CachesStayJustified(h: Hash, s: State, e: Event)
    requires Enabled(s, e) && CachesJustified(h, s)
    ensures CachesJustified(h, Next(h, s, e))
  {
    StepFrame(h, s, e);
    var s' := Next(h, s, e);
    forall ep, k | k in s'.caches.Of(ep)
      ensures k != "" && exists u :: Justifies(h, s', u, ep, k, s'.caches.Of(ep)[k])
    {
      if e.Publish? && s.threads[e.t].request.key != "" {
        var r, response := s.threads[e.t].request, s.threads[e.t].phase.response;
        PutGet(s.caches, r.endpoint, r.key, Entry(h(r.payload), response), ep);
        if ep == r.endpoint && k == r.key {
          assert Justifies(h, s', e.t, ep, k, s'.caches.Of(ep)[k]);
        } else {
          var u :| Justifies(h, s, u, ep, k, s.caches.Of(ep)[k]);
          assert Justifies(h, s', u, ep, k, s'.caches.Of(ep)[k]);
        }
      } else {
        var u :| Justifies(h, s, u, ep, k, s.caches.Of(ep)[k]);
        assert Justifies(h, s', u, ep, k, s'.caches.Of(ep)[k]);
      }
    }
  }

  lemma AnswersStayCached(h: Hash, s: State, e: Event)
    requires Enabled(s, e) && AnsweredCached(s)
    ensures AnsweredCached(Next(h, s, e))
  {
    StepFrame(h, s, e);
    var s' := Next(h, s, e);
    forall t | Answered(s', t) && s'.threads[t].request.key != ""
      ensures s'.threads[t].request.key in s'.caches.Of(s'.threads[t].request.endpoint)
    {
      var q := s'.threads[t].request;
      if e.Publish? && s.threads[e.t].request.key != "" {
        var r, response := s.threads[e.t].request, s.threads[e.t].phase.response;
        PutGet(s.caches, r.endpoint, r.key, Entry(h(r.payload), response), q.endpoint);
      }
      if t != e.t {
        assert Answered(s, t);
      }
    }
  }

  /** A lookup can only bring back what another request was answered. */
  lemma LookupSaved(h: Hash, s: State, t: nat, response: Response)
    requires Enabled(s, Lookup(t)) && ResponsesSaved(s) && CachesJustified(h, s)
    requires Carries(Next(h, s, Lookup(t)).threads[t], response)
    ensures SavedFor(s, s.threads[t].request, response)
  {
    var r := s.threads[t].request;
    var entry := s.caches.Of(r.endpoint)[r.key];
    assert response == entry.response;
    var u :| Justifies(h, s, u, r.endpoint, r.key, entry);
    assert Carries(s.threads[u], response);
  }

  lemma ComputeSaved(h: Hash, s: State, t: nat, outcome: Outcome, response: Response)
    requires Enabled(s, Compute(t, outcome)) && Carries(Next(h, s, Compute(t, outcome)).threads[t], response)
    ensures SavedFor(Next(h, s, Compute(t, outcome)), s.threads[t].request, response)
  {
  }

  lemma PublishSaved(h: Hash, s: State, t: nat, response: Response)
    requires Enabled(s, Publish(t)) && ResponsesSaved(s) && Carries(Next(h, s, Publish(t)).threads[t], response)
    ensures SavedFor(s, s.threads[t].request, response)
  {
    assert Carries(s.threads[t], response);
  }

  lemma ResponsesStaySaved(h: Hash, s: State, e: Event)
    requires Enabled(s, e) && ResponsesSaved(s) && CachesJustified(h, s)
    ensures ResponsesSaved(Next(h, s, e))
  {
    StepFrame(h, s, e);
    var s' := Next(h, s, e);
    forall t, response | t in s'.threads && Carries(s'.threads[t], response)
      ensures SavedFor(s', s'.threads[t].request, response)
    {
      if t != e.t {
        assert SavedFor(s, s.threads[t].request, response);
      } else {
        match e
        case Arrive(_, _) =>
        case Lookup(_) => LookupSaved(h, s, t, response);
        case Compute(_, outcome) => ComputeSaved(h, s, t, outcome, response);
        case Publish(_) => PublishSaved(h, s, t, response);
      }
    }
  }

  lemma AnswersStayOwn(h: Hash, s: State, e: Event)
    requires Enabled(s, e) && OwnAnswers(s)
    ensures OwnAnswers(Next(h, s, e))
  {
    StepFrame(h, s, e);
  }

  lemma RepliesStayJustified(h: Hash, s: State, e: Event)
    requires Enabled(s, e) && RepliesJustified(h, s) && CachesJustified(h, s)
    ensures RepliesJustified(h, Next(h, s, e))
  {
    StepFrame(h, s, e);
    var s' := Next(h, s, e);
    forall t | t in s'.threads && s'.threads[t].phase.Done?
      ensures ReplyJustified(h, s', s'.threads[t].request, s'.threads[t].phase.reply)
    {
      var r, reply := s'.threads[t].request, s'.threads[t].phase.reply;
      if t != e.t {
        JustifiedStays(h, s, e, r, reply);
      } else if e.Lookup? {
        LookupJustified(h, s, r, reply);
        JustifiedStays(h, s, e, r, reply);
      }
    }
  }

  lemma LookupJustified(h: Hash, s: State, r: Request, reply: Reply)
    requires CachesJustified(h, s) && LookupReply(h, s.caches, r) == Some(reply)
    ensures ReplyJustified(h, s, r, reply)
  {
    var entry := s.caches.Of(r.endpoint)[r.key];
    var u :| Justifies(h, s, u, r.endpoint, r.key, entry);
    assert AnsweredAs(h, s, u, r, entry.requestHash);
  }

  lemma InvStep(h: Hash, s: State, e: Event)
    requires Inv(h, s) && Enabled(s, e)
    ensures Inv(h, Next(h, s, e))
  {
    CachesStayJustified(h, s, e);
    AnswersStayCached(h, s, e);
    ResponsesStaySaved(h, s, e);
    AnswersStayOwn(h, s, e);
    RepliesStayJustified(h, s, e);
  }

  /** In every run, however the requests interleave, cache entries, replays and conflicts
      are justified and every decision that was sent has its receipt on record. */
  lemma {:induction false} InvHolds(h: Hash, run: seq<Event>)
    requires Valid(h, run)
    ensures Inv(h, After(h, run))
  {
    if run != [] {
      InvHolds(h, run[..|run| - 1]);
      InvStep(h, After(h, run[..|run| - 1]), run[|run| - 1]);
    }
  }

  ghost predicate AnsweredSlot(s: State, u: nat, r: Request) {
    Answered(s, u) && SameSlot(s.threads[u].request, r)
  }

  ghost predicate RepeatsPayload(s: State, u: nat, r: Request, response: Response)
    requires Answered(s, u)
  {
    s.threads[u].request.payload == r.payload && s.threads[u].phase.reply.response == response
  }

  /** What that means to a client, when the hash tells payloads apart: a replay repeats the answer
      given to the same payload, and a conflict means another payload was answered before. */
  lemma RepliesMeanPayloads(h: Hash, run: seq<Event>, t: nat)
    requires Valid(h, run) && (forall p, q :: h(p) == h(q) ==> p == q)
    requires var s := After(h, run); t in s.threads && s.threads[t].phase.Done?
    ensures var s := After(h, run);
            var r, reply := s.threads[t].request, s.threads[t].phase.reply;
            && (reply.Replay? ==> exists u :: AnsweredSlot(s, u, r) && RepeatsPayload(s, u, r, reply.response))
            && (reply.Conflict? ==> exists u :: AnsweredSlot(s, u, r) && s.threads[u].request.payload != r.payload)
  {
    InvHolds(h, run);
    var s := After(h, run);
    var r, reply := s.threads[t].request, s.threads[t].phase.reply;
    assert ReplyJustified(h, s, r, reply);
    match reply
    case Replay(response) =>
      var u :| AnsweredAs(h, s, u, r, h(r.payload)) && s.threads[u].phase.reply.response == response;
      assert AnsweredSlot(s, u, r) && RepeatsPayload(s, u, r, response);
    case Conflict =>
      var u :| Answered(s, u) && AnsweredAs(h, s, u, r, h(s.threads[u].request.payload))
               && h(s.threads[u].request.payload) != h(r.payload);
      assert AnsweredSlot(s, u, r);
    case _ =>
  }

  // ---------------------------------------------------------------- when a key has one answer

  ghost predicate SlotOf(s: State, t: nat, e: Endpoint, key: string) {
    t in s.threads && s.threads[t].request.endpoint == e && s.threads[t].request.key == key
  }

  /** Two requests were both past a missed lookup, and not yet answered, at some moment. */
  ghost predicate Overlapped(h: Hash, run: seq<Event>, t: nat, u: nat) {
    exists n :: 0 <= n <= |run| && InFlight(After(h, run[..n]), t) && InFlight(After(h, run[..n]), u)
  }

  lemma PrefixOfFront(run: seq<Event>, n: nat)
    requires n < |run|
    ensures run[..|run| - 1][..n] == run[..n]
  {
  }

  lemma OverlapInFront(h: Hash, run: seq<Event>, t: nat, u: nat)
    requires run != [] && Overlapped(h, run[..|run| - 1], t, u)
    ensures Overlapped(h, run, t, u)
  {
    var front := run[..|run| - 1];
    var n :| 0 <= n <= |front| && InFlight(After(h, front[..n]), t) && InFlight(After(h, front[..n]), u);
    PrefixOfFront(run, n);
  }

  /** A request in flight although its slot was already answered must have looked up before that. */
  lemma {:induction false} AnsweredWhileInFlight(h: Hash, run: seq<Event>, e: Endpoint, key: string, t: nat, u: nat)
    requires Valid(h, run) && key != "" && t != u
    requires SlotOf(After(h, run), t, e, key) && SlotOf(After(h, run), u, e, key)
    requires Answered(After(h, run), t) && InFlight(After(h, run), u)
    ensures Overlapped(h, run, t, u)
  {
    assert run != [];
    var front, ev := run[..|run| - 1], run[|run| - 1];
    var s := After(h, front);
    InvHolds(h, front);
    StepFrame(h, s, ev);
    if ev.t == t {
      assert ev.Publish?;
      assert run[..|run| - 1] == front && InFlight(s, t) && InFlight(s, u);
    } else {
      assert Answered(s, t) && SlotOf(s, t, e, key);
      assert key in s.caches.Of(e);
      assert InFlight(s, u);
      AnsweredWhileInFlight(h, front, e, key, t, u);
      OverlapInFront(h, run, t, u);
    }
  }

  lemma {:induction false} BothAnswered(h: Hash, run: seq<Event>, e: Endpoint, key: string, t: nat, u: nat)
    requires Valid(h, run) && key != "" && t != u
    requires SlotOf(After(h, run), t, e, key) && SlotOf(After(h, run), u, e, key)
    requires Answered(After(h, run), t) && Answered(After(h, run), u)
    ensures Overlapped(h, run, t, u)
  {
    assert run != [];
    var front, ev := run[..|run| - 1], run[|run| - 1];
    var s := After(h, front);
    StepFrame(h, s, ev);
    if ev.t == t {
      assert ev.Publish? && InFlight(s, t) && Answered(s, u);
      AnsweredWhileInFlight(h, front, e, key, u, t);
      assert Overlapped(h, front, t, u);
    } else if ev.t == u {
      assert ev.Publish? && InFlight(s, u) && Answered(s, t);
      AnsweredWhileInFlight(h, front, e, key, t, u);
    } else {
      BothAnswered(h, front, e, key, t, u);
    }
    OverlapInFront(h, run, t, u);
  }

  ghost predicate AnsweredPair(s: State, e: Endpoint, key: string, t: nat, u: nat) {
    t != u && SlotOf(s, t, e, key) && SlotOf(s, u, e, key) && Answered(s, t) && Answered(s, u)
  }

  ghost predicate Ended(s: State, t: nat) {
    t in s.threads && s.threads[t].phase.Done? && s.threads[t].phase.reply != Failure
  }

  /** A request past a missed lookup never falls back on the cache: it answers or fails. */
  lemma {:induction false} InFlightEnds(h: Hash, run: seq<Event>, n: nat, t: nat)
    requires Valid(h, run) && n <= |run| && InFlight(After(h, run[..n]), t)
    ensures InFlight(After(h, run), t) || Answered(After(h, run), t)
         || (t in After(h, run).threads && After(h, run).threads[t].phase == Done(Failure))
  {
    if n == |run| {
      assert run[..n] == run;
    } else {
      var front, ev := run[..|run| - 1], run[|run| - 1];
      PrefixOfFront(run, n);
      InFlightEnds(h, front, n, t);
      StepFrame(h, After(h, front), ev);
    }
  }

  /** Two requests with the same key are both answered by computing exactly when they were in
      flight together and both came to an end other than failure. */
  lemma BothAnsweredIff(h: Hash, run: seq<Event>, e: Endpoint, key: string, t: nat, u: nat)
    requires Valid(h, run) && key != "" && t != u
    requires SlotOf(After(h, run), t, e, key) && SlotOf(After(h, run), u, e, key)
    ensures Answered(After(h, run), t) && Answered(After(h, run), u)
       <==> Overlapped(h, run, t, u) && Ended(After(h, run), t) && Ended(After(h, run), u)
  {
    if Answered(After(h, run), t) && Answered(After(h, run), u) {
      BothAnswered(h, run, e, key, t, u);
    }
    if n :| 0 <= n <= |run| && InFlight(After(h, run[..n]), t) && InFlight(After(h, run[..n]), u) {
      InFlightEnds(h, run, n, t);
      InFlightEnds(h, run, n, u);
    }
  }

  ghost predicate EndedTogether(h: Hash, run: seq<Event>, e: Endpoint, key: string, t: nat, u: nat) {
    && t != u && SlotOf(After(h, run), t, e, key) && SlotOf(After(h, run), u, e, key)
    && Overlapped(h, run, t, u) && Ended(After(h, run), t) && Ended(After(h, run), u)
  }

  /** A key gets two computed answers in a run exactly when two of its requests were in flight
      together and neither failed. */
  lemma OneAnswerUnlessOverlap(h: Hash, run: seq<Event>, e: Endpoint, key: string)
    requires Valid(h, run) && key != ""
    ensures (exists t, u :: AnsweredPair(After(h, run), e, key, t, u))
       <==> (exists t, u :: EndedTogether(h, run, e, key, t, u))
  {
    if t, u :| AnsweredPair(After(h, run), e, key, t, u) {
      BothAnsweredIff(h, run, e, key, t, u);
      assert EndedTogether(h, run, e, key, t, u);
    }
    if t, u :| EndedTogether(h, run, e, key, t, u) {
      BothAnsweredIff(h, run, e, key, t, u);
      assert AnsweredPair(After(h, run), e, key, t, u);
    }
  }

  predicate Succeeded(s: State, t: nat) {
    t in s.threads && s.threads[t].phase.Done? && (s.threads[t].phase.reply.Answer? || s.threads[t].phase.reply.Replay?)
  }

  // ---------------------------------------------------------------- fresh receipts

  /** The response a request has computed for itself. */
  predicate Owns(s: State, t: nat, response: Response) {
    t in s.threads && (s.threads[t].phase == Ready(response) || s.threads[t].phase == Done(Answer(response)))
  }

  /** Every decision has a receipt of its own; nothing else has one. */
  ghost predicate FreshReceipts(s: State) {
    && (forall t, p :: Owns(s, t, p) ==> (p.receipt.Some? <==> s.threads[t].request.endpoint == DecideEndpoint))
    && (forall t, p :: Owns(s, t, p) && p.receipt.Some? ==> p.receipt.value in s.receipts)
    && (forall t, u, p, q :: t != u && Owns(s, t, p) && Owns(s, u, q) && p.receipt.Some? ==> p.receipt != q.receipt)
  }

  lemma OwnsStep(h: Hash, s: State, e: Event, t: nat, p: Response)
    requires Enabled(s, e) && Owns(Next(h, s, e), t, p)
    ensures Next(h, s, e).threads[t].request == if e.Arrive? && t == e.t then e.request else s.threads[t].request
    ensures Owns(s, t, p)
         || (e.Compute? && t == e.t && e.outcome.Computed?
             && p == ResponseTo(s.threads[t].request, e.outcome.receiptId))
  {
    StepFrame(h, s, e);
  }

  lemma ReceiptsStayFresh(h: Hash, s: State, e: Event)
    requires Enabled(s, e) && FreshReceipts(s)
    ensures FreshReceipts(Next(h, s, e))
  {
    var s' := Next(h, s, e);
    StepFrame(h, s, e);
    forall t, p | Owns(s', t, p)
      ensures p.receipt.Some? <==> s'.threads[t].request.endpoint == DecideEndpoint
      ensures p.receipt.Some? ==> p.receipt.value in s'.receipts
    {
      OwnsStep(h, s, e, t, p);
    }
    forall t, u, p, q | t != u && Owns(s', t, p) && Owns(s', u, q) && p.receipt.Some? ensures p.receipt != q.receipt {
      OwnsStep(h, s, e, t, p);
      OwnsStep(h, s, e, u, q);
    }
  }

  lemma {:induction false} FreshHolds(h: Hash, run: seq<Event>)
    requires Valid(h, run)
    ensures FreshReceipts(After(h, run))
  {
    if run != [] {
      FreshHolds(h, run[..|run| - 1]);
      ReceiptsStayFresh(h, After(h, run[..|run| - 1]), run[|run| - 1]);
    }
  }

  // ---------------------------------------------------------------- when a key has one body

  /** What the client receives: a body rendered from the request, with the receipt id of a decision. */
  function BodyOf<B>(render: Request -> B, response: Response): (B, Option<string>) {
    (render(response.request), response.receipt)
  }

  ghost predicate OneBody<B(!new)>(render: Request -> B, s: State, e: Endpoint, key: string) {
    forall t, u :: SlotOf(s, t, e, key) && SlotOf(s, u, e, key) && Succeeded(s, t) && Succeeded(s, u) ==>
      BodyOf(render, s.threads[t].phase.reply.response) == BodyOf(render, s.threads[u].phase.reply.response)
  }

  /** Two requests in flight together, neither of which failed, whose own bodies differ:
      decisions always do, by their receipts. */
  ghost predicate Clash<B(!new)>(render: Request -> B, h: Hash, run: seq<Event>, e: Endpoint, key: string, t: nat,
                                       u: nat) {
    && EndedTogether(h, run, e, key, t, u)
    && (e == DecideEndpoint || render(After(h, run).threads[t].request) != render(After(h, run).threads[u].request))
  }

  function ReplyOf(s: State, t: nat): Response
    requires Succeeded(s, t)
  {
    s.threads[t].phase.reply.response
  }

  lemma AnsweredBodies<B(!new)>(render: Request -> B, s: State, e: Endpoint, key: string, t: nat, u: nat)
    requires OwnAnswers(s) && FreshReceipts(s) && AnsweredPair(s, e, key, t, u)
    ensures BodyOf(render, ReplyOf(s, t)) == BodyOf(render, ReplyOf(s, u))
       <==> e != DecideEndpoint && render(s.threads[t].request) == render(s.threads[u].request)
  {
    assert Owns(s, t, ReplyOf(s, t)) && Owns(s, u, ReplyOf(s, u));
  }

  /** Two answers that ended together clash exactly when their bodies differ. */
  lemma ClashIff<B(!new)>(render: Request -> B, h: Hash, run: seq<Event>, e: Endpoint, key: string, t: nat, u: nat)
    requires Valid(h, run) && key != "" && EndedTogether(h, run, e, key, t, u)
    ensures AnsweredPair(After(h, run), e, key, t, u)
    ensures Clash(render, h, run, e, key, t, u)
       <==> BodyOf(render, ReplyOf(After(h, run), t)) != BodyOf(render, ReplyOf(After(h, run), u))
  {
    InvHolds(h, run);
    FreshHolds(h, run);
    BothAnsweredIff(h, run, e, key, t, u);
    AnsweredBodies(render, After(h, run), e, key, t, u);
  }

  /** Request v gave the answer that the successful reply to t carries, for the same payload hash. */
  predicate IsSource(h: Hash, s: State, t: nat, v: nat) {
    && Succeeded(s, t) && Answered(s, v) && Succeeded(s, v) && ReplyOf(s, v) == ReplyOf(s, t)
    && h(s.threads[v].request.payload) == h(s.threads[t].request.payload)
  }

  /** The answer a successful reply goes back to, possibly itself. */
  lemma Source(h: Hash, s: State, e: Endpoint, key: string, t: nat) returns (v: nat)
    requires RepliesJustified(h, s) && SlotOf(s, t, e, key) && Succeeded(s, t)
    ensures IsSource(h, s, t, v) && SlotOf(s, v, e, key)
  {
    if Answered(s, t) {
      v := t;
    } else {
      var r, reply := s.threads[t].request, s.threads[t].phase.reply;
      assert ReplyJustified(h, s, r, reply);
      v :| AnsweredAs(h, s, v, r, h(r.payload)) && s.threads[v].phase.reply.response == reply.response;
    }
  }

  /** Two successful replies go back to one answer, or to two that ended together. */
  lemma Sources(h: Hash, run: seq<Event>, e: Endpoint, key: string, t: nat, u: nat) returns (v: nat, w: nat)
    requires Valid(h, run) && key != ""
    requires SlotOf(After(h, run), t, e, key) && SlotOf(After(h, run), u, e, key)
    requires Succeeded(After(h, run), t) && Succeeded(After(h, run), u)
    ensures IsSource(h, After(h, run), t, v) && IsSource(h, After(h, run), u, w)
    ensures v == w || EndedTogether(h, run, e, key, v, w)
  {
    var s := After(h, run);
    InvHolds(h, run);
    v := Source(h, s, e, key, t);
    w := Source(h, s, e, key, u);
    if v != w {
      BothAnsweredIff(h, run, e, key, v, w);
    }
  }

  /** All successful replies under a key have the same body exactly when no two of its requests
      were in flight together, without failing, on bodies that differ. */
  lemma SameResponse<B(!new)>(render: Request -> B, h: Hash, run: seq<Event>, e: Endpoint, key: string)
    requires Valid(h, run) && key != ""
    ensures OneBody(render, After(h, run), e, key) <==> !exists t, u :: Clash(render, h, run, e, key, t, u)
  {
    var s := After(h, run);
    if t, u :| Clash(render, h, run, e, key, t, u) {
      ClashIff(render, h, run, e, key, t, u);
      assert BodyOf(render, s.threads[t].phase.reply.response) != BodyOf(render, s.threads[u].phase.reply.response);
    } else {
      forall t, u | SlotOf(s, t, e, key) && SlotOf(s, u, e, key) && Succeeded(s, t) && Succeeded(s, u)
        ensures BodyOf(render, s.threads[t].phase.reply.response) == BodyOf(render, s.threads[u].phase.reply.response)
      {
        var v, w := Sources(h, run, e, key, t, u);
        if v != w {
          ClashIff(render, h, run, e, key, v, w);
        }
      }
    }
  }

  /** No key is accepted for two payloads. */
  ghost predicate OnePayload(h: Hash, s: State, e: Endpoint, key: string) {
    forall t, u :: SlotOf(s, t, e, key) && SlotOf(s, u, e, key) && Succeeded(s, t) && Succeeded(s, u) ==>
      h(s.threads[t].request.payload) == h(s.threads[u].request.payload)
  }

  ghost predicate PayloadClash(h: Hash, run: seq<Event>, e: Endpoint, key: string, t: nat, u: nat) {
    && EndedTogether(h, run, e, key, t, u)
    && h(After(h, run).threads[t].request.payload) != h(After(h, run).threads[u].request.payload)
  }

  /** A key is accepted for one payload only, exactly if no two requests with different payloads
      were in flight together without failing. */
  lemma AcceptedOnce(h: Hash, run: seq<Event>, e: Endpoint, key: string)
    requires Valid(h, run) && key != ""
    ensures OnePayload(h, After(h, run), e, key) <==> !exists t, u :: PayloadClash(h, run, e, key, t, u)
  {
    var s := After(h, run);
    if t, u :| PayloadClash(h, run, e, key, t, u) {
      BothAnsweredIff(h, run, e, key, t, u);
      assert Succeeded(s, t) && Succeeded(s, u);
    } else {
      forall t, u | SlotOf(s, t, e, key) && SlotOf(s, u, e, key) && Succeeded(s, t) && Succeeded(s, u)
        ensures h(s.threads[t].request.payload) == h(s.threads[u].request.payload)
      {
        var v, w := Sources(h, run, e, key, t, u);
        assert v != w ==> !PayloadClash(h, run, e, key, v, w);
      }
    }
  }

  // ---------------------------------------------------------------- status and body

  function Status(reply: Reply): int {
    match reply
    case Answer(_) => 200
    case Replay(_) => 200
    case Conflict => 409
    case Failure => 500
  }

  /** A request of the slot that has had its reply. */
  predicate Finished(s: State, e: Endpoint, key: string, t: nat) {
    && t in s.threads && s.threads[t].request.endpoint == e && s.threads[t].request.key == key
    && s.threads[t].phase.Done?
  }

  function StatusOf(s: State, t: nat): int
    requires t in s.threads && s.threads[t].phase.Done?
  {
    Status(s.threads[t].phase.reply)
  }

  predicate SameHash(h: Hash, s: State, t: nat, u: nat)
    requires t in s.threads && u in s.threads
  {
    h(s.threads[t].request.payload) == h(s.threads[u].request.payload)
  }

  /** Two finished requests of the slot with one payload hash. */
  predicate Repeats(h: Hash, s: State, e: Endpoint, key: string, t: nat, u: nat) {
    Finished(s, e, key, t) && Finished(s, e, key, u) && SameHash(h, s, t, u)
  }

  /** The client sees the same status and, on success, the same body. */
  predicate SameReply<B(==)>(render: Request -> B, s: State, t: nat, u: nat)
    requires t in s.threads && s.threads[t].phase.Done? && u in s.threads && s.threads[u].phase.Done?
  {
    && StatusOf(s, t) == StatusOf(s, u)
    && (Succeeded(s, t) && Succeeded(s, u) ==> BodyOf(render, ReplyOf(s, t)) == BodyOf(render, ReplyOf(s, u)))
  }

  /** The promise: same key and payload, same status and body. */
  ghost predicate OneReply<B(!new)>(render: Request -> B, h: Hash, s: State, e: Endpoint, key: string) {
    forall t, u :: Repeats(h, s, e, key, t, u) ==> SameReply(render, s, t, u)
  }

  /** The weaker promise that allows a conflict error instead. */
  ghost predicate OneReplyOrConflict<B(!new)>(render: Request -> B, h: Hash, s: State, e: Endpoint, key: string) {
    forall t, u :: Repeats(h, s, e, key, t, u) ==>
      SameReply(render, s, t, u) || StatusOf(s, t) == 409 || StatusOf(s, u) == 409
  }

  /** In flight together without failing, on one payload but with different bodies. */
  ghost predicate RepeatClash<B(!new)>(render: Request -> B, h: Hash, run: seq<Event>, e: Endpoint, key: string,
                                             t: nat, u: nat) {
    Clash(render, h, run, e, key, t, u) && SameHash(h, After(h, run), t, u)
  }

  /** One of two such requests failed and the other did not: failures are not remembered. */
  predicate FailedBeside(h: Hash, s: State, e: Endpoint, key: string, t: nat, u: nat) {
    Repeats(h, s, e, key, t, u) && StatusOf(s, t) == 500 && StatusOf(s, u) != 500
  }

  /** One was refused although the other succeeded. */
  predicate RefusedBeside(h: Hash, s: State, e: Endpoint, key: string, t: nat, u: nat) {
    Repeats(h, s, e, key, t, u) && StatusOf(s, t) == 409 && StatusOf(s, u) == 200
  }

  /** Successful replies for one payload differ only if two answers for it clashed. */
  lemma RepeatedBodies<B(!new)>(render: Request -> B, h: Hash, run: seq<Event>, e: Endpoint, key: string, t: nat,
                                u: nat)
    returns (v: nat, w: nat)
    requires Valid(h, run) && key != "" && Repeats(h, After(h, run), e, key, t, u)
    requires Succeeded(After(h, run), t) && Succeeded(After(h, run), u)
    ensures BodyOf(render, ReplyOf(After(h, run), t)) == BodyOf(render, ReplyOf(After(h, run), u))
         || RepeatClash(render, h, run, e, key, v, w)
  {
    v, w := Sources(h, run, e, key, t, u);
    if v != w {
      assert SameHash(h, After(h, run), v, w);
      ClashIff(render, h, run, e, key, v, w);
    }
  }

  lemma RepeatClashBreaks<B(!new)>(render: Request -> B, h: Hash, run: seq<Event>, e: Endpoint, key: string, t: nat,
                                   u: nat)
    requires Valid(h, run) && key != "" && RepeatClash(render, h, run, e, key, t, u)
    ensures Repeats(h, After(h, run), e, key, t, u) && StatusOf(After(h, run), t) == StatusOf(After(h, run), u) == 200
    ensures !SameReply(render, After(h, run), t, u)
  {
    ClashIff(render, h, run, e, key, t, u);
  }

  lemma RepeatedStatuses(h: Hash, s: State, e: Endpoint, key: string, t: nat, u: nat)
    requires Repeats(h, s, e, key, t, u)
    requires !FailedBeside(h, s, e, key, t, u) && !FailedBeside(h, s, e, key, u, t)
    ensures StatusOf(s, t) == StatusOf(s, u) || (StatusOf(s, t) == 409 && StatusOf(s, u) == 200)
         || (StatusOf(s, t) == 200 && StatusOf(s, u) == 409)
  {
  }

  /** Every repetition of a request under its key gets the same status and body exactly when no two
      answers for one payload clashed, no request failed beside one of its payload that did not,
      and none was refused beside one of its payload that succeeded. */
  lemma OneReplyIff<B(!new)>(render: Request -> B, h: Hash, run: seq<Event>, e: Endpoint, key: string)
    requires Valid(h, run) && key != ""
    ensures OneReply(render, h, After(h, run), e, key)
       <==> && (forall t, u :: !RepeatClash(render, h, run, e, key, t, u))
            && (forall t, u :: !FailedBeside(h, After(h, run), e, key, t, u))
            && (forall t, u :: !RefusedBeside(h, After(h, run), e, key, t, u))
  {
    var s := After(h, run);
    if t, u :| RepeatClash(render, h, run, e, key, t, u) {
      RepeatClashBreaks(render, h, run, e, key, t, u);
    } else if t, u :| FailedBeside(h, s, e, key, t, u) || RefusedBeside(h, s, e, key, t, u) {
      assert Repeats(h, s, e, key, t, u) && !SameReply(render, s, t, u);
    } else {
      forall t, u | Repeats(h, s, e, key, t, u) ensures SameReply(render, s, t, u) {
        RepeatedStatuses(h, s, e, key, t, u);
        assert Repeats(h, s, e, key, u, t) && !RefusedBeside(h, s, e, key, t, u) && !RefusedBeside(h, s, e, key, u, t);
        if Succeeded(s, t) && Succeeded(s, u) {
          var v, w := RepeatedBodies(render, h, run, e, key, t, u);
        }
      }
    }
  }

  /** Allowing for conflict errors, exactly when no two answers for one payload clashed and no request
      failed beside one of its payload that succeeded. */
  lemma OneReplyOrConflictIff<B(!new)>(render: Request -> B, h: Hash, run: seq<Event>, e: Endpoint, key: string)
    requires Valid(h, run) && key != ""
    ensures OneReplyOrConflict(render, h, After(h, run), e, key)
       <==> && (forall t, u :: !RepeatClash(render, h, run, e, key, t, u))
            && (forall t, u :: FailedBeside(h, After(h, run), e, key, t, u) ==> StatusOf(After(h, run), u) == 409)
  {
    var s := After(h, run);
    if t, u :| RepeatClash(render, h, run, e, key, t, u) {
      RepeatClashBreaks(render, h, run, e, key, t, u);
    } else if t, u :| FailedBeside(h, s, e, key, t, u) && StatusOf(s, u) != 409 {
      assert Repeats(h, s, e, key, t, u) && !SameReply(render, s, t, u);
    } else {
      forall t, u | Repeats(h, s, e, key, t, u) && StatusOf(s, t) != 409 && StatusOf(s, u) != 409
        ensures SameReply(render, s, t, u)
      {
        assert Repeats(h, s, e, key, u, t);
        assert !FailedBeside(h, s, e, key, t, u) && !FailedBeside(h, s, e, key, u, t);
        if Succeeded(s, t) && Succeeded(s, u) {
          var v, w := RepeatedBodies(render, h, run, e, key, t, u);
        }
      }
    }
  }

  /** A request is refused beside a success of its own payload only because two payloads were
      accepted under the key. */
  lemma RefusedMeansPayloadClash(h: Hash, run: seq<Event>, e: Endpoint, key: string, t: nat, u: nat)
    returns (v: nat, w: nat)
    requires Valid(h, run) && key != "" && RefusedBeside(h, After(h, run), e, key, t, u)
    ensures PayloadClash(h, run, e, key, v, w)
  {
    var s := After(h, run);
    InvHolds(h, run);
    var r := s.threads[t].request;
    assert ReplyJustified(h, s, r, s.threads[t].phase.reply);
    v :| Answered(s, v) && AnsweredAs(h, s, v, r, h(s.threads[v].request.payload))
         && h(s.threads[v].request.payload) != h(r.payload);
    w := Source(h, s, e, key, u);
    BothAnsweredIff(h, run, e, key, v, w);
  }

  // ---------------------------------------------------------------- reusing a key

  /** The promise: of two requests under one key with different payloads one is refused. */
  ghost predicate OneRefused(h: Hash, s: State, e: Endpoint, key: string) {
    forall t, u :: Reuses(h, s, e, key, t, u) ==> StatusOf(s, t) == 409 || StatusOf(s, u) == 409
  }

  /** Two finished requests of the slot with different payload hashes. */
  predicate Reuses(h: Hash, s: State, e: Endpoint, key: string, t: nat, u: nat) {
    Finished(s, e, key, t) && Finished(s, e, key, u) && !SameHash(h, s, t, u)
  }

  /** A failed request does not claim the key. */
  predicate FailedReuse(h: Hash, s: State, e: Endpoint, key: string, t: nat, u: nat) {
    Reuses(h, s, e, key, t, u) && StatusOf(s, t) == 500 && StatusOf(s, u) != 409
  }

  lemma ReuseClash(h: Hash, run: seq<Event>, e: Endpoint, key: string, t: nat, u: nat) returns (v: nat, w: nat)
    requires Valid(h, run) && key != "" && Reuses(h, After(h, run), e, key, t, u)
    requires Succeeded(After(h, run), t) && Succeeded(After(h, run), u)
    ensures PayloadClash(h, run, e, key, v, w)
  {
    v, w := Sources(h, run, e, key, t, u);
  }

  /** Of any two requests with different payloads under one key one is refused, exactly when no two
      of them were in flight together without failing, and none failed beside one that was not refused. */
  lemma ReuseRefused(h: Hash, run: seq<Event>, e: Endpoint, key: string)
    requires Valid(h, run) && key != ""
    ensures OneRefused(h, After(h, run), e, key)
       <==> && (forall t, u :: !PayloadClash(h, run, e, key, t, u))
            && (forall t, u :: !FailedReuse(h, After(h, run), e, key, t, u))
  {
    var s := After(h, run);
    if t, u :| PayloadClash(h, run, e, key, t, u) {
      BothAnsweredIff(h, run, e, key, t, u);
      assert Reuses(h, s, e, key, t, u);
    } else if t, u :| FailedReuse(h, s, e, key, t, u) {
      assert Reuses(h, s, e, key, t, u);
    } else {
      forall t, u | Reuses(h, s, e, key, t, u) ensures StatusOf(s, t) == 409 || StatusOf(s, u) == 409 {
        assert Reuses(h, s, e, key, u, t);
        assert !FailedReuse(h, s, e, key, t, u) && !FailedReuse(h, s, e, key, u, t);
        if Succeeded(s, t) && Succeeded(s, u) {
          var v, w := ReuseClash(h, run, e, key, t, u);
        }
      }
    }
  }

  // ---------------------------------------------------------------- the promise can be broken

  function LookupsFirst(r: Request): seq<Event> { [Arrive(0, r), Arrive(1, r), Lookup(0), Lookup(1)] }

  function BrokenRun(r: Request): seq<Event> {
    LookupsFirst(r) + [Compute(0, Computed("a")), Compute(1, Computed("b")), Publish(0), Publish(1)]
  }

  function StateAt(r: Request, th0: Phase, th1: Phase, c: Caches, receipts: set<string>): State {
    State(c, receipts, map[0 := Thread(r, th0), 1 := Thread(r, th1)])
  }

  lemma RunStep(h: Hash, run: seq<Event>, s: State, e: Event, s': State)
    requires Valid(h, run) && After(h, run) == s && Enabled(s, e) && Next(h, s, e) == s'
    ensures Valid(h, run + [e]) && After(h, run + [e]) == s'
  {
    assert (run + [e])[..|run|] == run;
  }

  lemma BothMiss(h: Hash, r: Request)
    requires r.key != ""
    ensures Valid(h, LookupsFirst(r)) && After(h, LookupsFirst(r)) == StateAt(r, Missed, Missed, EMPTY, {})
  {
    var one := State(EMPTY, {}, map[0 := Thread(r, Arrived)]);
    RunStep(h, [], INITIAL, Arrive(0, r), one);
    RunStep(h, [Arrive(0, r)], one, Arrive(1, r), StateAt(r, Arrived, Arrived, EMPTY, {}));
    assert [] + [Arrive(0, r)] == [Arrive(0, r)];
    var two := [Arrive(0, r), Arrive(1, r)];
    assert [Arrive(0, r)] + [Arrive(1, r)] == two;
    RunStep(h, two, StateAt(r, Arrived, Arrived, EMPTY, {}), Lookup(0), StateAt(r, Missed, Arrived, EMPTY, {}));
    RunStep(h, two + [Lookup(0)], StateAt(r, Missed, Arrived, EMPTY, {}), Lookup(1),
            StateAt(r, Missed, Missed, EMPTY, {}));
    assert two + [Lookup(0)] + [Lookup(1)] == LookupsFirst(r);
  }

  lemma BothCompute(h: Hash, r: Request, run: seq<Event>)
    requires r.key != "" && r.endpoint == DecideEndpoint
    requires Valid(h, run) && After(h, run) == StateAt(r, Missed, Missed, EMPTY, {})
    ensures var ra, rb := Response(r, Some("a")), Response(r, Some("b"));
            var all := run + [Compute(0, Computed("a"))] + [Compute(1, Computed("b"))];
            Valid(h, all) && After(h, all) == StateAt(r, Ready(ra), Ready(rb), EMPTY, {"a", "b"})
  {
    var ra, rb := Response(r, Some("a")), Response(r, Some("b"));
    var s1 := StateAt(r, Ready(ra), Missed, EMPTY, {"a"});
    RunStep(h, run, StateAt(r, Missed, Missed, EMPTY, {}), Compute(0, Computed("a")), s1);
    assert "a"[0] != "b"[0];
    RunStep(h, run + [Compute(0, Computed("a"))], s1, Compute(1, Computed("b")),
            StateAt(r, Ready(ra), Ready(rb), EMPTY, {"a", "b"}));
  }

  lemma PublishReady(h: Hash, r: Request, run: seq<Event>, ra: Response, rb: Response, receipts: set<string>)
    requires r.key != "" && Valid(h, run) && After(h, run) == StateAt(r, Ready(ra), Ready(rb), EMPTY, receipts)
    ensures var all := run + [Publish(0)] + [Publish(1)];
            Valid(h, all) && After(h, all).threads
                == map[0 := Thread(r, Done(Answer(ra))), 1 := Thread(r, Done(Answer(rb)))]
  {
    var c := Published(h, EMPTY, r, ra);
    var s3 := StateAt(r, Done(Answer(ra)), Ready(rb), c, receipts);
    RunStep(h, run, StateAt(r, Ready(ra), Ready(rb), EMPTY, receipts), Publish(0), s3);
    RunStep(h, run + [Publish(0)], s3, Publish(1),
            StateAt(r, Done(Answer(ra)), Done(Answer(rb)), Published(h, c, r, rb), receipts));
  }

  lemma BothPublish(h: Hash, r: Request, run: seq<Event>)
    requires r.key != "" && r.endpoint == DecideEndpoint
    requires Valid(h, run) && After(h, run) == StateAt(r, Missed, Missed, EMPTY, {})
    ensures var ra, rb := Response(r, Some("a")), Response(r, Some("b"));
            var all := run + [Compute(0, Computed("a"))] + [Compute(1, Computed("b"))] + [Publish(0)] + [Publish(1)];
            Valid(h, all) && After(h, all).threads
                == map[0 := Thread(r, Done(Answer(ra))), 1 := Thread(r, Done(Answer(rb)))]
  {
    BothCompute(h, r, run);
    PublishReady(h, r, run + [Compute(0, Computed("a"))] + [Compute(1, Computed("b"))],
                 Response(r, Some("a")), Response(r, Some("b")), {"a", "b"});
  }

  /** Two identical decide requests that overlap are both answered, with different receipts,
      although neither the payload nor anything else differs. */
  lemma IdenticalRequestsTwoAnswers(h: Hash, key: string, payload: string)
    requires key != ""
    ensures var r := Request(DecideEndpoint, key, payload, "");
            var s := After(h, BrokenRun(r));
            && Valid(h, BrokenRun(r)) && Answered(s, 0) && Answered(s, 1)
            && s.threads[0].request == s.threads[1].request
            && s.threads[0].phase.reply.response != s.threads[1].phase.reply.response
  {
    var r := Request(DecideEndpoint, key, payload, "");
    BothMiss(h, r);
    BothPublish(h, r, LookupsFirst(r));
    assert LookupsFirst(r) + [Compute(0, Computed("a"))] + [Compute(1, Computed("b"))] + [Publish(0)] + [Publish(1)]
        == BrokenRun(r);
    assert "a" != "b" by { assert "a"[0] != "b"[0]; }
  }

  function RetriedRun(r: Request): seq<Event> {
    FailedFirst(r) + [Arrive(1, r), Lookup(1), Compute(1, Computed("a")), Publish(1)]
  }

  function FailedFirst(r: Request): seq<Event> { [Arrive(0, r), Lookup(0), Compute(0, NotComputed)] }

  function OneThread(r: Request, p: Phase): State { State(EMPTY, {}, map[0 := Thread(r, p)]) }

  lemma FirstFails(h: Hash, r: Request)
    requires r.key != ""
    ensures Valid(h, FailedFirst(r)) && After(h, FailedFirst(r)) == OneThread(r, Done(Failure))
  {
    RunStep(h, [], INITIAL, Arrive(0, r), OneThread(r, Arrived));
    assert [] + [Arrive(0, r)] == [Arrive(0, r)];
    RunStep(h, [Arrive(0, r)], OneThread(r, Arrived), Lookup(0), OneThread(r, Missed));
    RunStep(h, [Arrive(0, r)] + [Lookup(0)], OneThread(r, Missed), Compute(0, NotComputed),
            OneThread(r, Done(Failure)));
    assert [Arrive(0, r)] + [Lookup(0)] + [Compute(0, NotComputed)] == FailedFirst(r);
  }

  lemma SecondMisses(h: Hash, r: Request, run: seq<Event>)
    requires r.key != "" && Valid(h, run) && After(h, run) == OneThread(r, Done(Failure))
    ensures var more := run + [Arrive(1, r)] + [Lookup(1)];
            Valid(h, more) && After(h, more) == StateAt(r, Done(Failure), Missed, EMPTY, {})
  {
    var arrived := StateAt(r, Done(Failure), Arrived, EMPTY, {});
    RunStep(h, run, OneThread(r, Done(Failure)), Arrive(1, r), arrived);
    RunStep(h, run + [Arrive(1, r)], arrived, Lookup(1), StateAt(r, Done(Failure), Missed, EMPTY, {}));
  }

  lemma SecondComputes(h: Hash, r: Request, run: seq<Event>, ra: Response)
    requires r.key != "" && r.endpoint == DecideEndpoint && ra == Response(r, Some("a"))
    requires Valid(h, run) && After(h, run) == StateAt(r, Done(Failure), Missed, EMPTY, {})
    ensures var more := run + [Compute(1, Computed("a"))];
            Valid(h, more) && After(h, more) == StateAt(r, Done(Failure), Ready(ra), EMPTY, {"a"})
  {
    RunStep(h, run, StateAt(r, Done(Failure), Missed, EMPTY, {}), Compute(1, Computed("a")),
            StateAt(r, Done(Failure), Ready(ra), EMPTY, {"a"}));
  }

  lemma SecondPublishes(h: Hash, r: Request, run: seq<Event>, ra: Response)
    requires r.key != "" && Valid(h, run) && After(h, run) == StateAt(r, Done(Failure), Ready(ra), EMPTY, {"a"})
    ensures Valid(h, run + [Publish(1)])
    ensures After(h, run + [Publish(1)])
         == StateAt(r, Done(Failure), Done(Answer(ra)), Published(h, EMPTY, r, ra), {"a"})
  {
    RunStep(h, run, StateAt(r, Done(Failure), Ready(ra), EMPTY, {"a"}), Publish(1),
            StateAt(r, Done(Failure), Done(Answer(ra)), Published(h, EMPTY, r, ra), {"a"}));
  }

  lemma SecondSucceeds(h: Hash, r: Request, run: seq<Event>)
    requires r.key != "" && r.endpoint == DecideEndpoint
    requires Valid(h, run) && After(h, run) == OneThread(r, Done(Failure))
    ensures var all := run + [Arrive(1, r)] + [Lookup(1)] + [Compute(1, Computed("a"))] + [Publish(1)];
            Valid(h, all) && After(h, all).threads
              == map[0 := Thread(r, Done(Failure)), 1 := Thread(r, Done(Answer(Response(r, Some("a")))))]
  {
    var ra := Response(r, Some("a"));
    SecondMisses(h, r, run);
    SecondComputes(h, r, run + [Arrive(1, r)] + [Lookup(1)], ra);
    SecondPublishes(h, r, run + [Arrive(1, r)] + [Lookup(1)] + [Compute(1, Computed("a"))], ra);
  }

  /** Without any overlap: a request fails, and its repetition, made after that, succeeds. */
  lemma FailureThenSuccess<B(!new)>(render: Request -> B, h: Hash, key: string, payload: string)
    requires key != ""
    ensures var r := Request(DecideEndpoint, key, payload, "");
            var s := After(h, RetriedRun(r));
            && Valid(h, RetriedRun(r)) && Repeats(h, s, DecideEndpoint, key, 0, 1)
            && StatusOf(s, 0) == 500 && StatusOf(s, 1) == 200
            && (forall t, u :: !EndedTogether(h, RetriedRun(r), DecideEndpoint, key, t, u))
            && !OneReply(render, h, s, DecideEndpoint, key)
  {
    var r := Request(DecideEndpoint, key, payload, "");
    FirstFails(h, r);
    SecondSucceeds(h, r, FailedFirst(r));
    assert FailedFirst(r) + [Arrive(1, r)] + [Lookup(1)] + [Compute(1, Computed("a"))] + [Publish(1)] == RetriedRun(r);
    var s := After(h, RetriedRun(r));
    assert Repeats(h, s, DecideEndpoint, key, 0, 1) && !SameReply(render, s, 0, 1);
    assert forall t :: t in s.threads ==> t == 0 || t == 1;
  }
}
