/**
  `get_all_hosts` of active_hosts_rux.py: cursor pagination over the hosts endpoint, each
  page fetched with a bounded retry loop and exponential backoff, the hosts of every
  successful page appended in order.

  The transport is a finite script: the k-th request made is answered by `script[k]`, and
  every request after the script runs out gets no response. Sleeps and requests are
  recorded as events instead of taking time or using the network.
 */
module Pagination {

  import opened Wrappers
  import opened QueryParams
  import opened HostExport

  const PagePause: nat := 1

  /** The JSON body of a page: `results` and `next`, each possibly missing (`next` also null). */
  datatype PageBody = PageBody(results: Option<seq<Host>>, next: Option<string>)

  /** What one `make_api_request` call returned: nothing, or a response. */
  datatype Reply = NoReply | Response(status: int, body: PageBody)

  /** One observable step: a GET of the hosts endpoint with a query, or a sleep. */
  datatype Event = Get(query: Query) | Sleep(seconds: nat)

  /** The requests made for one page: its query, the indices of its first request and of the request after its last, its final reply and its events. */
  datatype Fetched = Fetched(query: Query, first: nat, next: nat, final: Reply, events: seq<Event>)

  /** The result of a whole run: the hosts collected, every event, and every page requested. */
  datatype Outcome = Outcome(hosts: seq<Host>, events: seq<Event>, pages: seq<Fetched>)

  /** The answer to the request with index `k`. */
  function Answer(script: seq<Reply>, k: nat): Reply {
    if k < |script| then script[k] else NoReply
  }

  /** The retry rule the loop's comment states: retry on no response and on 504 only. */
  predicate ShouldRetry(r: Reply) {
    r.NoReply? || r.status == 504
  }

  /** Which retry rule a retry loop follows: the stated one, or the guard as written. */
  datatype Guard = Stated | AsWritten

  /** Python truthiness of a `requests` response: false exactly for statuses 400 to 599. */
  predicate Truthy(status: int) {
    !(400 <= status < 600)
  }

  /** The retry rule as written, `not (response and response.status_code != 504)`. */
  predicate ShouldRetryAsWritten(r: Reply) {
    !(r.Response? && Truthy(r.status) && r.status != 504)
  }

  predicate RetryOn(guard: Guard, r: Reply) {
    match guard
    case Stated => ShouldRetry(r)
    case AsWritten => ShouldRetryAsWritten(r)
  }

  predicate Succeeded(r: Reply) {
    r.Response? && r.status == 200
  }

  /** `data.get('results', [])` */
  function PageHosts(b: PageBody): seq<Host> {
    GetOr(b.results, [])
  }

  /** A truthy `next`: present, not null and not empty. */
  predicate HasNext(next: Option<string>) {
    next.Some? && next.value != ""
  }

  /** 2^n, for the backoff `2 ** retries`. */
  function Pow2(n: int): nat {
    if n <= 0 then 1 else 2 * Pow2(n - 1)
  }

  /** The events of `n` attempts for query `q`, starting with attempt `r`: each after the first sleeps 2^attempt seconds. */
  function Attempts(q: Query, r: nat, n: nat): seq<Event>
    decreases n
  {
    if n == 0 then []
    else (if r > 0 then [Sleep(Pow2(r))] else []) + [Get(q)] + Attempts(q, r + 1, n - 1)
  }

  /** The queries sent, in order. */
  function Requests(events: seq<Event>): seq<Query> {
    if |events| == 0 then []
    else (if events[0].Get? then [events[0].query] else []) + Requests(events[1..])
  }

  /** The sleep durations, in order. */
  function Sleeps(events: seq<Event>): seq<nat> {
    if |events| == 0 then []
    else (if events[0].Sleep? then [events[0].seconds] else []) + Sleeps(events[1..])
  }

  /**
    The retry loop from attempt `r` on, the next request being number `k`, retrying while
    `guard` holds of the answer. It stops at the first answer `guard` rejects, or after
    attempt `maxRetries`, and ends with the last answer.
   */
  function Retry(script: seq<Reply>, q: Query, k: nat, r: nat, maxRetries: int, guard: Guard): (f: Fetched)
    requires r <= maxRetries
    ensures f.query == q && f.first == k
    ensures k < f.next <= k + (maxRetries - r + 1)
    ensures f.final == Answer(script, f.next - 1)
    decreases maxRetries - r
  {
    var answer := Answer(script, k);
    var attempt := (if r > 0 then [Sleep(Pow2(r))] else []) + [Get(q)];
    if !RetryOn(guard, answer) || r == maxRetries then
      Fetched(q, k, k + 1, answer, attempt)
    else
      var rest := Retry(script, q, k + 1, r + 1, maxRetries, guard);
      Fetched(q, k, rest.next, rest.final, attempt + rest.events)
  }

  /** The inner loop for one page: no attempt at all when `maxRetries` is negative. */
  function FetchPage(script: seq<Reply>, q: Query, k: nat, maxRetries: int, guard: Guard): (f: Fetched)
    ensures f.query == q && f.first == k && k <= f.next
    ensures f.next - k <= if maxRetries < 0 then 0 else maxRetries + 1
    ensures f.final.Response? ==> k < f.next <= |script|
  {
    if maxRetries < 0 then Fetched(q, k, k, NoReply, [])
    else Retry(script, q, k, 0, maxRetries, guard)
  }

  /**
    The retry loop stops exactly where it should: every answer before the last is one the
    guard retries on, and the last is one it does not retry on unless the attempts ran out.
   */
  lemma {:induction false} RetryStops(script: seq<Reply>, q: Query, k: nat, r: nat, maxRetries: int, guard: Guard)
    requires r <= maxRetries
    ensures var f := Retry(script, q, k, r, maxRetries, guard);
      && (forall i :: k <= i < f.next - 1 ==> RetryOn(guard, Answer(script, i)))
      && (!RetryOn(guard, f.final) || f.next - k == maxRetries - r + 1)
    decreases maxRetries - r
  {
    if RetryOn(guard, Answer(script, k)) && r < maxRetries {
      RetryStops(script, q, k + 1, r + 1, maxRetries, guard);
    }
  }

  /**
    One page stops at the first answer that exists and is not 504: every earlier answer was
    missing or 504, and the last one is neither unless all `maxRetries + 1` attempts were made.
   */
  lemma FetchPageStops(script: seq<Reply>, q: Query, k: nat, maxRetries: int)
    requires maxRetries >= 0
    ensures var f := FetchPage(script, q, k, maxRetries, Stated);
      && (forall i :: k <= i < f.next - 1 ==> Answer(script, i).NoReply? || Answer(script, i).status == 504)
      && ((f.final.Response? && f.final.status != 504) || f.next - k == maxRetries + 1)
  {
    RetryStops(script, q, k, 0, maxRetries, Stated);
  }

  /** The events of the retry loop are its attempts, each after the first preceded by its backoff sleep. */
  lemma {:induction false} RetryAttempts(script: seq<Reply>, q: Query, k: nat, r: nat, maxRetries: int, guard: Guard)
    requires r <= maxRetries
    ensures var f := Retry(script, q, k, r, maxRetries, guard); f.events == Attempts(q, r, f.next - k)
    decreases maxRetries - r
  {
    if RetryOn(guard, Answer(script, k)) && r < maxRetries {
      RetryAttempts(script, q, k + 1, r + 1, maxRetries, guard);
    }
  }

  /** The events of one page are its attempts, starting with attempt 0. */
  lemma PageAttempts(script: seq<Reply>, q: Query, k: nat, maxRetries: int, guard: Guard)
    ensures var f := FetchPage(script, q, k, maxRetries, guard); f.events == Attempts(q, 0, f.next - k)
  {
    if maxRetries >= 0 {
      RetryAttempts(script, q, k, 0, maxRetries, guard);
    }
  }

  /** One page sends its query once per attempt and nothing else. */
  lemma PageRequests(script: seq<Reply>, q: Query, k: nat, maxRetries: int, guard: Guard)
    ensures var f := FetchPage(script, q, k, maxRetries, guard); Requests(f.events) == seq(f.next - k, _ => q)
  {
    var f := FetchPage(script, q, k, maxRetries, guard);
    PageAttempts(script, q, k, maxRetries, guard);
    AttemptsRequests(q, 0, f.next - k);
  }

  /** Each attempt sends the page's query once. */
  lemma {:induction false} AttemptsRequests(q: Query, r: nat, n: nat)
    ensures Requests(Attempts(q, r, n)) == seq(n, _ => q)
    decreases n
  {
    if n > 0 {
      var pause: seq<Event> := if r > 0 then [Sleep(Pow2(r))] else [];
      RequestsAppend(pause + [Get(q)], Attempts(q, r + 1, n - 1));
      RequestsAppend(pause, [Get(q)]);
      if r > 0 {
        assert Requests(pause) == [];
      }
      AttemptsRequests(q, r + 1, n - 1);
      assert [q] + seq(n - 1, _ => q) == seq(n, _ => q);
    }
  }

  lemma {:induction false} RequestsAppend(a: seq<Event>, b: seq<Event>)
    ensures Requests(a + b) == Requests(a) + Requests(b)
    decreases |a|
  {
    if |a| > 0 {
      assert (a + b)[1..] == a[1..] + b;
      RequestsAppend(a[1..], b);
    } else {
      assert a + b == b;
    }
  }

  lemma {:induction false} SleepsAppend(a: seq<Event>, b: seq<Event>)
    ensures Sleeps(a + b) == Sleeps(a) + Sleeps(b)
    decreases |a|
  {
    if |a| > 0 {
      assert (a + b)[1..] == a[1..] + b;
      SleepsAppend(a[1..], b);
    } else {
      assert a + b == b;
    }
  }

  /** From attempt `r` ≥ 1 on, attempt `r + i` sleeps 2^(r+i) seconds before it. */
  lemma {:induction false} LaterAttemptsSleep(q: Query, r: nat, n: nat)
    requires r >= 1
    ensures Sleeps(Attempts(q, r, n)) == seq(n, i => Pow2(r + i))
    decreases n
  {
    if n > 0 {
      SleepsAppend([Sleep(Pow2(r))] + [Get(q)], Attempts(q, r + 1, n - 1));
      SleepsAppend([Sleep(Pow2(r))], [Get(q)]);
      LaterAttemptsSleep(q, r + 1, n - 1);
      assert [Pow2(r)] + seq(n - 1, i => Pow2(r + 1 + i)) == seq(n, i => Pow2(r + i));
    }
  }

  /** The backoff of one page of `n` attempts: 2, 4, ..., 2^(n-1) seconds, in that order. */
  lemma BackoffSchedule(q: Query, n: nat)
    requires n >= 1
    ensures Sleeps(Attempts(q, 0, n)) == seq(n - 1, i => Pow2(i + 1))
  {
    SleepsAppend([Get(q)], Attempts(q, 1, n - 1));
    LaterAttemptsSleep(q, 1, n - 1);
    assert Sleeps([Get(q)]) == [];
  }

  /**
    A page whose every answer the guard retries on makes exactly `maxRetries + 1` requests,
    sleeps 2, 4, ..., 2^maxRetries seconds between them, and fails.
   */
  lemma AlwaysRetried(script: seq<Reply>, q: Query, k: nat, maxRetries: nat, guard: Guard)
    requires forall i :: k <= i <= k + maxRetries ==> RetryOn(guard, Answer(script, i))
    ensures var f := FetchPage(script, q, k, maxRetries, guard);
      && f.next == k + maxRetries + 1
      && RetryOn(guard, f.final)
      && Requests(f.events) == seq(maxRetries + 1, _ => q)
      && Sleeps(f.events) == seq(maxRetries, i => Pow2(i + 1))
  {
    RetryStops(script, q, k, 0, maxRetries, guard);
    PageAttempts(script, q, k, maxRetries, guard);
    PageRequests(script, q, k, maxRetries, guard);
    BackoffSchedule(q, maxRetries + 1);
  }

  /** A page answered 504 on every attempt is retried to the end under either rule, and fails. */
  lemma AlwaysTimingOut(script: seq<Reply>, q: Query, k: nat, maxRetries: nat, guard: Guard)
    requires forall i :: k <= i <= k + maxRetries ==> Answer(script, i).Response? && Answer(script, i).status == 504
    ensures var f := FetchPage(script, q, k, maxRetries, guard);
      && f.next == k + maxRetries + 1
      && !Succeeded(f.final)
      && Sleeps(f.events) == seq(maxRetries, i => Pow2(i + 1))
  {
    AlwaysRetried(script, q, k, maxRetries, guard);
  }

  /** The guard as written retries on no response and on every status from 400 to 599. */
  lemma AsWrittenGuard(r: Reply)
    ensures ShouldRetryAsWritten(r) <==> r.NoReply? || 400 <= r.status < 600
    ensures ShouldRetry(r) ==> ShouldRetryAsWritten(r)
  {
  }

  /**
    The guard as written differs from the stated rule: an answer such as 401 is retried,
    so a page refused with 401 every time is requested `maxRetries + 1` times with the full
    backoff, where the stated rule requests it once.
   */
  lemma RejectedPageRetriedAsWritten(script: seq<Reply>, q: Query, k: nat, maxRetries: nat)
    requires forall i :: k <= i <= k + maxRetries ==> Answer(script, i).Response? && Answer(script, i).status == 401
    ensures var f := FetchPage(script, q, k, maxRetries, AsWritten);
      && f.next == k + maxRetries + 1
      && Sleeps(f.events) == seq(maxRetries, i => Pow2(i + 1))
    ensures FetchPage(script, q, k, maxRetries, Stated).next == k + 1
  {
    AlwaysRetried(script, q, k, maxRetries, AsWritten);
    assert !ShouldRetry(Answer(script, k));
  }

  /** The run continues past a page exactly when it succeeded with a truthy `next`. */
  predicate Continues(p: Fetched) {
    Succeeded(p.final) && HasNext(p.final.body.next)
  }

  /**
    The pagination loop from request number `k` with query `q`: stop after a failed page,
    or after a page whose `next` is falsy; otherwise pause one second and continue with the
    `page` cursor of `next`.
   */
  function Paginate(script: seq<Reply>, q: Query, k: nat, maxRetries: int, guard: Guard): (o: Outcome)
    ensures |o.pages| >= 1 && o.pages[0] == FetchPage(script, q, k, maxRetries, guard)
    ensures Continues(o.pages[0]) <==> |o.pages| > 1
    decreases |script| - k
  {
    var f := FetchPage(script, q, k, maxRetries, guard);
    if !Succeeded(f.final) then Outcome([], f.events, [f])
    else
      var body := f.final.body;
      if !HasNext(body.next) then Outcome(PageHosts(body), f.events, [f])
      else
        var rest := Paginate(script, NextQuery(q, body.next.value), f.next, maxRetries, guard);
        Outcome(PageHosts(body) + rest.hosts, f.events + [Sleep(PagePause)] + rest.events, [f] + rest.pages)
  }

  /** The hosts of the successful pages among `pages`, concatenated in order. */
  function Collected(pages: seq<Fetched>): seq<Host> {
    if |pages| == 0 then []
    else (if Succeeded(pages[0].final) then PageHosts(pages[0].final.body) else []) + Collected(pages[1..])
  }

  /** The events of consecutive pages with one pause between each two. */
  function Paced(pages: seq<Fetched>): seq<Event> {
    if |pages| == 0 then []
    else if |pages| == 1 then pages[0].events
    else pages[0].events + [Sleep(PagePause)] + Paced(pages[1..])
  }

  /** Each page is the inner loop's result for that page's query and first request. */
  predicate AllFetched(script: seq<Reply>, pages: seq<Fetched>, maxRetries: int, guard: Guard) {
    forall i :: 0 <= i < |pages| ==> pages[i] == FetchPage(script, pages[i].query, pages[i].first, maxRetries, guard)
  }

  /**
    Page `a` succeeded with a `next`, and page `b` starts with the following request, its
    query carrying the cursor of that `next`.
   */
  predicate Linked(a: Fetched, b: Fetched) {
    && Continues(a)
    && b.first == a.next
    && b.query == NextQuery(a.query, a.final.body.next.value)
  }

  /** Each page but the last is linked to the page after it. */
  predicate Chained(pages: seq<Fetched>) {
    |pages| <= 1 || (Linked(pages[0], pages[1]) && Chained(pages[1..]))
  }

  /** Each page's query has the page size and state filter of `q`. */
  predicate Filtered(pages: seq<Fetched>, q: Query) {
    forall i :: 0 <= i < |pages| ==> pages[i].query.pageSize == q.pageSize && pages[i].query.state == q.state
  }

  lemma AllFetchedCons(script: seq<Reply>, f: Fetched, rest: seq<Fetched>, maxRetries: int, guard: Guard)
    requires f == FetchPage(script, f.query, f.first, maxRetries, guard)
    requires AllFetched(script, rest, maxRetries, guard)
    ensures AllFetched(script, [f] + rest, maxRetries, guard)
  {
    forall i | 1 <= i < |[f] + rest|
      ensures ([f] + rest)[i] == FetchPage(script, ([f] + rest)[i].query, ([f] + rest)[i].first, maxRetries, guard)
    {
      assert ([f] + rest)[i] == rest[i - 1];
    }
  }

  lemma FilteredCons(f: Fetched, rest: seq<Fetched>, q: Query)
    requires f.query.pageSize == q.pageSize && f.query.state == q.state
    requires Filtered(rest, q)
    ensures Filtered([f] + rest, q)
  {
    forall i | 1 <= i < |[f] + rest|
      ensures ([f] + rest)[i].query.pageSize == q.pageSize && ([f] + rest)[i].query.state == q.state
    {
      assert ([f] + rest)[i] == rest[i - 1];
    }
  }

  /** Every page of a run is the inner loop's result for its query and first request. */
  lemma {:induction false} PaginateFetches(script: seq<Reply>, q: Query, k: nat, maxRetries: int, guard: Guard)
    ensures AllFetched(script, Paginate(script, q, k, maxRetries, guard).pages, maxRetries, guard)
    decreases |script| - k
  {
    var f := FetchPage(script, q, k, maxRetries, guard);
    if Continues(f) {
      var q' := NextQuery(q, f.final.body.next.value);
      PaginateFetches(script, q', f.next, maxRetries, guard);
      AllFetchedCons(script, f, Paginate(script, q', f.next, maxRetries, guard).pages, maxRetries, guard);
    }
  }

  /** The pages of a run are chained by their cursors, and the last one failed or had no `next`. */
  lemma {:induction false} PaginateChains(script: seq<Reply>, q: Query, k: nat, maxRetries: int, guard: Guard)
    ensures Chained(Paginate(script, q, k, maxRetries, guard).pages)
    ensures var ps := Paginate(script, q, k, maxRetries, guard).pages; !Continues(ps[|ps| - 1])
    decreases |script| - k
  {
    var f := FetchPage(script, q, k, maxRetries, guard);
    var ps := Paginate(script, q, k, maxRetries, guard).pages;
    if Continues(f) {
      var q' := NextQuery(q, f.final.body.next.value);
      PaginateChains(script, q', f.next, maxRetries, guard);
      var rest := Paginate(script, q', f.next, maxRetries, guard).pages;
      assert ps == [f] + rest;
      assert Linked(f, rest[0]);
      assert ps[1..] == rest;
      assert ps[|ps| - 1] == rest[|rest| - 1];
    } else {
      assert ps == [f];
    }
  }

  /** Every request of a run carries the page size and state filter of the first query. */
  lemma {:induction false} PaginateKeepsFilter(script: seq<Reply>, q: Query, k: nat, maxRetries: int, guard: Guard)
    ensures Filtered(Paginate(script, q, k, maxRetries, guard).pages, q)
    decreases |script| - k
  {
    var f := FetchPage(script, q, k, maxRetries, guard);
    if Continues(f) {
      var q' := NextQuery(q, f.final.body.next.value);
      PaginateKeepsFilter(script, q', f.next, maxRetries, guard);
      FilteredCons(f, Paginate(script, q', f.next, maxRetries, guard).pages, q);
    }
  }

  /** The hosts returned are those of the successful pages, in page order, duplicates kept. */
  lemma {:induction false} PaginateCollects(script: seq<Reply>, q: Query, k: nat, maxRetries: int, guard: Guard)
    ensures var o := Paginate(script, q, k, maxRetries, guard); o.hosts == Collected(o.pages)
    decreases |script| - k
  {
    var f := FetchPage(script, q, k, maxRetries, guard);
    if Continues(f) {
      var q' := NextQuery(q, f.final.body.next.value);
      PaginateCollects(script, q', f.next, maxRetries, guard);
      var rest := Paginate(script, q', f.next, maxRetries, guard);
      assert ([f] + rest.pages)[1..] == rest.pages;
    } else {
      assert [f][1..] == [];
    }
  }

  /** The events are each page's attempts, with exactly one one-second pause between pages. */
  lemma {:induction false} PaginatePaced(script: seq<Reply>, q: Query, k: nat, maxRetries: int, guard: Guard)
    ensures var o := Paginate(script, q, k, maxRetries, guard); o.events == Paced(o.pages)
    decreases |script| - k
  {
    var f := FetchPage(script, q, k, maxRetries, guard);
    if Continues(f) {
      var q' := NextQuery(q, f.final.body.next.value);
      PaginatePaced(script, q', f.next, maxRetries, guard);
      var rest := Paginate(script, q', f.next, maxRetries, guard);
      assert ([f] + rest.pages)[1..] == rest.pages;
    }
  }

  /** A first page that fails ends the run with no hosts. */
  lemma FirstPageFails(script: seq<Reply>, q: Query, maxRetries: int, guard: Guard)
    requires !Succeeded(FetchPage(script, q, 0, maxRetries, guard).final)
    ensures Paginate(script, q, 0, maxRetries, guard).hosts == []
  {
  }

  /**
    Partial results: page 1 succeeds with a `next` and page 2 is answered 504 on every
    attempt; the run returns exactly page 1's hosts.
   */
  lemma PartialResultsKept(script: seq<Reply>, q: Query, maxRetries: nat, guard: Guard)
    requires |script| >= 1 && script[0].Response? && script[0].status == 200 && HasNext(script[0].body.next)
    requires forall i :: 1 <= i <= 1 + maxRetries ==> Answer(script, i).Response? && Answer(script, i).status == 504
    ensures Paginate(script, q, 0, maxRetries, guard).hosts == PageHosts(script[0].body)
  {
    var f := FetchPage(script, q, 0, maxRetries, guard);
    assert f.next == 1 && f.final == script[0];
    var q' := NextQuery(q, script[0].body.next.value);
    AlwaysTimingOut(script, q', 1, maxRetries, guard);
    assert Paginate(script, q', 1, maxRetries, guard).hosts == [];
  }

  /**
    As written, a first page refused with 401 every time is requested `maxRetries + 1`
    times before the run ends with no hosts.
   */
  lemma RejectedRunAsWritten(script: seq<Reply>, q: Query, maxRetries: nat)
    requires forall i :: 0 <= i <= maxRetries ==> Answer(script, i).Response? && Answer(script, i).status == 401
    ensures var o := Paginate(script, q, 0, maxRetries, AsWritten);
      o.hosts == [] && Requests(o.events) == seq(maxRetries + 1, _ => q)
  {
    AlwaysRetried(script, q, 0, maxRetries, AsWritten);
  }

  /** Two pages, the first with a `next` and the second without: all hosts of both, in order. */
  lemma TwoPages(b1: PageBody, b2: PageBody, q: Query, maxRetries: nat, guard: Guard)
    requires HasNext(b1.next) && !HasNext(b2.next)
    ensures Paginate([Response(200, b1), Response(200, b2)], q, 0, maxRetries, guard).hosts == PageHosts(b1) + PageHosts(b2)
  {
    var script := [Response(200, b1), Response(200, b2)];
    var f := FetchPage(script, q, 0, maxRetries, guard);
    assert f.next == 1 && f.final == script[0];
    var q' := NextQuery(q, b1.next.value);
    var g := FetchPage(script, q', 1, maxRetries, guard);
    assert g.next == 2 && g.final == script[1];
  }

  /** One step of `Paginate`: the first page, then either the end of the run or the rest of it. */
  lemma PaginateStep(script: seq<Reply>, q: Query, k: nat, maxRetries: int, guard: Guard)
    ensures var o := Paginate(script, q, k, maxRetries, guard);
      var f := FetchPage(script, q, k, maxRetries, guard);
      && (!Continues(f) ==> o.hosts == (if Succeeded(f.final) then PageHosts(f.final.body) else []) && o.events == f.events)
      && (Continues(f) ==>
            var rest := Paginate(script, NextQuery(q, f.final.body.next.value), f.next, maxRetries, guard);
            o.hosts == PageHosts(f.final.body) + rest.hosts && o.events == f.events + [Sleep(PagePause)] + rest.events)
  {
  }

  /** The query the loop uses at its top: the cursor of a truthy `next` applied. */
  function Current(params: Query, nextUrl: Option<string>): Query {
    if HasNext(nextUrl) then NextQuery(params, nextUrl.value) else params
  }

  /**
    The retry loop of `get_all_hosts` for one page: up to `maxRetries + 1` requests with
    query `params`, the first numbered `k0`, stopping at the first answer that is truthy
    and not 504, as the guard is written. Returns the last answer, the number of the next
    request and the requests and sleeps made.
   */
  method RequestPage(params: Query, k0: nat, maxRetries: int, script: seq<Reply>)
    returns (response: Reply, k: nat, ghost events: seq<Event>)
    ensures response == FetchPage(script, params, k0, maxRetries, AsWritten).final
    ensures k == FetchPage(script, params, k0, maxRetries, AsWritten).next
    ensures events == FetchPage(script, params, k0, maxRetries, AsWritten).events
  {
    ghost var page := FetchPage(script, params, k0, maxRetries, AsWritten);
    response := NoReply;
    events := [];
    k := k0;
    var retries := 0;
    while retries <= maxRetries
      invariant 0 <= retries && k == k0 + retries
      invariant retries <= maxRetries ==>
        var g := Retry(script, params, k, retries, maxRetries, AsWritten);
        g.final == page.final && g.next == page.next && events + g.events == page.events
      invariant retries > maxRetries ==>
        response == page.final && k == page.next && events == page.events
      decreases maxRetries + 1 - retries
    {
      ghost var g := Retry(script, params, k, retries, maxRetries, AsWritten);
      ghost var events0 := events;
      ghost var pause: seq<Event> := if retries > 0 then [Sleep(Pow2(retries))] else [];
      if retries > 0 {
        events := events + [Sleep(Pow2(retries))];
      } else {
        assert events + [] == events;
      }
      response := Answer(script, k);
      events := events + [Get(params)];
      AppendAssoc(events0, pause, [Get(params)]);
      k := k + 1;
      if response.Response? && Truthy(response.status) && response.status != 504 {
        break;
      }
      retries := retries + 1;
      if retries <= maxRetries {
        AppendAssoc(events0, pause + [Get(params)], Retry(script, params, k, retries, maxRetries, AsWritten).events);
      }
    }
  }

  /**
    `get_all_hosts`: the hosts of every successful page in order, and the requests and
    sleeps it makes, as `Paginate` describes them.
   */
  method GetAllHosts(pageSize: int, state: string, maxRetries: int, script: seq<Reply>)
    returns (hosts: seq<Host>, ghost events: seq<Event>)
    ensures hosts == Paginate(script, InitialQuery(pageSize, state), 0, maxRetries, AsWritten).hosts
    ensures events == Paginate(script, InitialQuery(pageSize, state), 0, maxRetries, AsWritten).events
  {
    hosts := [];
    events := [];
    var nextUrl: Option<string> := None;
    var params := InitialQuery(pageSize, state);
    var k: nat := 0;
    ghost var total := Paginate(script, params, 0, maxRetries, AsWritten);

    while true
      invariant k <= |script|
      invariant hosts + Paginate(script, Current(params, nextUrl), k, maxRetries, AsWritten).hosts == total.hosts
      invariant events + Paginate(script, Current(params, nextUrl), k, maxRetries, AsWritten).events == total.events
      decreases |script| - k
    {
      ghost var o := Paginate(script, Current(params, nextUrl), k, maxRetries, AsWritten);
      ghost var hosts0, events0 := hosts, events;
      if HasNext(nextUrl) {
        params := NextQuery(params, nextUrl.value);
      }
      PaginateStep(script, params, k, maxRetries, AsWritten);
      var response;
      ghost var pageEvents;
      response, k, pageEvents := RequestPage(params, k, maxRetries, script);
      events := events + pageEvents;
      if !Succeeded(response) {
        assert hosts + [] == hosts;
        break;
      }
      var body := response.body;
      hosts := hosts + PageHosts(body);
      nextUrl := body.next;
      if !HasNext(nextUrl) {
        break;
      }
      ghost var rest := Paginate(script, Current(params, nextUrl), k, maxRetries, AsWritten);
      AppendAssoc(hosts0, PageHosts(body), rest.hosts);
      AppendAssoc(events0, pageEvents + [Sleep(PagePause)], rest.events);
      AppendAssoc(events0, pageEvents, [Sleep(PagePause)]);
      events := events + [Sleep(PagePause)];
    }
  }

  lemma AppendAssoc<T>(a: seq<T>, b: seq<T>, c: seq<T>)
    ensures (a + b) + c == a + (b + c)
  {
  }
}
