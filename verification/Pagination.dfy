/**
 The paginated listing of api/client/client.go: `GetResourcesWithFilters` walks the pages of
 `ListResources` and halves its page size whenever the server answers that a page is too large.

 The server is any function of the request number, the start key and the limit, so it may fail or
 answer "limit exceeded" wherever it likes.
 */
module Pagination {
  const DEFAULT_CHUNK_SIZE: nat := 1000

  type Key = string

  datatype Answer<T> = Page(items: seq<T>, nextKey: Key) | LimitExceeded | OtherError(code: nat)

  datatype Result<T> = Fetched(items: seq<T>) | TooLarge | Failed(code: nat)

  datatype Request = Request(startKey: Key, limit: nat)

  type Server<!T> = (nat, Request) -> Answer<T>

  /** The matching resources in listing order; listing resumes at item i from keys[i]. */
  datatype Store<T> = Store(items: seq<T>, keys: seq<Key>) {
    ghost predicate Valid() {
      && |keys| == |items|
      && (forall i :: 0 <= i < |keys| ==> keys[i] != "")
      && (forall i, j :: 0 <= i < j < |keys| ==> keys[i] != keys[j])
    }

    /** The key that asks for the items from position p on. */
    function KeyAt(p: nat): Key {
      if 0 < p < |keys| then keys[p] else ""
    }
  }

  /**
   A page is a block of at most `limit` items from p on, with the key of the next item, which is empty
   at the end.  An empty page is given only if nothing is left, and its key may be anything.
   */
  ghost predicate Proper<T>(store: Store<T>, p: nat, limit: nat, a: Answer<T>) {
    a.Page? ==>
      var q := p + |a.items|;
      && |a.items| <= limit
      && q <= |store.items|
      && a.items == store.items[p..q]
      && (if a.items == [] then q == |store.items| else a.nextKey == store.KeyAt(q))
  }

  /** The promise of the server: a proper answer to every request the client can make. */
  ghost predicate Serves<T(!new)>(server: Server<T>, store: Store<T>) {
    forall n: nat, p: nat, limit: nat | (p == 0 || p < |store.items|) && limit > 0 ::
      Proper(store, p, limit, server(n, Request(store.KeyAt(p), limit)))
  }

  function Bytes<T>(size: T -> nat, items: seq<T>): nat {
    if items == [] then 0 else Bytes(size, items[..|items| - 1]) + size(items[|items| - 1])
  }

  function Min(a: nat, b: nat): nat { if a < b then a else b }

  /** "Limit exceeded" is only said of a full page of more than `max` bytes. */
  ghost predicate ExceedsOnlyOverMax<T(!new)>(server: Server<T>, store: Store<T>, size: T -> nat, max: nat) {
    forall n: nat, p: nat, limit: nat | (p == 0 || p < |store.items|) && limit > 0 ::
      server(n, Request(store.KeyAt(p), limit)).LimitExceeded? ==>
        Bytes(size, store.items[p..Min(p + limit, |store.items|)]) > max
  }

  /** How many of the requests were answered "limit exceeded". */
  function Exceeded<T>(server: Server<T>, log: seq<Request>): nat {
    if log == [] then 0
    else
      var n := |log| - 1;
      Exceeded(server, log[..n]) + (if server(n, log[n]).LimitExceeded? then 1 else 0)
  }

  lemma ExceededSnoc<T>(server: Server<T>, log: seq<Request>, x: Request)
    ensures Exceeded(server, log + [x]) == Exceeded(server, log) + (if server(|log|, x).LimitExceeded? then 1 else 0)
  {
    assert (log + [x])[..|log|] == log;
  }

  /** The page size after k halvings. */
  function SizeAfter(k: nat): nat {
    if k == 0 then DEFAULT_CHUNK_SIZE else SizeAfter(k - 1) / 2
  }

  /** Nine halvings of 1000 leave 1, the tenth leaves nothing. */
  lemma TenHalvings(k: nat, size: nat)
    requires k < 10 && size == SizeAfter(k)
    ensures size / 2 == SizeAfter(k + 1)
    ensures if size / 2 == 0 then k == 9 && size == 1 else k < 9
  {
    assert SizeAfter(1) == 500 && SizeAfter(2) == 250 && SizeAfter(3) == 125 && SizeAfter(4) == 62;
    assert SizeAfter(5) == 31 && SizeAfter(6) == 15 && SizeAfter(7) == 7 && SizeAfter(8) == 3 && SizeAfter(9) == 1;
  }

  /** Every request but the last was answered with a page or "limit exceeded". */
  predicate NoEarlyError<T>(server: Server<T>, log: seq<Request>) {
    forall i :: 0 <= i < |log| - 1 ==> !server(i, log[i]).OtherError?
  }

  /** The page size after request i: halved if that was answered "limit exceeded". */
  function NextLimit<T>(server: Server<T>, i: nat, req: Request): nat {
    if server(i, req).LimitExceeded? then req.limit / 2 else req.limit
  }

  predicate LimitFollows<T>(server: Server<T>, log: seq<Request>, i: nat) {
    i < |log| && log[i].limit == (if i == 0 then DEFAULT_CHUNK_SIZE else NextLimit(server, i - 1, log[i - 1]))
  }

  /** The limit starts at the default and is halved after each "limit exceeded", and only then. */
  ghost predicate LimitsHalve<T>(server: Server<T>, log: seq<Request>) {
    forall i :: 0 <= i < |log| ==> LimitFollows(server, log, i)
  }

  lemma LimitsHalveSnoc<T>(server: Server<T>, log: seq<Request>, x: Request)
    requires LimitsHalve(server, log)
    requires x.limit == (if log == [] then DEFAULT_CHUNK_SIZE else NextLimit(server, |log| - 1, log[|log| - 1]))
    ensures LimitsHalve(server, log + [x])
  {
    var all := log + [x];
    forall i | 0 <= i < |all| ensures LimitFollows(server, all, i) {
      assert i < |log| ==> LimitFollows(server, log, i);
    }
  }

  ghost predicate AllFit<T>(store: Store<T>, size: T -> nat, max: nat) {
    forall i :: 0 <= i < |store.items| ==> size(store.items[i]) <= max
  }

  /** If every resource fits, a page of one is never too large. */
  lemma PageOfOneFits<T(!new)>(server: Server<T>, store: Store<T>, size: T -> nat, max: nat, n: nat, p: nat)
    requires ExceedsOnlyOverMax(server, store, size, max) && AllFit(store, size, max)
    requires p == 0 || p < |store.items|
    ensures !server(n, Request(store.KeyAt(p), 1)).LimitExceeded?
  {
    var page := store.items[p..Min(p + 1, |store.items|)];
    assert |page| <= 1;
    assert Bytes(size, page) <= max;
  }

  /** The loop has run this far: everything before p is fetched and no request has failed. */
  ghost predicate Progress<T>(server: Server<T>, store: Store<T>, log: seq<Request>, p: nat, chunkSize: nat) {
    && (p == 0 || p < |store.items|)
    && Exceeded(server, log) <= 9
    && 0 < chunkSize == SizeAfter(Exceeded(server, log))
    && LimitsHalve(server, log)
    && chunkSize == (if log == [] then DEFAULT_CHUNK_SIZE else NextLimit(server, |log| - 1, log[|log| - 1]))
    && (forall i :: 0 <= i < |log| ==> !server(i, log[i]).OtherError?)
    && |log| <= Exceeded(server, log) + p
  }

  /** What one more request does to the tally of "limit exceeded" and to the page size. */
  lemma OnRequest<T>(server: Server<T>, store: Store<T>, log: seq<Request>, p: nat, req: Request, now: seq<Request>)
    requires Progress(server, store, log, p, req.limit) && now == log + [req]
    ensures LimitsHalve(server, now)
    ensures var k := Exceeded(server, log);
      if server(|log|, req).LimitExceeded? then
        && Exceeded(server, now) == k + 1 <= 10
        && req.limit / 2 == SizeAfter(k + 1)
        && (if req.limit / 2 == 0 then k == 9 && req.limit == 1 else k < 9)
      else Exceeded(server, now) == k
  {
    ExceededSnoc(server, log, req);
    LimitsHalveSnoc(server, log, req);
    TenHalvings(Exceeded(server, log), req.limit);
  }

  /** A proper page extends what has been fetched; the loop stops on it exactly at the end. */
  lemma PageExtends<T>(store: Store<T>, p: nat, limit: nat, a: Answer<T>)
    requires store.Valid() && p <= |store.items| && a.Page? && Proper(store, p, limit, a)
    ensures var q := p + |a.items|;
      && q <= |store.items| && store.items[..p] + a.items == store.items[..q]
      && (if a.nextKey == "" || a.items == [] then store.items[..q] == store.items else p < q < |store.items|)
      && (a.items != [] ==> a.nextKey == store.KeyAt(q))
  {}

  /** Being told "limit exceeded" while the halved size is positive keeps the loop going. */
  lemma GoesOnHalved<T>(server: Server<T>, store: Store<T>, log: seq<Request>, p: nat, req: Request, now: seq<Request>)
    requires Progress(server, store, log, p, req.limit) && now == log + [req]
    requires server(|log|, req).LimitExceeded? && req.limit / 2 > 0
    ensures Progress(server, store, now, p, req.limit / 2)
  {
    OnRequest(server, store, log, p, req, now);
  }

  /** So does a page that is not the last. */
  lemma GoesOnAfterPage<T>(server: Server<T>, store: Store<T>, log: seq<Request>, p: nat, req: Request,
                           now: seq<Request>, q: nat)
    requires Progress(server, store, log, p, req.limit) && now == log + [req]
    requires server(|log|, req).Page? && p < q < |store.items|
    ensures Progress(server, store, now, q, req.limit)
  {
    OnRequest(server, store, log, p, req, now);
  }

  /** Whatever the last request was answered, the run was short and nothing had failed before. */
  lemma StopsInTime<T>(server: Server<T>, store: Store<T>, log: seq<Request>, p: nat, req: Request, now: seq<Request>)
    requires Progress(server, store, log, p, req.limit) && now == log + [req]
    ensures NoEarlyError(server, now) && |now| == |log| + 1 && now[|now| - 1] == req && LimitsHalve(server, now)
    ensures |now| <= Exceeded(server, now) + |store.items| + 1
    ensures Exceeded(server, now) <= 10
    ensures Exceeded(server, now) == 10 <==> server(|log|, req).LimitExceeded? && req.limit / 2 == 0
    ensures Exceeded(server, now) == 10 ==> req.limit == 1
  {
    OnRequest(server, store, log, p, req, now);
  }

  /** What a run promises about its result and the requests it made. */
  ghost predicate Promised<T(!new)>(server: Server<T>, store: Store<T>, size: T -> nat, max: nat,
                                    r: Result<T>, log: seq<Request>)
  {
    // exact
    && (r.Fetched? ==> r.items == store.items)
    // fails only when it must
    && log != [] && NoEarlyError(server, log)
    && (var last := server(|log| - 1, log[|log| - 1]);
        if last.OtherError? then r == Failed(last.code) else !r.Failed?)
    && LimitsHalve(server, log)
    && Exceeded(server, log) <= 10
    && (r.TooLarge? <==> Exceeded(server, log) == 10)
    && (ExceedsOnlyOverMax(server, store, size, max) && AllFit(store, size, max) ==> !r.TooLarge?)
    // terminates soon
    && |log| <= Exceeded(server, log) + |store.items| + 1
  }

  lemma GivesUp<T(!new)>(server: Server<T>, store: Store<T>, size: T -> nat, max: nat,
                         log: seq<Request>, p: nat, req: Request, now: seq<Request>)
    requires Progress(server, store, log, p, req.limit) && now == log + [req]
    requires req.startKey == store.KeyAt(p) && server(|log|, req).LimitExceeded? && req.limit / 2 == 0
    ensures Promised(server, store, size, max, TooLarge, now)
  {
    StopsInTime(server, store, log, p, req, now);
    if ExceedsOnlyOverMax(server, store, size, max) && AllFit(store, size, max) {
      PageOfOneFits(server, store, size, max, |log|, p);
    }
  }

  lemma StopsOnError<T(!new)>(server: Server<T>, store: Store<T>, size: T -> nat, max: nat,
                              log: seq<Request>, p: nat, req: Request, now: seq<Request>)
    requires Progress(server, store, log, p, req.limit) && now == log + [req] && server(|log|, req).OtherError?
    ensures Promised(server, store, size, max, Failed(server(|log|, req).code), now)
  {
    StopsInTime(server, store, log, p, req, now);
  }

  lemma StopsAtEnd<T(!new)>(server: Server<T>, store: Store<T>, size: T -> nat, max: nat,
                            log: seq<Request>, p: nat, req: Request, now: seq<Request>)
    requires Progress(server, store, log, p, req.limit) && now == log + [req] && server(|log|, req).Page?
    ensures Promised(server, store, size, max, Fetched(store.items), now)
  {
    StopsInTime(server, store, log, p, req, now);
  }

  /**
   All matching resources, in order, whatever page sizes the run goes through; or an error the
   server forced.  `log` is the requests made.
   */
  method GetResourcesWithFilters<T(!new)>(server: Server<T>, ghost store: Store<T>,
                                          ghost size: T -> nat, ghost max: nat)
    returns (r: Result<T>, log: seq<Request>)
    requires store.Valid() && Serves(server, store)
    ensures Promised(server, store, size, max, r, log)
  {
    var resources: seq<T> := [];
    var startKey: Key := "";
    var chunkSize := DEFAULT_CHUNK_SIZE;
    ghost var p := 0;
    log := [];

    while true
      invariant 0 <= p && Progress(server, store, log, p, chunkSize)
      invariant startKey == store.KeyAt(p)
      invariant resources == store.items[..p]
      decreases |store.items| - p, chunkSize
    {
      var req := Request(startKey, chunkSize);
      var resp := server(|log|, req);
      ghost var before := log;
      log := log + [req];
      match resp {
        case LimitExceeded =>
          chunkSize := chunkSize / 2;
          if chunkSize == 0 {
            GivesUp(server, store, size, max, before, p, req, log);
            return TooLarge, log;
          }
          GoesOnHalved(server, store, before, p, req, log);
        case OtherError(code) =>
          StopsOnError(server, store, size, max, before, p, req, log);
          return Failed(code), log;
        case Page(items, nextKey) =>
          PageExtends(store, p, chunkSize, resp);
          startKey := nextKey;
          resources := resources + items;
          ghost var q := p + |items|;
          if startKey == "" || |items| == 0 {
            StopsAtEnd(server, store, size, max, before, p, req, log);
            return Fetched(resources), log;
          }
          GoesOnAfterPage(server, store, before, p, req, log, q);
          p := q;
      }
    }
  }
}
