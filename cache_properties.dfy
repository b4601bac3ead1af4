/** What the cached fetcher promises, stated over the specification
    functions its methods are proved against. */
module CacheProperties {
  import opened Wrappers
  import opened CacheKey
  import opened Envelope
  import opened Store
  import opened Transport
  import opened Fetcher

  /** The staleness transition: an entry at least one effective TTL old is
      refused to a read-only caller and refreshed for one that may update;
      a younger one is served either way. */
  lemma StalenessTransition(d: DirState, filename: string, ttlOverride: int, allowCacheUpdate: bool)
    requires filename in d.files
    ensures d.now - d.files[filename].modTime >= EffectiveTTL(ttlOverride) ==>
      Check(d, filename, ttlOverride, allowCacheUpdate)
        == if allowCacheUpdate then (true, None) else (false, Some(PermissionDenied))
    ensures d.now - d.files[filename].modTime < EffectiveTTL(ttlOverride) ==>
      Check(d, filename, ttlOverride, allowCacheUpdate) == (false, None)
  {
  }

  /** A refusal by the check is passed on, and nothing is fetched or
      written. */
  lemma CheckErrorStopsRequest(d: DirState, n: NetState, hash: string -> string, req: Request,
                               ttlOverride: int, allowCacheUpdate: bool, customName: string)
    requires Check(d, CacheFilename(customName, req, hash), ttlOverride, allowCacheUpdate).1 != None
    ensures WithNameSpec(d, n, hash, req, ttlOverride, allowCacheUpdate, customName)
         == After(d, n, Failure(PermissionDenied))
  {
  }

  /** The transport is called once when the check asks for a refresh, and
      not at all otherwise. */
  lemma TransportOnlyWhenStale(d: DirState, n: NetState, hash: string -> string, req: Request,
                               ttlOverride: int, allowCacheUpdate: bool, customName: string)
    ensures var r := RefreshSpec(d, n, hash, req, ttlOverride, allowCacheUpdate, customName);
      var filename := CacheFilename(customName, req, hash);
      if Check(d, filename, ttlOverride, allowCacheUpdate) == (true, None)
      then r.net.log == n.log + [Sent(req)]
      else r.net == n
  {
  }

  /** A request that fails leaves the cache directory exactly as it was:
      a refused check, a failed round trip and a failed write all write
      nothing. */
  lemma FailureWritesNothing(d: DirState, n: NetState, hash: string -> string, req: Request,
                             ttlOverride: int, allowCacheUpdate: bool, customName: string)
    ensures var r := RefreshSpec(d, n, hash, req, ttlOverride, allowCacheUpdate, customName);
      r.result.Failure? ==> r.dir == d
  {
  }

  /** A failed round trip is reported as such. */
  lemma FailedFetchReported(d: DirState, n: NetState, hash: string -> string, req: Request,
                            ttlOverride: int, allowCacheUpdate: bool, customName: string)
    requires Check(d, CacheFilename(customName, req, hash), ttlOverride, allowCacheUpdate) == (true, None)
    requires n.replies == [] || n.replies[0] == None
    ensures RefreshSpec(d, n, hash, req, ttlOverride, allowCacheUpdate, customName).result == Failure(UpstreamError)
  {
  }

  /** A refresh stores exactly the reply, under the request's file name,
      stamped with the current time, and touches no other file. */
  lemma RefreshStoresReply(d: DirState, n: NetState, hash: string -> string, req: Request,
                           ttlOverride: int, allowCacheUpdate: bool, customName: string)
    requires Check(d, CacheFilename(customName, req, hash), ttlOverride, allowCacheUpdate) == (true, None)
    requires n.replies != [] && n.replies[0] != None && d.writable
    ensures var r := RefreshSpec(d, n, hash, req, ttlOverride, allowCacheUpdate, customName);
      var filename := CacheFilename(customName, req, hash);
      var rep := n.replies[0].value;
      && r.result == Success(filename)
      && r.dir.files == d.files[filename := Entry(Encode(Response(rep.status, rep.body)), d.now)]
      && r.net == NetState(n.replies[1..], n.log + [Sent(req)])
  {
  }

  /** After a refresh, HttpRequestWithName returns the reply it stored. */
  lemma RequestReturnsFetchedReply(d: DirState, n: NetState, hash: string -> string, req: Request,
                                   ttlOverride: int, allowCacheUpdate: bool, customName: string)
    requires Check(d, CacheFilename(customName, req, hash), ttlOverride, allowCacheUpdate) == (true, None)
    requires n.replies != [] && n.replies[0] != None && d.writable
    ensures var rep := n.replies[0].value;
      WithNameSpec(d, n, hash, req, ttlOverride, allowCacheUpdate, customName).result
        == Success(Response(rep.status, rep.body))
  {
    var rep := n.replies[0].value;
    RefreshStoresReply(d, n, hash, req, ttlOverride, allowCacheUpdate, customName);
    DecodeEncode(Response(rep.status, rep.body));
  }

  /** Whatever a successful request returns is, from then on, what the
      cache file decodes to, and at the same instant that file is fresh
      unless the TTL override is negative. */
  lemma {:induction false} SuccessLeavesFreshEntry(d: DirState, n: NetState, hash: string -> string, req: Request,
                                                   ttlOverride: int, allowCacheUpdate: bool, customName: string)
    requires ttlOverride >= 0
    ensures var r := WithNameSpec(d, n, hash, req, ttlOverride, allowCacheUpdate, customName);
      var filename := CacheFilename(customName, req, hash);
      r.result.Success? ==>
        && r.dir.now == d.now
        && Classify(r.dir, filename, ttlOverride) == Fresh
        && ReadAs(r.dir, filename, Decode) == r.result
  {
    var filename := CacheFilename(customName, req, hash);
    var (isStale, err) := Check(d, filename, ttlOverride, allowCacheUpdate);
    if err == None && isStale {
      var fetched := FetchAndStore(d, n, filename, req);
      if fetched.result == None {
        assert fetched.dir.files[filename].modTime == d.now;
      }
    }
  }

  /** Two requests resolving to the same cache file, made at the same
      instant, one after the other: if the first succeeds, the second is
      served the same response from the cache, without a round trip and
      without a write, whether or not it may update the cache. This covers
      a read-only repeat of the same request and two different requests
      sharing a custom name. */
  lemma {:induction false} RepeatServedFromCache(d: DirState, n: NetState, hash: string -> string,
                                                 req1: Request, req2: Request, ttlOverride: int,
                                                 allow1: bool, allow2: bool, name1: string, name2: string)
    requires ttlOverride >= 0
    requires CacheFilename(name1, req1, hash) == CacheFilename(name2, req2, hash)
    ensures var r1 := WithNameSpec(d, n, hash, req1, ttlOverride, allow1, name1);
      r1.result.Success? ==>
        WithNameSpec(r1.dir, r1.net, hash, req2, ttlOverride, allow2, name2) == r1
  {
    SuccessLeavesFreshEntry(d, n, hash, req1, ttlOverride, allow1, name1);
  }

  /** A read-only request repeated at the same instant returns what the
      first one returned, even when the first one fetched. */
  lemma ReadOnlyRepeat(d: DirState, n: NetState, hash: string -> string, req: Request,
                       ttlOverride: int, customName: string)
    requires ttlOverride >= 0
    ensures var r1 := WithNameSpec(d, n, hash, req, ttlOverride, true, customName);
      r1.result.Success? ==> WithNameSpec(r1.dir, r1.net, hash, req, ttlOverride, false, customName) == r1
  {
    RepeatServedFromCache(d, n, hash, req, req, ttlOverride, true, false, customName, customName);
  }

  /** Two requests with the same custom name share one entry: the second
      is served what the first stored, whatever its URL. */
  lemma SharedCustomName(d: DirState, n: NetState, hash: string -> string, req1: Request, req2: Request,
                         ttlOverride: int, allow1: bool, allow2: bool, name: string)
    requires ttlOverride >= 0 && name != ""
    ensures var r1 := WithNameSpec(d, n, hash, req1, ttlOverride, allow1, name);
      r1.result.Success? ==> WithNameSpec(r1.dir, r1.net, hash, req2, ttlOverride, allow2, name) == r1
  {
    RepeatServedFromCache(d, n, hash, req1, req2, ttlOverride, allow1, allow2, name, name);
  }

  /** A never-seen request without permission to update is refused and
      creates no file. */
  lemma NoCacheNoPermission(d: DirState, n: NetState, hash: string -> string, req: Request,
                            ttlOverride: int, customName: string)
    requires CacheFilename(customName, req, hash) !in d.files
    ensures var r := WithNameSpec(d, n, hash, req, ttlOverride, false, customName);
      && r == After(d, n, Failure(PermissionDenied))
      && CacheFilename(customName, req, hash) !in r.dir.files
  {
  }

  /** HttpRequestReturnStructWithName: status 0 when the request fails;
      the cached status and DecodeError when only the body fails to decode,
      while the plain request on the same state still returns the
      envelope. */
  lemma DecodeFailureKeepsEnvelope<T>(d: DirState, n: NetState, hash: string -> string, req: Request,
                                      ttlOverride: int, allowCacheUpdate: bool, customName: string,
                                      parse: string -> Option<T>)
    ensures var plain := WithNameSpec(d, n, hash, req, ttlOverride, allowCacheUpdate, customName);
      var typed := DecodedSpec(d, n, hash, req, ttlOverride, allowCacheUpdate, customName, parse);
      && typed.dir == plain.dir && typed.net == plain.net
      && (plain.result.Failure? ==> typed.result == (0, Failure(plain.result.error)))
      && (plain.result.Success? ==>
            typed.result.0 == plain.result.value.statusCode
            && (typed.result.1 == Failure(DecodeError) <==> parse(plain.result.value.body) == None))
  {
  }

  /** The peek honours the check: on a refusal it returns the empty
      Response beside the flag the check gave. */
  lemma PeekOnRefusal(d: DirState, filename: string, ttlOverride: int)
    requires Classify(d, filename, ttlOverride) != Fresh
    ensures PeekSpec(d, filename, ttlOverride, false) == (EmptyResponse, false, Some(PermissionDenied))
    ensures PeekDecodedSpec(d, filename, ttlOverride, false, Decode) == (false, Failure(PermissionDenied))
  {
  }

  /** With permission to update, peeking at a missing entry reports it
      stale and fails to read it; peeking at a stale one returns its
      contents, flagged stale. */
  lemma PeekWithPermission(d: DirState, filename: string, ttlOverride: int, r: Response)
    ensures filename !in d.files ==>
      PeekSpec(d, filename, ttlOverride, true) == (EmptyResponse, true, Some(NotFound))
    ensures filename in d.files && d.files[filename].content == Encode(r)
            && Classify(d, filename, ttlOverride) == Stale ==>
      PeekSpec(d, filename, ttlOverride, true) == (r, true, None)
  {
    DecodeEncode(r);
  }

  /** After a successful request, a read-only peek at its file returns the
      same response, not stale. */
  lemma PeekAfterRequest(d: DirState, n: NetState, hash: string -> string, req: Request,
                         ttlOverride: int, allowCacheUpdate: bool, customName: string)
    requires ttlOverride >= 0
    ensures var r := WithNameSpec(d, n, hash, req, ttlOverride, allowCacheUpdate, customName);
      r.result.Success? ==>
        PeekSpec(r.dir, CacheFilename(customName, req, hash), ttlOverride, false) == (r.result.value, false, None)
  {
    SuccessLeavesFreshEntry(d, n, hash, req, ttlOverride, allowCacheUpdate, customName);
  }

  /** Concrete run: an empty directory, a transport answering 200 with a
      JSON body, a request with no headers and the default TTL. The entry
      is written, holds the reply, and is returned. */
  lemma FirstRequestScenario(hash: string -> string)
    ensures
      var d := DirState(map[], false, 0, true);
      var n := NetState([Some(Reply(200, "{\"value\":1}"))], []);
      var req := Request("GET", "https://example.test/a.json", map[]);
      var r := WithNameSpec(d, n, hash, req, 0, true, "");
      var filename := ComposeFilename(hash("GET" + "https://example.test/a.json"));
      && r.result == Success(Response(200, "{\"value\":1}"))
      && r.dir.files == map[filename := Entry(Encode(Response(200, "{\"value\":1}")), 0)]
      && r.net.log == [req]
  {
    var d := DirState(map[], false, 0, true);
    var n := NetState([Some(Reply(200, "{\"value\":1}"))], []);
    var req := Request("GET", "https://example.test/a.json", map[]);
    assert OutgoingHeader(map[]) == map[];
    RequestReturnsFetchedReply(d, n, hash, req, 0, true, "");
    RefreshStoresReply(d, n, hash, req, 0, true, "");
  }
}
