/** The cached fetcher: check, then (maybe) fetch and write, then read
    back (cache.go:133-299). Each method is proved against a function of
    the directory and transport states before the call; the properties of
    those functions are in module CacheProperties. */
module Fetcher {
  import opened Wrappers
  import opened CacheKey
  import opened Envelope
  import opened Store
  import opened Transport

  /** What a call leaves behind: the directory, the transport, the result. */
  datatype After<R> = After(dir: DirState, net: NetState, result: R)

  // ---------------------------------------------------------------------
  // Specifications

  /** The headers Header.Add leaves on the outgoing request: every name
      that has at least one value, with its values in order. */
  function OutgoingHeader(h: Header): Header
  {
    map k | k in h && h[k] != [] :: h[k]
  }

  /** The request as it reaches the transport. */
  function Sent(req: Request): Request
  {
    Request(req.verb, req.url, OutgoingHeader(req.header))
  }

  /** cacheHttpResponse: one round trip, then the reply stored as a
      Response envelope; a failed round trip writes nothing. */
  function FetchAndStore(d: DirState, n: NetState, filename: string, req: Request): (r: After<Option<Error>>)
    ensures r.net.log == n.log + [Sent(req)]
    ensures (n.replies == [] || n.replies[0] == None) ==> r == After(d, r.net, Some(UpstreamError))
    ensures n.replies != [] && n.replies[0].Some? ==>
      var reply := n.replies[0].value;
      && r.net.replies == n.replies[1..]
      && r.result == (if d.writable then None else Some(IOError))
      && r.dir == (if d.writable
                   then d.(files := d.files[filename := Entry(Encode(Response(reply.status, reply.body)), d.now)], dirExists := true)
                   else d)
  {
    var (n', reply) := Perform(n, Sent(req));
    match reply
    case None => After(d, n', Some(UpstreamError))
    case Some(rep) =>
      var (d', err) := Write(d, filename, Encode(Response(rep.status, rep.body)));
      After(d', n', err)
  }

  /** httpRequest: the cache file name, once the entry is known to be
      usable. */
  function RefreshSpec(d: DirState, n: NetState, hash: string -> string, req: Request,
                       ttlOverride: int, allowCacheUpdate: bool, customName: string): After<Result<string, Error>>
  {
    var filename := CacheFilename(customName, req, hash);
    var (isStale, err) := Check(d, filename, ttlOverride, allowCacheUpdate);
    if err != None then After(d, n, Failure(err.value))
    else if !isStale then After(d, n, Success(filename))
    else
      var fetched := FetchAndStore(d, n, filename, req);
      if fetched.result != None then After(fetched.dir, fetched.net, Failure(fetched.result.value))
      else After(fetched.dir, fetched.net, Success(filename))
  }

  /** HttpRequestWithName: the envelope read back from the cache file. */
  function WithNameSpec(d: DirState, n: NetState, hash: string -> string, req: Request,
                        ttlOverride: int, allowCacheUpdate: bool, customName: string): After<Result<Response, Error>>
  {
    var r := RefreshSpec(d, n, hash, req, ttlOverride, allowCacheUpdate, customName);
    match r.result
    case Failure(e) => After(r.dir, r.net, Failure(e))
    case Success(filename) => After(r.dir, r.net, ReadAs(r.dir, filename, Decode))
  }

  /** HttpRequestReturnStructWithName: the status code beside the body
      decoded with `parse`. */
  function DecodedSpec<T>(d: DirState, n: NetState, hash: string -> string, req: Request,
                          ttlOverride: int, allowCacheUpdate: bool, customName: string,
                          parse: string -> Option<T>): After<(int, Result<T, Error>)>
  {
    var r := WithNameSpec(d, n, hash, req, ttlOverride, allowCacheUpdate, customName);
    match r.result
    case Failure(e) => After(r.dir, r.net, (0, Failure(e)))
    case Success(resp) =>
      var decoded := parse(resp.body);
      After(r.dir, r.net, (resp.statusCode, if decoded.Some? then Success(decoded.value) else Failure(DecodeError)))
  }

  /** GetCacheAndStaleness: the stored envelope and the staleness flag,
      without a round trip. */
  function PeekSpec(d: DirState, filename: string, ttlOverride: int, allowCacheUpdate: bool): (Response, bool, Option<Error>)
  {
    var (isStale, err) := Check(d, filename, ttlOverride, allowCacheUpdate);
    if err != None then (EmptyResponse, isStale, err)
    else
      match ReadAs(d, filename, Decode)
      case Failure(e) => (EmptyResponse, isStale, Some(e))
      case Success(resp) => (resp, isStale, None)
  }

  /** GetCacheAndStalenessReturnStruct: the whole file decoded with
      `parse`, and the staleness flag. */
  function PeekDecodedSpec<T>(d: DirState, filename: string, ttlOverride: int, allowCacheUpdate: bool,
                              parse: string -> Option<T>): (bool, Result<T, Error>)
  {
    var (isStale, err) := Check(d, filename, ttlOverride, allowCacheUpdate);
    if err != None then (isStale, Failure(err.value))
    else (isStale, ReadAs(d, filename, parse))
  }

  // ---------------------------------------------------------------------
  // The operations

  /** The header loop of cacheHttpResponse: Header.Add for every value of
      every name, the names visited in the map's unspecified order. */
  method AddHeaders(headers: Header) returns (out: Header)
    ensures out == OutgoingHeader(headers)
  {
    out := map[];
    var pending := headers.Keys;
    while pending != {}
      invariant pending <= headers.Keys
      invariant out == map k | k in headers && k !in pending && headers[k] != [] :: headers[k]
      decreases |pending|
    {
      var key :| key in pending;
      var values := headers[key];
      ghost var done := out;
      assert key !in done;
      for i := 0 to |values|
        invariant out == if i == 0 then done else done[key := values[..i]]
      {
        assert values[..i + 1] == values[..i] + [values[i]];
        out := out[key := (if key in out then out[key] else []) + [values[i]]];
      }
      assert values != [] ==> values[..|values|] == values;
      pending := pending - {key};
    }
  }

  method CacheHttpResponse(dir: CacheDir, net: Transport, cacheFilename: string, req: Request)
    returns (err: Option<Error>)
    requires dir.Valid()
    modifies dir`files, dir`dirExists, net
    ensures dir.Valid()
    ensures After(dir.State(), net.State(), err) == FetchAndStore(old(dir.State()), old(net.State()), cacheFilename, req)
  {
    var header := AddHeaders(req.header);
    var reply := net.Do(Request(req.verb, req.url, header));
    if reply == None {
      return Some(UpstreamError);
    }
    var response := Response(reply.value.status, reply.value.body);
    err := dir.WriteStructToCacheFile(cacheFilename, response);
  }

  /** httpRequest (cache.go:196-213). */
  method RequestToCache(dir: CacheDir, net: Transport, hash: string -> string, req: Request,
                        ttlOverride: int, allowCacheUpdate: bool, customCacheName: string)
    returns (r: Result<string, Error>)
    requires dir.Valid()
    modifies dir`files, dir`dirExists, net
    ensures dir.Valid()
    ensures After(dir.State(), net.State(), r)
         == RefreshSpec(old(dir.State()), old(net.State()), hash, req, ttlOverride, allowCacheUpdate, customCacheName)
  {
    var cacheName := EffectiveCacheName(customCacheName, req, hash);
    var cacheFilename := ComposeFilename(cacheName);
    var isStale, err := dir.CheckCacheExistenceAndPermissions(cacheFilename, ttlOverride, allowCacheUpdate);
    if err != None {
      return Failure(err.value);
    }
    if isStale {
      err := CacheHttpResponse(dir, net, cacheFilename, req);
      if err != None {
        return Failure(err.value);
      }
    }
    return Success(cacheFilename);
  }

  method HttpRequestWithName(dir: CacheDir, net: Transport, hash: string -> string, req: Request,
                             ttlOverride: int, allowCacheUpdate: bool, customCacheName: string)
    returns (r: Result<Response, Error>)
    requires dir.Valid()
    modifies dir`files, dir`dirExists, net
    ensures dir.Valid()
    ensures After(dir.State(), net.State(), r)
         == WithNameSpec(old(dir.State()), old(net.State()), hash, req, ttlOverride, allowCacheUpdate, customCacheName)
  {
    var cacheFilename := RequestToCache(dir, net, hash, req, ttlOverride, allowCacheUpdate, customCacheName);
    if cacheFilename.Failure? {
      return Failure(cacheFilename.error);
    }
    r := dir.GetCacheFileAsStruct(cacheFilename.value, Decode);
  }

  method HttpRequest(dir: CacheDir, net: Transport, hash: string -> string, req: Request,
                     ttlOverride: int, allowCacheUpdate: bool)
    returns (r: Result<Response, Error>)
    requires dir.Valid()
    modifies dir`files, dir`dirExists, net
    ensures dir.Valid()
    ensures After(dir.State(), net.State(), r)
         == WithNameSpec(old(dir.State()), old(net.State()), hash, req, ttlOverride, allowCacheUpdate, "")
  {
    r := HttpRequestWithName(dir, net, hash, req, ttlOverride, allowCacheUpdate, "");
  }

  method HttpRequestReturnStructWithName<T>(dir: CacheDir, net: Transport, hash: string -> string, req: Request,
                                            ttlOverride: int, allowCacheUpdate: bool, customCacheName: string,
                                            parse: string -> Option<T>)
    returns (status: int, decoded: Result<T, Error>)
    requires dir.Valid()
    modifies dir`files, dir`dirExists, net
    ensures dir.Valid()
    ensures After(dir.State(), net.State(), (status, decoded))
         == DecodedSpec(old(dir.State()), old(net.State()), hash, req, ttlOverride, allowCacheUpdate, customCacheName, parse)
  {
    var cachedResponse := HttpRequestWithName(dir, net, hash, req, ttlOverride, allowCacheUpdate, customCacheName);
    if cachedResponse.Failure? {
      return 0, Failure(cachedResponse.error);
    }
    var v := parse(cachedResponse.value.body);
    if v == None {
      return cachedResponse.value.statusCode, Failure(DecodeError);
    }
    return cachedResponse.value.statusCode, Success(v.value);
  }

  method HttpRequestReturnStruct<T>(dir: CacheDir, net: Transport, hash: string -> string, req: Request,
                                    ttlOverride: int, allowCacheUpdate: bool, parse: string -> Option<T>)
    returns (status: int, decoded: Result<T, Error>)
    requires dir.Valid()
    modifies dir`files, dir`dirExists, net
    ensures dir.Valid()
    ensures After(dir.State(), net.State(), (status, decoded))
         == DecodedSpec(old(dir.State()), old(net.State()), hash, req, ttlOverride, allowCacheUpdate, "", parse)
  {
    status, decoded := HttpRequestReturnStructWithName(dir, net, hash, req, ttlOverride, allowCacheUpdate, "", parse);
  }

  /** The Basic* wrappers: no headers, the default TTL, updates allowed. */
  method BasicHttpRequest(dir: CacheDir, net: Transport, hash: string -> string, verb: string, url: string)
    returns (r: Result<Response, Error>)
    requires dir.Valid()
    modifies dir`files, dir`dirExists, net
    ensures dir.Valid()
    ensures After(dir.State(), net.State(), r)
         == WithNameSpec(old(dir.State()), old(net.State()), hash, Request(verb, url, map[]), 0, true, "")
  {
    r := HttpRequest(dir, net, hash, Request(verb, url, map[]), 0, true);
  }

  method BasicHttpRequestReturnStruct<T>(dir: CacheDir, net: Transport, hash: string -> string,
                                         verb: string, url: string, parse: string -> Option<T>)
    returns (status: int, decoded: Result<T, Error>)
    requires dir.Valid()
    modifies dir`files, dir`dirExists, net
    ensures dir.Valid()
    ensures After(dir.State(), net.State(), (status, decoded))
         == DecodedSpec(old(dir.State()), old(net.State()), hash, Request(verb, url, map[]), 0, true, "", parse)
  {
    status, decoded := HttpRequestReturnStruct(dir, net, hash, Request(verb, url, map[]), 0, true, parse);
  }

  method BasicHttpRequestWithName(dir: CacheDir, net: Transport, hash: string -> string,
                                  verb: string, url: string, cacheName: string)
    returns (r: Result<Response, Error>)
    requires dir.Valid()
    modifies dir`files, dir`dirExists, net
    ensures dir.Valid()
    ensures After(dir.State(), net.State(), r)
         == WithNameSpec(old(dir.State()), old(net.State()), hash, Request(verb, url, map[]), 0, true, cacheName)
  {
    r := HttpRequestWithName(dir, net, hash, Request(verb, url, map[]), 0, true, cacheName);
  }

  method BasicHttpRequestWithNameReturnStruct<T>(dir: CacheDir, net: Transport, hash: string -> string,
                                                 verb: string, url: string, cacheName: string,
                                                 parse: string -> Option<T>)
    returns (status: int, decoded: Result<T, Error>)
    requires dir.Valid()
    modifies dir`files, dir`dirExists, net
    ensures dir.Valid()
    ensures After(dir.State(), net.State(), (status, decoded))
         == DecodedSpec(old(dir.State()), old(net.State()), hash, Request(verb, url, map[]), 0, true, cacheName, parse)
  {
    status, decoded := HttpRequestReturnStructWithName(dir, net, hash, Request(verb, url, map[]), 0, true, cacheName, parse);
  }

  /** GetCacheAndStaleness: reads only; the transport is not involved. */
  method GetCacheAndStaleness(dir: CacheDir, cacheFilename: string, ttlOverride: int, allowCacheUpdate: bool)
    returns (resp: Response, isStale: bool, err: Option<Error>)
    ensures (resp, isStale, err) == PeekSpec(dir.State(), cacheFilename, ttlOverride, allowCacheUpdate)
  {
    isStale, err := dir.CheckCacheExistenceAndPermissions(cacheFilename, ttlOverride, allowCacheUpdate);
    if err != None {
      return EmptyResponse, isStale, err;
    }
    var cachedResponse := dir.GetCacheFileAsStruct(cacheFilename, Decode);
    if cachedResponse.Failure? {
      return EmptyResponse, isStale, Some(cachedResponse.error);
    }
    return cachedResponse.value, isStale, None;
  }

  /** GetCacheAndStalenessReturnStruct: decodes the whole cache file. */
  method GetCacheAndStalenessReturnStruct<T>(dir: CacheDir, cacheFilename: string, ttlOverride: int,
                                             allowCacheUpdate: bool, parse: string -> Option<T>)
    returns (isStale: bool, decoded: Result<T, Error>)
    ensures (isStale, decoded) == PeekDecodedSpec(dir.State(), cacheFilename, ttlOverride, allowCacheUpdate, parse)
  {
    var err;
    isStale, err := dir.CheckCacheExistenceAndPermissions(cacheFilename, ttlOverride, allowCacheUpdate);
    if err != None {
      return isStale, Failure(err.value);
    }
    decoded := dir.GetCacheFileAsStruct(cacheFilename, parse);
  }
}
