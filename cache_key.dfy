/** Cache-name derivation: how a request becomes the name of its cache
    file (cache.go:40-65). */
module CacheKey {
  import opened Wrappers
  import opened StringOrder

  /** A Go header map: each name carries a list of values. */
  type Header = map<string, seq<string>>

  /** The request descriptor the cache is keyed on. */
  datatype Request = Request(verb: string, url: string, header: Header)

  const CacheFilePrefix: string := "cache-"
  const CacheFileFormat: string := ".txt"

  // ---------------------------------------------------------------------
  // File names

  /** The file of a cache name: the name between the prefix and the
      extension. */
  function ComposeFilename(name: string): (f: string)
    ensures |f| == |name| + |CacheFilePrefix| + |CacheFileFormat|
    ensures CacheFilePrefix <= f
    ensures f[|CacheFilePrefix|..|f| - |CacheFileFormat|] == name
    ensures f[|f| - |CacheFileFormat|..] == CacheFileFormat
  {
    CacheFilePrefix + name + CacheFileFormat
  }

  /** Inverse of ComposeFilename: the name inside a cache file name. */
  function FilenameToName(f: string): (r: Option<string>)
    ensures r.Some? ==> |r.value| + |CacheFilePrefix| + |CacheFileFormat| == |f|
  {
    var p, q := |CacheFilePrefix|, |CacheFileFormat|;
    if |f| >= p + q && f[..p] == CacheFilePrefix && f[|f| - q..] == CacheFileFormat
    then Some(f[p..|f| - q])
    else None
  }

  lemma FilenameRoundTrip(name: string)
    ensures FilenameToName(ComposeFilename(name)) == Some(name)
  {
    var f := ComposeFilename(name);
    assert f[..6] == CacheFilePrefix;
    assert f[|f| - 4..] == CacheFileFormat;
    assert f[6..|f| - 4] == name;
  }

  lemma FilenameOnlyComposed(f: string, name: string)
    requires FilenameToName(f) == Some(name)
    ensures ComposeFilename(name) == f
  {
    assert f == f[..6] + f[6..|f| - 4] + f[|f| - 4..];
  }

  /** Distinct cache names never share a cache file name. */
  lemma ComposeFilenameInjective(a: string, b: string)
    requires a != b
    ensures ComposeFilename(a) != ComposeFilename(b)
  {
    FilenameRoundTrip(a);
    FilenameRoundTrip(b);
  }

  // ---------------------------------------------------------------------
  // Rendering a header map as text

  /** The values joined by single spaces. */
  function Join(vs: seq<string>): string
  {
    if vs == [] then ""
    else if |vs| == 1 then vs[0]
    else vs[0] + " " + Join(vs[1..])
  }

  /** One line of mapToString: the key, then `%s` applied to the value
      slice, which Go prints as `[v1 v2 ...]`, inside double quotes. */
  function HeaderLine(key: string, values: seq<string>): string
  {
    key + "=\"[" + Join(values) + "]\"\n"
  }

  /** `order` lists every key of the map exactly once. */
  ghost predicate IsEnumeration(order: seq<string>, keys: set<string>)
  {
    && (forall i, j :: 0 <= i < j < |order| ==> order[i] != order[j])
    && (forall k :: k in order <==> k in keys)
  }

  /** The lines of the given keys, in the order listed. */
  function RenderInOrder(m: Header, order: seq<string>): string
    requires forall k :: k in order ==> k in m
  {
    if order == [] then ""
    else
      var last := order[|order| - 1];
      RenderInOrder(m, order[..|order| - 1]) + HeaderLine(last, m[last])
  }

  /** The text of a listing is the text of its parts, in the order listed:
      one HeaderLine per key. */
  lemma {:induction false} RenderAppend(m: Header, a: seq<string>, b: seq<string>)
    requires forall k :: k in a + b ==> k in m
    ensures RenderInOrder(m, a + b) == RenderInOrder(m, a) + RenderInOrder(m, b)
    decreases |b|
  {
    if b == [] {
      assert a + b == a;
    } else {
      var b' := b[..|b| - 1];
      var last := b[|b| - 1];
      assert (a + b)[..|a + b| - 1] == a + b';
      assert (a + b)[|a + b| - 1] == last;
      RenderAppend(m, a, b');
      calc {
        RenderInOrder(m, a + b);
        RenderInOrder(m, a + b') + HeaderLine(last, m[last]);
        RenderInOrder(m, a) + RenderInOrder(m, b') + HeaderLine(last, m[last]);
        RenderInOrder(m, a) + (RenderInOrder(m, b') + HeaderLine(last, m[last]));
      }
    }
  }

  /** mapToString as written: a `for range` loop over a Go map, whose
      iteration order the language leaves unspecified (and randomises).
      The loop picks any key not yet visited, so the result is the rendering
      in some order that lists every key once. */
  method MapToString(m: Header) returns (s: string)
    ensures exists order :: IsEnumeration(order, m.Keys) && s == RenderInOrder(m, order)
  {
    s := "";
    ghost var order := [];
    var pending := m.Keys;
    while pending != {}
      invariant pending <= m.Keys
      invariant forall k :: k in order <==> k in m && k !in pending
      invariant forall i, j :: 0 <= i < j < |order| ==> order[i] != order[j]
      invariant s == RenderInOrder(m, order)
      decreases |pending|
    {
      var key :| key in pending;
      RenderAppend(m, order, [key]);
      assert [key][..0] == [];
      s := s + HeaderLine(key, m[key]);
      order := order + [key];
      pending := pending - {key};
    }
    assert IsEnumeration(order, m.Keys);
  }

  /** The string mapToString produces depends on the iteration order: the
      same two-entry map renders differently in its two orders, so the hash
      of one request can differ from one run to the next. */
  lemma RenderingDependsOnOrder()
    ensures
      var m: Header := map["a" := ["1"], "b" := ["2"]];
      && IsEnumeration(["a", "b"], m.Keys)
      && IsEnumeration(["b", "a"], m.Keys)
      && RenderInOrder(m, ["a", "b"]) != RenderInOrder(m, ["b", "a"])
  {
    var m: Header := map["a" := ["1"], "b" := ["2"]];
    assert ["a", "b"][..1] == ["a"] && ["b", "a"][..1] == ["b"];
    assert ["a"][..0] == [] && ["b"][..0] == [];
    assert RenderInOrder(m, ["a"]) == HeaderLine("a", ["1"]);
    assert RenderInOrder(m, ["b"]) == HeaderLine("b", ["2"]);
    var ab := RenderInOrder(m, ["a", "b"]);
    var ba := RenderInOrder(m, ["b", "a"]);
    assert ab == HeaderLine("a", ["1"]) + HeaderLine("b", ["2"]);
    assert ba == HeaderLine("b", ["2"]) + HeaderLine("a", ["1"]);
    assert ab[0] == 'a' && ba[0] == 'b';
  }

  // ---------------------------------------------------------------------
  // Canonical (sorted) rendering

  predicate StrictlySorted(s: seq<string>)
  {
    forall i, j :: 0 <= i < j < |s| ==> Less(s[i], s[j])
  }

  lemma {:induction false} HasMinimum(keys: set<string>)
    requires keys != {}
    ensures exists k :: k in keys && forall j :: j in keys && j != k ==> Less(k, j)
    decreases |keys|
  {
    var x :| x in keys;
    var rest := keys - {x};
    if rest == {} {
      assert keys == {x};
    } else {
      HasMinimum(rest);
      var m :| m in rest && forall j :: j in rest && j != m ==> Less(m, j);
      if Less(x, m) {
        forall j | j in keys && j != x ensures Less(x, j) {
          if j != m { LessTransitive(x, m, j); }
        }
      } else {
        LessTotal(x, m);
        assert forall j :: j in keys && j != m ==> Less(m, j);
      }
    }
  }

  /** The least key of a non-empty set. */
  function MinKey(keys: set<string>): (k: string)
    requires keys != {}
    ensures k in keys
    ensures forall j :: j in keys && j != k ==> Less(k, j)
  {
    HasMinimum(keys);
    LessStrictTotalOrder();
    var k :| k in keys && forall j :: j in keys && j != k ==> Less(k, j);
    k
  }

  /** The keys of the set in increasing order. */
  function SortedKeys(keys: set<string>): (s: seq<string>)
    ensures IsEnumeration(s, keys)
    ensures StrictlySorted(s)
    decreases |keys|
  {
    if keys == {} then []
    else
      var k := MinKey(keys);
      var rest := SortedKeys(keys - {k});
      assert forall i :: 0 <= i < |rest| ==> Less(k, rest[i]) by {
        forall i | 0 <= i < |rest| ensures Less(k, rest[i]) {
          assert rest[i] in rest;
        }
      }
      [k] + rest
  }

  /** The first key of a sorted listing is the least key. */
  lemma SortedHeadIsMin(s: seq<string>, keys: set<string>)
    requires IsEnumeration(s, keys) && StrictlySorted(s) && s != []
    ensures keys != {} && s[0] == MinKey(keys)
  {
    assert s[0] in keys;
    var k := MinKey(keys);
    if k != s[0] {
      var i :| 0 <= i < |s| && s[i] == k;
      assert Less(s[0], k);
      LessAsymmetric(s[0], k);
    }
  }

  /** Dropping the first key of a listing lists the remaining keys. */
  lemma TailEnumeration(s: seq<string>, keys: set<string>)
    requires IsEnumeration(s, keys) && s != []
    ensures IsEnumeration(s[1..], keys - {s[0]})
  {
    var tail := s[1..];
    forall x ensures x in tail <==> x in keys - {s[0]} {
      if x in tail {
        var i :| 0 <= i < |tail| && tail[i] == x;
        assert s[i + 1] == x;
      }
      if x in keys - {s[0]} {
        var i :| 0 <= i < |s| && s[i] == x;
        assert tail[i - 1] == x;
      }
    }
  }

  /** A sorted listing of a key set is unique: it is SortedKeys. */
  lemma {:induction false} SortedEnumerationUnique(s: seq<string>, keys: set<string>)
    requires IsEnumeration(s, keys) && StrictlySorted(s)
    ensures s == SortedKeys(keys)
    decreases |keys|
  {
    if s == [] {
      assert forall k :: k in keys ==> k in s;
      assert keys == {};
    } else {
      SortedHeadIsMin(s, keys);
      TailEnumeration(s, keys);
      SortedEnumerationUnique(s[1..], keys - {s[0]});
      assert s == [s[0]] + s[1..];
    }
  }

  /** The header map rendered with its keys in sorted order: one of the
      strings mapToString can produce, and the same one on every run. */
  function CanonicalHeaders(m: Header): (s: string)
    ensures exists order :: IsEnumeration(order, m.Keys) && s == RenderInOrder(m, order)
    ensures s == "" <==> m == map[]
  {
    var order := SortedKeys(m.Keys);
    assert IsEnumeration(order, m.Keys);
    assert order == [] ==> m.Keys == {};
    RenderInOrder(m, order)
  }

  /** Whichever way a sorted listing of the keys is obtained, the rendering
      is CanonicalHeaders: it depends on the map alone. */
  lemma CanonicalRenderingIsOrderIndependent(m: Header, order: seq<string>)
    requires IsEnumeration(order, m.Keys) && StrictlySorted(order)
    ensures RenderInOrder(m, order) == CanonicalHeaders(m)
  {
    SortedEnumerationUnique(order, m.Keys);
  }

  // ---------------------------------------------------------------------
  // The cache name

  /** httpRequestToString: method, URL and header text, concatenated. */
  function RequestString(req: Request): (s: string)
    ensures req.verb + req.url <= s
    ensures req.header == map[] ==> s == req.verb + req.url
  {
    var h := CanonicalHeaders(req.header);
    assert req.verb + req.url + h == (req.verb + req.url) + h;
    req.verb + req.url + h
  }

  /** getEffectiveCacheName: the caller's custom name when there is one,
      otherwise the hash of the request's text. */
  function EffectiveCacheName(customName: string, req: Request, hash: string -> string): (name: string)
    ensures customName != "" ==> name == customName
    ensures customName == "" ==> name == hash(RequestString(req))
    ensures customName == "" && req.header == map[] ==> name == hash(req.verb + req.url)
  {
    if customName != "" then customName else hash(RequestString(req))
  }

  /** The file a request is cached in. */
  function CacheFilename(customName: string, req: Request, hash: string -> string): string
  {
    ComposeFilename(EffectiveCacheName(customName, req, hash))
  }

  /** Two requests that carry the same custom name share one cache file
      name, whatever their method, URL and headers; and two different
      custom names never share one. */
  lemma CustomNameDecidesFile(name1: string, name2: string, r1: Request, r2: Request, hash: string -> string)
    requires name1 != "" && name2 != ""
    ensures CacheFilename(name1, r1, hash) == CacheFilename(name2, r2, hash) <==> name1 == name2
  {
    if name1 != name2 {
      ComposeFilenameInjective(name1, name2);
    }
  }
}
