/** The cache directory: one file per cache name, each with its text and
    its modification time, plus the clock the TTL is measured against
    (cache.go:67-129, cache.go:166-193). Times and durations are integers
    counting nanoseconds, the unit of Go's time.Duration. */
module Store {
  import opened Wrappers
  import opened Envelope

  /** A file of the directory: its text and when it was last written. */
  datatype Entry = Entry(content: string, modTime: int)

  /** The failures the core reports. The source passes on Go error values;
      the model names them by cause. */
  datatype Error =
    | PermissionDenied  // absent or stale entry, and no permission to update
    | NotFound          // reading a file that does not exist
    | UpstreamError     // the HTTP request failed
    | IOError           // the directory or the file could not be written
    | DecodeError       // text that is not the JSON the reader expects

  /** A snapshot of the directory and its environment: whether the medium
      accepts writes and what the clock says. */
  datatype DirState = DirState(files: map<string, Entry>, dirExists: bool, now: int, writable: bool)

  /** There are no files before the directory is created. */
  predicate Consistent(d: DirState)
  {
    !d.dirExists ==> d.files == map[]
  }

  /** cacheTTL: 60 minutes. */
  const DefaultTTL: int := 60 * 60 * 1_000_000_000

  /** The TTL a check uses: the override unless it is zero. */
  function EffectiveTTL(ttlOverride: int): (ttl: int)
    ensures ttl != 0
    ensures ttlOverride != 0 ==> ttl == ttlOverride
    ensures ttlOverride == 0 ==> ttl == DefaultTTL
    ensures ttlOverride >= 0 ==> ttl > 0
  {
    if ttlOverride != 0 then ttlOverride else DefaultTTL
  }

  datatype Freshness = Absent | Fresh | Stale

  /** An entry is fresh while its age is below the effective TTL. */
  function Classify(d: DirState, filename: string, ttlOverride: int): (f: Freshness)
    ensures f == Absent <==> ModifiedTime(d, filename).Failure?
    ensures f == Fresh <==>
      ModifiedTime(d, filename).Success? && d.now - ModifiedTime(d, filename).value < EffectiveTTL(ttlOverride)
  {
    if filename !in d.files then Absent
    else if d.now - d.files[filename].modTime < EffectiveTTL(ttlOverride) then Fresh
    else Stale
  }

  /** The decision table of checkCacheExistenceAndPermissions: whether the
      entry must be (re)fetched, or the permission error. */
  function Decide(f: Freshness, allowCacheUpdate: bool): (r: (bool, Option<Error>))
    ensures r.1 == None <==> f == Fresh || allowCacheUpdate
    ensures r.0 <==> f != Fresh && allowCacheUpdate
    ensures r.1 != None ==> r == (false, Some(PermissionDenied))
  {
    match f
    case Fresh => (false, None)
    case _ => if allowCacheUpdate then (true, None) else (false, Some(PermissionDenied))
  }

  /** checkCacheExistenceAndPermissions on a snapshot: no error exactly
      when the file is younger than the TTL or updates are allowed, and a
      refresh exactly when the file is missing or old and updates are
      allowed. */
  function Check(d: DirState, filename: string, ttlOverride: int, allowCacheUpdate: bool): (r: (bool, Option<Error>))
    ensures r.1 == None <==>
      (filename in d.files && d.now - d.files[filename].modTime < EffectiveTTL(ttlOverride)) || allowCacheUpdate
    ensures r.0 <==>
      allowCacheUpdate && (filename !in d.files || d.now - d.files[filename].modTime >= EffectiveTTL(ttlOverride))
    ensures r.1 != None ==> r == (false, Some(PermissionDenied))
  {
    Decide(Classify(d, filename, ttlOverride), allowCacheUpdate)
  }

  function ReadString(d: DirState, filename: string): Result<string, Error>
  {
    if filename in d.files then Success(d.files[filename].content) else Failure(NotFound)
  }

  /** Reads a file and decodes its text with `parse`. */
  function ReadAs<T>(d: DirState, filename: string, parse: string -> Option<T>): Result<T, Error>
  {
    match ReadString(d, filename)
    case Failure(e) => Failure(e)
    case Success(text) =>
      match parse(text)
      case None => Failure(DecodeError)
      case Some(v) => Success(v)
  }

  function ModifiedTime(d: DirState, filename: string): Result<int, Error>
  {
    if filename in d.files then Success(d.files[filename].modTime) else Failure(NotFound)
  }

  /** Creating the directory, then writing the file, stamped with the
      current time; on a medium that refuses writes, nothing changes. */
  function Write(d: DirState, filename: string, value: string): (r: (DirState, Option<Error>))
    ensures r.1 == None <==> d.writable
    ensures r.1 != None ==> r.1 == Some(IOError) && r.0 == d
    ensures r.1 == None ==> r.0.dirExists && r.0.files.Keys == d.files.Keys + {filename}
    ensures r.0.now == d.now && r.0.writable == d.writable
    ensures Consistent(d) ==> Consistent(r.0)
  {
    if d.writable
    then (d.(files := d.files[filename := Entry(value, d.now)], dirExists := true), None)
    else (d, Some(IOError))
  }

  /** A successful write is read back verbatim, stamped with the current
      time, and leaves every other file as it was; a failed one changes
      nothing. */
  lemma WriteThenRead(d: DirState, filename: string, value: string)
    requires Consistent(d)
    ensures var (d', err) := Write(d, filename, value);
      && Consistent(d')
      && (err == None <==> d.writable)
      && (err == None ==> ReadString(d', filename) == Success(value) && ModifiedTime(d', filename) == Success(d.now))
      && (err != None ==> d' == d)
      && (err == None ==> d'.files == d.files[filename := Entry(value, d.now)])
  {
  }

  /** The cache directory as the process sees it. */
  class CacheDir {
    var files: map<string, Entry>
    var dirExists: bool
    var now: int
    var writable: bool

    ghost function State(): DirState
      reads this
    {
      DirState(files, dirExists, now, writable)
    }

    /** A sanity invariant: no files without a directory. The methods keep
        it, but none of their functional contracts depends on it. */
    ghost predicate Valid()
      reads this
    {
      Consistent(State())
    }

    /** A process that has not created the cache directory yet. */
    constructor (now: int, writable: bool)
      ensures Valid()
      ensures State() == DirState(map[], false, now, writable)
    {
      this.files := map[];
      this.dirExists := false;
      this.now := now;
      this.writable := writable;
    }

    method GetCacheFileAsString(filename: string) returns (r: Result<string, Error>)
      ensures r == ReadString(State(), filename)
      ensures r.Success? <==> filename in files
    {
      if filename in files {
        r := Success(files[filename].content);
      } else {
        r := Failure(NotFound);
      }
    }

    method GetCacheFileAsStruct<T>(filename: string, parse: string -> Option<T>) returns (r: Result<T, Error>)
      ensures r == ReadAs(State(), filename, parse)
    {
      var text := GetCacheFileAsString(filename);
      match text
      case Failure(e) =>
        r := Failure(e);
      case Success(s) =>
        var v := parse(s);
        r := if v.Some? then Success(v.value) else Failure(DecodeError);
    }

    method GetCacheFileModifiedTime(filename: string) returns (r: Result<int, Error>)
      ensures r == ModifiedTime(State(), filename)
    {
      if filename in files {
        r := Success(files[filename].modTime);
      } else {
        r := Failure(NotFound);
      }
    }

    /** os.MkdirAll: succeeds when the directory is there or can be made. */
    method VerifyCacheDirExists() returns (err: Option<Error>)
      requires Valid()
      modifies this`dirExists
      ensures Valid()
      ensures err == if old(dirExists) || writable then None else Some(IOError)
      ensures dirExists == (old(dirExists) || writable)
    {
      if !dirExists && writable {
        dirExists := true;
      }
      err := if dirExists then None else Some(IOError);
    }

    method WriteStringToCacheFile(filename: string, value: string) returns (err: Option<Error>)
      requires Valid()
      modifies this`files, this`dirExists
      ensures Valid()
      ensures (State(), err) == Write(old(State()), filename, value)
    {
      err := VerifyCacheDirExists();
      if err != None {
        return;
      }
      if !writable {
        err := Some(IOError);
        return;
      }
      files := files[filename := Entry(value, now)];
    }

    method WriteStructToCacheFile(filename: string, r: Response) returns (err: Option<Error>)
      requires Valid()
      modifies this`files, this`dirExists
      ensures Valid()
      ensures (State(), err) == Write(old(State()), filename, Encode(r))
    {
      err := WriteStringToCacheFile(filename, Encode(r));
    }

    /** checkCacheExistenceAndPermissions: reads the directory, changes
        nothing, and answers by the decision table. */
    method CheckCacheExistenceAndPermissions(filename: string, ttlOverride: int, allowCacheUpdate: bool)
      returns (isStale: bool, err: Option<Error>)
      ensures (isStale, err) == Check(State(), filename, ttlOverride, allowCacheUpdate)
      ensures isStale && err == None ==> allowCacheUpdate
    {
      var stat := GetCacheFileModifiedTime(filename);
      match stat
      case Success(modifiedTime) =>
        var ttl := DefaultTTL;
        if ttlOverride != 0 {
          ttl := ttlOverride;
        }
        if now - modifiedTime < ttl {
          return false, None;
        } else if !allowCacheUpdate {
          return false, Some(PermissionDenied);
        } else {
          return true, None;
        }
      case Failure(_) =>
        if !allowCacheUpdate {
          return false, Some(PermissionDenied);
        }
        return true, None;
    }
  }
}
