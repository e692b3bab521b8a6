/**
 Populating the local cache from the remote store (`copy_to_cache`): probe
 the object, pick the extension, download into a temporary file, publish it
 under `loris_cache.<ext>` unless a file is already there, and fetch the
 sidecar rules file best-effort.

 The filesystem is the set of paths that exist. The remote store is a map
 from reachable bucket to its objects. Two versions of the operation are
 given: `CopyToCacheAsWritten` follows the source line by line, and
 `CopyToCache` is the corrected one that the rest of the model uses.
 */
module CachePopulator {
  import opened Wrappers
  import opened PosixPath
  import opened ResolverConfig
  import opened Identifiers
  import opened Formats

  /** A remote object; `contentType` is None when the key object has no `content_type`. */
  datatype S3Object = S3Object(contentType: Option<string>)

  /**
   The remote store as this process sees it: `get_bucket` raises for a bucket
   not in `buckets`, and `get_key` returns None for a key not in its bucket.
   */
  datatype Store = Store(buckets: map<string, map<string, S3Object>>)

  /** The host's collaborators, taken as given functions and tables. */
  datatype Host = Host(
    /** `CacheNamer.cache_directory_name`. */
    cacheDirectoryName: string -> string,
    /** `IdentRegexChecker.is_allowed`. */
    identAllowed: string -> bool,
    /** The base resolver's `format_from_ident`. */
    formatFromIdent: string -> string,
    /** `constants.FORMATS_BY_MEDIA_TYPE`. */
    mediaTypes: map<string, string>)

  /** The files and directories that exist. */
  type Paths = set<string>

  /** The filesystem after an operation, and what the operation returned or raised. */
  datatype Step<T> = Step(fs: Paths, out: Result<T, Error>)

  /** Every cache file is named `loris_cache.<ext>`. */
  const CacheFileStem: string := "loris_cache."

  /** `cache_dir_path`: the namer's directory name for the identifier, joined onto the cache root. */
  function CacheDirPath(r: Resolver, host: Host, ident: string): string {
    Join(r.cacheRoot, host.cacheDirectoryName(ident))
  }

  /**
   Where the cache directory lies: it ends with the namer's name; a relative
   name lands directly under the cache root, with one `/` between them when
   the root does not end in one; an absolute name replaces the root.
   */
  lemma CacheDirUnderRoot(r: Resolver, host: Host, ident: string)
    ensures var dir := CacheDirPath(r, host, ident); var name := host.cacheDirectoryName(ident);
      && |name| <= |dir| && dir[|dir| - |name|..] == name
      && (IsAbsolute(name) ==> dir == name)
      && (!IsAbsolute(name) ==> r.cacheRoot <= dir)
      && (!IsAbsolute(name) ==>
            |dir| == |r.cacheRoot| + |name| + (if |r.cacheRoot| > 0 && r.cacheRoot[|r.cacheRoot| - 1] != Sep then 1 else 0))
  {
  }

  /** `os.path.join(cache_dir, "loris_cache." + ext)`. */
  function CacheFilePath(dir: string, ext: string): string {
    Join(dir, CacheFileStem + ext)
  }

  /** `p` matches the pattern `<dir>/loris_cache.*`. */
  predicate IsCacheFile(dir: string, p: string) {
    var prefix := DirPrefix(dir) + CacheFileStem;
    |prefix| <= |p| && p[..|prefix|] == prefix && Sep !in p[|prefix|..]
  }

  /** The cache file for an extension matches the cache pattern exactly when the extension has no `/`. */
  lemma CacheFilePathMatches(dir: string, ext: string)
    ensures IsCacheFile(dir, CacheFilePath(dir, ext)) <==> Sep !in ext
  {
    var prefix := DirPrefix(dir) + CacheFileStem;
    var p := CacheFilePath(dir, ext);
    assert p == prefix + ext;
    assert p[..|prefix|] == prefix;
    assert p[|prefix|..] == ext;
  }

  /**
   Joining two relative names onto the same directory gives the same path
   only for the same name.
   */
  lemma JoinRelativeInjective(dir: string, a: string, b: string)
    requires !IsAbsolute(a) && !IsAbsolute(b) && Join(dir, a) == Join(dir, b)
    ensures a == b
  {
    var d := DirPrefix(dir);
    assert Join(dir, a) == d + a && Join(dir, b) == d + b;
    assert a == (d + a)[|d|..];
  }

  /**
   Two cache files in the same directory are the same path exactly when
   their extensions agree, and no cache file is the directory itself.
   */
  lemma CacheFilesDistinct(dir: string, a: string, b: string)
    ensures CacheFilePath(dir, a) != dir
    ensures CacheFilePath(dir, a) == CacheFilePath(dir, b) <==> a == b
  {
    if CacheFilePath(dir, a) == CacheFilePath(dir, b) {
      JoinRelativeInjective(dir, CacheFileStem + a, CacheFileStem + b);
      assert a == (CacheFileStem + a)[|CacheFileStem|..];
      assert b == (CacheFileStem + b)[|CacheFileStem|..];
    }
  }

  /**
   What `tempfile.NamedTemporaryFile(dir=cache_dir)` guarantees of its name:
   a plain non-empty file name, not named like a cache file, and not yet
   existing in the directory.
   */
  predicate FreshTemp(fs: Paths, dir: string, tmpName: string) {
    |tmpName| > 0 && Sep !in tmpName && !(CacheFileStem <= tmpName) && Join(dir, tmpName) !in fs
  }

  /** A fresh temporary file is neither the directory nor any cache file in it. */
  lemma FreshTempDistinct(fs: Paths, dir: string, tmpName: string, ext: string)
    requires FreshTemp(fs, dir, tmpName)
    ensures Join(dir, tmpName) != dir
    ensures Join(dir, tmpName) != CacheFilePath(dir, ext)
  {
    if Join(dir, tmpName) == CacheFilePath(dir, ext) {
      JoinRelativeInjective(dir, tmpName, CacheFileStem + ext);
      assert false;
    }
  }

  /**
   Fetching the object behind an identifier: parse it, `get_bucket` (raises
   for an unreachable bucket), `get_key` (None for a missing key).
   */
  function Probe(aliases: Option<AliasTable>, store: Store, ident: string): (r: Result<(Location, S3Object), Error>)
    ensures r.Success? <==>
      && S3ResourceIdent(aliases, ident).Success?
      && var loc := S3ResourceIdent(aliases, ident).value;
      && loc.bucket in store.buckets
      && loc.key in store.buckets[loc.bucket]
    ensures r.Success? ==> r.value.0 == S3ResourceIdent(aliases, ident).value
    ensures r.Success? ==> r.value.1 == store.buckets[r.value.0.bucket][r.value.0.key]
    ensures Sep !in ident ==> r == Failure(InvalidIdentifier(ident))
    ensures r.Failure? && Sep in ident ==>
      var loc := S3ResourceIdent(aliases, ident).value;
      if loc.bucket !in store.buckets then r.error == BucketUnavailable(loc.bucket)
      else r.error == SourceNotFound(loc.bucket, loc.key)
  {
    match S3ResourceIdent(aliases, ident)
    case Failure(e) => Failure(e)
    case Success(loc) =>
      if loc.bucket !in store.buckets then Failure(BucketUnavailable(loc.bucket))
      else if loc.key !in store.buckets[loc.bucket] then Failure(SourceNotFound(loc.bucket, loc.key))
      else Success((loc, store.buckets[loc.bucket][loc.key]))
  }

  /** The extension of the cached image for a fetched object. */
  function ImageExtension(r: Resolver, host: Host, obj: S3Object, ident: string): string {
    CacheFileExtension(r.defaultFormat, host.mediaTypes, obj.contentType, host.formatFromIdent, ident)
  }

  /** A name built as stem, `.`, extension splits back into the stem and `.` + extension. */
  lemma {:induction false} NameParts(stem: string, ext: string)
    ensures var name := stem + "." + ext;
      && |name| > |ext| && name[|name| - |ext| - 1..] == "." + ext
      && name[..|name| - |ext| - 1] == stem
      && (Sep !in stem && Sep !in ext ==> Sep !in name)
  {
    var name := stem + "." + ext;
    assert name[|stem|..] == "." + ext;
    assert name[..|stem|] == stem;
  }

  /** The sidecar rules file name: the image name up to its first dot, then the rules extension. */
  function RulesFileName(key: string, rulesExt: string): (name: string)
    ensures Sep !in rulesExt ==> Sep !in name
    ensures |name| > |rulesExt| && name[|name| - |rulesExt| - 1..] == "." + rulesExt
    ensures var stem := name[..|name| - |rulesExt| - 1]; var tail := Split(key).1;
      stem <= tail && '.' !in stem && (stem == tail || tail[|stem|] == '.')
  {
    var tail := Split(key).1;
    var stem := StemBeforeFirstDot(tail);
    PrefixAvoids(stem, tail, Sep);
    NameParts(stem, rulesExt);
    stem + "." + rulesExt
  }

  /**
   The rules key as the source builds it: split head, a `/`, then the rules
   file name. The name part is right: it is what `split` gives back as the
   key's tail. The head is not always right (see `TopLevelRulesKeyAsWritten`
   and `RootRulesKeyAsWritten`).
   */
  function RulesKeyAsWritten(key: string, rulesExt: string): (rk: string)
    ensures Split(key).0 <= rk
    ensures Sep !in rulesExt ==> Split(rk).1 == RulesFileName(key, rulesExt)
  {
    var name := RulesFileName(key, rulesExt);
    assert Sep !in rulesExt ==> Split(Split(key).0 + [Sep] + name).1 == name by {
      if Sep !in rulesExt {
        SplitTailAfterSep(Split(key).0, name);
      }
    }
    Split(key).0 + [Sep] + name
  }

  /**
   The rules key as intended: the rules file name joined onto the image key's
   directory, so that it lies next to the image key. Splitting it gives back
   the image key's own directory and the rules file name.
   */
  function RulesKey(key: string, rulesExt: string): (rk: string)
    ensures Sep !in rulesExt ==> Split(rk) == (Split(key).0, RulesFileName(key, rulesExt))
  {
    var name := RulesFileName(key, rulesExt);
    assert Sep !in rulesExt ==> Split(Join(Split(key).0, name)) == (Split(key).0, name) by {
      if Sep !in rulesExt {
        SplitJoin(Split(key).0, name);
      }
    }
    Join(Split(key).0, name)
  }

  /**
   As written, an image key with no `/` (a top-level object) gets an absolute
   rules key `/<name>`, whose directory is `/` instead of the image's empty one.
   */
  lemma {:induction false} TopLevelRulesKeyAsWritten(key: string, rulesExt: string)
    requires Sep !in key && Sep !in rulesExt
    ensures RulesKeyAsWritten(key, rulesExt) == [Sep] + RulesFileName(key, rulesExt)
    ensures Split(key).0 == ""
    ensures Split(RulesKeyAsWritten(key, rulesExt)) == ([Sep], RulesFileName(key, rulesExt))
  {
    var name := RulesFileName(key, rulesExt);
    assert Split(key) == ("", key);
    assert RulesKeyAsWritten(key, rulesExt) == [Sep] + name by {
      assert Split(key).0 + [Sep] + name == [Sep] + name;
    }
    SplitUnderRoot(name);
  }

  /**
   As written, an image key at the root (`/<image>`) gets the rules key
   `//<name>` where the intended key is `/<name>`.
   */
  lemma {:induction false} RootRulesKeyAsWritten(k: string, rulesExt: string)
    requires Sep !in k && Sep !in rulesExt
    ensures RulesKeyAsWritten([Sep] + k, rulesExt) == [Sep, Sep] + RulesFileName([Sep] + k, rulesExt)
    ensures RulesKey([Sep] + k, rulesExt) == [Sep] + RulesFileName([Sep] + k, rulesExt)
  {
    var key := [Sep] + k;
    var name := RulesFileName(key, rulesExt);
    SplitUnderRoot(k);
    assert RulesKeyAsWritten(key, rulesExt) == [Sep] + [Sep] + name;
  }

  /**
   For a top-level image key the two rules keys differ: the intended one is
   the bare rules file name, the one as written has a `/` in front of it.
   */
  lemma {:induction false} TopLevelRulesKeysDiffer(key: string, rulesExt: string)
    requires Sep !in key && Sep !in rulesExt
    ensures RulesKey(key, rulesExt) == RulesFileName(key, rulesExt)
    ensures RulesKeyAsWritten(key, rulesExt) != RulesKey(key, rulesExt)
  {
    TopLevelRulesKeyAsWritten(key, rulesExt);
    assert |RulesKey(key, rulesExt)| == |RulesFileName(key, rulesExt)|;
  }

  /**
   When the image key's directory part is neither empty nor all slashes (the
   two cases above), the source's rules key is the intended one.
   */
  lemma RulesKeyAsWrittenAgrees(key: string, rulesExt: string)
    requires |Split(key).0| > 0 && !AllOf(Split(key).0, Sep)
    ensures RulesKeyAsWritten(key, rulesExt) == RulesKey(key, rulesExt)
  {
  }

  /**
   The publish decision as written: rename the temporary file into place when
   the final path does not exist; otherwise `os.path.remove` raises
   AttributeError and the temporary file is left behind.
   */
  function PublishAsWritten(fs: Paths, tmp: string, final: string): (s: Step<string>)
    ensures s.out.Success? <==> final !in fs
    ensures s.out.Success? ==> s.out.value == final && s.fs == fs - {tmp} + {final}
    ensures s.out.Failure? ==> s.out.error == NoAttribute && s.fs == fs
  {
    if final in fs then Step(fs, Failure(NoAttribute))
    else Step(fs - {tmp} + {final}, Success(final))
  }

  /**
   The publish decision as intended: an existing final file is kept and the
   temporary file discarded; otherwise the temporary file is renamed into
   place. Either way the final path is returned and exists afterwards.
   */
  function Publish(fs: Paths, tmp: string, final: string): (s: Step<string>)
    requires tmp != final
    ensures s.out == Success(final)
    ensures final in s.fs && tmp !in s.fs
    ensures fs - {tmp} <= s.fs <= fs + {final}
  {
    if final in fs then Step(fs - {tmp}, Success(final))
    else Step(fs - {tmp} + {final}, Success(final))
  }

  /**
   Best-effort sidecar fetch: the local rules file is downloaded when the
   bucket has the rules key and the file is not already cached; a raised
   exception is swallowed and changes nothing.
   */
  function FetchRules(
    fs: Paths, objects: map<string, S3Object>, rulesKey: string,
    localRules: string, raises: bool): (fs': Paths)
    ensures fs <= fs' <= fs + {localRules}
    ensures localRules in fs' <==> localRules in fs || (!raises && rulesKey in objects)
  {
    if raises || rulesKey !in objects || localRules in fs then fs else fs + {localRules}
  }

  /** `copy_to_cache` line by line, with the source's defects. */
  function CopyToCacheAsWritten(
    r: Resolver, host: Host, store: Store, fs: Paths,
    ident: string, tmpName: string, rulesRaise: bool): (s: Step<string>)
    requires FreshTemp(fs, CacheDirPath(r, host, ident), tmpName)
    ensures S3ResourceIdent(r.aliases, ident).Failure? ==> s == Step(fs, S3ResourceIdent(r.aliases, ident).PropagateFailure())
    ensures S3ResourceIdent(r.aliases, ident).Success? ==> CacheDirPath(r, host, ident) in s.fs
    ensures Probe(r.aliases, store, ident).Failure? ==> s.out == Probe(r.aliases, store, ident).PropagateFailure()
    ensures Probe(r.aliases, store, ident).Success? ==>
      var (loc, obj) := Probe(r.aliases, store, ident).value;
      var dir := CacheDirPath(r, host, ident);
      var final := CacheFilePath(dir, ImageExtension(r, host, obj, ident));
      var rules := CacheFilePath(dir, r.authRulesExt);
      && (s.out.Success? <==> final !in fs)
      && (s.out.Success? ==> s.out.value == final && final in s.fs && Join(dir, tmpName) !in s.fs)
      && (s.out.Success? ==> fs <= s.fs <= fs + {dir, final, rules})
      && (s.out.Success? ==>
            (rules in s.fs <==>
              || rules in fs
              || r.authRulesExt == ImageExtension(r, host, obj, ident)
              || (!rulesRaise && RulesKeyAsWritten(loc.key, r.authRulesExt) in store.buckets[loc.bucket])))
      && (s.out.Failure? ==> s.out.error == NoAttribute && Join(dir, tmpName) in s.fs)
  {
    match S3ResourceIdent(r.aliases, ident)
    case Failure(e) => Step(fs, Failure(e))
    case Success(_) => FetchAsWritten(r, host, store, fs, ident, tmpName, rulesRaise)
  }

  /**
   `copy_to_cache` as written once the identifier has parsed: `mkdir_p`
   creates the cache directory, then `get_bucket` and `get_key` fail exactly
   as the probe does; an existing object is downloaded and published as
   written, and the rules file fetched from the key as written.
   */
  function FetchAsWritten(
    r: Resolver, host: Host, store: Store, fs: Paths,
    ident: string, tmpName: string, rulesRaise: bool): (s: Step<string>)
    requires FreshTemp(fs, CacheDirPath(r, host, ident), tmpName)
    ensures CacheDirPath(r, host, ident) in s.fs
    ensures Probe(r.aliases, store, ident).Failure? ==>
      s == Step(fs + {CacheDirPath(r, host, ident)}, Probe(r.aliases, store, ident).PropagateFailure())
    ensures Probe(r.aliases, store, ident).Success? ==>
      var (loc, obj) := Probe(r.aliases, store, ident).value;
      var dir := CacheDirPath(r, host, ident);
      var final := CacheFilePath(dir, ImageExtension(r, host, obj, ident));
      var rules := CacheFilePath(dir, r.authRulesExt);
      && (s.out.Success? <==> final !in fs)
      && (s.out.Success? ==> s.out.value == final && final in s.fs && Join(dir, tmpName) !in s.fs)
      && (s.out.Success? ==> fs <= s.fs <= fs + {dir, final, rules})
      && (s.out.Success? ==>
            (rules in s.fs <==>
              || rules in fs
              || r.authRulesExt == ImageExtension(r, host, obj, ident)
              || (!rulesRaise && RulesKeyAsWritten(loc.key, r.authRulesExt) in store.buckets[loc.bucket])))
      && (s.out.Failure? ==> s.out.error == NoAttribute && s.fs == fs + {dir, Join(dir, tmpName)})
  {
    var dir := CacheDirPath(r, host, ident);
    FreshTempDistinct(fs, dir, tmpName, r.authRulesExt);
    assert FreshTemp(fs + {dir}, dir, tmpName);
    match Probe(r.aliases, store, ident)
    case Failure(e) => Step(fs + {dir}, Failure(e))
    case Success((loc, obj)) =>
      var ext := ImageExtension(r, host, obj, ident);
      var rulesKey := RulesKeyAsWritten(loc.key, r.authRulesExt);
      var s := PopulateAsWritten(fs + {dir}, dir, ext, tmpName,
        store.buckets[loc.bucket], rulesKey, r.authRulesExt, rulesRaise);
      CacheFilesDistinct(dir, ext, ext);
      CacheFilesDistinct(dir, r.authRulesExt, ext);
      AfterMkdir(fs, dir, CacheFilePath(dir, ext), CacheFilePath(dir, r.authRulesExt), Join(dir, tmpName),
        r.authRulesExt == ext || (!rulesRaise && rulesKey in store.buckets[loc.bucket]), s);
      s
  }

  /**
   What a populate step run after `mkdir_p` promises, restated against the
   paths that existed before the directory was created.
   */
  lemma AfterMkdir(fs: Paths, dir: string, final: string, rules: string, tmp: string, fetched: bool, s: Step<string>)
    requires final != dir && rules != dir
    requires s.out.Success? <==> final !in fs + {dir}
    requires s.out.Success? ==> s.out.value == final && final in s.fs && tmp !in s.fs
    requires s.out.Success? ==> fs + {dir} <= s.fs <= fs + {dir} + {final, rules}
    requires s.out.Success? ==> (rules in s.fs <==> rules in fs + {dir} || fetched)
    requires s.out.Failure? ==> s.out.error == NoAttribute && s.fs == fs + {dir} + {tmp}
    ensures dir in s.fs
    ensures s.out.Success? <==> final !in fs
    ensures s.out.Success? ==> fs <= s.fs <= fs + {dir, final, rules}
    ensures s.out.Success? ==> (rules in s.fs <==> rules in fs || fetched)
    ensures s.out.Failure? ==> s.fs == fs + {dir, tmp}
  {
  }

  /**
   The download-and-publish tail of `copy_to_cache` as written, once the
   directory exists and the object is known: download into the temporary
   file, then publish as written; only a successful publish goes on to fetch
   the rules file. A lost race raises and leaves the temporary file behind.
   */
  function PopulateAsWritten(
    fs: Paths, dir: string, ext: string, tmpName: string,
    objects: map<string, S3Object>, rulesKey: string, rulesExt: string, rulesRaise: bool): (s: Step<string>)
    requires FreshTemp(fs, dir, tmpName)
    ensures s.out.Success? <==> CacheFilePath(dir, ext) !in fs
    ensures s.out.Success? ==>
      && s.out.value == CacheFilePath(dir, ext)
      && CacheFilePath(dir, ext) in s.fs && Join(dir, tmpName) !in s.fs
      && fs <= s.fs <= fs + {CacheFilePath(dir, ext), CacheFilePath(dir, rulesExt)}
    ensures s.out.Success? ==>
      (CacheFilePath(dir, rulesExt) in s.fs <==>
        CacheFilePath(dir, rulesExt) in fs || rulesExt == ext || (!rulesRaise && rulesKey in objects))
    ensures s.out.Failure? ==> s.out.error == NoAttribute && s.fs == fs + {Join(dir, tmpName)}
  {
    var final := CacheFilePath(dir, ext);
    var tmp := Join(dir, tmpName);
    FreshTempDistinct(fs, dir, tmpName, ext);
    FreshTempDistinct(fs, dir, tmpName, rulesExt);
    CacheFilesDistinct(dir, rulesExt, ext);
    var published := PublishAsWritten(fs + {tmp}, tmp, final);
    if published.out.Failure? then published
    else Step(FetchRules(published.fs, objects, rulesKey, CacheFilePath(dir, rulesExt), rulesRaise), Success(final))
  }

  /**
   The download-and-publish tail of the corrected `copy_to_cache`, once the
   object is known to exist: create the directory, download into the
   temporary file, publish, fetch the rules file. The image path is returned
   and exists; nothing that existed before is removed; the only paths added
   are the directory, the image file and the rules file.
   */
  function Populate(
    fs: Paths, dir: string, ext: string, tmpName: string,
    objects: map<string, S3Object>, rulesKey: string, rulesExt: string, rulesRaise: bool): (s: Step<string>)
    requires FreshTemp(fs, dir, tmpName)
    ensures s.out == Success(CacheFilePath(dir, ext))
    ensures dir in s.fs && CacheFilePath(dir, ext) in s.fs && Join(dir, tmpName) !in s.fs
    ensures fs <= s.fs <= fs + {dir, CacheFilePath(dir, ext), CacheFilePath(dir, rulesExt)}
    ensures CacheFilePath(dir, rulesExt) in s.fs <==>
      CacheFilePath(dir, rulesExt) in fs || rulesExt == ext || (!rulesRaise && rulesKey in objects)
  {
    var final := CacheFilePath(dir, ext);
    var tmp := Join(dir, tmpName);
    FreshTempDistinct(fs, dir, tmpName, ext);
    FreshTempDistinct(fs, dir, tmpName, rulesExt);
    CacheFilesDistinct(dir, rulesExt, ext);
    var published := Publish(fs + {dir, tmp}, tmp, final);
    var fs' := FetchRules(published.fs, objects, rulesKey, CacheFilePath(dir, rulesExt), rulesRaise);
    Step(fs', Success(final))
  }

  /**
   `copy_to_cache` corrected: the remote object is probed before anything is
   created, a concurrent winner's file is kept and the temporary file removed,
   and the rules key is joined onto the image key's directory.
   */
  function CopyToCache(
    r: Resolver, host: Host, store: Store, fs: Paths,
    ident: string, tmpName: string, rulesRaise: bool): (s: Step<string>)
    requires FreshTemp(fs, CacheDirPath(r, host, ident), tmpName)
    ensures s.out.Success? <==> Probe(r.aliases, store, ident).Success?
    ensures s.out.Failure? ==> s == Step(fs, Probe(r.aliases, store, ident).PropagateFailure())
    ensures s.out.Success? ==>
      var dir := CacheDirPath(r, host, ident);
      && s.out.value == CacheFilePath(dir, ImageExtension(r, host, Probe(r.aliases, store, ident).value.1, ident))
      && dir in s.fs
      && s.out.value in s.fs
      && fs <= s.fs <= fs + {dir, s.out.value, CacheFilePath(dir, r.authRulesExt)}
    ensures s.out.Success? ==>
      var loc := Probe(r.aliases, store, ident).value.0;
      var rules := CacheFilePath(CacheDirPath(r, host, ident), r.authRulesExt);
      (rules in s.fs <==>
        || rules in fs
        || r.authRulesExt == ImageExtension(r, host, Probe(r.aliases, store, ident).value.1, ident)
        || (!rulesRaise && RulesKey(loc.key, r.authRulesExt) in store.buckets[loc.bucket]))
  {
    match Probe(r.aliases, store, ident)
    case Failure(e) => Step(fs, Failure(e))
    case Success((loc, obj)) =>
      Populate(fs, CacheDirPath(r, host, ident), ImageExtension(r, host, obj, ident), tmpName,
        store.buckets[loc.bucket], RulesKey(loc.key, r.authRulesExt), r.authRulesExt, rulesRaise)
  }

  /**
   Without a lost race (no final file yet), the code as written and the
   corrected version report the same result.
   */
  lemma AsWrittenAgreesNoRace(
    r: Resolver, host: Host, store: Store, fs: Paths,
    ident: string, tmpName: string, rulesRaise: bool)
    requires FreshTemp(fs, CacheDirPath(r, host, ident), tmpName)
    requires Probe(r.aliases, store, ident).Success?
    requires CacheFilePath(CacheDirPath(r, host, ident),
      ImageExtension(r, host, Probe(r.aliases, store, ident).value.1, ident)) !in fs
    ensures CopyToCacheAsWritten(r, host, store, fs, ident, tmpName, rulesRaise).out
      == CopyToCache(r, host, store, fs, ident, tmpName, rulesRaise).out
  {
  }

  /** A failing rules fetch never changes what `copy_to_cache` returns. */
  lemma RulesFailureSwallowed(
    r: Resolver, host: Host, store: Store, fs: Paths, ident: string, tmpName: string)
    requires FreshTemp(fs, CacheDirPath(r, host, ident), tmpName)
    ensures CopyToCache(r, host, store, fs, ident, tmpName, true).out
      == CopyToCache(r, host, store, fs, ident, tmpName, false).out
  {
  }

  /**
   Populating twice (the second caller finding the first one's file) reports
   the same path, keeps everything the first populate left, and adds at most
   a rules file the first attempt failed to fetch.
   */
  lemma PopulateTwice(
    r: Resolver, host: Host, store: Store, fs: Paths, ident: string,
    tmp1: string, tmp2: string, raise1: bool, raise2: bool)
    requires FreshTemp(fs, CacheDirPath(r, host, ident), tmp1)
    requires CopyToCache(r, host, store, fs, ident, tmp1, raise1).out.Success?
    requires FreshTemp(CopyToCache(r, host, store, fs, ident, tmp1, raise1).fs, CacheDirPath(r, host, ident), tmp2)
    ensures var s1 := CopyToCache(r, host, store, fs, ident, tmp1, raise1);
      var s2 := CopyToCache(r, host, store, s1.fs, ident, tmp2, raise2);
      && s2.out == s1.out
      && s1.fs <= s2.fs <= s1.fs + {CacheFilePath(CacheDirPath(r, host, ident), r.authRulesExt)}
  {
  }

  /**
   When a concurrent caller has already published the image, the source
   raises AttributeError and leaves its temporary file behind, where the
   corrected version returns the existing file's path and removes the
   temporary file.
   */
  lemma ConcurrentWinnerKept(
    r: Resolver, host: Host, store: Store, fs: Paths,
    ident: string, tmpName: string, rulesRaise: bool)
    requires FreshTemp(fs, CacheDirPath(r, host, ident), tmpName)
    requires Probe(r.aliases, store, ident).Success?
    requires CacheFilePath(CacheDirPath(r, host, ident),
      ImageExtension(r, host, Probe(r.aliases, store, ident).value.1, ident)) in fs
    ensures var s := CopyToCacheAsWritten(r, host, store, fs, ident, tmpName, rulesRaise);
      s.out == Failure(NoAttribute) && Join(CacheDirPath(r, host, ident), tmpName) in s.fs
    ensures var s := CopyToCache(r, host, store, fs, ident, tmpName, rulesRaise);
      && s.out == Success(CacheFilePath(CacheDirPath(r, host, ident),
           ImageExtension(r, host, Probe(r.aliases, store, ident).value.1, ident)))
      && Join(CacheDirPath(r, host, ident), tmpName) !in s.fs
  {
  }

  /**
   Where the two rules keys differ it decides whether the rules file is
   cached: with the image and rules files not yet cached and only the
   intended rules key present in the bucket, the code as written caches the
   image but not the rules file, and the corrected version caches both.
   */
  lemma RulesFetchedByKey(r: Resolver, host: Host, store: Store, fs: Paths, ident: string, tmpName: string)
    requires FreshTemp(fs, CacheDirPath(r, host, ident), tmpName)
    requires Probe(r.aliases, store, ident).Success?
    requires var (loc, obj) := Probe(r.aliases, store, ident).value;
      var dir := CacheDirPath(r, host, ident);
      && CacheFilePath(dir, ImageExtension(r, host, obj, ident)) !in fs
      && CacheFilePath(dir, r.authRulesExt) !in fs
      && r.authRulesExt != ImageExtension(r, host, obj, ident)
      && RulesKey(loc.key, r.authRulesExt) in store.buckets[loc.bucket]
      && RulesKeyAsWritten(loc.key, r.authRulesExt) !in store.buckets[loc.bucket]
    ensures var s := CopyToCacheAsWritten(r, host, store, fs, ident, tmpName, false);
      s.out.Success? && CacheFilePath(CacheDirPath(r, host, ident), r.authRulesExt) !in s.fs
    ensures var s := CopyToCache(r, host, store, fs, ident, tmpName, false);
      s.out.Success? && CacheFilePath(CacheDirPath(r, host, ident), r.authRulesExt) in s.fs
  {
  }
}
