/**
 The resolver's entry points for the host: `is_resolvable`, answered from
 the cache directory or a remote probe, and `resolve`, which serves a cached
 file or populates the cache first.
 */
module ResolverFacade {
  import opened Wrappers
  import opened PosixPath
  import opened ResolverConfig
  import opened Identifiers
  import opened Formats
  import opened CachePopulator

  /** What `resolve` hands back: the local image path and its format. */
  datatype Resolved = Resolved(path: string, format: string)

  /**
   `is_resolvable`: false for an identifier the regex rejects; true when its
   cache directory exists, without asking the store; otherwise true exactly
   when parsing succeeds, the bucket can be reached and the key exists.
   */
  function IsResolvable(r: Resolver, host: Host, store: Store, fs: Paths, ident: string): (b: bool)
    ensures !host.identAllowed(ident) ==> !b
    ensures host.identAllowed(ident) && CacheDirPath(r, host, ident) in fs ==> b
    ensures host.identAllowed(ident) && CacheDirPath(r, host, ident) !in fs ==>
      (b <==> Probe(r.aliases, store, ident).Success?)
  {
    if !host.identAllowed(ident) then false
    else if CacheDirPath(r, host, ident) in fs then true
    else Probe(r.aliases, store, ident).Success?
  }

  /**
   Each way `is_resolvable` says no once the cache directory is absent: an
   identifier with no `/`, an unreachable bucket, a missing key.
   */
  lemma IsResolvableFalseCases(r: Resolver, host: Host, store: Store, fs: Paths, ident: string)
    requires CacheDirPath(r, host, ident) !in fs
    ensures Sep !in ident ==> !IsResolvable(r, host, store, fs, ident)
    ensures Sep in ident && S3ResourceIdent(r.aliases, ident).value.bucket !in store.buckets ==>
      !IsResolvable(r, host, store, fs, ident)
    ensures Sep in ident ==> var loc := S3ResourceIdent(r.aliases, ident).value;
      loc.bucket in store.buckets && loc.key !in store.buckets[loc.bucket] ==>
      !IsResolvable(r, host, store, fs, ident)
  {

  }

  /**
   With no cache directory yet, an allowed identifier is resolvable exactly
   when populating the cache for it succeeds.
   */
  lemma ResolvableIffPopulates(
    r: Resolver, host: Host, store: Store, fs: Paths,
    ident: string, tmpName: string, rulesRaise: bool)
    requires host.identAllowed(ident)
    requires CacheDirPath(r, host, ident) !in fs
    requires FreshTemp(fs, CacheDirPath(r, host, ident), tmpName)
    ensures IsResolvable(r, host, store, fs, ident)
      <==> CopyToCache(r, host, store, fs, ident, tmpName, rulesRaise).out.Success?
  {
  }

  /**
   As written, a populate that fails remotely after parsing (unreachable
   bucket, missing key) has already created the cache directory, so an
   identifier that was not resolvable becomes resolvable.
   */
  lemma FailedCopyAsWrittenMakesResolvable(
    r: Resolver, host: Host, store: Store, fs: Paths,
    ident: string, tmpName: string, rulesRaise: bool)
    requires host.identAllowed(ident)
    requires CacheDirPath(r, host, ident) !in fs
    requires FreshTemp(fs, CacheDirPath(r, host, ident), tmpName)
    requires Sep in ident && Probe(r.aliases, store, ident).Failure?
    ensures !IsResolvable(r, host, store, fs, ident)
    ensures var s := CopyToCacheAsWritten(r, host, store, fs, ident, tmpName, rulesRaise);
      s.out.Failure? && IsResolvable(r, host, store, s.fs, ident)
  {
  }

  /** A failed corrected populate leaves every `is_resolvable` answer as it was. */
  lemma FailedCopyKeepsResolvability(
    r: Resolver, host: Host, store: Store, fs: Paths,
    ident: string, tmpName: string, rulesRaise: bool, other: string)
    requires FreshTemp(fs, CacheDirPath(r, host, ident), tmpName)
    requires CopyToCache(r, host, store, fs, ident, tmpName, rulesRaise).out.Failure?
    ensures IsResolvable(r, host, store, CopyToCache(r, host, store, fs, ident, tmpName, rulesRaise).fs, other)
      == IsResolvable(r, host, store, fs, other)
  {
  }

  /**
   A possible answer of `cached_file_for_ident`: a file matching
   `loris_cache.*` in an existing cache directory, or None when the
   directory is missing or holds no such file. Which match the directory
   listing yields first is left open.
   */
  predicate ConsistentLookup(fs: Paths, dir: string, lookup: Option<string>) {
    match lookup
    case Some(p) => dir in fs && p in fs && IsCacheFile(dir, p)
    case None => dir !in fs || forall p :: p in fs ==> !IsCacheFile(dir, p)
  }

  /**
   Whatever the filesystem holds, the lookup has an answer: the first match
   of an existing directory's listing, or None when there is none.
   A directory holding a cache file never answers None.
   */
  lemma LookupAlwaysAnswers(fs: Paths, dir: string)
    ensures exists lookup :: ConsistentLookup(fs, dir, lookup)
    ensures (dir in fs && exists p :: p in fs && IsCacheFile(dir, p)) ==> !ConsistentLookup(fs, dir, None)
  {
    if dir in fs && exists p :: p in fs && IsCacheFile(dir, p) {
      var p :| p in fs && IsCacheFile(dir, p);
      assert ConsistentLookup(fs, dir, Some(p));
    } else {
      assert ConsistentLookup(fs, dir, None);
    }
  }

  /**
   The directory listing may yield the sidecar rules file too, since its name
   also matches `loris_cache.*`.
   */
  lemma LookupMayYieldRules(fs: Paths, dir: string, rulesExt: string)
    requires Sep !in rulesExt && dir in fs && CacheFilePath(dir, rulesExt) in fs
    ensures ConsistentLookup(fs, dir, Some(CacheFilePath(dir, rulesExt)))
  {
    CacheFilePathMatches(dir, rulesExt);
  }

  /** What `resolve` builds once it has a path: the path and `get_format` of it; an exception passes through. */
  function Served(r: Resolver, host: Host, s: Step<string>): (t: Step<Resolved>)
    ensures t.fs == s.fs && (t.out.Success? <==> s.out.Success?)
    ensures s.out.Success? ==> t.out.value.path == s.out.value
    ensures s.out.Failure? ==> t.out.error == s.out.error
    ensures t.out.Success? ==>
      t.out.value.format == GetFormat(r.defaultFormat, None, host.formatFromIdent, t.out.value.path)
  {
    match s.out
    case Failure(e) => Step(s.fs, Failure(e))
    case Success(p) => Step(s.fs, Success(Resolved(p, GetFormat(r.defaultFormat, None, host.formatFromIdent, p))))
  }

  /**
   `resolve`: a non-empty cached path is served without touching the store
   or the filesystem; otherwise the cache is populated and its failure
   propagated. The format is `get_format` of the served path. This is the
   corrected `resolve`, built on the corrected `copy_to_cache`.
   */
  function Resolve(
    r: Resolver, host: Host, store: Store, fs: Paths, ident: string,
    lookup: Option<string>, tmpName: string, rulesRaise: bool): (s: Step<Resolved>)
    requires FreshTemp(fs, CacheDirPath(r, host, ident), tmpName)
    ensures lookup.Some? && lookup.value != "" ==> s.fs == fs && s.out.Success? && s.out.value.path == lookup.value
    ensures lookup.None? || lookup.value == "" ==>
      var c := CopyToCache(r, host, store, fs, ident, tmpName, rulesRaise);
      && s.fs == c.fs
      && (s.out.Success? <==> c.out.Success?)
      && (c.out.Success? ==> s.out.value.path == c.out.value)
      && (c.out.Failure? ==> s.out.error == c.out.error)
    ensures s.out.Success? ==>
      s.out.value.format == GetFormat(r.defaultFormat, None, host.formatFromIdent, s.out.value.path)
  {
    if lookup.Some? && lookup.value != "" then Served(r, host, Step(fs, Success(lookup.value)))
    else Served(r, host, CopyToCache(r, host, store, fs, ident, tmpName, rulesRaise))
  }

  /**
   `resolve` as written: the same cache-hit short-circuit, but a miss runs
   `copy_to_cache` as written, with its lost-race AttributeError, the
   directory it leaves behind after a remote failure, and its rules key.
   */
  function ResolveAsWritten(
    r: Resolver, host: Host, store: Store, fs: Paths, ident: string,
    lookup: Option<string>, tmpName: string, rulesRaise: bool): (s: Step<Resolved>)
    requires FreshTemp(fs, CacheDirPath(r, host, ident), tmpName)
    ensures lookup.Some? && lookup.value != "" ==> s.fs == fs && s.out.Success? && s.out.value.path == lookup.value
    ensures lookup.None? || lookup.value == "" ==>
      var c := CopyToCacheAsWritten(r, host, store, fs, ident, tmpName, rulesRaise);
      && s.fs == c.fs
      && (s.out.Success? <==> c.out.Success?)
      && (c.out.Success? ==> s.out.value.path == c.out.value)
      && (c.out.Failure? ==> s.out.error == c.out.error)
    ensures s.out.Success? ==>
      s.out.value.format == GetFormat(r.defaultFormat, None, host.formatFromIdent, s.out.value.path)
  {
    if lookup.Some? && lookup.value != "" then Served(r, host, Step(fs, Success(lookup.value)))
    else Served(r, host, CopyToCacheAsWritten(r, host, store, fs, ident, tmpName, rulesRaise))
  }

  /**
   A lost race in `resolve`: the lookup found nothing, but by the time the
   image is published another process's file is there. As written, `resolve`
   raises AttributeError; corrected, it serves that file.
   */
  lemma ResolveLostRace(
    r: Resolver, host: Host, store: Store, fs: Paths, ident: string,
    tmpName: string, rulesRaise: bool)
    requires FreshTemp(fs, CacheDirPath(r, host, ident), tmpName)
    requires Probe(r.aliases, store, ident).Success?
    requires CacheFilePath(CacheDirPath(r, host, ident),
      ImageExtension(r, host, Probe(r.aliases, store, ident).value.1, ident)) in fs
    ensures ResolveAsWritten(r, host, store, fs, ident, None, tmpName, rulesRaise).out == Failure(NoAttribute)
    ensures var s := Resolve(r, host, store, fs, ident, None, tmpName, rulesRaise);
      s.out.Success? && s.out.value.path == CacheFilePath(CacheDirPath(r, host, ident),
        ImageExtension(r, host, Probe(r.aliases, store, ident).value.1, ident))
  {
  }

  /**
   Outside a lost race the two versions of `resolve` answer alike: on a cache
   hit, and on a miss whose object exists and whose image file is not there yet.
   */
  lemma ResolveAsWrittenAgrees(
    r: Resolver, host: Host, store: Store, fs: Paths, ident: string,
    lookup: Option<string>, tmpName: string, rulesRaise: bool)
    requires FreshTemp(fs, CacheDirPath(r, host, ident), tmpName)
    requires (lookup.Some? && lookup.value != "") || (
      && Probe(r.aliases, store, ident).Success?
      && CacheFilePath(CacheDirPath(r, host, ident),
           ImageExtension(r, host, Probe(r.aliases, store, ident).value.1, ident)) !in fs)
    ensures ResolveAsWritten(r, host, store, fs, ident, lookup, tmpName, rulesRaise).out
      == Resolve(r, host, store, fs, ident, lookup, tmpName, rulesRaise).out
  {
    if !(lookup.Some? && lookup.value != "") {
      AsWrittenAgreesNoRace(r, host, store, fs, ident, tmpName, rulesRaise);
    }
  }

  /** A configured default format is the format of every resolved image. */
  lemma ResolvedFormatIsDefault(
    r: Resolver, host: Host, store: Store, fs: Paths, ident: string,
    lookup: Option<string>, tmpName: string, rulesRaise: bool)
    requires FreshTemp(fs, CacheDirPath(r, host, ident), tmpName)
    requires r.defaultFormat.Some?
    requires Resolve(r, host, store, fs, ident, lookup, tmpName, rulesRaise).out.Success?
    ensures Resolve(r, host, store, fs, ident, lookup, tmpName, rulesRaise).out.value.format
      == r.defaultFormat.value
  {
  }

  /**
   Resolving twice: after a resolve that had to populate the cache, every
   answer the cache lookup can give is a hit, so the second resolve serves a
   cached file, downloads nothing and changes nothing. The image extension
   must be a plain name for its file to match `loris_cache.*`.
   */
  lemma {:induction false} ResolveTwiceHitsCache(
    r: Resolver, host: Host, store: Store, fs: Paths, ident: string,
    tmp1: string, tmp2: string, raise1: bool, raise2: bool, lookup2: Option<string>)
    requires FreshTemp(fs, CacheDirPath(r, host, ident), tmp1)
    requires Resolve(r, host, store, fs, ident, None, tmp1, raise1).out.Success?
    requires Sep !in ImageExtension(r, host, Probe(r.aliases, store, ident).value.1, ident)
    requires FreshTemp(Resolve(r, host, store, fs, ident, None, tmp1, raise1).fs, CacheDirPath(r, host, ident), tmp2)
    requires ConsistentLookup(Resolve(r, host, store, fs, ident, None, tmp1, raise1).fs, CacheDirPath(r, host, ident), lookup2)
    ensures lookup2.Some?
    ensures var s1 := Resolve(r, host, store, fs, ident, None, tmp1, raise1);
      var s2 := Resolve(r, host, store, s1.fs, ident, lookup2, tmp2, raise2);
      s2.fs == s1.fs && s2.out.Success? && s2.out.value.path == lookup2.value
  {
    var dir := CacheDirPath(r, host, ident);
    var s1 := Resolve(r, host, store, fs, ident, None, tmp1, raise1);
    var final := s1.out.value.path;
    var ext := ImageExtension(r, host, Probe(r.aliases, store, ident).value.1, ident);
    assert final == CacheFilePath(dir, ext) && final in s1.fs && dir in s1.fs;
    CacheFilePathMatches(dir, ext);
    assert IsCacheFile(dir, final);
    assert lookup2.Some?;
    assert IsCacheFile(dir, lookup2.value);
  }
}
