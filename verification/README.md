# hxloris S3 resolver, modelled in Dafny

A model of `S3Resolver`, a resolver plugin for the loris image server. The
resolver maps an image identifier of the form `<bucket-or-alias>/<key>` to an
object in an S3 bucket. It copies that object once into a local cache
directory (`<cache_root>/<name>/loris_cache.<ext>`), and it also fetches a
sidecar "rules" file for access control on a best-effort basis. With the boto,
filesystem and logging calls abstracted away, what remains is a set of small
decisions. Each one is modelled as a pure function:

- `ResolverConfig`: the settings mapping, the optional alias table
  (`bucket_map`), the exceptions, and the constructor's `cache_root` check.
- `PosixPath`: the Python string and path primitives the resolver uses. These
  are `str.split('/', 1)`, `posixpath.join`, `posixpath.split`, `str.rstrip`
  and `str.rsplit('.')[0]`, with their Python semantics.
- `Identifiers`: `s3resource_ident`. It splits on the first `/` and then
  substitutes the alias, joining on the key prefix when there is one.
- `Formats`: `get_format` and `cache_file_extension`, a chain of priorities:
  the default format first, then the content type's format, then the
  identifier's format.
- `CachePopulator`: `copy_to_cache`, in two versions. It probes the remote
  object, picks the extension, downloads into a temporary file, publishes only
  if the final file does not yet exist, and fetches the rules file.
- `ResolverFacade`: `is_resolvable`, the cache-hit short-circuit of `resolve`,
  and what a directory lookup may answer.

The filesystem is the set of paths that exist (`Paths`). Each operation maps
it to a new set together with a `Result`. The S3 store is a map from each
reachable bucket to its objects:
- `get_bucket` raises `S3ResponseError` exactly for a bucket missing from the
  map;
- `get_key` returns `None` exactly for a missing key.

The host's collaborators are fields of `Host`, taken as given:
- the cache directory namer;
- the identifier regex checker;
- `format_from_ident`;
- the media-type table.

The name `tempfile` picks is a parameter. `FreshTemp` states what tempfile
guarantees about that name. Whether the rules fetch raises is a boolean
parameter.

The three defects listed under Findings are modelled both as written and
corrected. The as-written versions are `PublishAsWritten`, `RulesKeyAsWritten`,
`CopyToCacheAsWritten` and `ResolveAsWritten`, and lemmas show each defect on
them. `Resolve` is built on the corrected `CopyToCache`, and
`ResolveAsWrittenAgrees` and `ResolveLostRace` state where the two versions
of `resolve` agree and where they part.

Where the comments in `hxloris/s3resolver.py` suggest more than the code does,
the model follows the code:
- The comment at line 67 speaks of a response status below 400, but
  `is_resolvable` only checks that the bucket is reachable and that `get_key`
  finds the key (lines 84-97). It does not look at the object's size or status.
- `copy_to_cache` creates the cache directory (line 180) before it asks the
  store for the bucket and the key (lines 183-189); see Findings.

`Error` names each raise site:
- `ResolverException` for a missing `cache_root`, an identifier without `/`
  and a missing key;
- boto's `S3ResponseError` for an unreachable bucket;
- Python's AttributeError from `os.path.remove` at line 207.
A KeyError for a `bucket_map` entry without `bucket` is not modelled (see
"## Left out").

## Model

| member | source | states |
|---|---|---|
| ResolverConfig.NewResolver | hxloris/s3resolver.py:40-63 | Construction fails with the configuration error exactly when `cache_root` is missing. Otherwise the resolver keeps the settings and has a bucket map exactly when `bucket_map` was configured. |
| ResolverConfig.TestConfigBucketMap | tests/test_s3resolver.py:23-49 | With the test configuration, the resolver has the `iiif` alias mapped to `bucket-iiif`. With `bucket_map` deleted, it has none. |
| PosixPath.SplitOnce | hxloris/s3resolver.py:112-119 | `split('/', 1)` gives two parts exactly when the identifier contains `/`. The first part has no `/`, and part + `/` + rest is the input. |
| PosixPath.SplitOnceUnique | hxloris/s3resolver.py:112 | Every decomposition `a + "/" + b` in which `a` has no `/` is the one the split returns, so the split is on the first `/` only. |
| PosixPath.Join | hxloris/s3resolver.py:125-127 | `os.path.join`: an absolute second part replaces the first. Otherwise the first part is a prefix, the second part is a suffix, and the length is the sum of the two, plus one `/` exactly when the first part is non-empty and does not end in `/`. |
| PosixPath.Split | hxloris/s3resolver.py:217 | `os.path.split`: the tail has no `/` and ends the path, right after its last `/`. The head is a prefix of the path, and only slashes lie between it and the tail. When everything before the tail is slashes, the head is all of it; otherwise it does not end in `/`. |
| PosixPath.SplitTailAfterSep | hxloris/s3resolver.py:217-218 | Whatever precedes the last `/`, the `/`-free name after it is the tail `split` returns. |
| PosixPath.SplitUnderRoot | hxloris/s3resolver.py:217 | A `/`-free name under the root splits into `/` and the name. |
| PosixPath.SplitJoin | hxloris/s3resolver.py:217-219 | Splitting a head that `split` can produce, joined with a name that has no `/`, gives back that head and that name. |
| PosixPath.StemBeforeFirstDot | hxloris/s3resolver.py:218 | `rsplit('.')[0]` with no maxsplit is the text before the first dot, or the whole name when it has no dot. |
| Identifiers.S3ResourceIdent | hxloris/s3resolver.py:111-119 | Parsing fails with the invalid-identifier error exactly when the identifier contains no `/`. |
| Identifiers.TrailingSlashEmptyKey | hxloris/s3resolver.py:112-114 | `bucket/` parses to that bucket with an empty key. |
| Identifiers.LiteralBucketRoundTrip | hxloris/s3resolver.py:111-133 | A non-alias bucket with no `/`, followed by `/` and any key, parses back to exactly that bucket and key. |
| Identifiers.LiteralBucketSplit | hxloris/s3resolver.py:132-133 | When the first segment is not an alias, the bucket has no `/` and bucket + `/` + key is the identifier. |
| Identifiers.NoTableLiteralBucket | hxloris/s3resolver.py:122 | With no alias table, the first segment is always the bucket. |
| Identifiers.AliasedIdent | hxloris/s3resolver.py:122-130 | An alias is replaced by its entry's bucket. The key is the rest joined onto the key prefix when there is one, and the rest unchanged otherwise. |
| Identifiers.TestAliasedIdent | tests/test_s3resolver.py:31-37 | `iiif/image.jpg/...` parses to `bucket-iiif` and `hx/image.jpg/...`. |
| Identifiers.TestLiteralIdent | tests/test_s3resolver.py:39-53 | An unmapped prefix, or any prefix when there is no table, is kept as the bucket. |
| Formats.GetFormat | hxloris/s3resolver.py:100-108 | The default format wins. Without one, the suggested format is used, and without that, the identifier's format. |
| Formats.CacheFileExtension | hxloris/s3resolver.py:155-170 | A mapped content type is passed to `get_format` as the suggestion. A missing or unmapped content type falls back to `get_format` with no suggestion. |
| Formats.DefaultFormatDecides | hxloris/s3resolver.py:155-170 | When a default format is configured, it is the extension whatever the content type. |
| Formats.ExtensionWithoutDefault | hxloris/s3resolver.py:155-170 | Without a default, the extension is the content type's mapped format exactly when it has one, and the identifier's format otherwise. |
| Formats.ExtensionIsACandidate | hxloris/s3resolver.py:155-170 | The extension is always one of three things: the default, a media-table format, or the identifier's format. |
| CachePopulator.Probe | hxloris/s3resolver.py:176-189 | Fetching the object succeeds exactly when the identifier parses, its bucket is reachable and its key exists. Otherwise it fails with the invalid-identifier, unreachable-bucket or not-found error, in that order. |
| CachePopulator.CacheFilePathMatches | hxloris/s3resolver.py:146-153 | `loris_cache.<ext>` matches the lookup pattern `loris_cache.*` exactly when the extension contains no `/`. |
| CachePopulator.CacheDirUnderRoot | hxloris/s3resolver.py:136-141 | `cache_dir_path` ends with the namer's name. A relative name lands directly under the cache root, with one `/` added exactly when the root does not end in one. An absolute name replaces the root. |
| CachePopulator.FreshTempDistinct | hxloris/s3resolver.py:194-195 | The temporary file is neither the cache directory nor any `loris_cache.` file in it. |
| CachePopulator.CacheFilesDistinct | hxloris/s3resolver.py:192-224 | A cache file is never the directory itself. Two cache files in one directory are the same path exactly when their extensions are equal, so the rules file is the image file only when the rules extension is the image's. |
| CachePopulator.RulesFileName | hxloris/s3resolver.py:217-218 | The rules file name is the image key's basename up to its first dot, then `.` + rules extension. It contains no `/` when the extension contains none. |
| CachePopulator.RulesKeyAsWritten | hxloris/s3resolver.py:217-219 | As written, the rules key starts with the image key's head. `split` gives back the rules file name as its tail. |
| CachePopulator.RulesKey | hxloris/s3resolver.py:213-219 | The corrected rules key splits into the image key's own directory and the rules file name, so it lies next to the image key. |
| CachePopulator.TopLevelRulesKeyAsWritten | hxloris/s3resolver.py:217-219 | As written, an image key with no `/` gets the absolute rules key `/<name>`, whose directory is `/`. The image's own directory is empty. |
| CachePopulator.RootRulesKeyAsWritten | hxloris/s3resolver.py:217-219 | As written, an image key `/<image>` at the root gets the rules key `//<name>`, while the intended key is `/<name>`. |
| CachePopulator.TopLevelRulesKeysDiffer | hxloris/s3resolver.py:217-219 | For an image key with no `/`, the intended rules key is the bare rules file name, and the key as written is a different key. |
| CachePopulator.RulesKeyAsWrittenAgrees | hxloris/s3resolver.py:217-219 | When the image key's directory is neither empty nor all slashes, the written rules key is the intended one. |
| CachePopulator.PublishAsWritten | hxloris/s3resolver.py:204-211 | As written, publishing succeeds exactly when the final file is absent, and then renames the temporary file into place. When the final file exists, it raises AttributeError and leaves every path as it was. |
| CachePopulator.Publish | hxloris/s3resolver.py:198-211 | The final path is returned and exists, and the temporary file is gone. Nothing else is removed, so an existing final file is kept, and nothing but the final file is added. |
| CachePopulator.FetchRules | hxloris/s3resolver.py:220-231 | The local rules file is added only if it is absent and the rules key exists, and only when no exception is raised. No other path changes. |
| CachePopulator.CopyToCacheAsWritten | hxloris/s3resolver.py:172-233 | As written, a parse failure changes nothing. Once parsing succeeds, the cache directory exists afterwards even when the remote probe fails, and the probe's error is raised. When the object exists, it succeeds exactly when `loris_cache.<ext>` was absent. It then returns that path, which exists, removes the temporary file and adds only the directory, the image and the rules file. The rules file `loris_cache.<rules-ext>` exists afterwards exactly when it existed before, or its extension is the image's, or the fetch did not raise and the bucket holds the rules key as written (`head + '/' + name`). Otherwise it raises AttributeError and leaves the temporary file behind. |
| CachePopulator.FetchAsWritten | hxloris/s3resolver.py:179-233 | As written, once the identifier has parsed, the cache directory is created first, and it stays when the bucket or the key is missing and the probe's error is raised. When the object exists, it states the same outcome as `CopyToCacheAsWritten`, with a lost race leaving exactly the directory and the temporary file added. The rules file is fetched from the key as written. |
| CachePopulator.PopulateAsWritten | hxloris/s3resolver.py:191-233 | Once the directory and the object exist: succeeds exactly when the image file is absent, returning it with the temporary file gone and at most the image and rules files added. After a success the rules file exists exactly when it existed before, or its extension is the image's, or the fetch did not raise and the given rules key is in the bucket. A lost race raises AttributeError with only the temporary file added. |
| CachePopulator.AsWrittenAgreesNoRace | hxloris/s3resolver.py:204-211 | When the object exists and its image file is not there yet, the code as written returns what the corrected version returns. |
| CachePopulator.Populate | hxloris/s3resolver.py:191-233 | Once the object exists, `cache_dir/loris_cache.<ext>` is returned and exists, and the temporary file is gone. Nothing is removed, and only the directory, the image file and the rules file can be added. The rules file exists afterwards exactly when it existed before, or its extension is the image's, or the fetch did not raise and the given rules key is in the bucket. |
| CachePopulator.CopyToCache | hxloris/s3resolver.py:172-233 | Succeeds exactly when the probe does, and a failure changes nothing. On success it returns `cache_dir/loris_cache.<ext>`, which exists. The cache directory exists, and nothing but the directory, the image file and the rules file is added. The rules file exists afterwards exactly when it existed before, or its extension is the image's, or the fetch did not raise and the bucket holds the rules key next to the image key. |
| CachePopulator.RulesFailureSwallowed | hxloris/s3resolver.py:220-233 | An exception in the rules fetch never changes what `copy_to_cache` returns. |
| CachePopulator.PopulateTwice | hxloris/s3resolver.py:198-209 | A second populate after a successful one reports the same path. It keeps everything and adds at most the rules file. |
| CachePopulator.ConcurrentWinnerKept | hxloris/s3resolver.py:204-209 | When another process has already published the image, the code as written raises AttributeError and leaves its temporary file behind. The corrected version returns the existing file and removes the temporary one. |
| CachePopulator.RulesFetchedByKey | hxloris/s3resolver.py:217-226 | When the image and rules files are not cached, the extensions differ, and the bucket holds the intended rules key but not the key as written, the code as written caches the image without the rules file, and the corrected version caches both. |
| ResolverFacade.IsResolvable | hxloris/s3resolver.py:66-97 | False when the regex rejects the identifier. True when the cache directory exists, without asking the store. Otherwise true exactly when the remote probe succeeds. |
| ResolverFacade.IsResolvableFalseCases | hxloris/s3resolver.py:78-97 | With no cache directory, each of these gives false: no `/`, an unreachable bucket, a missing key. |
| ResolverFacade.ResolvableIffPopulates | hxloris/s3resolver.py:74-97 | With no cache directory, an allowed identifier is resolvable exactly when populating the cache succeeds. |
| ResolverFacade.FailedCopyAsWrittenMakesResolvable | hxloris/s3resolver.py:179-189 | As written, a populate that fails at the bucket or the key leaves the cache directory behind. A non-resolvable identifier then becomes resolvable. |
| ResolverFacade.FailedCopyKeepsResolvability | hxloris/s3resolver.py:172-189 | A failed corrected populate leaves every `is_resolvable` answer unchanged. |
| ResolverFacade.LookupAlwaysAnswers | hxloris/s3resolver.py:146-153 | `ConsistentLookup` describes what `cached_file_for_ident` may answer: a `loris_cache.*` file in an existing cache directory, or None. Some answer is always consistent, and None is not when the directory exists and holds a cache file. |
| ResolverFacade.LookupMayYieldRules | hxloris/s3resolver.py:146-153 | The cache lookup may answer with the rules sidecar, because `loris_cache.<rules-ext>` also matches `loris_cache.*`. |
| ResolverFacade.Resolve | hxloris/s3resolver.py:236-246 | Corrected `resolve`: a non-empty cached path is served, with the filesystem unchanged. Otherwise the corrected populate runs and its path or error is passed on. The format is `get_format` of the served path. |
| ResolverFacade.ResolveAsWritten | hxloris/s3resolver.py:236-246 | `resolve` as written: the same cache hit. A miss passes on the path or the error of `copy_to_cache` as written, including its filesystem changes. The format is `get_format` of the served path. |
| ResolverFacade.ResolveLostRace | hxloris/s3resolver.py:204-209 | When the lookup misses but the image file is already there, `resolve` as written raises AttributeError, while the corrected one serves that file. |
| ResolverFacade.ResolveAsWrittenAgrees | hxloris/s3resolver.py:236-239 | On a cache hit, and on a miss whose object exists and whose image file is absent, both versions of `resolve` return the same result. |
| ResolverFacade.ResolvedFormatIsDefault | hxloris/s3resolver.py:240 | When a default format is configured, every resolved image has that format. |
| ResolverFacade.ResolveTwiceHitsCache | hxloris/s3resolver.py:236-239 | After a resolve that populated the cache, every possible lookup answer is a hit. The second resolve serves it and changes nothing. |

## Findings

| source | as written | input that shows it | evidently intended | confidence | as-written member | corrected member |
|---|---|---|---|---|---|---|
| hxloris/s3resolver.py:204-209 | when the final file exists, the code calls `os.path.remove(tmp_file.name)`, but `os.path` has no `remove`, so AttributeError is raised out of `copy_to_cache` and `resolve` | a concurrent process publishes `loris_cache.<ext>` between this caller's lookup and its existence check | delete the temporary file with `os.remove`, keep the winner's file, return the final path | high, not executed | CachePopulator.PublishAsWritten | CachePopulator.Publish |
| hxloris/s3resolver.py:217-219 | rules key = head + `/` + name | image key `image.jpg` (identifier `bucket/image.jpg`): the rules key becomes `/image.rules`, a different S3 key from the sibling `image.rules`. A key at the root, `/image.jpg`, gives `//image.rules` instead of `/image.rules` (`RootRulesKeyAsWritten`). When only the sibling key exists, the rules file is never cached (`RulesFetchedByKey`) | the rules object next to the image: `os.path.join(head, name)` | medium, not executed | CachePopulator.TopLevelRulesKeyAsWritten | CachePopulator.RulesKey |
| hxloris/s3resolver.py:179-189 | `mkdir_p(cache_dir)` runs before `get_bucket`/`get_key`, and `is_resolvable` (lines 74-76) answers true whenever that directory exists | resolve `b/missing.jpg` where bucket `b` lacks the key: the call raises, but `is_resolvable('b/missing.jpg')` then returns true | a failed fetch leaves no cache entry behind, so the directory shortcut only fires for populated entries | medium, not executed | ResolverFacade.FailedCopyAsWrittenMakesResolvable | ResolverFacade.FailedCopyKeepsResolvability |

## Left out

- S3 access through boto (`connect_s3`, `get_bucket`, `get_key`, the downloads) is modelled only by the `Store` map. Object contents are not modelled, because every writer is assumed to fetch the same bytes.
- The model does not cover `get_key` raising (for example a permission error on the key) inside `is_resolvable` or `copy_to_cache`. It also does not cover a failing image download, which leaves a partial temporary file. The store map never raises for a present bucket.
- The rules fetch swallows every exception. The model does not cover a partially written local rules file left by an exception raised mid-download. A raised exception is modelled as changing nothing.
- Interleavings between processes are not modelled, including the window between the existence check and the rename. Only the single caller's decision is modelled, over whatever the filesystem holds at check time.
- `mkdir_p` creating parent directories, `safe_rename` falling back to a copy across devices, and temporary-file permissions are left out as filesystem plumbing. The cache directory and files are single paths.
- `cached_file_for_ident` (lines 146-153) is not computed, because the order of `glob` is unspecified. `Resolve` and `ResolveAsWritten` take its answer as the parameter `lookup` and accept any answer. `ConsistentLookup` describes the answers a directory listing can give. Only `ResolveTwiceHitsCache`, `LookupMayYieldRules` and `LookupAlwaysAnswers` assume it. `ResolveLostRace` takes a miss while the image file exists, which is the stale answer a caller sees when another process publishes between the lookup and the check.
- ResolveTwiceHitsCache: promises a cache hit, but not that the second resolve returns the same path. The lookup may yield the rules sidecar, which also matches `loris_cache.*`, and the source's directory listing gives no order.
- Resolve: this is the corrected `resolve`. It does not show the source's AttributeError on a lost race, the cache directory left behind by a failed fetch, or the as-written rules key of a top-level or root image. Those are stated by `ResolveAsWritten`, `ResolveLostRace`, `FailedCopyAsWrittenMakesResolvable` and `TopLevelRulesKeyAsWritten`.
- CopyToCache, Populate, CopyToCacheAsWritten, FetchAsWritten, PopulateAsWritten, Resolve, ResolveAsWritten: require `FreshTemp`, which is what `tempfile.NamedTemporaryFile` guarantees about the name it picks. The name itself is a parameter.
- `urllib.parse.unquote` is a library call: identifiers are taken as already percent-decoded.
- `CacheNamer.cache_directory_name`, `IdentRegexChecker` (with the `ident_regex` setting), `format_from_ident` and `FORMATS_BY_MEDIA_TYPE` are taken as given functions and a table. `auth_rules_ext` is taken as a given string. These are collaborators from the loris package, which is not part of this model.
- `fix_base_uri`, `use_extra_info`, `get_extra_info` and the `ImageInfo` wrapper are loris collaborators. `Resolve` returns only the path and the format.
- A `bucket_map` entry with no `bucket` field raises KeyError in the source. `AliasEntry` always has a bucket, so that case is not modelled.
- Logging is left out, and so is `setup.py`, which is packaging metadata.
