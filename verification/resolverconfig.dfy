/**
 The resolver's configuration: the settings mapping it is built from, the
 alias table, the exceptions it raises and the construction-time check.
 */
module ResolverConfig {
  import opened Wrappers

  /** One `bucket_map` entry: the real bucket and an optional key prefix. */
  datatype AliasEntry = AliasEntry(bucket: string, keyPrefix: Option<string>)

  /** The `bucket_map` setting: identifier prefix (alias) to entry. */
  type AliasTable = map<string, AliasEntry>

  /**
   The settings mapping handed to the constructor. A key missing from the
   mapping is `None`. `authRulesExt` is the sidecar rules extension that the
   host's base resolver supplies.
   */
  datatype Settings = Settings(
    cacheRoot: Option<string>,
    bucketMap: Option<AliasTable>,
    defaultFormat: Option<string>,
    authRulesExt: string)

  /**
   A constructed resolver. The alias table is optional rather than a
   `has_bucket_map` flag beside an attribute that may not exist.
   */
  datatype Resolver = Resolver(
    cacheRoot: string,
    aliases: Option<AliasTable>,
    defaultFormat: Option<string>,
    authRulesExt: string)
  {
    /** The source's `has_bucket_map` attribute. */
    predicate HasBucketMap() {
      aliases.Some?
    }
  }

  /** The exceptions the resolver raises, and what raises them. */
  datatype Error =
      /** `ResolverException` at construction: no `cache_root` setting. */
    | ConfigIncomplete
      /** `ResolverException`: the identifier has no `/` to split bucket from key. */
    | InvalidIdentifier(ident: string)
      /** boto's `S3ResponseError` from `get_bucket`: the bucket cannot be reached. */
    | BucketUnavailable(bucket: string)
      /** `ResolverException`: the bucket has no object under the key. */
    | SourceNotFound(bucket: string, key: string)
      /** `AttributeError`: `os.path` has no attribute `remove`. */
    | NoAttribute

  /**
   The constructor: fails exactly when `cache_root` is missing; otherwise
   keeps the settings, and has a bucket map exactly when one was configured.
   */
  function NewResolver(s: Settings): (r: Result<Resolver, Error>)
    ensures r.Failure? <==> s.cacheRoot.None?
    ensures r.Failure? ==> r.error == ConfigIncomplete
    ensures r.Success? ==> r.value.cacheRoot == s.cacheRoot.value
    ensures r.Success? ==> (r.value.HasBucketMap() <==> s.bucketMap.Some?)
    ensures r.Success? ==> r.value.aliases == s.bucketMap
    ensures r.Success? ==> r.value.defaultFormat == s.defaultFormat
    ensures r.Success? ==> r.value.authRulesExt == s.authRulesExt
  {
    match s.cacheRoot
    case None => Failure(ConfigIncomplete)
    case Some(root) => Success(Resolver(root, s.bucketMap, s.defaultFormat, s.authRulesExt))
  }

  /** The alias table of the resolver's own tests. */
  function TestAliases(): AliasTable {
    map[
      "iiif" := AliasEntry("bucket-iiif", Some("hx")),
      "loris" := AliasEntry("bucket-loris", None)
    ]
  }

  /**
   The resolver's configuration tests: with a `bucket_map` the resolver has
   one holding the configured entries; with it deleted it has none; without
   `cache_root` construction fails.
   */
  lemma TestConfigBucketMap(rulesExt: string)
    ensures var r := NewResolver(Settings(Some("/var/tmp/loris"), Some(TestAliases()), None, rulesExt));
      && r.Success? && r.value.HasBucketMap()
      && "iiif" in r.value.aliases.value
      && r.value.aliases.value["iiif"].bucket == "bucket-iiif"
    ensures var r := NewResolver(Settings(Some("/var/tmp/loris"), None, None, rulesExt));
      r.Success? && !r.value.HasBucketMap() && r.value.aliases == None
    ensures NewResolver(Settings(None, Some(TestAliases()), None, rulesExt)) == Failure(ConfigIncomplete)
  {
  }
}
