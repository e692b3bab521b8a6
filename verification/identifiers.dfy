/**
 Identifier parsing: `<bucket-or-alias>/<key>` to a remote object location,
 through the optional alias table.
 */
module Identifiers {
  import opened Wrappers
  import opened PosixPath
  import opened ResolverConfig

  /** A remote object reference: bucket name and object key. */
  datatype Location = Location(bucket: string, key: string)

  /** The first segment is a configured alias. */
  predicate IsAlias(aliases: Option<AliasTable>, segment: string) {
    aliases.Some? && segment in aliases.value
  }

  /** The key an alias entry yields for the rest of the identifier. */
  function AliasKey(entry: AliasEntry, rest: string): (key: string)
    ensures entry.keyPrefix.None? ==> key == rest
    ensures entry.keyPrefix.Some? ==> key == Join(entry.keyPrefix.value, rest)
  {
    match entry.keyPrefix
    case None => rest
    case Some(prefix) => Join(prefix, rest)
  }

  /** Location of an identifier already split into its first segment and the rest. */
  function Locate(aliases: Option<AliasTable>, segment: string, rest: string): (loc: Location)
    ensures IsAlias(aliases, segment) ==>
      loc == Location(aliases.value[segment].bucket, AliasKey(aliases.value[segment], rest))
    ensures !IsAlias(aliases, segment) ==> loc == Location(segment, rest)
  {
    if IsAlias(aliases, segment) then
      var entry := aliases.value[segment];
      Location(entry.bucket, AliasKey(entry, rest))
    else
      Location(segment, rest)
  }

  /**
   `s3resource_ident`: split on the first `/` only; fail when there is none.
   An identifier ending in `/` still parses, with an empty remainder.
   */
  function S3ResourceIdent(aliases: Option<AliasTable>, ident: string): (r: Result<Location, Error>)
    ensures r.Failure? <==> Sep !in ident
    ensures r.Failure? ==> r.error == InvalidIdentifier(ident)
  {
    match SplitOnce(ident, Sep)
    case None => Failure(InvalidIdentifier(ident))
    case Some((segment, rest)) => Success(Locate(aliases, segment, rest))
  }

  /** The first segment of an identifier that has one (the text before its first `/`). */
  function FirstSegment(ident: string): (segment: string)
    requires Sep in ident
    ensures Sep !in segment && |segment| < |ident| && ident[..|segment| + 1] == segment + [Sep]
  {
    var parts := SplitOnce(ident, Sep).value;
    assert ident[..|parts.0| + 1] == parts.0 + [Sep] by {
      assert ident == parts.0 + [Sep] + parts.1;
    }
    parts.0
  }

  /**
   A literal bucket and any key parse back to themselves when the bucket is
   not an alias: `bucket/key` gives `(bucket, key)`.
   */
  lemma LiteralBucketRoundTrip(aliases: Option<AliasTable>, bucket: string, key: string)
    requires Sep !in bucket && !IsAlias(aliases, bucket)
    ensures S3ResourceIdent(aliases, bucket + [Sep] + key) == Success(Location(bucket, key))
  {
    SplitOnceUnique(bucket + [Sep] + key, Sep, bucket, key);
  }

  /** An identifier ending in its first `/` still parses, with an empty key. */
  lemma TrailingSlashEmptyKey(aliases: Option<AliasTable>, bucket: string)
    requires Sep !in bucket && !IsAlias(aliases, bucket)
    ensures S3ResourceIdent(aliases, bucket + [Sep]) == Success(Location(bucket, ""))
  {
    LiteralBucketRoundTrip(aliases, bucket, "");
    assert bucket + [Sep] + "" == bucket + [Sep];
  }

  /**
   Conversely, when the first segment is not an alias, the result is the
   identifier cut at its first `/`: the bucket has no `/` and
   `bucket + "/" + key` is the identifier again.
   */
  lemma LiteralBucketSplit(aliases: Option<AliasTable>, ident: string)
    requires Sep in ident && !IsAlias(aliases, FirstSegment(ident))
    ensures S3ResourceIdent(aliases, ident).Success?
    ensures var loc := S3ResourceIdent(aliases, ident).value;
      Sep !in loc.bucket && loc.bucket + [Sep] + loc.key == ident
  {
  }

  /** With no alias table every first segment is a literal bucket name. */
  lemma NoTableLiteralBucket(ident: string)
    requires Sep in ident
    ensures S3ResourceIdent(None, ident).Success?
    ensures S3ResourceIdent(None, ident).value.bucket == FirstSegment(ident)
  {
  }

  /**
   An aliased first segment is replaced by the entry's bucket, and the rest of
   the identifier is joined onto the entry's key prefix when there is one.
   */
  lemma AliasedIdent(aliases: Option<AliasTable>, alias: string, rest: string)
    requires Sep !in alias && IsAlias(aliases, alias)
    ensures var entry := aliases.value[alias];
      S3ResourceIdent(aliases, alias + [Sep] + rest) ==
        Success(Location(entry.bucket,
          if entry.keyPrefix.Some? then Join(entry.keyPrefix.value, rest) else rest))
  {
    SplitOnceUnique(alias + [Sep] + rest, Sep, alias, rest);
  }

  /** The aliased case the resolver's tests pin down: `iiif` maps to `bucket-iiif` under `hx`. */
  lemma TestAliasedIdent()
    ensures S3ResourceIdent(Some(TestAliases()), "iiif" + [Sep] + "image.jpg/region/size/rotation/default.jpg")
      == Success(Location("bucket-iiif", "hx" + [Sep] + "image.jpg/region/size/rotation/default.jpg"))
  {
    var rest := "image.jpg/region/size/rotation/default.jpg";
    AliasedIdent(Some(TestAliases()), "iiif", rest);
    assert rest[0] != Sep;
    assert Join("hx", rest) == "hx" + [Sep] + rest;
  }

  /** The literal cases the resolver's tests pin down, with and without an alias table. */
  lemma TestLiteralIdent()
    ensures S3ResourceIdent(Some(TestAliases()), "its_not_a_bucket" + [Sep] + "image.jpg/region/size/rotation/default.jpg")
      == Success(Location("its_not_a_bucket", "image.jpg/region/size/rotation/default.jpg"))
    ensures S3ResourceIdent(None, "iiif" + [Sep] + "image.jpg/region/size/rotation/default.jpg")
      == Success(Location("iiif", "image.jpg/region/size/rotation/default.jpg"))
  {
    assert "its_not_a_bucket" !in TestAliases();
    LiteralBucketRoundTrip(Some(TestAliases()), "its_not_a_bucket", "image.jpg/region/size/rotation/default.jpg");
    LiteralBucketRoundTrip(None, "iiif", "image.jpg/region/size/rotation/default.jpg");
  }
}
