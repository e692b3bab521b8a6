/**
 Choosing the image format and the cache file extension: a configured default
 format wins, then a format the caller (or the object's content type)
 suggests, then the format the host derives from the identifier.
 */
module Formats {
  import opened Wrappers

  /**
   `get_format`: the configured default when there is one; otherwise the
   suggested format when given; otherwise the identifier's own format.
   */
  function GetFormat(
    defaultFormat: Option<string>, suggested: Option<string>,
    formatFromIdent: string -> string, ident: string): (f: string)
    ensures defaultFormat.Some? ==> f == defaultFormat.value
    ensures defaultFormat.None? && suggested.Some? ==> f == suggested.value
    ensures defaultFormat.None? && suggested.None? ==> f == formatFromIdent(ident)
  {
    match defaultFormat
    case Some(d) => d
    case None =>
      match suggested
      case Some(s) => s
      case None => formatFromIdent(ident)
  }

  /**
   `cache_file_extension`: the object's content type is looked up in the
   media-type table; a missing content type and an unmapped one both fall
   back to `get_format` with no suggestion.
   */
  function CacheFileExtension(
    defaultFormat: Option<string>, mediaTypes: map<string, string>,
    contentType: Option<string>, formatFromIdent: string -> string, ident: string): (ext: string)
    ensures contentType.Some? && contentType.value in mediaTypes ==>
      ext == GetFormat(defaultFormat, Some(mediaTypes[contentType.value]), formatFromIdent, ident)
    ensures contentType.None? || contentType.value !in mediaTypes ==>
      ext == GetFormat(defaultFormat, None, formatFromIdent, ident)
  {
    match contentType
    case Some(ct) =>
      if ct in mediaTypes then GetFormat(defaultFormat, Some(mediaTypes[ct]), formatFromIdent, ident)
      else GetFormat(defaultFormat, None, formatFromIdent, ident)
    case None => GetFormat(defaultFormat, None, formatFromIdent, ident)
  }

  /** A configured default format decides the extension, whatever the content type. */
  lemma DefaultFormatDecides(
    d: string, mediaTypes: map<string, string>,
    contentType: Option<string>, formatFromIdent: string -> string, ident: string)
    ensures CacheFileExtension(Some(d), mediaTypes, contentType, formatFromIdent, ident) == d
  {
  }

  /**
   Without a default, the extension is the mapped format of the content type
   exactly when it has one, and the identifier's format otherwise.
   */
  lemma ExtensionWithoutDefault(
    mediaTypes: map<string, string>, contentType: Option<string>,
    formatFromIdent: string -> string, ident: string)
    ensures var ext := CacheFileExtension(None, mediaTypes, contentType, formatFromIdent, ident);
      if contentType.Some? && contentType.value in mediaTypes
      then ext == mediaTypes[contentType.value]
      else ext == formatFromIdent(ident)
  {
  }

  /**
   The extension is always one of the three candidates: the default, a
   media-type table entry, or the identifier's format.
   */
  lemma ExtensionIsACandidate(
    defaultFormat: Option<string>, mediaTypes: map<string, string>,
    contentType: Option<string>, formatFromIdent: string -> string, ident: string)
    ensures var ext := CacheFileExtension(defaultFormat, mediaTypes, contentType, formatFromIdent, ident);
      (defaultFormat.Some? && ext == defaultFormat.value)
      || ext in mediaTypes.Values
      || ext == formatFromIdent(ident)
  {
  }
}
