/**
 * The encoding engine: the fixed catalogue of charsets, the dispatch of a
 * charset name to a codec, the lower-case charset token written into
 * Content-Type headers, and the substitution of that token into a
 * Content-Type template.
 *
 * The codecs themselves (the EBCDIC code pages, UTF-16/32 in their byte
 * orders, ISO-8859-1/15, Windows-1252 and Python's registry of named
 * codecs) are library code: the model receives them as a table `codecs`
 * that maps a codec and a text to its bytes or to the message of the
 * exception it raised.
 */
module Encoding {
  import opened Wrappers
  import opened Text

  /** The codecs `encode` can dispatch to; `Lookup` asks Python's codec registry by name. */
  datatype Codec =
    | Cp037 | Cp500 | Cp1026
    | Utf16 | Utf16Be | Utf16Le
    | Utf32 | Utf32Be | Utf32Le
    | Latin1 | Latin9 | Cp1252
    | Lookup(name: string)

  /** What each codec makes of a text: its bytes, or the message of the exception it raised. */
  type CodecTable = (Codec, string) -> Result<seq<Byte>, string>

  /** One catalogue entry: the charset name and the family shown beside it. */
  datatype CatalogueEntry = CatalogueEntry(name: string, family: string)

  /** The catalogue, in the order that fixes the 1-based fuzz indices. */
  const ENCODINGS: seq<CatalogueEntry> := [
    CatalogueEntry("IBM037", "EBCDIC"),
    CatalogueEntry("IBM500", "EBCDIC"),
    CatalogueEntry("IBM1026", "EBCDIC"),
    CatalogueEntry("UTF-16", "Unicode"),
    CatalogueEntry("UTF-16BE", "Unicode"),
    CatalogueEntry("UTF-16LE", "Unicode"),
    CatalogueEntry("UTF-32", "Unicode"),
    CatalogueEntry("UTF-32BE", "Unicode"),
    CatalogueEntry("UTF-32LE", "Unicode"),
    CatalogueEntry("ISO-8859-1", "ISO"),
    CatalogueEntry("ISO-8859-15", "ISO"),
    CatalogueEntry("Windows-1252", "Windows")
  ]

  /** The codec each catalogue entry resolves to, position by position. */
  const CATALOGUE_CODECS: seq<Codec> :=
    [Cp037, Cp500, Cp1026, Utf16, Utf16Be, Utf16Le, Utf32, Utf32Be, Utf32Le, Latin1, Latin9, Cp1252]

  /** The Content-Type templates offered in the combo box. */
  const CONTENT_TYPES: seq<string> := [
    "text/xml; charset={encoding}",
    "application/xml; charset={encoding}",
    "application/json; charset={encoding}",
    "application/x-www-form-urlencoded; charset={encoding}",
    "text/plain; charset={encoding}",
    "application/octet-stream"
  ]

  /** What the first five templates hold before their placeholder. */
  const CONTENT_TYPE_PREFIXES: seq<string> := [
    "text/xml; charset=",
    "application/xml; charset=",
    "application/json; charset=",
    "application/x-www-form-urlencoded; charset=",
    "text/plain; charset="
  ]

  const PLACEHOLDER: string := "{encoding}"

  // ---------------------------------------------------------------------------
  // Name resolution
  // ---------------------------------------------------------------------------

  /** `encoding.upper().replace("-", "").replace("_", "")`. */
  function NameKey(encoding: string): string {
    Replace(Replace(Upper(encoding), "-", ""), "_", "")
  }

  /** The alias branches of `encode`, tried in the source's order. */
  function BuiltinCodec(key: string): Option<Codec> {
    if key == "IBM037" || key == "CP037" then Some(Cp037)
    else if key == "IBM500" || key == "CP500" then Some(Cp500)
    else if key == "IBM1026" || key == "CP1026" then Some(Cp1026)
    else if key == "UTF16" then Some(Utf16)
    else if key == "UTF16BE" then Some(Utf16Be)
    else if key == "UTF16LE" then Some(Utf16Le)
    else if key == "UTF32" then Some(Utf32)
    else if key == "UTF32BE" then Some(Utf32Be)
    else if key == "UTF32LE" then Some(Utf32Le)
    else if key == "ISO88591" || key == "LATIN1" then Some(Latin1)
    else if key == "ISO885915" then Some(Latin9)
    else if key == "WINDOWS1252" || key == "CP1252" then Some(Cp1252)
    else None
  }

  /**
   * The codec `encode` uses for a charset name: an alias branch chosen by
   * the normalised name, or otherwise the registry lookup by the name as
   * given (not normalised).
   */
  function ResolveCodec(encoding: string): (c: Codec)
    ensures c.Lookup? <==> BuiltinCodec(NameKey(encoding)).None?
    ensures c.Lookup? ==> c.name == encoding
  {
    match BuiltinCodec(NameKey(encoding))
    case Some(codec) => codec
    case None => Lookup(encoding)
  }

  /**
   * `EncodingEngine.encode`: the bytes of the chosen codec, or one
   * "Encoding error: ..." failure carrying the codec's message.
   */
  function Encode(data: string, encoding: string, codecs: CodecTable): (r: Result<seq<Byte>, string>)
    ensures r.Success? <==> codecs(ResolveCodec(encoding), data).Success?
    ensures r.Success? ==> r.value == codecs(ResolveCodec(encoding), data).value
    ensures r.Failure? ==> r.error == "Encoding error: " + codecs(ResolveCodec(encoding), data).error
  {
    match codecs(ResolveCodec(encoding), data)
    case Success(bytes) => Success(bytes)
    case Failure(message) => Failure("Encoding error: " + message)
  }

  lemma {:induction false} UpperDelete(s: string, x: char)
    requires UpperChar(x) == x && forall c :: UpperChar(c) == x ==> c == x
    ensures Delete(Upper(s), x) == Upper(Delete(s, x))
  {
    if s != [] {
      UpperDelete(s[1..], x);
      assert Upper(s) == [UpperChar(s[0])] + Upper(s[1..]);
      assert Delete(Upper(s), x) == Delete([UpperChar(s[0])], x) + Delete(Upper(s[1..]), x) by {
        DeleteConcat([UpperChar(s[0])], Upper(s[1..]), x);
      }
      assert s == [s[0]] + s[1..];
      DeleteConcat([s[0]], s[1..], x);
      UpperConcat(Delete([s[0]], x), Delete(s[1..], x));
    }
  }

  /** Separators are dropped, then letters upper-cased: the normalised name. */
  lemma {:induction false} NameKeyIsUpperWithoutSeparators(s: string)
    ensures NameKey(s) == Upper(Delete(Delete(s, '-'), '_'))
  {
    ReplaceOneWithNothing(Upper(s), '-');
    assert "-" == ['-'] && "_" == ['_'];
    ReplaceOneWithNothing(Delete(Upper(s), '-'), '_');
    UpperDelete(s, '-');
    UpperDelete(Delete(s, '-'), '_');
  }

  lemma {:induction false} UpperOfLower(s: string)
    ensures Upper(Lower(s)) == Upper(s)
  {
    if s != [] {
      UpperOfLower(s[1..]);
      assert Lower(s) == [LowerChar(s[0])] + Lower(s[1..]);
      UpperConcat([LowerChar(s[0])], Lower(s[1..]));
    }
  }

  /**
   * Two names that differ only in the case of their letters and in where
   * '-' and '_' stand resolve to the same alias branch: "utf_16le",
   * "UTF-16LE" and "utf16le" all select the same codec.
   */
  lemma {:induction false} SpellingVariantsShareCodec(a: string, b: string)
    requires Lower(Delete(Delete(a, '-'), '_')) == Lower(Delete(Delete(b, '-'), '_'))
    requires BuiltinCodec(NameKey(a)).Some?
    ensures ResolveCodec(a) == ResolveCodec(b) && !ResolveCodec(b).Lookup?
  {
    NameKeyIsUpperWithoutSeparators(a);
    NameKeyIsUpperWithoutSeparators(b);
    UpperOfLower(Delete(Delete(a, '-'), '_'));
    UpperOfLower(Delete(Delete(b, '-'), '_'));
  }

  // ---------------------------------------------------------------------------
  // Charset token and Content-Type
  // ---------------------------------------------------------------------------

  /** The table of `get_charset_name`. */
  const CHARSET_NAMES: map<string, string> := map[
    "IBM037" := "ibm037",
    "IBM500" := "ibm500",
    "IBM1026" := "ibm1026",
    "UTF-16" := "utf-16",
    "UTF-16BE" := "utf-16be",
    "UTF-16LE" := "utf-16le",
    "UTF-32" := "utf-32",
    "UTF-32BE" := "utf-32be",
    "UTF-32LE" := "utf-32le",
    "ISO-8859-1" := "iso-8859-1",
    "ISO-8859-15" := "iso-8859-15",
    "Windows-1252" := "windows-1252"
  ]

  /** Every value of the charset table is its key in lower case. */
  lemma CharsetNamesAreLowerCase()
    ensures forall k :: k in CHARSET_NAMES ==> CHARSET_NAMES[k] == Lower(k)
  {
    forall k | k in CHARSET_NAMES
      ensures CHARSET_NAMES[k] == Lower(k)
    {
      LowerIs(k, CHARSET_NAMES[k]);
    }
  }

  /**
   * `get_charset_name`: the table entry when there is one, the lower-cased
   * name otherwise. Both ways it is the lower-cased name, and it never fails.
   */
  function CharsetName(encoding: string): (token: string)
    ensures token == Lower(encoding)
  {
    CharsetNamesAreLowerCase();
    if encoding in CHARSET_NAMES then CHARSET_NAMES[encoding] else Lower(encoding)
  }

  /**
   * `_getContentType`: every "{encoding}" in the template becomes the
   * charset token; a template without the placeholder comes back unchanged.
   */
  function ContentType(template: string, encoding: string): (ct: string)
    ensures ct == Join(Split(template, PLACEHOLDER), Lower(encoding))
    ensures !Contains(template, PLACEHOLDER) ==> ct == template
  {
    ReplaceIsJoinOfSplit(template, PLACEHOLDER, CharsetName(encoding));
    Replace(template, PLACEHOLDER, CharsetName(encoding))
  }

  /** Every character is in the ASCII range. */
  predicate IsAscii(s: string) {
    forall i :: 0 <= i < |s| ==> s[i] as int < 128
  }

  /**
   * `_getContentType` as a whole. The Content-Type combo is editable, and
   * under Jython 2.7 its item is unicode text, which `str()` encodes with
   * the ASCII codec: a character outside ASCII raises `UnicodeEncodeError`.
   * Any other template is filled as `ContentType` says.
   */
  function GetContentType(template: string, encoding: string): (r: Result<string, string>)
    ensures r.Success? <==> IsAscii(template)
    ensures r.Success? ==> r.value == Join(Split(template, PLACEHOLDER), Lower(encoding))
  {
    if IsAscii(template) then Success(ContentType(template, encoding))
    else Failure("'ascii' codec can't encode character")
  }

  /** A character that is in neither the template nor the name is not in the result. */
  lemma {:induction false} ContentTypeKeepsOut(template: string, encoding: string, c: char)
    requires c !in template && c !in encoding && LowerChar(c) == c
    requires forall x :: LowerChar(x) == c ==> x == c
    ensures c !in ContentType(template, encoding)
  {
    ReplaceKeepsOut(template, PLACEHOLDER, CharsetName(encoding), c);
  }

  lemma {:induction false} ReplaceKeepsOut(s: string, pat: string, rep: string, c: char)
    requires |pat| > 0 && c !in s && c !in rep
    ensures c !in Replace(s, pat, rep)
    decreases |s|
  {
    if |s| >= |pat| {
      if s[..|pat|] == pat {
        ReplaceKeepsOut(s[|pat|..], pat, rep, c);
      } else {
        ReplaceKeepsOut(s[1..], pat, rep, c);
      }
    }
  }

}
