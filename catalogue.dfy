/**
 * Facts about the fixed catalogue and the alias spellings: which codec each
 * catalogue name selects, which other spellings select the same one, and
 * what each offered Content-Type template becomes.
 *
 * Each name is taken apart at its separators and each plain part is
 * upper-cased one character at a time, so no proof has to evaluate the
 * normalisation of a whole literal.
 */
module Catalogue {
  import opened Wrappers
  import opened Text
  import opened Encoding

  /** The normalised catalogue names, position by position. */
  const CATALOGUE_KEYS: seq<string> := [
    "IBM037", "IBM500", "IBM1026", "UTF16", "UTF16BE", "UTF16LE",
    "UTF32", "UTF32BE", "UTF32LE", "ISO88591", "ISO885915", "WINDOWS1252"
  ]

  // ---------------------------------------------------------------------------
  // Normalising a name piece by piece
  // ---------------------------------------------------------------------------

  /** The normalised name of a concatenation is the concatenation of the normalised names. */
  lemma {:induction false} NameKeyConcat(a: string, b: string)
    ensures NameKey(a + b) == NameKey(a) + NameKey(b)
  {
    NameKeyIsUpperWithoutSeparators(a + b);
    NameKeyIsUpperWithoutSeparators(a);
    NameKeyIsUpperWithoutSeparators(b);
    DeleteConcat(a, b, '-');
    DeleteConcat(Delete(a, '-'), Delete(b, '-'), '_');
    UpperConcat(Delete(Delete(a, '-'), '_'), Delete(Delete(b, '-'), '_'));
  }

  /** A name without separators is normalised by upper-casing alone. */
  lemma {:induction false} NameKeyPlain(s: string, t: string)
    requires forall i :: 0 <= i < |s| ==> s[i] != '-' && s[i] != '_'
    requires |s| == |t| && forall i :: 0 <= i < |s| ==> UpperChar(s[i]) == t[i]
    ensures NameKey(s) == t
  {
    NameKeyIsUpperWithoutSeparators(s);
    DeleteAbsent(s, '-');
    DeleteAbsent(s, '_');
    UpperIs(s, t);
  }

  /** A lone separator normalises to nothing. */
  lemma NameKeySeparator(c: char)
    requires c == '-' || c == '_'
    ensures NameKey([c]) == []
  {
    if c == '-' {
      assert [c] == "-";
      NameKeyIsUpperWithoutSeparators("-");
    } else {
      assert [c] == "_";
      NameKeyIsUpperWithoutSeparators("_");
    }
  }

  /** The normalised name around one separator at position `i`. */
  lemma {:induction false} NameKeyAround(s: string, i: nat, ka: string, kb: string)
    requires i < |s| && (s[i] == '-' || s[i] == '_')
    requires NameKey(s[..i]) == ka && NameKey(s[i + 1..]) == kb
    ensures NameKey(s) == ka + kb
  {
    var a, c, b := s[..i], [s[i]], s[i + 1..];
    assert s == a + c + b;
    NameKeySeparator(s[i]);
    NameKeyConcat(a + c, b);
    NameKeyConcat(a, c);
  }

  /** A name made of two plain parts around one separator. */
  lemma {:induction false} NameKeyOfTwo(s: string, i: nat, ka: string, kb: string)
    requires i < |s| && (s[i] == '-' || s[i] == '_')
    requires forall j :: 0 <= j < |s| && j != i ==> s[j] != '-' && s[j] != '_'
    requires i == |ka| && |s| == |ka| + 1 + |kb|
    requires forall j :: 0 <= j < i ==> UpperChar(s[j]) == ka[j]
    requires forall j :: i < j < |s| ==> UpperChar(s[j]) == kb[j - i - 1]
    ensures NameKey(s) == ka + kb
  {
    NameKeyPlain(s[..i], ka);
    NameKeyPlain(s[i + 1..], kb);
    NameKeyAround(s, i, ka, kb);
  }

  /** "ISO-8859-" followed by digits. */
  lemma {:induction false} NameKeyIso(s: string, tail: string)
    requires s == "ISO-8859-" + tail
    requires |tail| > 0 && forall j :: 0 <= j < |tail| ==> '0' <= tail[j] <= '9'
    ensures NameKey(s) == "ISO8859" + tail
  {
    var rest := s[4..];
    assert rest == "8859-" + tail;
    NameKeyOfTwo(rest, 4, "8859", tail);
    NameKeyPlain(s[..3], "ISO");
    NameKeyAround(s, 3, "ISO", "8859" + tail);
  }

  /** A name resolves to the alias branch of its normalised form. */
  lemma {:induction false} ResolveByKey(s: string, key: string, c: Codec)
    requires NameKey(s) == key && BuiltinCodec(key) == Some(c)
    ensures ResolveCodec(s) == c
  {
  }

  // ---------------------------------------------------------------------------
  // The catalogue
  // ---------------------------------------------------------------------------

  // ---------------------------------------------------------------------------
  // The alias branches, key by key
  // ---------------------------------------------------------------------------

  // Each fact below is proved where one literal is all the solver sees.
  // Folding them into lemmas over all positions puts every literal into
  // one proof, which the solver does not finish within its limit.

  lemma {:induction false} BranchIbm037(key: string) requires key == "IBM037" ensures BuiltinCodec(key) == Some(Cp037) {
  }

  lemma {:induction false} BranchIbm500(key: string) requires key == "IBM500" ensures BuiltinCodec(key) == Some(Cp500) {
  }

  lemma {:induction false} BranchIbm1026(key: string) requires key == "IBM1026" ensures BuiltinCodec(key) == Some(Cp1026) {
  }

  lemma {:induction false} BranchUtf16(key: string) requires key == "UTF16" ensures BuiltinCodec(key) == Some(Utf16) {
  }

  lemma {:induction false} BranchUtf16Be(key: string) requires key == "UTF16BE" ensures BuiltinCodec(key) == Some(Utf16Be) {
  }

  lemma {:induction false} BranchUtf16Le(key: string) requires key == "UTF16LE" ensures BuiltinCodec(key) == Some(Utf16Le) {
  }

  lemma {:induction false} BranchUtf32(key: string) requires key == "UTF32" ensures BuiltinCodec(key) == Some(Utf32) {
  }

  lemma {:induction false} BranchUtf32Be(key: string) requires key == "UTF32BE" ensures BuiltinCodec(key) == Some(Utf32Be) {
  }

  lemma {:induction false} BranchUtf32Le(key: string) requires key == "UTF32LE" ensures BuiltinCodec(key) == Some(Utf32Le) {
  }

  lemma {:induction false} BranchIso88591(key: string) requires key == "ISO88591" ensures BuiltinCodec(key) == Some(Latin1) {
  }

  lemma {:induction false} BranchIso885915(key: string) requires key == "ISO885915" ensures BuiltinCodec(key) == Some(Latin9) {
  }

  lemma {:induction false} BranchWindows1252(key: string) requires key == "WINDOWS1252" ensures BuiltinCodec(key) == Some(Cp1252) {
  }

  lemma {:induction false} BranchCp037(key: string) requires key == "CP037" ensures BuiltinCodec(key) == Some(Cp037) {
  }

  lemma {:induction false} BranchCp500(key: string) requires key == "CP500" ensures BuiltinCodec(key) == Some(Cp500) {
  }

  lemma {:induction false} BranchCp1026(key: string) requires key == "CP1026" ensures BuiltinCodec(key) == Some(Cp1026) {
  }

  lemma {:induction false} BranchLatin1(key: string) requires key == "LATIN1" ensures BuiltinCodec(key) == Some(Latin1) {
  }

  lemma {:induction false} BranchCp1252(key: string) requires key == "CP1252" ensures BuiltinCodec(key) == Some(Cp1252) {
  }

  // ---------------------------------------------------------------------------
  // The catalogue
  // ---------------------------------------------------------------------------

  lemma {:induction false} KeyIbm037(s: string) requires s == "IBM037" ensures NameKey(s) == "IBM037" {
    NameKeyPlain(s, "IBM037");
  }

  lemma {:induction false} KeyIbm500(s: string) requires s == "IBM500" ensures NameKey(s) == "IBM500" {
    NameKeyPlain(s, "IBM500");
  }

  lemma {:induction false} KeyIbm1026(s: string) requires s == "IBM1026" ensures NameKey(s) == "IBM1026" {
    NameKeyPlain(s, "IBM1026");
  }

  lemma {:induction false} KeyUtf16(s: string) requires s == "UTF-16" ensures NameKey(s) == "UTF16" {
    NameKeyOfTwo(s, 3, "UTF", "16");
  }

  lemma {:induction false} KeyUtf16Be(s: string) requires s == "UTF-16BE" ensures NameKey(s) == "UTF16BE" {
    NameKeyOfTwo(s, 3, "UTF", "16BE");
  }

  lemma {:induction false} KeyUtf16Le(s: string) requires s == "UTF-16LE" ensures NameKey(s) == "UTF16LE" {
    NameKeyOfTwo(s, 3, "UTF", "16LE");
  }

  lemma {:induction false} KeyUtf32(s: string) requires s == "UTF-32" ensures NameKey(s) == "UTF32" {
    NameKeyOfTwo(s, 3, "UTF", "32");
  }

  lemma {:induction false} KeyUtf32Be(s: string) requires s == "UTF-32BE" ensures NameKey(s) == "UTF32BE" {
    NameKeyOfTwo(s, 3, "UTF", "32BE");
  }

  lemma {:induction false} KeyUtf32Le(s: string) requires s == "UTF-32LE" ensures NameKey(s) == "UTF32LE" {
    NameKeyOfTwo(s, 3, "UTF", "32LE");
  }

  lemma {:induction false} KeyIso88591(s: string) requires s == "ISO-8859-1" ensures NameKey(s) == "ISO88591" {
    NameKeyIso(s, "1");
  }

  lemma {:induction false} KeyIso885915(s: string) requires s == "ISO-8859-15" ensures NameKey(s) == "ISO885915" {
    NameKeyIso(s, "15");
  }

  lemma {:induction false} KeyWindows1252(s: string) requires s == "Windows-1252" ensures NameKey(s) == "WINDOWS1252" {
    NameKeyOfTwo(s, 7, "WINDOWS", "1252");
  }

  lemma Entry0() ensures ResolveCodec(ENCODINGS[0].name) == CATALOGUE_CODECS[0] {
    var s := ENCODINGS[0].name;
    assert s == "IBM037";
    KeyIbm037(s);
    BranchIbm037(NameKey(s));
    ResolveByKey(s, NameKey(s), Cp037);
  }

  lemma Entry1() ensures ResolveCodec(ENCODINGS[1].name) == CATALOGUE_CODECS[1] {
    var s := ENCODINGS[1].name;
    assert s == "IBM500";
    KeyIbm500(s);
    BranchIbm500(NameKey(s));
    ResolveByKey(s, NameKey(s), Cp500);
  }

  lemma Entry2() ensures ResolveCodec(ENCODINGS[2].name) == CATALOGUE_CODECS[2] {
    var s := ENCODINGS[2].name;
    assert s == "IBM1026";
    KeyIbm1026(s);
    BranchIbm1026(NameKey(s));
    ResolveByKey(s, NameKey(s), Cp1026);
  }

  lemma Entry3() ensures ResolveCodec(ENCODINGS[3].name) == CATALOGUE_CODECS[3] {
    var s := ENCODINGS[3].name;
    assert s == "UTF-16";
    KeyUtf16(s);
    BranchUtf16(NameKey(s));
    ResolveByKey(s, NameKey(s), Utf16);
  }

  lemma Entry4() ensures ResolveCodec(ENCODINGS[4].name) == CATALOGUE_CODECS[4] {
    var s := ENCODINGS[4].name;
    assert s == "UTF-16BE";
    KeyUtf16Be(s);
    BranchUtf16Be(NameKey(s));
    ResolveByKey(s, NameKey(s), Utf16Be);
  }

  lemma Entry5() ensures ResolveCodec(ENCODINGS[5].name) == CATALOGUE_CODECS[5] {
    var s := ENCODINGS[5].name;
    assert s == "UTF-16LE";
    KeyUtf16Le(s);
    BranchUtf16Le(NameKey(s));
    ResolveByKey(s, NameKey(s), Utf16Le);
  }

  lemma Entry6() ensures ResolveCodec(ENCODINGS[6].name) == CATALOGUE_CODECS[6] {
    var s := ENCODINGS[6].name;
    assert s == "UTF-32";
    KeyUtf32(s);
    BranchUtf32(NameKey(s));
    ResolveByKey(s, NameKey(s), Utf32);
  }

  lemma Entry7() ensures ResolveCodec(ENCODINGS[7].name) == CATALOGUE_CODECS[7] {
    var s := ENCODINGS[7].name;
    assert s == "UTF-32BE";
    KeyUtf32Be(s);
    BranchUtf32Be(NameKey(s));
    ResolveByKey(s, NameKey(s), Utf32Be);
  }

  lemma Entry8() ensures ResolveCodec(ENCODINGS[8].name) == CATALOGUE_CODECS[8] {
    var s := ENCODINGS[8].name;
    assert s == "UTF-32LE";
    KeyUtf32Le(s);
    BranchUtf32Le(NameKey(s));
    ResolveByKey(s, NameKey(s), Utf32Le);
  }

  lemma Entry9() ensures ResolveCodec(ENCODINGS[9].name) == CATALOGUE_CODECS[9] {
    var s := ENCODINGS[9].name;
    assert s == "ISO-8859-1";
    KeyIso88591(s);
    BranchIso88591(NameKey(s));
    ResolveByKey(s, NameKey(s), Latin1);
  }

  lemma Entry10() ensures ResolveCodec(ENCODINGS[10].name) == CATALOGUE_CODECS[10] {
    var s := ENCODINGS[10].name;
    assert s == "ISO-8859-15";
    KeyIso885915(s);
    BranchIso885915(NameKey(s));
    ResolveByKey(s, NameKey(s), Latin9);
  }

  lemma Entry11() ensures ResolveCodec(ENCODINGS[11].name) == CATALOGUE_CODECS[11] {
    var s := ENCODINGS[11].name;
    assert s == "Windows-1252";
    KeyWindows1252(s);
    BranchWindows1252(NameKey(s));
    ResolveByKey(s, NameKey(s), Cp1252);
  }

  /** The codec of the catalogue entry at position `k`. */
  lemma {:induction false} CatalogueEntryCodec(k: nat)
    requires k < |ENCODINGS|
    ensures ResolveCodec(ENCODINGS[k].name) == CATALOGUE_CODECS[k]
  {
    if k == 0 {
      Entry0();
    } else if k == 1 {
      Entry1();
    } else if k == 2 {
      Entry2();
    } else if k == 3 {
      Entry3();
    } else if k == 4 {
      Entry4();
    } else if k == 5 {
      Entry5();
    } else if k == 6 {
      Entry6();
    } else if k == 7 {
      Entry7();
    } else if k == 8 {
      Entry8();
    } else if k == 9 {
      Entry9();
    } else if k == 10 {
      Entry10();
    } else {
      Entry11();
    }
  }

  /**
   * Every catalogue name reaches its own alias branch, never the registry
   * fallback.
   */
  lemma CatalogueCodecs()
    ensures |ENCODINGS| == |CATALOGUE_CODECS| == 12
    ensures forall k :: 0 <= k < |ENCODINGS| ==> ResolveCodec(ENCODINGS[k].name) == CATALOGUE_CODECS[k]
    ensures forall k :: 0 <= k < |ENCODINGS| ==> !ResolveCodec(ENCODINGS[k].name).Lookup?
  {
    forall k | 0 <= k < |ENCODINGS|
      ensures ResolveCodec(ENCODINGS[k].name) == CATALOGUE_CODECS[k]
    {
      CatalogueEntryCodec(k);
    }
  }

  /** The position of a built-in codec in the catalogue. */
  function Position(c: Codec): int {
    match c
    case Cp037 => 0
    case Cp500 => 1
    case Cp1026 => 2
    case Utf16 => 3
    case Utf16Be => 4
    case Utf16Le => 5
    case Utf32 => 6
    case Utf32Be => 7
    case Utf32Le => 8
    case Latin1 => 9
    case Latin9 => 10
    case Cp1252 => 11
    case Lookup(_) => -1
  }

  lemma {:induction false} PositionOfCatalogueCodec(k: nat)
    requires k < |CATALOGUE_CODECS|
    ensures Position(CATALOGUE_CODECS[k]) == k
  {
  }

  /** No two catalogue names select the same codec. */
  lemma CatalogueCodecsDistinct()
    ensures forall j, k :: 0 <= j < |ENCODINGS| && 0 <= k < |ENCODINGS| && j != k ==>
      ResolveCodec(ENCODINGS[j].name) != ResolveCodec(ENCODINGS[k].name)
  {
    CatalogueCodecs();
    forall j, k | 0 <= j < |ENCODINGS| && 0 <= k < |ENCODINGS| && j != k
      ensures ResolveCodec(ENCODINGS[j].name) != ResolveCodec(ENCODINGS[k].name)
    {
      PositionOfCatalogueCodec(j);
      PositionOfCatalogueCodec(k);
    }
  }

  /** Entry `k` resolves to its listed codec, and no other entry does. */
  lemma {:induction false} CatalogueCodecOwner(k: nat)
    requires k < |CATALOGUE_CODECS|
    ensures |ENCODINGS| == |CATALOGUE_CODECS|
    ensures ResolveCodec(ENCODINGS[k].name) == CATALOGUE_CODECS[k]
    ensures forall j :: 0 <= j < |ENCODINGS| && j != k ==>
      ResolveCodec(ENCODINGS[j].name) != ResolveCodec(ENCODINGS[k].name)
  {
    CatalogueCodecs();
    CatalogueCodecsDistinct();
  }

  // ---------------------------------------------------------------------------
  // Alias spellings
  // ---------------------------------------------------------------------------

  /**
   * Pairs of spellings the dispatch treats alike: the CP names of the
   * EBCDIC pages and of Windows-1252, LATIN1 for ISO-8859-1, and a
   * lower-case spelling with '_' in place of '-'.
   */
  const ALIASES: seq<(string, string)> := [
    ("CP037", "IBM037"),
    ("CP500", "IBM500"),
    ("CP1026", "IBM1026"),
    ("LATIN1", "ISO-8859-1"),
    ("CP1252", "Windows-1252"),
    ("utf_16le", "UTF-16LE")
  ]

  lemma {:induction false} KeyCp(s: string, key: string)
    requires s == key && (key == "CP037" || key == "CP500" || key == "CP1026" || key == "LATIN1" || key == "CP1252")
    ensures NameKey(s) == key
  {
    NameKeyPlain(s, key);
  }

  lemma {:induction false} KeyUtf16LeSnake(s: string) requires s == "utf_16le" ensures NameKey(s) == "UTF16LE" {
    NameKeyOfTwo(s, 3, "UTF", "16LE");
  }

  lemma Alias0First() ensures ResolveCodec(ALIASES[0].0) == Cp037 {
    var a := ALIASES[0].0;
    assert a == "CP037";
    KeyCp(a, "CP037");
    BranchCp037(NameKey(a));
    ResolveByKey(a, NameKey(a), Cp037);
  }

  lemma Alias0Second() ensures ResolveCodec(ALIASES[0].1) == Cp037 {
    var b := ALIASES[0].1;
    assert b == "IBM037";
    KeyIbm037(b);
    BranchIbm037(NameKey(b));
    ResolveByKey(b, NameKey(b), Cp037);
  }

  lemma Alias1First() ensures ResolveCodec(ALIASES[1].0) == Cp500 {
    var a := ALIASES[1].0;
    assert a == "CP500";
    KeyCp(a, "CP500");
    BranchCp500(NameKey(a));
    ResolveByKey(a, NameKey(a), Cp500);
  }

  lemma Alias1Second() ensures ResolveCodec(ALIASES[1].1) == Cp500 {
    var b := ALIASES[1].1;
    assert b == "IBM500";
    KeyIbm500(b);
    BranchIbm500(NameKey(b));
    ResolveByKey(b, NameKey(b), Cp500);
  }

  lemma Alias2First() ensures ResolveCodec(ALIASES[2].0) == Cp1026 {
    var a := ALIASES[2].0;
    assert a == "CP1026";
    KeyCp(a, "CP1026");
    BranchCp1026(NameKey(a));
    ResolveByKey(a, NameKey(a), Cp1026);
  }

  lemma Alias2Second() ensures ResolveCodec(ALIASES[2].1) == Cp1026 {
    var b := ALIASES[2].1;
    assert b == "IBM1026";
    KeyIbm1026(b);
    BranchIbm1026(NameKey(b));
    ResolveByKey(b, NameKey(b), Cp1026);
  }

  lemma Alias3First() ensures ResolveCodec(ALIASES[3].0) == Latin1 {
    var a := ALIASES[3].0;
    assert a == "LATIN1";
    KeyCp(a, "LATIN1");
    BranchLatin1(NameKey(a));
    ResolveByKey(a, NameKey(a), Latin1);
  }

  lemma Alias3Second() ensures ResolveCodec(ALIASES[3].1) == Latin1 {
    var b := ALIASES[3].1;
    assert b == "ISO-8859-1";
    KeyIso88591(b);
    BranchIso88591(NameKey(b));
    ResolveByKey(b, NameKey(b), Latin1);
  }

  lemma Alias4First() ensures ResolveCodec(ALIASES[4].0) == Cp1252 {
    var a := ALIASES[4].0;
    assert a == "CP1252";
    KeyCp(a, "CP1252");
    BranchCp1252(NameKey(a));
    ResolveByKey(a, NameKey(a), Cp1252);
  }

  lemma Alias4Second() ensures ResolveCodec(ALIASES[4].1) == Cp1252 {
    var b := ALIASES[4].1;
    assert b == "Windows-1252";
    KeyWindows1252(b);
    BranchWindows1252(NameKey(b));
    ResolveByKey(b, NameKey(b), Cp1252);
  }

  lemma Alias5First() ensures ResolveCodec(ALIASES[5].0) == Utf16Le {
    var a := ALIASES[5].0;
    assert a == "utf_16le";
    KeyUtf16LeSnake(a);
    BranchUtf16Le(NameKey(a));
    ResolveByKey(a, NameKey(a), Utf16Le);
  }

  lemma Alias5Second() ensures ResolveCodec(ALIASES[5].1) == Utf16Le {
    var b := ALIASES[5].1;
    assert b == "UTF-16LE";
    KeyUtf16Le(b);
    BranchUtf16Le(NameKey(b));
    ResolveByKey(b, NameKey(b), Utf16Le);
  }

  /** Both spellings of every alias pair select the same built-in codec. */
  lemma Aliases()
    ensures forall k :: 0 <= k < |ALIASES| ==>
      ResolveCodec(ALIASES[k].0) == ResolveCodec(ALIASES[k].1) && !ResolveCodec(ALIASES[k].0).Lookup?
  {
    forall k | 0 <= k < |ALIASES|
      ensures ResolveCodec(ALIASES[k].0) == ResolveCodec(ALIASES[k].1) && !ResolveCodec(ALIASES[k].0).Lookup?
    {
      if k == 0 {
        Alias0First();
        Alias0Second();
      } else if k == 1 {
        Alias1First();
        Alias1Second();
      } else if k == 2 {
        Alias2First();
        Alias2Second();
      } else if k == 3 {
        Alias3First();
        Alias3Second();
      } else if k == 4 {
        Alias4First();
        Alias4Second();
      } else {
        Alias5First();
        Alias5Second();
      }
    }
  }

  // ---------------------------------------------------------------------------
  // The offered Content-Type templates
  // ---------------------------------------------------------------------------

  lemma {:induction false} TemplateWithPlaceholder(template: string, prefix: string, encoding: string)
    requires template == prefix + PLACEHOLDER
    requires forall i :: 0 <= i < |prefix| ==> prefix[i] != '{'
    ensures ContentType(template, encoding) == prefix + Lower(encoding)
  {
    assert template == prefix + PLACEHOLDER + [];
    ReplaceAfterPrefix(prefix, PLACEHOLDER, [], CharsetName(encoding));
  }

  /** The last template has no placeholder and is used as it is. */
  lemma {:induction false} OctetStreamTemplate(encoding: string)
    ensures ContentType(CONTENT_TYPES[5], encoding) == "application/octet-stream"
  {
    var octet := CONTENT_TYPES[5];
    assert octet == "application/octet-stream";
    ReplaceWithoutStart(octet, PLACEHOLDER, CharsetName(encoding));
  }

  lemma {:induction false} Template0(encoding: string)
    ensures ContentType(CONTENT_TYPES[0], encoding) == CONTENT_TYPE_PREFIXES[0] + Lower(encoding)
  {
    var t, p := CONTENT_TYPES[0], CONTENT_TYPE_PREFIXES[0];
    assert t == "text/xml; charset={encoding}" && p == "text/xml; charset=";
    TemplateWithPlaceholder(t, p, encoding);
  }

  lemma {:induction false} Template1(encoding: string)
    ensures ContentType(CONTENT_TYPES[1], encoding) == CONTENT_TYPE_PREFIXES[1] + Lower(encoding)
  {
    var t, p := CONTENT_TYPES[1], CONTENT_TYPE_PREFIXES[1];
    assert t == "application/xml; charset={encoding}" && p == "application/xml; charset=";
    TemplateWithPlaceholder(t, p, encoding);
  }

  lemma {:induction false} Template2(encoding: string)
    ensures ContentType(CONTENT_TYPES[2], encoding) == CONTENT_TYPE_PREFIXES[2] + Lower(encoding)
  {
    var t, p := CONTENT_TYPES[2], CONTENT_TYPE_PREFIXES[2];
    assert t == "application/json; charset={encoding}" && p == "application/json; charset=";
    TemplateWithPlaceholder(t, p, encoding);
  }

  lemma {:induction false} Template3(encoding: string)
    ensures ContentType(CONTENT_TYPES[3], encoding) == CONTENT_TYPE_PREFIXES[3] + Lower(encoding)
  {
    var t, p := CONTENT_TYPES[3], CONTENT_TYPE_PREFIXES[3];
    assert t == "application/x-www-form-urlencoded; charset={encoding}" && p == "application/x-www-form-urlencoded; charset=";
    TemplateWithPlaceholder(t, p, encoding);
  }

  lemma {:induction false} Template4(encoding: string)
    ensures ContentType(CONTENT_TYPES[4], encoding) == CONTENT_TYPE_PREFIXES[4] + Lower(encoding)
  {
    var t, p := CONTENT_TYPES[4], CONTENT_TYPE_PREFIXES[4];
    assert t == "text/plain; charset={encoding}" && p == "text/plain; charset=";
    TemplateWithPlaceholder(t, p, encoding);
  }

  lemma {:induction false} TemplateAt(k: nat, encoding: string)
    requires k < 5
    ensures ContentType(CONTENT_TYPES[k], encoding) == CONTENT_TYPE_PREFIXES[k] + Lower(encoding)
  {
    if k == 0 {
      Template0(encoding);
    } else if k == 1 {
      Template1(encoding);
    } else if k == 2 {
      Template2(encoding);
    } else if k == 3 {
      Template3(encoding);
    } else {
      Template4(encoding);
    }
  }

  /**
   * The offered templates: the first five end in the placeholder and
   * become their prefix followed by the lower-cased name; the last has no
   * placeholder and is returned as it is.
   */
  lemma {:induction false} CatalogueContentTypes(encoding: string)
    ensures |CONTENT_TYPES| == 6
    ensures forall k :: 0 <= k < 5 ==>
      ContentType(CONTENT_TYPES[k], encoding) == CONTENT_TYPE_PREFIXES[k] + Lower(encoding)
    ensures ContentType(CONTENT_TYPES[5], encoding) == "application/octet-stream"
  {
    forall k | 0 <= k < 5
      ensures ContentType(CONTENT_TYPES[k], encoding) == CONTENT_TYPE_PREFIXES[k] + Lower(encoding)
    {
      TemplateAt(k, encoding);
    }
    OctetStreamTemplate(encoding);
  }
}
