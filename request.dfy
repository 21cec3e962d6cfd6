/**
 * Request text handling: line endings, the header/body boundary, the
 * target host and port, and the rebuild of a request around a new body
 * with rewritten Content-Type and Content-Length headers.
 *
 * The header/body boundary is the first empty line, as in the message
 * framing of section 2.1 of RFC 9112; Content-Length counts the octets of
 * the body, as in section 8.6 of RFC 9110.
 */
module Request {
  import opened Wrappers
  import opened Text

  const CRLF: string := "\r\n"

  /** The end of the header section: a line break followed by an empty line. */
  const BLANK_LINE: string := "\r\n\r\n"

  /** The octets of `BLANK_LINE`. */
  const BLANK_LINE_BYTES: seq<Byte> := [13, 10, 13, 10]

  // ---------------------------------------------------------------------------
  // Line endings
  // ---------------------------------------------------------------------------

  /** Every line feed in `s` is preceded by a carriage return. */
  predicate CrlfOnly(s: string) {
    forall i :: 0 <= i < |s| && s[i] == '\n' ==> 0 < i && s[i - 1] == '\r'
  }

  /** One left-to-right pass: CRLF stays, a bare LF becomes CRLF, anything else stays. */
  function Canonical(s: string): (r: string)
    ensures CrlfOnly(r)
    ensures r != [] ==> r[0] != '\n'
    decreases |s|
  {
    if s == [] then []
    else if |s| >= 2 && s[..2] == CRLF then CRLF + Canonical(s[2..])
    else if s[0] == '\n' then CRLF + Canonical(s[1..])
    else [s[0]] + Canonical(s[1..])
  }

  lemma {:induction false} NormalizeIsCanonical(s: string)
    ensures Replace(Replace(s, CRLF, "\n"), "\n", CRLF) == Canonical(s)
    decreases |s|
  {
    var once := Replace(s, CRLF, "\n");
    if |s| < 2 {
      assert once == s;
      if |s| == 1 {
        assert Replace(s[1..], "\n", CRLF) == [];
      }
    } else if s[..2] == CRLF {
      NormalizeIsCanonical(s[2..]);
      var rest := Replace(s[2..], CRLF, "\n");
      assert once == "\n" + rest;
      assert ("\n" + rest)[..1] == "\n" && ("\n" + rest)[1..] == rest;
    } else {
      NormalizeIsCanonical(s[1..]);
      var rest := Replace(s[1..], CRLF, "\n");
      assert once == [s[0]] + rest;
      assert ([s[0]] + rest)[..1] == [s[0]] && ([s[0]] + rest)[1..] == rest;
    }
  }

  /** A text whose line feeds all follow a carriage return is left as it is. */
  lemma {:induction false} CanonicalKeepsCrlfOnly(s: string)
    ensures CrlfOnly(s) ==> Canonical(s) == s
    decreases |s|
  {
    if s != [] && CrlfOnly(s) {
      if |s| >= 2 && s[..2] == CRLF {
        assert CrlfOnly(s[2..]) by {
          assert s[1] == s[..2][1] == '\n';
          forall i | 0 <= i < |s[2..]| && s[2..][i] == '\n'
            ensures 0 < i && s[2..][i - 1] == '\r'
          {
            assert s[i + 2] == '\n';
          }
        }
        CanonicalKeepsCrlfOnly(s[2..]);
        assert s == CRLF + s[2..];
      } else {
        assert s[0] != '\n';
        assert CrlfOnly(s[1..]) by {
          assert |s| >= 2 ==> s[..2] == [s[0], s[1]];
          assert |s| < 2 || s[1] != '\n';
          forall i | 0 <= i < |s[1..]| && s[1..][i] == '\n'
            ensures 0 < i && s[1..][i - 1] == '\r'
          {
            assert s[i + 1] == '\n';
          }
        }
        CanonicalKeepsCrlfOnly(s[1..]);
        assert s == [s[0]] + s[1..];
      }
    }
  }

  /**
   * `s.replace("\r\n", "\n").replace("\n", "\r\n")`: the one-pass rewrite
   * above, so every line feed ends up after a carriage return, and a text
   * already in that form comes back unchanged (the rewrite is idempotent).
   */
  function NormalizeNewlines(s: string): (r: string)
    ensures r == Canonical(s)
    ensures CrlfOnly(r)
    ensures CrlfOnly(s) ==> r == s
  {
    NormalizeIsCanonical(s);
    CanonicalKeepsCrlfOnly(s);
    Replace(Replace(s, CRLF, "\n"), "\n", CRLF)
  }

  // ---------------------------------------------------------------------------
  // Body
  // ---------------------------------------------------------------------------

  /**
   * `_extractBody`: after normalising line endings, the text after the
   * first blank line, or "" when there is none.
   */
  function ExtractBody(raw: string): (body: string)
    ensures var t := NormalizeNewlines(raw);
      (!Contains(t, BLANK_LINE) ==> body == [])
      && (Contains(t, BLANK_LINE) ==>
            exists i :: FirstOccurrence(t, BLANK_LINE, i) && body == t[i + |BLANK_LINE|..])
  {
    var t := NormalizeNewlines(raw);
    match IndexOf(t, BLANK_LINE)
    case None => []
    case Some(i) =>
      assert FirstOccurrence(t, BLANK_LINE, i);
      t[i + |BLANK_LINE|..]
  }

  // ---------------------------------------------------------------------------
  // Target host and port
  // ---------------------------------------------------------------------------

  /** Where a request is sent: the host field and the port field, both as text. */
  datatype Target = Target(host: string, port: string)

  /** A header line naming the host: its lower-case form starts with "host:". */
  predicate IsHostLine(line: string) {
    StartsWith(Lower(line), "host:")
  }

  /**
   * The fields after reading a host value: with a ':' the value is split
   * there and the first two pieces become host and port; without one the
   * value is the host and the port field keeps `port`.
   */
  function HostAndPort(value: string, port: string): (t: Target)
    ensures ':' !in value ==> t == Target(value, port)
    ensures ':' in value ==>
      ':' !in t.host && ':' !in t.port
      && StartsWith(value, t.host + ":" + t.port)
      && (|t.host| + 1 + |t.port| == |value| || value[|t.host| + 1 + |t.port|] == ':')
  {
    ContainsElement(value, ':');
    if Contains(value, ":") then
      var parts := Split(value, ":");
      SplitPiecesFree(value, ":");
      SplitFirstTwo(value, ":", parts);
      ContainsElement(parts[0], ':');
      ContainsElement(parts[1], ':');
      Target(parts[0], parts[1])
    else
      Target(value, port)
  }

  lemma {:induction false} SplitFirstTwo(value: string, sep: string, parts: seq<string>)
    requires |parts| >= 2 && Join(parts, sep) == value
    ensures StartsWith(value, parts[0] + sep + parts[1])
    ensures |parts| == 2 ==> value == parts[0] + sep + parts[1]
    ensures |parts| > 2 ==> StartsWith(value, parts[0] + sep + parts[1] + sep)
  {
    var rest := parts[1..];
    var head := parts[0] + sep + parts[1];
    assert value == parts[0] + sep + Join(rest, sep);
    if |rest| == 1 {
      assert Join(rest, sep) == parts[1];
    } else {
      var tail := Join(rest[1..], sep);
      assert Join(rest, sep) == parts[1] + sep + tail;
      assert value == (head + sep) + tail;
      assert StartsWith(value, head + sep);
      assert value[..|head|] == (head + sep)[..|head|] == head;
    }
  }

  /** Host and port written as "host:port" are read back as they were written. */
  lemma {:induction false} HostAndPortRoundTrip(host: string, port: string, previous: string)
    requires ':' !in host && ':' !in port
    ensures HostAndPort(host + ":" + port, previous) == Target(host, port)
  {
    var value := host + ":" + port;
    assert FirstOccurrence(value, ":", |host|) by {
      assert value[|host|..|host| + 1] == ":";
      forall j | 0 <= j < |host|
        ensures !OccursAt(value, ":", j)
      {
        assert value[j..j + 1][0] == host[j];
      }
    }
    IndexOfIs(value, ":", |host|);
    assert value[..|host|] == host;
    assert value[|host| + 1..] == port;
    ContainsElement(port, ':');
    ContainsElement(value, ':');
    assert Split(value, ":") == [host] + [port];
  }

  /**
   * The host and port fields after reading `lines`: the first host line
   * decides; with no host line both fields keep their values.
   */
  function TargetIn(lines: seq<string>, host: string, port: string): (t: Target)
    ensures (forall j :: 0 <= j < |lines| ==> !IsHostLine(lines[j])) ==> t == Target(host, port)
  {
    if lines == [] then Target(host, port)
    else if IsHostLine(lines[0]) then HostAndPort(Strip(lines[0][5..]), port)
    else TargetIn(lines[1..], host, port)
  }

  /**
   * The host and port fields after `_parseRequest` reads a request: its
   * normalised lines, body lines included, are scanned.
   */
  function ParsedTarget(raw: string, host: string, port: string): Target {
    TargetIn(Split(NormalizeNewlines(raw), CRLF), host, port)
  }

  /**
   * The first host line decides: the text after its "host:", stripped, is
   * read as host and port, whatever the later lines say.
   */
  lemma {:induction false} TargetFromFirstHostLine(lines: seq<string>, host: string, port: string, k: nat)
    requires k < |lines| && IsHostLine(lines[k])
    requires forall j :: 0 <= j < k ==> !IsHostLine(lines[j])
    ensures |lines[k]| >= 5
    ensures TargetIn(lines, host, port) == HostAndPort(Strip(lines[k][5..]), port)
  {
    if k > 0 {
      TargetFromFirstHostLine(lines[1..], host, port, k - 1);
    }
  }

  /** The scan of `_parseRequest`, stopping at the first host line. */
  method ScanHostLines(lines: seq<string>, host: string, port: string) returns (target: Target)
    ensures target == TargetIn(lines, host, port)
  {
    target := Target(host, port);
    var i := 0;
    while i < |lines|
      invariant 0 <= i <= |lines|
      invariant TargetIn(lines[i..], host, port) == TargetIn(lines, host, port)
      invariant target == Target(host, port)
    {
      var line := lines[i];
      if IsHostLine(line) {
        var value := Strip(line[5..]);
        if Contains(value, ":") {
          var parts := Split(value, ":");
          target := Target(parts[0], parts[1]);
        } else {
          target := Target(value, port);
        }
        return;
      }
      assert lines[i..][1..] == lines[i + 1..];
      i := i + 1;
    }
  }

  /**
   * What `_parseRequest` makes of a non-empty request: the target and the
   * body text, given the fields' previous values.
   */
  method ParseText(raw: string, host: string, port: string, body: string) returns (target: Target, newBody: string)
    ensures target == ParsedTarget(raw, host, port)
    ensures newBody == if Contains(NormalizeNewlines(raw), BLANK_LINE) then ExtractBody(raw) else body
  {
    var t := NormalizeNewlines(raw);
    target := ScanHostLines(Split(t, CRLF), host, port);
    newBody := body;
    if Contains(t, BLANK_LINE) {
      newBody := t[IndexOf(t, BLANK_LINE).value + |BLANK_LINE|..];
    }
  }

  // ---------------------------------------------------------------------------
  // Header rewrite
  // ---------------------------------------------------------------------------

  /** The two checkboxes of the panel: rewrite Content-Type, rewrite Content-Length. */
  datatype Flags = Flags(updateContentType: bool, updateContentLength: bool)

  /** What a failed ISO-8859-1 encoding of the header text reports. */
  const HEADER_NOT_LATIN1: string := "header text is not ISO-8859-1"

  predicate IsContentTypeLine(line: string) {
    StartsWith(Lower(line), "content-type:")
  }

  predicate IsContentLengthLine(line: string) {
    StartsWith(Lower(line), "content-length:")
  }

  /** `"Content-Type: %s" % content_type`. */
  function ContentTypeHeader(ct: string): string {
    "Content-Type: " + ct
  }

  /** `"Content-Length: %d" % len(encoded_body)`. */
  function ContentLengthHeader(n: nat): string {
    "Content-Length: " + Decimal(n)
  }

  /** Two prefixes of one text agree where both are defined. */
  lemma {:induction false} PrefixesAgree(x: string, p: string, q: string, k: nat)
    requires StartsWith(x, p) && StartsWith(x, q) && k < |p| && k < |q|
    ensures p[k] == q[k]
  {
    assert p[k] == x[..|p|][k] && q[k] == x[..|q|][k];
  }

  /** A line cannot name both headers: their names differ at the ninth letter. */
  lemma {:induction false} NotBoth(line: string)
    ensures IsContentLengthLine(line) ==> !IsContentTypeLine(line)
  {
    var p, q := "content-length:", "content-type:";
    assert p[8] == 'l' && q[8] == 't';
    if StartsWith(Lower(line), p) && StartsWith(Lower(line), q) {
      PrefixesAgree(Lower(line), p, q, 8);
    }
  }

  lemma {:induction false} LowerContentTypeField(s: string)
    requires s == "Content-Type: "
    ensures StartsWith(Lower(s), "content-type:")
  {
    LowerIs(s, "content-type: ");
  }

  lemma {:induction false} LowerContentLengthField(s: string)
    requires s == "Content-Length: "
    ensures StartsWith(Lower(s), "content-length:")
  {
    LowerIs(s, "content-length: ");
  }

  /** A prefix of the lower-cased head is a prefix of the lower-cased whole. */
  lemma {:induction false} LowerPrefix(a: string, b: string, p: string)
    requires StartsWith(Lower(a), p)
    ensures StartsWith(Lower(a + b), p)
  {
    var whole, head := Lower(a + b), Lower(a);
    forall k | 0 <= k < |p|
      ensures whole[k] == p[k]
    {
      assert whole[k] == LowerChar((a + b)[k]) == LowerChar(a[k]) == head[k];
      assert head[k] == head[..|p|][k];
    }
    assert whole[..|p|] == p;
  }

  lemma {:induction false} ContentTypeHeaderKind(ct: string)
    ensures IsContentTypeLine(ContentTypeHeader(ct))
    ensures !IsContentLengthLine(ContentTypeHeader(ct))
    ensures ContentTypeHeader(ct) != []
  {
    var name := "Content-Type: ";
    LowerContentTypeField(name);
    LowerPrefix(name, ct, "content-type:");
    NotBoth(ContentTypeHeader(ct));
  }

  lemma {:induction false} ContentLengthHeaderKind(n: nat)
    ensures IsContentLengthLine(ContentLengthHeader(n))
    ensures !IsContentTypeLine(ContentLengthHeader(n))
    ensures ContentLengthHeader(n) != []
  {
    var name := "Content-Length: ";
    LowerContentLengthField(name);
    LowerPrefix(name, Decimal(n), "content-length:");
    NotBoth(ContentLengthHeader(n));
  }

  lemma {:induction false} ContentLengthFieldLfFree(s: string)
    requires s == "Content-Length: "
    ensures '\n' !in s
  {
  }

  lemma {:induction false} ContentLengthHeaderLfFree(n: nat)
    ensures '\n' !in ContentLengthHeader(n)
  {
    var d := Decimal(n);
    ContentLengthFieldLfFree("Content-Length: ");
    assert forall k :: 0 <= k < |d| ==> IsDigit(d[k]);
  }

  /** The number written after "Content-Length:" reads back, as Python's `int()` reads it, as `n`. */
  lemma {:induction false} ContentLengthHeaderValue(n: nat)
    ensures IsContentLengthLine(ContentLengthHeader(n))
    ensures ParseInt(ContentLengthHeader(n)[|"Content-Length: "|..]) == Some(n)
  {
    ContentLengthHeaderKind(n);
    assert ContentLengthHeader(n)[|"Content-Length: "|..] == Decimal(n);
    ParseDecimal(n);
  }

  /** `s` is a run of CRLF pairs. */
  predicate CrlfRun(s: string)
    decreases |s|
  {
    s == [] || (EndsWith(s, CRLF) && CrlfRun(s[..|s| - 2]))
  }

  /**
   * `while headers.endswith("\r\n"): headers = headers[:-2]`: the text with
   * every trailing line break cut off; what was cut is CRLF pairs only.
   */
  function TrimTrailingCrlf(h: string): (r: string)
    ensures !EndsWith(r, CRLF)
    ensures StartsWith(h, r)
    ensures CrlfRun(h[|r|..])
    decreases |h|
  {
    if EndsWith(h, CRLF) then
      var h0 := h[..|h| - 2];
      var r := TrimTrailingCrlf(h0);
      var cut := h[|r|..];
      assert cut[..|cut| - 2] == h0[|r|..];
      assert cut[|cut| - 2..] == h[|h| - 2..];
      r
    else h
  }

  /** A prefix of a text whose line feeds follow carriage returns has the same property. */
  lemma {:induction false} CrlfOnlyPrefix(s: string, n: nat)
    requires CrlfOnly(s) && n <= |s|
    ensures CrlfOnly(s[..n])
  {
    forall i | 0 <= i < n && s[..n][i] == '\n'
      ensures 0 < i && s[..n][i - 1] == '\r'
    {
      assert s[i] == '\n';
    }
  }

  /** The text up to its first blank line, all of it when there is none. */
  function HeaderSection(t: string): (h: string)
    ensures StartsWith(t, h)
    ensures Contains(t, BLANK_LINE) ==> h == t[..IndexOf(t, BLANK_LINE).value]
    ensures !Contains(t, BLANK_LINE) ==> h == t
  {
    if Contains(t, BLANK_LINE) then
      SplitHead(t, BLANK_LINE);
      Split(t, BLANK_LINE)[0]
    else t
  }

  /**
   * The header section `_buildRequest` starts from: the normalised template
   * up to its first blank line (all of it when there is none), with trailing
   * line breaks cut off. Nothing at or after the first blank line is in it,
   * and what is cut off is line breaks only.
   */
  function HeaderBlock(template: string): (hb: string)
    ensures var t := NormalizeNewlines(template);
      StartsWith(t, hb)
      && (Contains(t, BLANK_LINE) ==> |hb| <= IndexOf(t, BLANK_LINE).value)
      && !EndsWith(hb, CRLF)
      && CrlfOnly(hb)
    ensures var h := HeaderSection(NormalizeNewlines(template));
      StartsWith(h, hb) && CrlfRun(h[|hb|..])
  {
    var t := NormalizeNewlines(template);
    var headers := HeaderSection(t);
    var hb := TrimTrailingCrlf(headers);
    assert hb == headers[..|hb|] == t[..|hb|];
    CrlfOnlyPrefix(t, |hb|);
    hb
  }

  /** Splitting a text whose line feeds follow carriage returns at CRLF leaves no line feed in any piece. */
  lemma {:induction false} SplitCrlfOnlyLines(s: string)
    requires CrlfOnly(s)
    ensures forall k :: 0 <= k < |Split(s, CRLF)| ==> '\n' !in Split(s, CRLF)[k]
    decreases |s|
  {
    match IndexOf(s, CRLF)
    case None =>
      forall j | 0 <= j < |s|
        ensures s[j] != '\n'
      {
        if j > 0 {
          assert !OccursAt(s, CRLF, j - 1);
          assert s[j - 1..j + 1] == [s[j - 1], s[j]];
        }
      }
    case Some(i) =>
      var head, tail := s[..i], s[i + 2..];
      forall j | 0 <= j < |head|
        ensures head[j] != '\n'
      {
        if j > 0 {
          assert !OccursAt(s, CRLF, j - 1);
          assert s[j - 1..j + 1] == [s[j - 1], s[j]];
        }
      }
      assert s[i + 1] == s[i..i + 2][1] == '\n';
      assert CrlfOnly(tail) by {
        forall j | 0 <= j < |tail| && tail[j] == '\n'
          ensures 0 < j && tail[j - 1] == '\r'
        {
          assert s[i + 2 + j] == '\n';
        }
      }
      SplitCrlfOnlyLines(tail);
      var parts := Split(s, CRLF);
      assert parts == [head] + Split(tail, CRLF);
  }

  /**
   * The template's header lines: the header block split at CRLF. Joined
   * back they give the header block, and no line holds a line feed.
   */
  function TemplateLines(template: string): (lines: seq<string>)
    ensures Join(lines, CRLF) == HeaderBlock(template)
    ensures forall k :: 0 <= k < |lines| ==> '\n' !in lines[k]
  {
    SplitCrlfOnlyLines(HeaderBlock(template));
    Split(HeaderBlock(template), CRLF)
  }

  /** What the loop of `_buildRequest` appends for one non-empty line. */
  function RewriteLine(line: string, ct: string, n: nat, flags: Flags): string {
    if IsContentTypeLine(line) && flags.updateContentType then ContentTypeHeader(ct)
    else if IsContentLengthLine(line) && flags.updateContentLength then ContentLengthHeader(n)
    else line
  }

  /** The non-empty lines, in their order. */
  function NonEmpty(lines: seq<string>): (r: seq<string>)
    ensures forall x :: x in r <==> x in lines && x != []
    ensures |r| <= |lines|
  {
    if lines == [] then []
    else
      var init := NonEmpty(lines[..|lines| - 1]);
      var last := lines[|lines| - 1];
      assert lines == lines[..|lines| - 1] + [last];
      if last == [] then init else init + [last]
  }

  /** Dropping empty lines commutes with concatenation, so it keeps the order of what it keeps. */
  lemma {:induction false} NonEmptyConcat(a: seq<string>, b: seq<string>)
    ensures NonEmpty(a + b) == NonEmpty(a) + NonEmpty(b)
    decreases |b|
  {
    if b != [] {
      var b0 := b[..|b| - 1];
      NonEmptyConcat(a, b0);
      assert (a + b)[..|a + b| - 1] == a + b0;
      assert b[..|b| - 1] == b0;
    } else {
      assert a + b == a;
    }
  }

  /**
   * The loop of `_buildRequest` over the header lines: empty lines are
   * skipped and each other line is replaced by its rewrite, position by
   * position among the non-empty lines.
   */
  function Rewritten(lines: seq<string>, ct: string, n: nat, flags: Flags): (r: seq<string>)
    ensures |r| == |NonEmpty(lines)|
    ensures forall i :: 0 <= i < |r| ==> r[i] == RewriteLine(NonEmpty(lines)[i], ct, n, flags)
  {
    if lines == [] then []
    else
      var init := Rewritten(lines[..|lines| - 1], ct, n, flags);
      var last := lines[|lines| - 1];
      if last == [] then init else init + [RewriteLine(last, ct, n, flags)]
  }

  /** Some line names the Content-Type header. */
  predicate AnyContentType(lines: seq<string>) {
    lines != [] && (AnyContentType(lines[..|lines| - 1]) || IsContentTypeLine(lines[|lines| - 1]))
  }

  /** Some line names the Content-Length header. */
  predicate AnyContentLength(lines: seq<string>) {
    lines != [] && (AnyContentLength(lines[..|lines| - 1]) || IsContentLengthLine(lines[|lines| - 1]))
  }

  lemma {:induction false} AnyContentTypeIsExists(lines: seq<string>)
    ensures AnyContentType(lines) <==> exists i :: 0 <= i < |lines| && IsContentTypeLine(lines[i])
  {
    if lines != [] {
      var init := lines[..|lines| - 1];
      AnyContentTypeIsExists(init);
      if exists i :: 0 <= i < |lines| && IsContentTypeLine(lines[i]) {
        var i :| 0 <= i < |lines| && IsContentTypeLine(lines[i]);
        if i < |init| {
          assert init[i] == lines[i];
        }
      }
      if exists i :: 0 <= i < |init| && IsContentTypeLine(init[i]) {
        var i :| 0 <= i < |init| && IsContentTypeLine(init[i]);
        assert lines[i] == init[i];
      }
    }
  }

  lemma {:induction false} AnyContentLengthIsExists(lines: seq<string>)
    ensures AnyContentLength(lines) <==> exists i :: 0 <= i < |lines| && IsContentLengthLine(lines[i])
  {
    if lines != [] {
      var init := lines[..|lines| - 1];
      AnyContentLengthIsExists(init);
      if exists i :: 0 <= i < |lines| && IsContentLengthLine(lines[i]) {
        var i :| 0 <= i < |lines| && IsContentLengthLine(lines[i]);
        if i < |init| {
          assert init[i] == lines[i];
        }
      }
      if exists i :: 0 <= i < |init| && IsContentLengthLine(init[i]) {
        var i :| 0 <= i < |init| && IsContentLengthLine(init[i]);
        assert lines[i] == init[i];
      }
    }
  }

  /**
   * The header lines `_buildRequest` emits: the rewritten lines, then a
   * Content-Type and a Content-Length header for each enabled flag whose
   * header the template lacked.
   */
  function NewHeaders(lines: seq<string>, ct: string, n: nat, flags: Flags): seq<string> {
    Rewritten(lines, ct, n, flags)
    + (if flags.updateContentType && !AnyContentType(lines) then [ContentTypeHeader(ct)] else [])
    + (if flags.updateContentLength && !AnyContentLength(lines) then [ContentLengthHeader(n)] else [])
  }

  /** `"\r\n".join(new_headers) + "\r\n\r\n"`. */
  function HeaderText(template: string, ct: string, n: nat, flags: Flags): string {
    Join(NewHeaders(TemplateLines(template), ct, n, flags), CRLF) + BLANK_LINE
  }

  /**
   * `_buildRequest`: the header text encoded as ISO-8859-1 followed by the
   * body bytes as they are; the encoding fails exactly when a header
   * character lies above U+00FF.
   */
  function RenderRequest(template: string, body: seq<Byte>, ct: string, flags: Flags): (r: Result<seq<Byte>, string>)
    ensures var h := HeaderText(template, ct, |body|, flags);
      (r.Failure? <==> !IsLatin1(h))
      && (r.Failure? ==> r.error == HEADER_NOT_LATIN1)
      && (r.Success? ==>
            |r.value| == |h| + |body|
            && r.value[|h|..] == body
            && forall i :: 0 <= i < |h| ==> r.value[i] == h[i] as int)
  {
    match Latin1Encode(HeaderText(template, ct, |body|, flags))
    case None => Failure(HEADER_NOT_LATIN1)
    case Some(bytes) => Success(bytes + body)
  }

  lemma {:induction false} EmptyLineNamesNoHeader(line: string)
    ensures line == [] ==> !IsContentTypeLine(line) && !IsContentLengthLine(line)
  {
    assert |Lower(line)| == |line|;
  }

  /** One more line through the loop of `_buildRequest`. */
  lemma {:induction false} RewriteStep(lines: seq<string>, k: nat, ct: string, n: nat, flags: Flags)
    requires k < |lines|
    ensures Rewritten(lines[..k + 1], ct, n, flags)
      == Rewritten(lines[..k], ct, n, flags) + (if lines[k] == [] then [] else [RewriteLine(lines[k], ct, n, flags)])
    ensures AnyContentType(lines[..k + 1]) == (AnyContentType(lines[..k]) || IsContentTypeLine(lines[k]))
    ensures AnyContentLength(lines[..k + 1]) == (AnyContentLength(lines[..k]) || IsContentLengthLine(lines[k]))
    ensures IsContentLengthLine(lines[k]) ==> !IsContentTypeLine(lines[k])
    ensures lines[k] == [] ==> !IsContentTypeLine(lines[k]) && !IsContentLengthLine(lines[k])
  {
    assert lines[..k + 1][..k] == lines[..k];
    NotBoth(lines[k]);
    EmptyLineNamesNoHeader(lines[k]);
  }

  /** The first part of `_buildRequest`: the header section of the template, trailing line breaks cut off. */
  method TakeHeaderSection(template: string) returns (headers: string)
    ensures headers == HeaderBlock(template)
  {
    var t := NormalizeNewlines(template);
    headers := if Contains(t, BLANK_LINE) then Split(t, BLANK_LINE)[0] else t;
    assert headers == HeaderSection(t);
    ghost var untrimmed := headers;
    while EndsWith(headers, CRLF)
      invariant TrimTrailingCrlf(headers) == TrimTrailingCrlf(untrimmed)
      decreases |headers|
    {
      headers := headers[..|headers| - 2];
    }
  }

  /**
   * The loop of `_buildRequest` and the two appends after it: `foundCt` and
   * `foundCl` record whether a line was replaced under each flag.
   */
  method RewriteHeaders(lines: seq<string>, ct: string, n: nat, flags: Flags)
    returns (newHeaders: seq<string>)
    ensures newHeaders == NewHeaders(lines, ct, n, flags)
  {
    newHeaders := [];
    var foundCt, foundCl := false, false;
    for k := 0 to |lines|
      invariant newHeaders == Rewritten(lines[..k], ct, n, flags)
      invariant foundCt == (flags.updateContentType && AnyContentType(lines[..k]))
      invariant foundCl == (flags.updateContentLength && AnyContentLength(lines[..k]))
    {
      var line := lines[k];
      RewriteStep(lines, k, ct, n, flags);
      if line == [] {
        continue;
      }
      if IsContentTypeLine(line) && flags.updateContentType {
        newHeaders := newHeaders + [ContentTypeHeader(ct)];
        foundCt := true;
        continue;
      }
      if IsContentLengthLine(line) && flags.updateContentLength {
        newHeaders := newHeaders + [ContentLengthHeader(n)];
        foundCl := true;
        continue;
      }
      newHeaders := newHeaders + [line];
    }
    assert lines[..|lines|] == lines;
    if !foundCt && flags.updateContentType {
      newHeaders := newHeaders + [ContentTypeHeader(ct)];
    }
    if !foundCl && flags.updateContentLength {
      newHeaders := newHeaders + [ContentLengthHeader(n)];
    }
  }

  /** `_buildRequest`, with the two checkboxes as `flags` and the encoded body as bytes. */
  method BuildRequest(template: string, body: seq<Byte>, ct: string, flags: Flags)
    returns (r: Result<seq<Byte>, string>)
    ensures r == RenderRequest(template, body, ct, flags)
  {
    var headers := TakeHeaderSection(template);
    var lines := Split(headers, CRLF);
    var newHeaders := RewriteHeaders(lines, ct, |body|, flags);
    var headerStr := Join(newHeaders, CRLF) + BLANK_LINE;
    match Latin1Encode(headerStr)
    case None =>
      r := Failure(HEADER_NOT_LATIN1);
    case Some(bytes) =>
      r := Success(bytes + body);
  }

  // ---------------------------------------------------------------------------
  // What the rebuilt request promises
  // ---------------------------------------------------------------------------

  /** A non-empty line of the template shows up among the non-empty lines. */
  lemma {:induction false} NonEmptyHas(lines: seq<string>, i: nat)
    requires i < |lines| && lines[i] != []
    ensures exists j :: 0 <= j < |NonEmpty(lines)| && NonEmpty(lines)[j] == lines[i]
  {
    assert lines[i] in NonEmpty(lines);
  }

  /** With the Content-Length flag on, every Content-Length line of the new headers says `n`. */
  lemma {:induction false} ContentLengthLinesSayLength(lines: seq<string>, ct: string, n: nat, flags: Flags)
    requires flags.updateContentLength
    ensures var hs := NewHeaders(lines, ct, n, flags);
      forall i :: 0 <= i < |hs| && IsContentLengthLine(hs[i]) ==> hs[i] == ContentLengthHeader(n)
  {
    var hs := NewHeaders(lines, ct, n, flags);
    var rs, ne := Rewritten(lines, ct, n, flags), NonEmpty(lines);
    ContentTypeHeaderKind(ct);
    forall i | 0 <= i < |hs| && IsContentLengthLine(hs[i])
      ensures hs[i] == ContentLengthHeader(n)
    {
      if i < |rs| {
        assert hs[i] == RewriteLine(ne[i], ct, n, flags);
        NotBoth(ne[i]);
      }
    }
  }

  /** With the Content-Length flag on, the new headers hold a Content-Length line saying `n`. */
  lemma {:induction false} ContentLengthLinePresent(lines: seq<string>, ct: string, n: nat, flags: Flags)
    requires flags.updateContentLength
    ensures var hs := NewHeaders(lines, ct, n, flags);
      exists i :: 0 <= i < |hs| && hs[i] == ContentLengthHeader(n)
  {
    var hs := NewHeaders(lines, ct, n, flags);
    var rs, ne := Rewritten(lines, ct, n, flags), NonEmpty(lines);
    AnyContentLengthIsExists(lines);
    if AnyContentLength(lines) {
      var i :| 0 <= i < |lines| && IsContentLengthLine(lines[i]);
      EmptyLineNamesNoHeader(lines[i]);
      NonEmptyHas(lines, i);
      var j :| 0 <= j < |ne| && ne[j] == lines[i];
      NotBoth(lines[i]);
      assert hs[j] == rs[j] == ContentLengthHeader(n);
    } else {
      assert hs[|hs| - 1] == ContentLengthHeader(n);
    }
  }

  /**
   * With the Content-Length flag on, every Content-Length line of the new
   * headers says the body's length in bytes, and there is at least one.
   */
  lemma {:induction false} ContentLengthIsBodyLength(lines: seq<string>, ct: string, n: nat, flags: Flags)
    requires flags.updateContentLength
    ensures var hs := NewHeaders(lines, ct, n, flags);
      (forall i :: 0 <= i < |hs| && IsContentLengthLine(hs[i]) ==> hs[i] == ContentLengthHeader(n))
      && (exists i :: 0 <= i < |hs| && hs[i] == ContentLengthHeader(n))
  {
    ContentLengthLinesSayLength(lines, ct, n, flags);
    ContentLengthLinePresent(lines, ct, n, flags);
  }

  /** With the Content-Type flag on, every Content-Type line of the new headers carries `ct`. */
  lemma {:induction false} ContentTypeLinesCarryGiven(lines: seq<string>, ct: string, n: nat, flags: Flags)
    requires flags.updateContentType
    ensures var hs := NewHeaders(lines, ct, n, flags);
      forall i :: 0 <= i < |hs| && IsContentTypeLine(hs[i]) ==> hs[i] == ContentTypeHeader(ct)
  {
    var hs := NewHeaders(lines, ct, n, flags);
    var rs, ne := Rewritten(lines, ct, n, flags), NonEmpty(lines);
    ContentLengthHeaderKind(n);
    forall i | 0 <= i < |hs| && IsContentTypeLine(hs[i])
      ensures hs[i] == ContentTypeHeader(ct)
    {
      if i < |rs| {
        assert hs[i] == RewriteLine(ne[i], ct, n, flags);
        NotBoth(ne[i]);
      }
    }
  }

  /** With the Content-Type flag on, the new headers hold a Content-Type line carrying `ct`. */
  lemma {:induction false} ContentTypeLinePresent(lines: seq<string>, ct: string, n: nat, flags: Flags)
    requires flags.updateContentType
    ensures var hs := NewHeaders(lines, ct, n, flags);
      exists i :: 0 <= i < |hs| && hs[i] == ContentTypeHeader(ct)
  {
    var hs := NewHeaders(lines, ct, n, flags);
    var rs, ne := Rewritten(lines, ct, n, flags), NonEmpty(lines);
    AnyContentTypeIsExists(lines);
    if AnyContentType(lines) {
      var i :| 0 <= i < |lines| && IsContentTypeLine(lines[i]);
      EmptyLineNamesNoHeader(lines[i]);
      NonEmptyHas(lines, i);
      var j :| 0 <= j < |ne| && ne[j] == lines[i];
      assert hs[j] == rs[j] == ContentTypeHeader(ct);
    } else {
      var k := |rs|;
      assert hs[k] == ContentTypeHeader(ct);
    }
  }

  /**
   * With the Content-Type flag on, every Content-Type line of the new
   * headers carries the given content type, and there is at least one.
   */
  lemma {:induction false} ContentTypeIsGiven(lines: seq<string>, ct: string, n: nat, flags: Flags)
    requires flags.updateContentType
    ensures var hs := NewHeaders(lines, ct, n, flags);
      (forall i :: 0 <= i < |hs| && IsContentTypeLine(hs[i]) ==> hs[i] == ContentTypeHeader(ct))
      && (exists i :: 0 <= i < |hs| && hs[i] == ContentTypeHeader(ct))
  {
    ContentTypeLinesCarryGiven(lines, ct, n, flags);
    ContentTypeLinePresent(lines, ct, n, flags);
  }

  /** With both flags off the new headers are exactly the non-empty template lines, in order. */
  lemma {:induction false} FlagsOffKeepsLines(lines: seq<string>, ct: string, n: nat)
    ensures NewHeaders(lines, ct, n, Flags(false, false)) == NonEmpty(lines)
  {
    var hs := NewHeaders(lines, ct, n, Flags(false, false));
    var ne := NonEmpty(lines);
    assert |hs| == |ne|;
    forall i | 0 <= i < |hs|
      ensures hs[i] == ne[i]
    {
    }
  }

  /** Every line feed follows a carriage return, and line feeds stand at least three apart. */
  ghost predicate WellSpaced(s: string) {
    forall i :: 0 <= i < |s| && s[i] == '\n' ==> 2 <= i && s[i - 1] == '\r' && s[i - 2] != '\n'
  }

  /** Non-empty lines without line feeds, joined with CRLF, keep their line feeds well apart. */
  lemma {:induction false} JoinWellSpaced(parts: seq<string>)
    requires forall k :: 0 <= k < |parts| ==> parts[k] != [] && '\n' !in parts[k]
    ensures WellSpaced(Join(parts, CRLF))
    ensures parts != [] ==> Join(parts, CRLF) != [] && Join(parts, CRLF)[|Join(parts, CRLF)| - 1] != '\n'
  {
    if |parts| == 1 {
      var p := parts[0];
      assert forall i :: 0 <= i < |p| ==> p[i] != '\n';
    } else if |parts| >= 2 {
      var p, rest := parts[0], parts[1..];
      JoinWellSpaced(rest);
      var r := Join(rest, CRLF);
      var j := p + CRLF + r;
      assert j == Join(parts, CRLF);
      assert forall i :: 0 <= i < |p| ==> j[i] == p[i] && p[i] != '\n';
      forall i | 0 <= i < |j| && j[i] == '\n'
        ensures 2 <= i && j[i - 1] == '\r' && j[i - 2] != '\n'
      {
        if i > |p| + 1 {
          var q := i - |p| - 2;
          assert r[q] == '\n';
        } else if i >= |p| {
          assert p[|p| - 1] != '\n';
        }
      }
      assert j[|j| - 1] == r[|r| - 1];
    }
  }

  /** After a well-spaced text that does not end in a line feed, the appended blank line is the first one. */
  lemma {:induction false} BlankLineAfter(j: string)
    requires WellSpaced(j) && (j != [] ==> j[|j| - 1] != '\n')
    ensures FirstOccurrence(j + BLANK_LINE, BLANK_LINE, |j|)
  {
    var s := j + BLANK_LINE;
    assert s[|j|..|j| + 4] == BLANK_LINE;
    forall i | 0 <= i < |j|
      ensures !OccursAt(s, BLANK_LINE, i)
    {
      if i + 4 <= |s| {
        var w := s[i..i + 4];
        assert w[1] == s[i + 1] && w[3] == s[i + 3];
        if i + 3 < |j| {
          if s[i + 3] == '\n' {
            assert j[i + 3] == '\n';
          }
        } else if i + 3 == |j| + 1 {
          assert s[i + 1] == j[|j| - 1];
        }
        assert s[i + 1] != '\n' || s[i + 3] != '\n';
      }
    }
  }

  /**
   * Every emitted header line is non-empty and free of line feeds, as long
   * as neither the template lines nor the content type hold a line feed.
   */
  lemma {:induction false} NewHeadersLfFree(lines: seq<string>, ct: string, n: nat, flags: Flags)
    requires forall k :: 0 <= k < |lines| ==> '\n' !in lines[k]
    requires '\n' !in ct
    ensures var hs := NewHeaders(lines, ct, n, flags);
      forall k :: 0 <= k < |hs| ==> hs[k] != [] && '\n' !in hs[k]
  {
    var hs := NewHeaders(lines, ct, n, flags);
    var rs, ne := Rewritten(lines, ct, n, flags), NonEmpty(lines);
    ContentTypeHeaderKind(ct);
    ContentTypeHeaderLfFree(ct);
    ContentLengthHeaderKind(n);
    ContentLengthHeaderLfFree(n);
    forall k | 0 <= k < |hs|
      ensures hs[k] != [] && '\n' !in hs[k]
    {
      if k < |rs| {
        assert ne[k] in ne;
        assert hs[k] == RewriteLine(ne[k], ct, n, flags);
      }
    }
  }

  /** The header lines built from a template are non-empty and free of line feeds. */
  lemma {:induction false} NewHeadersAreLines(template: string, ct: string, n: nat, flags: Flags)
    requires '\n' !in ct
    ensures var hs := NewHeaders(TemplateLines(template), ct, n, flags);
      forall k :: 0 <= k < |hs| ==> hs[k] != [] && '\n' !in hs[k]
  {
    NewHeadersLfFree(TemplateLines(template), ct, n, flags);
  }

  lemma {:induction false} ContentTypeFieldLfFree(s: string)
    requires s == "Content-Type: "
    ensures '\n' !in s
  {
  }

  lemma {:induction false} ContentTypeHeaderLfFree(ct: string)
    requires '\n' !in ct
    ensures '\n' !in ContentTypeHeader(ct)
  {
    ContentTypeFieldLfFree("Content-Type: ");
  }

  /** Non-empty lines without line feeds, joined with CRLF and closed by a blank line, have their first blank line at the end. */
  lemma {:induction false} HeaderLinesFraming(hs: seq<string>)
    requires forall k :: 0 <= k < |hs| ==> hs[k] != [] && '\n' !in hs[k]
    ensures var h := Join(hs, CRLF) + BLANK_LINE;
      |h| >= 4 && FirstOccurrence(h, BLANK_LINE, |h| - 4)
  {
    JoinWellSpaced(hs);
    BlankLineAfter(Join(hs, CRLF));
  }

  /**
   * The header text's first blank line is its last four characters, so
   * the headers end exactly where the body begins.
   */
  lemma {:induction false} HeaderTextFraming(template: string, ct: string, n: nat, flags: Flags)
    requires '\n' !in ct
    ensures var h := HeaderText(template, ct, n, flags);
      |h| >= 4 && FirstOccurrence(h, BLANK_LINE, |h| - 4)
  {
    NewHeadersAreLines(template, ct, n, flags);
    HeaderLinesFraming(NewHeaders(TemplateLines(template), ct, n, flags));
  }

  lemma CharCodes(c: char)
    ensures c as int == 13 <==> c == '\r'
    ensures c as int == 10 <==> c == '\n'
  {
  }

  /** A blank line at a position of the header text is a blank line at the same byte position. */
  lemma {:induction false} BlankLineBytes(h: string, bytes: seq<Byte>, j: nat)
    requires |h| <= |bytes| && forall m :: 0 <= m < |h| ==> bytes[m] == h[m] as int
    requires j + 4 <= |h|
    ensures OccursAt(bytes, BLANK_LINE_BYTES, j) <==> OccursAt(h, BLANK_LINE, j)
  {
    var bw, hw := bytes[j..j + 4], h[j..j + 4];
    forall m | 0 <= m < 4
      ensures bw[m] == BLANK_LINE_BYTES[m] <==> hw[m] == BLANK_LINE[m]
    {
      CharCodes(hw[m]);
    }
    if bw == BLANK_LINE_BYTES {
      assert forall m :: 0 <= m < 4 ==> hw[m] == BLANK_LINE[m];
    }
    if hw == BLANK_LINE {
      assert forall m :: 0 <= m < 4 ==> bw[m] == BLANK_LINE_BYTES[m];
    }
  }

  /**
   * The request `_buildRequest` returns splits at its first CRLFCRLF into
   * the encoded headers and the body bytes exactly as given.
   */
  lemma {:induction false} RequestFraming(template: string, body: seq<Byte>, ct: string, flags: Flags)
    requires '\n' !in ct
    requires RenderRequest(template, body, ct, flags).Success?
    ensures var out := RenderRequest(template, body, ct, flags).value;
      var h := HeaderText(template, ct, |body|, flags);
      IndexOf(out, BLANK_LINE_BYTES) == Some(|h| - 4) && out[|h| - 4 + |BLANK_LINE_BYTES|..] == body
  {
    var out := RenderRequest(template, body, ct, flags).value;
    var h := HeaderText(template, ct, |body|, flags);
    HeaderTextFraming(template, ct, |body|, flags);
    var k := |h| - 4;
    BlankLineBytes(h, out, k);
    forall j | 0 <= j < k
      ensures !OccursAt(out, BLANK_LINE_BYTES, j)
    {
      BlankLineBytes(h, out, j);
    }
    IndexOfIs(out, BLANK_LINE_BYTES, k);
  }

  lemma {:induction false} FramedCrlfOnly(j: string, body: string)
    requires WellSpaced(j) && CrlfOnly(body)
    ensures CrlfOnly(j + BLANK_LINE + body)
  {
    var framed := j + BLANK_LINE;
    var raw := framed + body;
    forall m | 0 <= m < |raw| && raw[m] == '\n'
      ensures 0 < m && raw[m - 1] == '\r'
    {
      if m < |j| {
        assert raw[m] == j[m] && raw[m - 1] == j[m - 1];
      } else if m >= |framed| {
        assert body[m - |framed|] == '\n';
      }
    }
  }

  lemma {:induction false} FirstBlankLine(j: string, body: string)
    requires WellSpaced(j) && (j != [] ==> j[|j| - 1] != '\n')
    ensures FirstOccurrence(j + BLANK_LINE + body, BLANK_LINE, |j|)
  {
    var framed := j + BLANK_LINE;
    BlankLineAfter(j);
    forall i | 0 <= i < |j|
      ensures !OccursAt(framed + body, BLANK_LINE, i)
    {
      OccursInPrefix(framed, body, BLANK_LINE, i);
    }
    OccursInPrefix(framed, body, BLANK_LINE, |j|);
  }

  /**
   * A request written as non-empty header lines, a blank line and a body
   * in CRLF form gives that body back.
   */
  lemma {:induction false} ExtractBodyRoundTrip(lines: seq<string>, body: string)
    requires forall k :: 0 <= k < |lines| ==> lines[k] != [] && '\n' !in lines[k]
    requires CrlfOnly(body)
    ensures ExtractBody(Join(lines, CRLF) + BLANK_LINE + body) == body
  {
    var j := Join(lines, CRLF);
    JoinWellSpaced(lines);
    var raw := j + BLANK_LINE + body;
    FramedCrlfOnly(j, body);
    assert NormalizeNewlines(raw) == raw;
    FirstBlankLine(j, body);
    IndexOfIs(raw, BLANK_LINE, |j|);
    assert raw[|j| + |BLANK_LINE|..] == body;
  }

  /** Line-feed-free lines joined with CRLF split at CRLF into those lines again. */
  lemma {:induction false} SplitJoinedLines(lines: seq<string>)
    requires |lines| >= 1
    requires forall k :: 0 <= k < |lines| ==> '\n' !in lines[k]
    ensures Split(Join(lines, CRLF), CRLF) == lines
    decreases |lines|
  {
    var l := lines[0];
    if |lines| >= 2 {
      var rest := lines[1..];
      var r := Join(rest, CRLF);
      var j := l + CRLF + r;
      assert j == Join(lines, CRLF);
      forall i | 0 <= i < |l|
        ensures !OccursAt(j, CRLF, i)
      {
        if i + 1 < |l| {
          assert j[i + 1] == l[i + 1];
        } else {
          assert j[i + 1] == CRLF[0];
        }
        assert j[i..i + 2][1] == j[i + 1] != '\n';
      }
      assert j[|l|..|l| + 2] == CRLF;
      IndexOfIs(j, CRLF, |l|);
      SplitAt(j, CRLF, |l|);
      assert j[..|l|] == l && j[|l| + 2..] == r;
      SplitJoinedLines(rest);
    }
  }

  /**
   * A template written as non-empty header lines, a blank line and a rest
   * in CRLF form gives exactly those header lines back.
   */
  lemma {:induction false} TemplateLinesRoundTrip(lines: seq<string>, rest: string)
    requires |lines| >= 1
    requires forall k :: 0 <= k < |lines| ==> lines[k] != [] && '\n' !in lines[k]
    requires CrlfOnly(rest)
    ensures TemplateLines(Join(lines, CRLF) + BLANK_LINE + rest) == lines
  {
    var j := Join(lines, CRLF);
    JoinWellSpaced(lines);
    var raw := j + BLANK_LINE + rest;
    FramedCrlfOnly(j, rest);
    assert NormalizeNewlines(raw) == raw;
    FirstBlankLine(j, rest);
    IndexOfIs(raw, BLANK_LINE, |j|);
    assert raw[..|j|] == j;
    assert HeaderSection(raw) == j;
    assert !EndsWith(j, CRLF);
    assert HeaderBlock(raw) == j;
    SplitJoinedLines(lines);
  }
}
