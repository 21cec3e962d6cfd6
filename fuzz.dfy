/**
 * The fuzz run: one request variant per catalogue entry, kept in a map
 * from the entry's 1-based position to a mutable result record, and the
 * sending of those variants through a transport.
 *
 * The transport (the host application's HTTP client, the response parser
 * and the clock) is a parameter: for each call it yields either the
 * message of the exception it raised or the response bytes, the parsed
 * status code and the elapsed milliseconds. The runner threads become
 * plain sequential loops.
 */
module Fuzz {
  import opened Wrappers
  import opened Text
  import opened Encoding
  import opened Catalogue
  import opened Request

  // ---------------------------------------------------------------------------
  // Variants
  // ---------------------------------------------------------------------------

  /** What one catalogue entry yields: its name and family, the Content-Type used, the request bytes. */
  datatype Variant = Variant(encoding: string, family: string, contentType: string, request: seq<Byte>)

  /**
   * One step of the fuzz loop: encode the body with the entry's charset,
   * fill the template with its charset token and rebuild the request
   * around the encoded body. Any of the three failing drops the entry.
   */
  function BuildVariant(raw: string, body: string, entry: CatalogueEntry, template: string,
                        flags: Flags, codecs: CodecTable): (r: Result<Variant, string>)
    ensures r.Success? ==> r.value.encoding == entry.name && r.value.family == entry.family
    ensures r.Success? <==>
      Encode(body, entry.name, codecs).Success?
      && IsAscii(template)
      && RenderRequest(raw, Encode(body, entry.name, codecs).value, ContentType(template, entry.name), flags).Success?
    ensures r.Success? ==>
      r.value.contentType == ContentType(template, entry.name)
      && r.value.request == RenderRequest(raw, Encode(body, entry.name, codecs).value, r.value.contentType, flags).value
  {
    var encoded :- Encode(body, entry.name, codecs);
    var ct :- GetContentType(template, entry.name);
    var request :- RenderRequest(raw, encoded, ct, flags);
    Success(Variant(entry.name, entry.family, ct, request))
  }

  /**
   * The body of the runner's `try`: the steps of `BuildVariant`, with the
   * request rebuilt by the imperative `BuildRequest`.
   */
  method MakeVariant(raw: string, body: string, entry: CatalogueEntry, template: string,
                     flags: Flags, codecs: CodecTable) returns (r: Result<Variant, string>)
    ensures r == BuildVariant(raw, body, entry, template, flags, codecs)
  {
    var encoded := Encode(body, entry.name, codecs);
    if encoded.Failure? {
      return Failure(encoded.error);
    }
    var ct := GetContentType(template, entry.name);
    if ct.Failure? {
      return Failure(ct.error);
    }
    var request := BuildRequest(raw, encoded.value, ct.value, flags);
    if request.Failure? {
      return Failure(request.error);
    }
    r := Success(Variant(entry.name, entry.family, ct.value, request.value));
  }

  /** The outcome of every catalogue position, in catalogue order. */
  function Variants(raw: string, body: string, entries: seq<CatalogueEntry>, template: string,
                    flags: Flags, codecs: CodecTable): (vs: seq<Result<Variant, string>>)
    ensures |vs| == |entries|
  {
    if entries == [] then []
    else
      var init := entries[..|entries| - 1];
      Variants(raw, body, init, template, flags, codecs)
      + [BuildVariant(raw, body, entries[|entries| - 1], template, flags, codecs)]
  }

  lemma {:induction false} VariantsAt(raw: string, body: string, entries: seq<CatalogueEntry>, template: string,
                                     flags: Flags, codecs: CodecTable, k: nat)
    requires k < |entries|
    ensures Variants(raw, body, entries, template, flags, codecs)[k] == BuildVariant(raw, body, entries[k], template, flags, codecs)
    decreases |entries|
  {
    if k < |entries| - 1 {
      VariantsAt(raw, body, entries[..|entries| - 1], template, flags, codecs, k);
    }
  }

  lemma {:induction false} VariantsStep(raw: string, body: string, entries: seq<CatalogueEntry>, template: string,
                     flags: Flags, codecs: CodecTable, k: nat)
    requires k < |entries|
    ensures Variants(raw, body, entries[..k + 1], template, flags, codecs)
      == Variants(raw, body, entries[..k], template, flags, codecs) + [BuildVariant(raw, body, entries[k], template, flags, codecs)]
  {
    assert entries[..k + 1][..k] == entries[..k];
  }

  /**
   * The 1-based keys a sequence of outcomes leaves in the result map, in
   * catalogue order.
   */
  function Keys(vs: seq<Result<Variant, string>>): seq<int> {
    if vs == [] then []
    else
      var init := Keys(vs[..|vs| - 1]);
      if vs[|vs| - 1].Success? then init + [|vs|] else init
  }

  /**
   * The keys are the positions whose variant was built, in increasing
   * order, each between 1 and the number of outcomes.
   */
  lemma {:induction false} KeysAreBuiltPositions(vs: seq<Result<Variant, string>>)
    ensures forall i :: i in Keys(vs) <==> 1 <= i <= |vs| && vs[i - 1].Success?
    ensures forall a, b :: 0 <= a < b < |Keys(vs)| ==> Keys(vs)[a] < Keys(vs)[b]
    ensures forall a :: 0 <= a < |Keys(vs)| ==> 1 <= Keys(vs)[a] <= |vs|
  {
    if vs != [] {
      var init := vs[..|vs| - 1];
      KeysAreBuiltPositions(init);
      assert forall j :: 0 <= j < |init| ==> vs[j] == init[j];
    }
  }

  /**
   * A template with a character outside ASCII fails the `str()` in every
   * pass of the runner, so no entry builds and no key is filled.
   */
  lemma {:induction false} NonAsciiTemplateBuildsNothing(raw: string, body: string, entries: seq<CatalogueEntry>,
                                                         template: string, flags: Flags, codecs: CodecTable)
    requires !IsAscii(template)
    ensures forall k :: 0 <= k < |entries| ==> Variants(raw, body, entries, template, flags, codecs)[k].Failure?
    ensures Keys(Variants(raw, body, entries, template, flags, codecs)) == []
  {
    var vs := Variants(raw, body, entries, template, flags, codecs);
    forall k | 0 <= k < |entries|
      ensures vs[k].Failure?
    {
      VariantsAt(raw, body, entries, template, flags, codecs, k);
    }
    KeysAreBuiltPositions(vs);
    if Keys(vs) != [] {
      assert Keys(vs)[0] in Keys(vs);
    }
  }

  /** The keys a fuzz run over the catalogue fills. */
  function Generated(raw: string, body: string, template: string, flags: Flags, codecs: CodecTable): seq<int> {
    Keys(Variants(raw, body, ENCODINGS, template, flags, codecs))
  }

  /**
   * Outcomes that differ only in a failure at position `k` leave the same
   * keys, except that key `k + 1` is missing.
   */
  lemma {:induction false} KeysWithoutOne(vs: seq<Result<Variant, string>>, ws: seq<Result<Variant, string>>, k: nat)
    requires |vs| == |ws| && k < |ws| && ws[k].Failure?
    requires forall j :: 0 <= j < |ws| && j != k ==> ws[j] == vs[j]
    ensures forall i :: i != k + 1 ==> (i in Keys(ws) <==> i in Keys(vs))
    ensures k + 1 !in Keys(ws)
  {
    KeysAreBuiltPositions(vs);
    KeysAreBuiltPositions(ws);
  }

  /**
   * A codec that fails on the body removes only its own position: when
   * two codec tables differ only in that codec, and no other entry
   * resolves to it, every other position builds the same variant under
   * both and the same keys are filled except that one.
   */
  lemma {:induction false} FailureIsIsolated(raw: string, body: string, entries: seq<CatalogueEntry>, template: string,
                          flags: Flags, codecs: CodecTable, broken: CodecTable, k: nat)
    requires k < |entries|
    requires forall j :: 0 <= j < |entries| && j != k ==> ResolveCodec(entries[j].name) != ResolveCodec(entries[k].name)
    requires forall c, d :: c != ResolveCodec(entries[k].name) ==> broken(c, d) == codecs(c, d)
    requires broken(ResolveCodec(entries[k].name), body).Failure?
    ensures Variants(raw, body, entries, template, flags, broken)[k].Failure?
    ensures forall j :: 0 <= j < |entries| && j != k ==>
      Variants(raw, body, entries, template, flags, broken)[j] == Variants(raw, body, entries, template, flags, codecs)[j]
    ensures forall i :: i != k + 1 ==>
      (i in Keys(Variants(raw, body, entries, template, flags, broken))
       <==> i in Keys(Variants(raw, body, entries, template, flags, codecs)))
    ensures k + 1 !in Keys(Variants(raw, body, entries, template, flags, broken))
  {
    var vs := Variants(raw, body, entries, template, flags, codecs);
    var ws := Variants(raw, body, entries, template, flags, broken);
    VariantsAt(raw, body, entries, template, flags, broken, k);
    forall j | 0 <= j < |entries| && j != k
      ensures ws[j] == vs[j]
    {
      VariantsAt(raw, body, entries, template, flags, broken, j);
      VariantsAt(raw, body, entries, template, flags, codecs, j);
      assert Encode(body, entries[j].name, broken) == Encode(body, entries[j].name, codecs);
    }
    KeysWithoutOne(vs, ws, k);
  }

  /**
   * `FailureIsIsolated` for the catalogue itself: its twelve entries
   * resolve to twelve different codecs.
   */
  lemma {:induction false} CatalogueFailureIsIsolated(raw: string, body: string, template: string, flags: Flags,
                                   codecs: CodecTable, broken: CodecTable, k: nat)
    requires k < |CATALOGUE_CODECS|
    requires forall c, d :: c != CATALOGUE_CODECS[k] ==> broken(c, d) == codecs(c, d)
    requires broken(CATALOGUE_CODECS[k], body).Failure?
    ensures forall i :: i != k + 1 ==>
      (i in Generated(raw, body, template, flags, broken) <==> i in Generated(raw, body, template, flags, codecs))
    ensures k + 1 !in Generated(raw, body, template, flags, broken)
  {
    CatalogueCodecOwner(k);
    FailureIsIsolated(raw, body, ENCODINGS, template, flags, codecs, broken, k);
  }

  /** A catalogue name holds no line feed. */
  lemma CatalogueNamesLfFree()
    ensures forall k :: 0 <= k < |ENCODINGS| ==> '\n' !in ENCODINGS[k].name
  {
    forall k | 0 <= k < |ENCODINGS|
      ensures '\n' !in ENCODINGS[k].name
    {
      CatalogueNameLfFree(k);
    }
  }

  lemma {:induction false} CatalogueNameLfFree(k: nat)
    requires k < |ENCODINGS|
    ensures '\n' !in ENCODINGS[k].name
  {
    var name := ENCODINGS[k].name;
    CatalogueNameCharacters(k);
    assert forall i :: 0 <= i < |name| ==> name[i] != '\n';
  }

  /** Catalogue names are made of letters, digits and '-'. */
  lemma {:induction false} CatalogueNameCharacters(k: nat)
    requires k < |ENCODINGS|
    ensures forall i :: 0 <= i < |ENCODINGS[k].name| ==>
      var c := ENCODINGS[k].name[i]; ('A' <= c <= 'Z') || ('a' <= c <= 'z') || ('0' <= c <= '9') || c == '-'
  {
  }

  /**
   * A built variant carries the encoded body unchanged after its first
   * CRLFCRLF, when neither the entry's name nor the template can put a
   * line feed into the Content-Type.
   */
  lemma {:induction false} VariantCarriesEncodedBody(raw: string, body: string, entry: CatalogueEntry, template: string,
                                  flags: Flags, codecs: CodecTable)
    requires '\n' !in template && '\n' !in entry.name
    requires BuildVariant(raw, body, entry, template, flags, codecs).Success?
    ensures var v := BuildVariant(raw, body, entry, template, flags, codecs).value;
      var encoded := codecs(ResolveCodec(entry.name), body);
      encoded.Success?
      && exists p :: IndexOf(v.request, BLANK_LINE_BYTES) == Some(p) && v.request[p + 4..] == encoded.value
  {
    var v := BuildVariant(raw, body, entry, template, flags, codecs).value;
    var encoded := Encode(body, entry.name, codecs).value;
    LowerLineFeed();
    ContentTypeKeepsOut(template, entry.name, '\n');
    RequestFraming(raw, encoded, v.contentType, flags);
  }

  lemma LowerLineFeed()
    ensures LowerChar('\n') == '\n'
    ensures forall x :: LowerChar(x) == '\n' ==> x == '\n'
  {
  }

  /**
   * With the Content-Length flag on, the Content-Length lines of a built
   * variant's headers all state the byte length of the encoded body.
   */
  lemma {:induction false} VariantContentLength(raw: string, body: string, entry: CatalogueEntry, template: string,
                             flags: Flags, codecs: CodecTable)
    requires flags.updateContentLength
    requires BuildVariant(raw, body, entry, template, flags, codecs).Success?
    ensures var v := BuildVariant(raw, body, entry, template, flags, codecs).value;
      var n := |codecs(ResolveCodec(entry.name), body).value|;
      var hs := NewHeaders(TemplateLines(raw), v.contentType, n, flags);
      (forall i :: 0 <= i < |hs| && IsContentLengthLine(hs[i]) ==> hs[i] == ContentLengthHeader(n))
      && (exists i :: 0 <= i < |hs| && hs[i] == ContentLengthHeader(n))
  {
    var v := BuildVariant(raw, body, entry, template, flags, codecs).value;
    var n := |Encode(body, entry.name, codecs).value|;
    ContentLengthIsBodyLength(TemplateLines(raw), v.contentType, n, flags);
  }

  // ---------------------------------------------------------------------------
  // Results
  // ---------------------------------------------------------------------------

  /** The fields of a result that sending changes. */
  datatype SendState = SendState(response: Option<seq<Byte>>, statusCode: int, responseLength: int,
                                 responseTime: int, note: string)

  /** A result before it is sent: no response, status -1, length 0, time 0, note "Ready". */
  const READY: SendState := SendState(None, -1, 0, 0, "Ready")

  class FuzzResult {
    const encoding: string
    const encodingType: string
    const contentType: string
    const encodedRequest: seq<Byte>
    var response: Option<seq<Byte>>
    var statusCode: int
    var responseLength: int
    var responseTime: int
    var note: string

    function State(): SendState
      reads this
    {
      SendState(response, statusCode, responseLength, responseTime, note)
    }

    /** The record describes variant `v` and has not been sent. */
    predicate Holds(v: Variant)
      reads this
    {
      encoding == v.encoding && encodingType == v.family && contentType == v.contentType
      && encodedRequest == v.request && State() == READY
    }

    constructor (encoding: string, encodingType: string, contentType: string, encodedRequest: seq<Byte>)
      ensures this.encoding == encoding && this.encodingType == encodingType
      ensures this.contentType == contentType && this.encodedRequest == encodedRequest
      ensures State() == READY
    {
      this.encoding := encoding;
      this.encodingType := encodingType;
      this.contentType := contentType;
      this.encodedRequest := encodedRequest;
      response := None;
      statusCode := -1;
      responseLength := 0;
      responseTime := 0;
      note := "Ready";
    }
  }

  // ---------------------------------------------------------------------------
  // Sending
  // ---------------------------------------------------------------------------

  /** One transport call: the fuzz index, the target and the request bytes. */
  datatype Call = Call(index: int, host: string, port: int, https: bool, request: seq<Byte>)

  /** What a transport call came to. */
  datatype Exchange =
    | Raised(message: string)
    | Answered(response: Option<seq<Byte>>, statusCode: int, elapsedMillis: int)

  type Transport = Call -> Exchange

  /** The message of the `ValueError` that `int()` raises for a text that is not a decimal number. */
  function InvalidLiteral(text: string): string {
    "invalid literal for int() with base 10: '" + text + "'"
  }

  /**
   * `int(field.strip())`. Python's `int` strips its argument itself, so the
   * value is `ParseInt(field)` (`ParseStripped`).
   */
  method ReadPort(field: string) returns (port: Option<int>)
    ensures port == ParseInt(field)
  {
    var text := Strip(field);
    port := ParseInt(text);
    ParseStripped(field);
  }

  /** A non-empty response. */
  predicate Responded(response: Option<seq<Byte>>) {
    response.Some? && |response.value| > 0
  }

  /**
   * `_sendFuzzRequest` on a result in state `s`. An unreadable port or a
   * raising transport only sets the note to "Error: <message>". An answer
   * records the response and the time; a non-empty one also records the
   * status and the byte length and notes "Done", an empty or missing one
   * notes "No Response" and keeps the status and the length.
   */
  function AfterSend(s: SendState, index: int, host: string, port: string, https: bool,
                     request: seq<Byte>, transport: Transport): (r: SendState)
  {
    match ParseInt(port)
    case None => s.(note := "Error: " + InvalidLiteral(Strip(port)))
    case Some(p) => AfterExchange(s, transport(Call(index, Strip(host), p, https, request)))
  }

  /** What the answer of the transport, or the exception it raised, does to a result in state `s`. */
  function AfterExchange(s: SendState, e: Exchange): SendState {
    match e
    case Raised(message) => s.(note := "Error: " + message)
    case Answered(response, code, elapsed) =>
      var answered := s.(responseTime := elapsed, response := response);
      if Responded(response) then answered.(statusCode := code, responseLength := |response.value|, note := "Done")
      else answered.(note := "No Response")
  }

  /**
   * The cases of a send: an unreadable port or a raised exception changes
   * only the note; an answer records response and time, and a non-empty
   * one also the parsed status and the byte length.
   */
  lemma {:induction false} SendCases(s: SendState, index: int, host: string, port: string, https: bool,
                  request: seq<Byte>, transport: Transport)
    ensures var r := AfterSend(s, index, host, port, https, request, transport);
      ParseInt(port).None? ==> r == s.(note := "Error: " + InvalidLiteral(Strip(port)))
    ensures var r := AfterSend(s, index, host, port, https, request, transport);
      ParseInt(port).Some? ==>
        var e := transport(Call(index, Strip(host), ParseInt(port).value, https, request));
        (e.Raised? ==> r == s.(note := "Error: " + e.message))
        && (e.Answered? ==> r.response == e.response && r.responseTime == e.elapsedMillis)
        && (e.Answered? && Responded(e.response) ==>
              r.note == "Done" && r.statusCode == e.statusCode && r.responseLength == |e.response.value|)
        && (e.Answered? && !Responded(e.response) ==>
              r.note == "No Response" && r.statusCode == s.statusCode && r.responseLength == s.responseLength)
  {
  }

  /** The note after a send is "Done", "No Response" or an error, and only "Done" changes status and length. */
  lemma {:induction false} SendOutcomes(s: SendState, index: int, host: string, port: string, https: bool,
                     request: seq<Byte>, transport: Transport)
    ensures var r := AfterSend(s, index, host, port, https, request, transport);
      (r.note == "Done" || r.note == "No Response" || StartsWith(r.note, "Error: "))
      && (r.note != "Done" ==> r.statusCode == s.statusCode && r.responseLength == s.responseLength)
  {
    var r := AfterSend(s, index, host, port, https, request, transport);
    var prefix := "Error: ";
    match ParseInt(port)
    case None =>
      assert r.note == prefix + InvalidLiteral(Strip(port));
      assert r.note[..|prefix|] == prefix;
    case Some(p) =>
      match transport(Call(index, Strip(host), p, https, request))
      case Raised(message) =>
        assert r.note == prefix + message;
        assert r.note[..|prefix|] == prefix;
      case Answered(response, code, elapsed) =>
        if !Responded(response) {
          assert r.note == "No Response";
        }
  }

  /** A fresh result that gets no response keeps status -1 and length 0. */
  lemma {:induction false} NoResponseKeepsDefaults(index: int, host: string, port: string, https: bool,
                                request: seq<Byte>, transport: Transport)
    requires ParseInt(port).Some?
    requires var e := transport(Call(index, Strip(host), ParseInt(port).value, https, request));
      e.Answered? && !Responded(e.response)
    ensures var r := AfterSend(READY, index, host, port, https, request, transport);
      r.note == "No Response" && r.statusCode == -1 && r.responseLength == 0
  {
  }

  /** The transport call a send makes: none when the port field does not hold a number. */
  function SendCall(index: int, host: string, port: string, https: bool, request: seq<Byte>): Option<Call> {
    match ParseInt(port)
    case None => None
    case Some(p) => Some(Call(index, Strip(host), p, https, request))
  }

  /**
   * `_sendFuzzRequest`: the result's send state moves as `AfterSend`
   * says; `host`, `port` and `https` are what the panel's fields hold.
   * `call` is the transport call made, if any.
   */
  method SendFuzzRequest(host: string, port: string, https: bool, index: int, result: FuzzResult, transport: Transport)
    returns (ghost call: Option<Call>)
    modifies result
    ensures call == SendCall(index, host, port, https, result.encodedRequest)
    ensures result.State() == AfterSend(old(result.State()), index, host, port, https, result.encodedRequest, transport)
  {
    var target := Strip(host);
    var portNumber := ReadPort(port);
    if portNumber.None? {
      result.note := "Error: " + InvalidLiteral(Strip(port));
      return None;
    }
    call := Some(Call(index, target, portNumber.value, https, result.encodedRequest));
    var exchange := transport(Call(index, target, portNumber.value, https, result.encodedRequest));
    TakeExchange(result, exchange);
  }

  /** The part of `_sendFuzzRequest` after the transport call: the result's fields take the outcome in. */
  method TakeExchange(result: FuzzResult, exchange: Exchange)
    modifies result
    ensures result.State() == AfterExchange(old(result.State()), exchange)
  {
    match exchange
    case Raised(message) =>
      result.note := "Error: " + message;
    case Answered(response, code, elapsed) =>
      result.responseTime := elapsed;
      result.response := response;
      if Responded(response) {
        result.statusCode := code;
        result.responseLength := |response.value|;
        result.note := "Done";
      } else {
        result.note := "No Response";
      }
  }

  /**
   * A result map and table rows that record the outcomes `vs` in order:
   * the rows are the keys of the built variants, the map holds exactly
   * those keys, each under an unsent record of its variant, and no record
   * is held twice.
   */
  ghost predicate Recorded(found: map<int, FuzzResult>, keys: seq<int>, vs: seq<Result<Variant, string>>)
    reads found.Values
  {
    keys == Keys(vs)
    && (forall i :: i in found <==> i in keys)
    && (forall i :: i in found ==> 1 <= i <= |vs| && vs[i - 1].Success? && found[i].Holds(vs[i - 1].value))
    && (forall i, j :: i in found && j in found && i != j ==> found[i] != found[j])
  }

  /**
   * Table rows and result map agree: the rows name distinct keys, the map
   * holds exactly those keys, and no record sits under two keys.
   */
  ghost predicate Consistent(found: map<int, FuzzResult>, keys: seq<int>) {
    (forall a, b :: 0 <= a < b < |keys| ==> keys[a] != keys[b])
    && (forall i :: i in found <==> i in keys)
    && (forall i, j :: i in found && j in found && i != j ==> found[i] != found[j])
  }

  lemma {:induction false} RecordedIsConsistent(found: map<int, FuzzResult>, keys: seq<int>, vs: seq<Result<Variant, string>>)
    requires Recorded(found, keys, vs)
    ensures Consistent(found, keys)
  {
    KeysAreBuiltPositions(vs);
  }

  /**
   * What a recorded fuzz run holds, entry by entry: key `i` is present
   * exactly when the entry at 1-based position `i` builds, and then holds
   * an unsent record of that entry's variant; the rows list the keys in
   * increasing order.
   */
  lemma {:induction false} RecordedEntries(found: map<int, FuzzResult>, keys: seq<int>, raw: string, body: string,
                        entries: seq<CatalogueEntry>, template: string, flags: Flags, codecs: CodecTable)
    requires Recorded(found, keys, Variants(raw, body, entries, template, flags, codecs))
    ensures forall i :: i in found <==>
      1 <= i <= |entries| && BuildVariant(raw, body, entries[i - 1], template, flags, codecs).Success?
    ensures forall i :: i in found ==>
      found[i].Holds(BuildVariant(raw, body, entries[i - 1], template, flags, codecs).value)
    ensures forall a, b :: 0 <= a < b < |keys| ==> keys[a] < keys[b]
  {
    var vs := Variants(raw, body, entries, template, flags, codecs);
    KeysAreBuiltPositions(vs);
    forall j | 0 <= j < |entries|
      ensures vs[j] == BuildVariant(raw, body, entries[j], template, flags, codecs)
    {
      VariantsAt(raw, body, entries, template, flags, codecs, j);
    }
  }

  /**
   * One pass of the runner after the `try` body: a built variant gets a new
   * record under the next key and a new table row.
   */
  method Record(found: map<int, FuzzResult>, keys: seq<int>, ghost vs: seq<Result<Variant, string>>,
                index: int, variant: Result<Variant, string>)
    returns (found': map<int, FuzzResult>, keys': seq<int>)
    requires index == |vs| + 1 && Recorded(found, keys, vs)
    ensures Recorded(found', keys', vs + [variant])
    ensures variant.Failure? ==> found' == found && keys' == keys
    ensures forall i :: i in found' ==> (i in found && found'[i] == found[i]) || fresh(found'[i])
  {
    assert (vs + [variant])[..|vs|] == vs;
    if variant.Success? {
      var v := variant.value;
      var result := new FuzzResult(v.encoding, v.family, v.contentType, v.request);
      found' := found[index := result];
      keys' := keys + [index];
    } else {
      found', keys' := found, keys;
    }
  }

  /**
   * The runner of `_doFuzzAll`: for every catalogue position in order, a
   * fresh record under its 1-based key when its variant builds.
   */
  method RunFuzz(raw: string, text: string, entries: seq<CatalogueEntry>, template: string,
                 flags: Flags, codecs: CodecTable)
    returns (found: map<int, FuzzResult>, keys: seq<int>)
    ensures Recorded(found, keys, Variants(raw, text, entries, template, flags, codecs))
    ensures forall i :: i in found ==> fresh(found[i])
  {
    ghost var outcomes: seq<Result<Variant, string>> := [];
    found := map[];
    keys := [];
    for k := 0 to |entries|
      invariant outcomes == Variants(raw, text, entries[..k], template, flags, codecs)
      invariant Recorded(found, keys, outcomes)
      invariant forall i :: i in found ==> fresh(found[i])
    {
      var variant := MakeVariant(raw, text, entries[k], template, flags, codecs);
      VariantsStep(raw, text, entries, template, flags, codecs, k);
      found, keys := Record(found, keys, outcomes, k + 1, variant);
      outcomes := outcomes + [variant];
    }
    assert entries[..|entries|] == entries;
  }

  // ---------------------------------------------------------------------------
  // The panel
  // ---------------------------------------------------------------------------

  /** The header lines of the request the panel starts with. */
  const SAMPLE_LINES: seq<string> := [
    "POST /api/test HTTP/1.1",
    "Host: example.com",
    "Content-Type: application/json",
    "Content-Length: 35"
  ]

  /** The body of the request the panel starts with. */
  const SAMPLE_BODY: string := "{\"username\":\"admin\",\"pwd\":\"test\"}"

  /**
   * The request the panel's request area starts with: the header lines
   * joined with CRLF, a blank line and the body.
   */
  const SAMPLE_REQUEST: string := Join(SAMPLE_LINES, CRLF) + BLANK_LINE + SAMPLE_BODY

  /**
   * The starting request is its header lines and its body around a blank
   * line, so Fuzz All on a fresh panel takes that body, which is not empty,
   * and the rebuilt requests start from those header lines.
   */
  lemma SampleRequestParts()
    ensures ExtractBody(SAMPLE_REQUEST) == SAMPLE_BODY != []
    ensures TemplateLines(SAMPLE_REQUEST) == SAMPLE_LINES
  {
    SampleLinesPlain();
    SampleBodyCrlfOnly();
    ExtractBodyRoundTrip(SAMPLE_LINES, SAMPLE_BODY);
    TemplateLinesRoundTrip(SAMPLE_LINES, SAMPLE_BODY);
  }

  lemma SampleLinesPlain()
    ensures forall k :: 0 <= k < |SAMPLE_LINES| ==> SAMPLE_LINES[k] != [] && '\n' !in SAMPLE_LINES[k]
  {
  }

  lemma SampleBodyCrlfOnly()
    ensures CrlfOnly(SAMPLE_BODY)
  {
  }

  /**
   * The state of the extension's panel that the fuzz run uses: the request
   * and body text areas, the host and port fields, the HTTPS checkbox, the
   * result map and the index column of the result table.
   */
  class Panel {
    var request: string
    var body: string
    var host: string
    var port: string
    var https: bool
    var results: map<int, FuzzResult>
    var rows: seq<int>
    /** The catalogue a fuzz run walks through. */
    const catalogue: seq<CatalogueEntry>

    /** Table rows name distinct keys, and distinct keys hold distinct records. */
    ghost predicate Valid()
      reads this
    {
      Consistent(results, rows)
    }

    constructor ()
      ensures request == SAMPLE_REQUEST && body == [] && host == [] && port == "80" && !https
      ensures results == map[] && rows == [] && catalogue == ENCODINGS
      ensures Valid()
    {
      catalogue := ENCODINGS;
      request := SAMPLE_REQUEST;
      body := [];
      host := [];
      port := "80";
      https := false;
      results := map[];
      rows := [];
    }

    /**
     * `_parseRequest`: with a non-empty request, the first host line sets
     * the host (and the port, when it names one), and a blank line sets the
     * body to what follows it.
     */
    method ParseRequest()
      modifies this
      ensures request == old(request) && https == old(https)
      ensures results == old(results) && rows == old(rows)
      ensures old(request) == [] ==> host == old(host) && port == old(port) && body == old(body)
      ensures old(request) != [] ==>
        Target(host, port) == ParsedTarget(old(request), old(host), old(port))
        && body == (if Contains(NormalizeNewlines(old(request)), BLANK_LINE) then ExtractBody(old(request)) else old(body))
    {
      if request == [] {
        return;
      }
      var target, newBody := ParseText(request, host, port, body);
      assert Target(target.host, target.port) == target;
      host, port, body := target.host, target.port, newBody;
    }

    /**
     * `_doFuzzAll` with its runner: an empty request or an empty body stops
     * before anything changes; otherwise the body and target are taken from
     * the request and the results are replaced by fresh records of the
     * variants that build, under their catalogue positions, in order.
     */
    method FuzzAll(template: string, flags: Flags, codecs: CodecTable)
      modifies this
      ensures request == old(request) && https == old(https)
      ensures old(request) == [] || ExtractBody(old(request)) == [] ==>
        body == old(body) && host == old(host) && port == old(port)
        && results == old(results) && rows == old(rows)
      ensures old(request) != [] && ExtractBody(old(request)) != [] ==>
        body == ExtractBody(request)
        && Target(host, port) == ParsedTarget(request, old(host), old(port))
        && Recorded(results, rows, Variants(request, body, catalogue, template, flags, codecs))
        && (forall i :: i in results ==> fresh(results[i]))
        && Valid()
    {
      if request == [] {
        return;
      }
      var extracted := ExtractBody(request);
      if extracted == [] {
        return;
      }
      body := extracted;
      ParseRequest();
      Generate(request, extracted, catalogue, template, flags, codecs);
    }

    /**
     * The fuzz runner: the table and the results are cleared and then hold
     * one fresh record per variant that builds, keyed by its catalogue
     * position; nothing else of the panel changes.
     */
    method Generate(raw: string, text: string, entries: seq<CatalogueEntry>, template: string, flags: Flags, codecs: CodecTable)
      modifies this
      ensures request == old(request) && body == old(body) && host == old(host)
      ensures port == old(port) && https == old(https)
      ensures Recorded(results, rows, Variants(raw, text, entries, template, flags, codecs))
      ensures forall i :: i in results ==> fresh(results[i])
      ensures Valid()
    {
      rows, results := [], map[];
      var found, keys := RunFuzz(raw, text, entries, template, flags, codecs);
      RecordedIsConsistent(found, keys, Variants(raw, text, entries, template, flags, codecs));
      results, rows := found, keys;
    }

    /**
     * The send-all runner: with results present and a host given, every
     * table row is sent once, in row order: `calls` are the transport calls
     * made, one per row. A row whose send fails does not stop the others.
     */
    method SendAll(transport: Transport) returns (ghost calls: seq<Call>)
      requires Valid()
      modifies results.Values
      ensures results == map[] || Strip(host) == [] ==>
        calls == [] && forall i :: i in results ==> results[i].State() == old(results[i].State())
      ensures results != map[] && Strip(host) != [] ==>
        (forall i :: i in results ==>
          results[i].State() == AfterSend(old(results[i].State()), i, host, port, https, results[i].encodedRequest, transport))
        && (ParseInt(port).None? ==> calls == [])
        && (ParseInt(port).Some? ==> |calls| == |rows| && forall r :: 0 <= r < |rows| ==>
              rows[r] in results
              && calls[r] == Call(rows[r], Strip(host), ParseInt(port).value, https, results[rows[r]].encodedRequest))
    {
      if results == map[] || Strip(host) == [] {
        return [];
      }
      calls := SendRows(results, rows, host, port, https, transport);
    }

    /**
     * `_doSendSelected`: the selected row's result is sent when a host is
     * given; `call` is the transport call made, if any.
     */
    method SendSelected(row: int, transport: Transport) returns (ghost call: Option<Call>)
      requires row < |rows|
      requires Valid()
      modifies results.Values
      ensures forall i :: i in results && (row < 0 || Strip(host) == [] || i != rows[row]) ==>
        results[i].State() == old(results[i].State())
      ensures row < 0 || Strip(host) == [] || rows[row] !in results ==> call == None
      ensures 0 <= row && Strip(host) != [] && rows[row] in results ==>
        var i := rows[row];
        results[i].State() == AfterSend(old(results[i].State()), i, host, port, https, results[i].encodedRequest, transport)
        && call == SendCall(i, host, port, https, results[i].encodedRequest)
    {
      if row < 0 {
        return None;
      }
      if Strip(host) == [] {
        return None;
      }
      var index := rows[row];
      call := None;
      if index in results {
        call := SendFuzzRequest(host, port, https, index, results[index], transport);
      }
    }

    /** `_clearResults`: the table and the result map are emptied. */
    method ClearResults()
      modifies this
      ensures results == map[] && rows == [] && Valid()
      ensures request == old(request) && body == old(body) && host == old(host)
      ensures port == old(port) && https == old(https)
    {
      rows := [];
      results := map[];
    }

    /** `_doClear`: the request and body areas, the table and the result map are emptied. */
    method Clear()
      modifies this
      ensures request == [] && body == [] && results == map[] && rows == [] && Valid()
      ensures host == old(host) && port == old(port) && https == old(https)
    {
      request := [];
      body := [];
      rows := [];
      results := map[];
    }
  }

  /**
   * The loop of the send-all runner: every row is sent once, in row order.
   * `calls` are the transport calls made: one per row, in row order, each
   * with that row's request, or none at all when the port field does not
   * hold a number.
   */
  method SendRows(found: map<int, FuzzResult>, rows: seq<int>, host: string, port: string, https: bool, transport: Transport)
    returns (ghost calls: seq<Call>)
    requires Consistent(found, rows)
    modifies found.Values
    ensures forall i :: i in found ==>
      found[i].State() == AfterSend(old(found[i].State()), i, host, port, https, found[i].encodedRequest, transport)
    ensures ParseInt(port).None? ==> calls == []
    ensures ParseInt(port).Some? ==> |calls| == |rows| && forall r :: 0 <= r < |rows| ==>
      rows[r] in found && calls[r] == Call(rows[r], Strip(host), ParseInt(port).value, https, found[rows[r]].encodedRequest)
  {
    calls := [];
    ghost var portNumber, target := ParseInt(port), Strip(host);
    RowRecords(found, rows);
    for r := 0 to |rows|
      invariant forall q :: r <= q < |rows| ==> found[rows[q]].State() == old(found[rows[q]].State())
      invariant forall q :: 0 <= q < r ==>
        found[rows[q]].State() == AfterSend(old(found[rows[q]].State()), rows[q], host, port, https, found[rows[q]].encodedRequest, transport)
      invariant calls == CallsOf(found, rows[..r], target, portNumber, https)
    {
      var index := rows[r];
      ghost var call := SendFuzzRequest(host, port, https, index, found[index], transport);
      if call.Some? {
        calls := calls + [call.value];
      }
      assert rows[..r + 1][..r] == rows[..r];
    }
    forall i | i in found
      ensures found[i].State() == AfterSend(old(found[i].State()), i, host, port, https, found[i].encodedRequest, transport)
    {
      var q :| 0 <= q < |rows| && rows[q] == i;
    }
    assert rows[..|rows|] == rows;
    CallsOfRows(found, rows, target, portNumber, https);
  }

  /** The transport calls that sending the records under `keys`, in order, makes. */
  ghost function CallsOf(found: map<int, FuzzResult>, keys: seq<int>, target: string, port: Option<int>, https: bool): seq<Call> {
    if keys == [] || port.None? then []
    else
      var last := keys[|keys| - 1];
      CallsOf(found, keys[..|keys| - 1], target, port, https)
      + (if last in found then [Call(last, target, port.value, https, found[last].encodedRequest)] else [])
  }

  /** Sending records under every key makes one call per key, in key order, and none without a port. */
  lemma {:induction false} CallsOfRows(found: map<int, FuzzResult>, keys: seq<int>, target: string, port: Option<int>, https: bool)
    requires forall q :: 0 <= q < |keys| ==> keys[q] in found
    ensures port.None? ==> CallsOf(found, keys, target, port, https) == []
    ensures port.Some? ==>
      |CallsOf(found, keys, target, port, https)| == |keys|
      && forall q :: 0 <= q < |keys| ==>
        CallsOf(found, keys, target, port, https)[q] == Call(keys[q], target, port.value, https, found[keys[q]].encodedRequest)
  {
    if keys != [] && port.Some? {
      var init := keys[..|keys| - 1];
      CallsOfRows(found, init, target, port, https);
    }
  }

  /** Every row holds a key of the map, and different rows hold different records. */
  lemma RowRecords(found: map<int, FuzzResult>, rows: seq<int>)
    requires Consistent(found, rows)
    ensures forall q :: 0 <= q < |rows| ==> rows[q] in found
    ensures forall q, q' :: 0 <= q < |rows| && 0 <= q' < |rows| && q != q' ==> found[rows[q]] != found[rows[q']]
  {
    assert forall q :: 0 <= q < |rows| ==> rows[q] in rows;
  }

  /** When the extracted body is not empty, the normalised request has a blank line and the body follows it. */
  lemma {:induction false} ExtractedBodyFollowsBlankLine(raw: string)
    ensures ExtractBody(raw) != [] ==> Contains(NormalizeNewlines(raw), BLANK_LINE)
  {
  }
}
