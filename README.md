# WAF bypass encoder: the request-rewriting core

This project models the request-rewriting core of the WAF bypass extension
(`waf_bypass_burp.py`) and proves properties of it. The extension takes an
HTTP request, re-encodes its body in one of twelve charsets (EBCDIC code
pages, UTF-16/32 in both byte orders, ISO-8859-1/15, Windows-1252) and
rebuilds the request around the encoded body. It rewrites the Content-Type
and Content-Length headers as it does so. "Fuzz All" does this for every
charset of its catalogue and keeps one result record per built variant,
keyed by the charset's 1-based catalogue position. Each record can then be
sent, and its status, length, timing and note are updated from the answer.

The modules follow the program's structure:

- `Wrappers`: `Option` and `Result`.
- `Text`: the Python string operations the core uses, over sequences.
  These are `find`/`in`, `split`, `join`, `replace`, `lower`/`upper`
  (ASCII), `strip`, `"%d"`, `int()` and the ISO-8859-1 encoding.
- `Encoding`: `EncodingEngine.encode` (the codec dispatch),
  `get_charset_name`, `_getContentType`, and the `ENCODINGS` and
  `CONTENT_TYPES` tables.
- `Catalogue`: facts about the fixed tables. It states which codec each
  catalogue name selects, that no two names share one, which alias
  spellings agree, and what each offered Content-Type template becomes.
- `Request`: line-ending normalisation, `_extractBody`, the host and port
  scan of `_parseRequest`, and `_buildRequest`.
  - `_buildRequest` is specified by the functions `HeaderBlock`,
    `TemplateLines`, `NewHeaders`, `HeaderText` and `RenderRequest`.
  - It is implemented by the methods `TakeHeaderSection`, `RewriteHeaders`
    and `BuildRequest`, with the source's loops and `found_ct`/`found_cl`
    flags, and these are proved equal to the functions.
- `Fuzz`: the fuzz runner, the `FuzzResult` class and the sending of
  results through a transport.
  - `Panel` is a class holding the panel state the core reads and writes:
    the request and body areas, the host and port fields, the HTTPS box,
    the result map and the table's index column.

The codecs are an abstract table `codecs: (Codec, string) -> Result<bytes, message>`.
The host application's HTTP client, the response parser and the clock are
one abstract `transport` that answers each call with an exception message
or with the response, the parsed status and the elapsed milliseconds. The
two header checkboxes are a `Flags` parameter, and the selected
Content-Type template is a `template` parameter. The runner threads are
plain sequential loops.

## Model

| member | source | states |
|---|---|---|
| Text.IndexOf | waf_bypass_burp.py:358-359 | the result is the first position where the pattern occurs, or None when it occurs nowhere |
| Text.Split | waf_bypass_burp.py:348 | the pieces joined with the separator give the text back, and there is a single piece exactly when the separator is absent |
| Text.SplitPiecesFree | waf_bypass_burp.py:348 | no piece of a split holds the separator |
| Text.SplitHead | waf_bypass_burp.py:383 | the first piece of a split is the text before the first occurrence of the separator |
| Text.ReplaceBefore | waf_bypass_burp.py:417 | when the pattern does not start inside the prefix, `replace` copies the prefix, puts the replacement for the pattern and goes on after it |
| Text.ReplaceIsJoinOfSplit | waf_bypass_burp.py:417 | `replace` puts the replacement at every occurrence: it equals splitting at the pattern and joining with the replacement |
| Text.Lower | waf_bypass_burp.py:349 | same length, each character lowered one by one |
| Text.Strip | waf_bypass_burp.py:350 | the result is a contiguous slice of the input, it neither starts nor ends with whitespace, and only whitespace was removed |
| Text.StripIdempotent | waf_bypass_burp.py:541 | stripping twice is stripping once |
| Text.ParseStripped | waf_bypass_burp.py:541 | `int()` strips its argument itself, so parsing the stripped field gives what parsing the field gives |
| Text.DecimalRoundTrip | waf_bypass_burp.py:401 | the digits `"%d"` writes for n have the value n |
| Text.ParseDecimal | waf_bypass_burp.py:401 | `int()` reads a `"%d"` rendering back as the same number |
| Text.Latin1Encode | waf_bypass_burp.py:412 | the encoding succeeds exactly when every character is below 256, and then each byte is its character's code |
| Encoding.ResolveCodec | waf_bypass_burp.py:79-106 | the generic registry lookup is chosen exactly when the normalised name matches no alias branch, and it receives the name as given, not normalised |
| Encoding.Encode | waf_bypass_burp.py:78-108 | succeeds exactly when the chosen codec succeeds, with its bytes; otherwise fails with "Encoding error: " followed by the codec's message |
| Encoding.NameKeyIsUpperWithoutSeparators | waf_bypass_burp.py:79 | the normalised name is the name with every '-' and '_' removed, upper-cased |
| Encoding.SpellingVariantsShareCodec | waf_bypass_burp.py:79-104 | two names that differ only in letter case and in where '-' and '_' stand select the same built-in codec |
| Encoding.CharsetNamesAreLowerCase | waf_bypass_burp.py:112-125 | every value of the charset table is its key lower-cased |
| Encoding.CharsetName | waf_bypass_burp.py:111-126 | the charset token is always the lower-cased name, whether or not the table has it |
| Encoding.ContentType | waf_bypass_burp.py:416-417 | every "{encoding}" of the template becomes the lower-cased name; a template without it comes back unchanged |
| Encoding.GetContentType | waf_bypass_burp.py:414-417 | `str()` of the selected template succeeds exactly when the template is ASCII, and then the result is the template with every "{encoding}" replaced by the lower-cased name; otherwise it fails |
| Encoding.ContentTypeKeepsOut | waf_bypass_burp.py:414-417 | a character in neither the template nor the name (a line feed, say) is not in the Content-Type |
| Catalogue.CatalogueCodecs | waf_bypass_burp.py:22-35 | the catalogue has twelve names; each reaches its own alias branch, never the registry fallback |
| Catalogue.CatalogueCodecsDistinct | waf_bypass_burp.py:22-35 | no two catalogue names select the same codec |
| Catalogue.CatalogueCodecOwner | waf_bypass_burp.py:22-35 | entry k selects the k-th listed codec and no other entry selects it |
| Catalogue.Aliases | waf_bypass_burp.py:81-104 | CP037/IBM037, CP500/IBM500, CP1026/IBM1026, LATIN1/ISO-8859-1, CP1252/Windows-1252 and utf_16le/UTF-16LE each select one and the same built-in codec |
| Catalogue.CatalogueContentTypes | waf_bypass_burp.py:37-44 | the first five templates become their prefix plus the lower-cased name; "application/octet-stream" is returned as it is |
| Request.NormalizeNewlines | waf_bypass_burp.py:375 | after the two replaces every line feed follows a carriage return, and a text already in that form is unchanged (the normalisation is idempotent) |
| Request.ExtractBody | waf_bypass_burp.py:374-378 | the text after the first CRLFCRLF of the normalised request, or "" when there is none |
| Request.ExtractBodyRoundTrip | waf_bypass_burp.py:374-378 | a request written as non-empty header lines, a blank line and a body in CRLF form yields exactly that body |
| Request.HostAndPort | waf_bypass_burp.py:351-356 | without ':' the value is the host and the port is untouched; with ':' host and port are the first two ':'-free pieces, as the value starts |
| Request.HostAndPortRoundTrip | waf_bypass_burp.py:351-354 | "host:port" with ':'-free parts is read back as that host and that port |
| Request.TargetIn | waf_bypass_burp.py:348-357 | with no host line both fields keep their values |
| Request.TargetFromFirstHostLine | waf_bypass_burp.py:348-357 | the first host line decides: the stripped text after its "host:" is read as host and port, whatever later lines hold |
| Request.ScanHostLines | waf_bypass_burp.py:348-357 | the loop that stops at the first host line computes `TargetIn` |
| Request.ParseText | waf_bypass_burp.py:347-360 | the target of the normalised lines, and the body after the first blank line when there is one, else the old body |
| Request.TrimTrailingCrlf | waf_bypass_burp.py:386-387 | the result is a prefix that no longer ends in CRLF, and what was cut is CRLF pairs only |
| Request.HeaderSection | waf_bypass_burp.py:382-385 | the text before the first CRLFCRLF when there is one, else the whole text |
| Request.HeaderBlock | waf_bypass_burp.py:381-387 | the header section with only its trailing CRLF pairs cut off: a prefix of it, not ending in CRLF, with only CRLF line breaks, and what follows it in the section is CRLF pairs only |
| Request.SplitJoinedLines | waf_bypass_burp.py:388 | lines free of line feeds, joined with CRLF, split back into the same lines |
| Request.TemplateLinesRoundTrip | waf_bypass_burp.py:381-388 | a template written as non-empty header lines, a blank line and a body in CRLF form gives exactly those header lines |
| Request.TakeHeaderSection | waf_bypass_burp.py:381-387 | the loop that trims line breaks computes `HeaderBlock` |
| Request.TemplateLines | waf_bypass_burp.py:388 | the lines joined with CRLF give the header section back, and no line holds a line feed |
| Request.NonEmpty | waf_bypass_burp.py:393-394 | exactly the non-empty lines are kept |
| Request.NonEmptyConcat | waf_bypass_burp.py:393-394 | dropping empty lines commutes with concatenation, so the kept lines keep their relative order |
| Request.Rewritten | waf_bypass_burp.py:392-404 | one output line per non-empty line, in order, each the line's rewrite (Content-Type or Content-Length header under its flag, else the line verbatim) |
| Request.AnyContentTypeIsExists | waf_bypass_burp.py:396-398 | `found_ct` is set exactly when some line's lower-case form starts with "content-type:" |
| Request.AnyContentLengthIsExists | waf_bypass_burp.py:400-402 | `found_cl` is set exactly when some line's lower-case form starts with "content-length:" |
| Request.RewriteHeaders | waf_bypass_burp.py:389-408 | the loop with `found_ct`/`found_cl` and the two appends after it computes `NewHeaders` |
| Request.RenderRequest | waf_bypass_burp.py:409-412 | fails exactly when a header character is above U+00FF; otherwise the output is the header text's bytes followed by the body bytes unchanged, of length len(header_str) + len(body) |
| Request.BuildRequest | waf_bypass_burp.py:380-412 | the imperative `_buildRequest` returns what `RenderRequest` specifies |
| Request.ContentLengthIsBodyLength | waf_bypass_burp.py:400-408 | with the Content-Length flag on, every Content-Length line of the output says the body's byte length, and there is at least one |
| Request.ContentTypeIsGiven | waf_bypass_burp.py:396-406 | with the Content-Type flag on, every Content-Type line of the output carries the given content type, and there is at least one |
| Request.FlagsOffKeepsLines | waf_bypass_burp.py:392-404 | with both flags off the output headers are exactly the template's non-empty header lines, in order |
| Request.NewHeadersAreLines | waf_bypass_burp.py:389-408 | every emitted header line is non-empty and free of line feeds when the content type has none |
| Request.HeaderTextFraming | waf_bypass_burp.py:409 | the header text's first CRLFCRLF is its last four characters |
| Request.RequestFraming | waf_bypass_burp.py:409-412 | the rebuilt request's first CRLFCRLF ends exactly where the body bytes begin, and the bytes after it are the body |
| Fuzz.BuildVariant | waf_bypass_burp.py:471-476 | a variant is built exactly when encoding succeeds, the template is ASCII and rebuilding succeeds; it carries the entry's name and family, the Content-Type and the rebuilt request |
| Fuzz.MakeVariant | waf_bypass_burp.py:471-476 | the body of the runner's `try`, with the imperative rebuild, computes `BuildVariant` |
| Fuzz.VariantsAt | waf_bypass_burp.py:469-476 | the outcome at catalogue position k is that entry's `BuildVariant` |
| Fuzz.VariantsStep | waf_bypass_burp.py:469-476 | one more catalogue entry appends its outcome |
| Fuzz.KeysAreBuiltPositions | waf_bypass_burp.py:469-477 | key i is present exactly when position i (1-based) built; keys increase and lie between 1 and the number of entries |
| Fuzz.KeysWithoutOne | waf_bypass_burp.py:469-487 | outcomes that differ only by a failure at position k leave the same keys except k+1 |
| Fuzz.FailureIsIsolated | waf_bypass_burp.py:469-487 | a codec that fails on the body removes only its own entry: every other entry builds the same variant and keeps its key, and later entries are still generated |
| Fuzz.CatalogueFailureIsIsolated | waf_bypass_burp.py:469-487 | the same for the catalogue itself: a failing codec k leaves exactly key k+1 out of the generated keys |
| Fuzz.NonAsciiTemplateBuildsNothing | waf_bypass_burp.py:469-486 | with a non-ASCII Content-Type template every entry fails in `_getContentType`, so no result is recorded |
| Fuzz.CatalogueNamesLfFree | waf_bypass_burp.py:22-35 | no catalogue name holds a line feed |
| Fuzz.VariantCarriesEncodedBody | waf_bypass_burp.py:471-476 | a built variant holds the codec's bytes unchanged right after its first CRLFCRLF |
| Fuzz.VariantContentLength | waf_bypass_burp.py:471-476 | with the Content-Length flag on, the variant's Content-Length headers state the byte length of the encoded body, not of the source text |
| Fuzz.FuzzResult.constructor | waf_bypass_burp.py:130-139 | a new record holds the variant's fields and is unsent: no response, status -1, length 0, time 0, note "Ready" |
| Fuzz.ReadPort | waf_bypass_burp.py:541 | `int(field.strip())` is the integer literal of the stripped field, or None |
| Fuzz.SendCases | waf_bypass_burp.py:541-573 | a bad port or a raising transport changes only the note, to "Error: " plus the message; an answer records response and time; a non-empty one also sets status, byte length and "Done"; an empty or missing one sets "No Response" and keeps status and length |
| Fuzz.SendOutcomes | waf_bypass_burp.py:550-573 | after a send the note is "Done", "No Response" or starts with "Error: ", and only "Done" changes status and length |
| Fuzz.NoResponseKeepsDefaults | waf_bypass_burp.py:558-559 | an unsent record that gets no response keeps status -1 and length 0 |
| Fuzz.SendFuzzRequest | waf_bypass_burp.py:538-577 | the record's send state after the call is `AfterSend` of its state before; the transport is called once, with the stripped host, the port's number, the HTTPS flag and the record's request, exactly when the port is a number |
| Fuzz.TakeExchange | waf_bypass_burp.py:546-573 | the record's send state after taking in the transport's outcome is `AfterExchange` of its state before |
| Fuzz.RecordedIsConsistent | waf_bypass_burp.py:469-477 | a recorded run's rows are distinct, name exactly the map's keys, and no record sits under two keys |
| Fuzz.RecordedEntries | waf_bypass_burp.py:469-477 | key i is present exactly when entry i builds, and then holds an unsent record of that entry's variant; rows list the keys in increasing order |
| Fuzz.Record | waf_bypass_burp.py:476-477 | a built variant adds a fresh record under the next key and one table row; a failed one leaves map and rows as they were |
| Fuzz.RunFuzz | waf_bypass_burp.py:468-487 | the loop over the catalogue leaves a map and rows that record every entry's outcome, with fresh records |
| Fuzz.SendRows | waf_bypass_burp.py:526-534 | every record ends in `AfterSend` of its old state, and the transport calls made are one per row, in row order, each with that row's key and request (none when the port is not a number); a failed send does not stop the loop |
| Fuzz.ExtractedBodyFollowsBlankLine | waf_bypass_burp.py:454-459 | a non-empty extracted body means the request has a blank line, so `_parseRequest` sets the body area to the same text |
| Fuzz.SampleRequestParts | waf_bypass_burp.py:235-241 | the sample request's header lines are the four sample lines and its body is the sample JSON body |
| Fuzz.Panel.constructor | waf_bypass_burp.py:184-241 | the request area holds the sample POST request, the body area and host are empty, the port is "80", HTTPS is off, there are no results, and the catalogue is `ENCODINGS` |
| Fuzz.Panel.ParseRequest | waf_bypass_burp.py:342-362 | an empty request changes nothing; otherwise host and port are `ParsedTarget`, and the body is replaced when there is a blank line |
| Fuzz.Panel.FuzzAll | waf_bypass_burp.py:449-462 | an empty request or empty body returns before anything changes; otherwise body and target are parsed and the results record every catalogue entry's outcome under its 1-based key |
| Fuzz.Panel.Generate | waf_bypass_burp.py:461-487 | the table and map are cleared and then hold one fresh record per built variant; no other field changes |
| Fuzz.Panel.SendAll | waf_bypass_burp.py:513-536 | with no results or no host nothing changes and no call is made; otherwise every record is sent as `AfterSend` says, with one transport call per table row, in row order |
| Fuzz.Panel.SendSelected | waf_bypass_burp.py:491-511 | with a selected row, a host and a record for the row's key, that record alone is sent, with one transport call for it when the port is a number; otherwise nothing changes and no call is made |
| Fuzz.Panel.ClearResults | waf_bypass_burp.py:620-623 | the table and the map are emptied and nothing else changes |
| Fuzz.Panel.Clear | waf_bypass_burp.py:611-618 | the request and body areas, the table and the map are emptied; host, port and HTTPS are kept |

## Left out

- Swing construction, dialogs, logging, copy and paste, the detail view, and the table-model cell updates are presentation only. The table's index column is kept as `rows`.
- The Burp host callbacks (`registerExtenderCallbacks`, tabs and the context menu) are host integration.
- Threads, `invokeLater` and the 100 ms sleep between sends are timing only. The runners are sequential loops, so no interleaving of a running fuzz with a send is modelled.
- The HTTP client, `analyzeResponse` and the clock are the abstract `transport`. An exception raised by `analyzeResponse` after the response was stored is not modelled: the transport either raises before anything is stored or answers.
- The codecs themselves and Python's codec registry are the abstract `codecs` table.
- The Python 2 re-encoding of a `str` body at line 410 is left out: the body is bytes and is appended verbatim.
- `_doEncode` (the single-encoding button and its hex rendering) is not part of this model.
- `_syncBody` is not part of this model.
- Text.Lower, Text.Upper: ASCII case mapping only. The prefixes tested with `lower()` ("host:", "content-type:", "content-length:") hold no letter that a non-ASCII character lowers to, and the catalogue names are ASCII.
- Fuzz.ReadPort: Python 2's `int()` also accepts non-ASCII digits and whitespace between the sign and the digits, which this model rejects.
- Fuzz.SendCases: the port error message renders the field with plain quotes, where Python renders its `repr`.
- Encoding.GetContentType: a non-ASCII template fails with a fixed message, not Python's full `UnicodeEncodeError` text.
- Fuzz.SendRows, Fuzz.Panel.SendAll, Fuzz.Panel.SendSelected, Fuzz.SendFuzzRequest: the transport calls are recorded as a ghost trace returned beside the state change.
- Request.RenderRequest: a header character above U+00FF fails with a fixed message, not Python's `UnicodeEncodeError` text. The runner drops such an entry just the same.
- Fuzz.Panel.Generate: the map and rows are built in locals and assigned at the end, so the partly filled map a concurrent send could observe is not modelled.
- Fuzz.Panel.FuzzAll: the panel walks its `catalogue` field, which the constructor sets to `ENCODINGS`.
