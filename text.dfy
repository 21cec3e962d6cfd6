/**
 * The string and byte-sequence operations the extension relies on, written
 * with the meaning Python gives them: `s.find`/`in`, `s.split(sep)`,
 * `sep.join(parts)`, `s.replace(old, new)`, `s.upper()`/`s.lower()` on
 * ASCII letters, `s.strip()`, `"%d" % n` and `int(s)`.
 */
module Text {

  import opened Wrappers

  /** An octet, as the extension's request and response byte arrays hold them. */
  type Byte = b: int | 0 <= b < 256

  // ---------------------------------------------------------------------------
  // Searching
  // ---------------------------------------------------------------------------

  /** `pat` occurs in `s` starting at position `i`. */
  ghost predicate OccursAt<T>(s: seq<T>, pat: seq<T>, i: int) {
    0 <= i && i + |pat| <= |s| && s[i..i + |pat|] == pat
  }

  /** Occurrences in `s` past its first element are the occurrences in `s[1..]`, shifted by one. */
  lemma {:induction false} OccursShift<T>(s: seq<T>, pat: seq<T>)
    requires |s| > 0
    ensures forall i :: 0 < i ==> (OccursAt(s, pat, i) <==> OccursAt(s[1..], pat, i - 1))
  {
    forall i | 0 < i
      ensures OccursAt(s, pat, i) <==> OccursAt(s[1..], pat, i - 1)
    {
      if i + |pat| <= |s| {
        var a, b := s[i..i + |pat|], s[1..][i - 1..i - 1 + |pat|];
        assert forall k :: 0 <= k < |pat| ==> a[k] == b[k];
        assert a == b;
      }
    }
  }

  /** The position of the first occurrence of `pat` in `s` (Python's `s.find(pat)`). */
  function IndexOf<T(==)>(s: seq<T>, pat: seq<T>): (r: Option<nat>)
    requires |pat| > 0
    ensures r.Some? ==> OccursAt(s, pat, r.value)
    ensures r.Some? ==> forall i :: 0 <= i < r.value ==> !OccursAt(s, pat, i)
    ensures r.None? ==> forall i :: !OccursAt(s, pat, i)
    decreases |s|
  {
    if |s| < |pat| then None
    else if s[..|pat|] == pat then Some(0)
    else
      var rest := IndexOf(s[1..], pat);
      OccursShift(s, pat);
      if rest.None? then None else Some(rest.value + 1)
  }

  /** Python's `pat in s`. */
  predicate Contains<T(==)>(s: seq<T>, pat: seq<T>)
    requires |pat| > 0
  {
    IndexOf(s, pat).Some?
  }

  /** Python's `s.startswith(prefix)`. */
  predicate StartsWith<T(==)>(s: seq<T>, prefix: seq<T>) {
    |prefix| <= |s| && s[..|prefix|] == prefix
  }

  /** Python's `s.endswith(suffix)`. */
  predicate EndsWith<T(==)>(s: seq<T>, suffix: seq<T>) {
    |suffix| <= |s| && s[|s| - |suffix|..] == suffix
  }

  /** `i` is where the first occurrence of `pat` in `s` starts. */
  ghost predicate FirstOccurrence<T>(s: seq<T>, pat: seq<T>, i: int) {
    OccursAt(s, pat, i) && forall j :: 0 <= j < i ==> !OccursAt(s, pat, j)
  }

  /** An occurrence that ends inside `a` is an occurrence in `a + b`, and back. */
  lemma {:induction false} OccursInPrefix<T>(a: seq<T>, b: seq<T>, pat: seq<T>, i: int)
    requires 0 <= i && i + |pat| <= |a|
    ensures OccursAt(a + b, pat, i) <==> OccursAt(a, pat, i)
  {
    assert (a + b)[i..i + |pat|] == a[i..i + |pat|];
  }

  /** The search finds exactly the first occurrence. */
  lemma {:induction false} IndexOfIs<T>(s: seq<T>, pat: seq<T>, i: nat)
    requires |pat| > 0 && FirstOccurrence(s, pat, i)
    ensures IndexOf(s, pat) == Some(i)
  {
  }

  /** A one-element pattern occurs exactly when its element does. */
  lemma {:induction false} ContainsElement<T>(s: seq<T>, x: T)
    ensures Contains(s, [x]) <==> x in s
  {
    if x in s {
      var i :| 0 <= i < |s| && s[i] == x;
      assert s[i..i + 1] == [x];
      assert OccursAt(s, [x], i);
    }
    if Contains(s, [x]) {
      var i := IndexOf(s, [x]).value;
      assert s[i..i + 1][0] == s[i];
    }
  }

  // ---------------------------------------------------------------------------
  // Split, join and replace
  // ---------------------------------------------------------------------------

  /** Python's `sep.join(parts)`. */
  function Join<T>(parts: seq<seq<T>>, sep: seq<T>): seq<T> {
    if |parts| == 0 then []
    else if |parts| == 1 then parts[0]
    else parts[0] + sep + Join(parts[1..], sep)
  }

  lemma {:induction false} PrefixBeforeFirst<T>(s: seq<T>, sep: seq<T>, i: nat)
    requires |sep| > 0 && IndexOf(s, sep) == Some(i)
    ensures !Contains(s[..i], sep)
  {
    var head := s[..i];
    match IndexOf(head, sep)
    case None =>
    case Some(j) =>
      assert head[j..j + |sep|] == s[j..j + |sep|];
      assert OccursAt(s, sep, j);
  }

  /**
   * The text before the first separator, put in front of pieces that join
   * back to the text after it, gives pieces that join back to the whole text.
   */
  lemma {:induction false} SplitStep<T>(s: seq<T>, sep: seq<T>, i: nat, rest: seq<seq<T>>)
    requires |sep| > 0 && IndexOf(s, sep) == Some(i)
    requires |rest| >= 1 && Join(rest, sep) == s[i + |sep|..]
    ensures Join([s[..i]] + rest, sep) == s
  {
    var head := s[..i];
    assert s == head + sep + s[i + |sep|..];
    assert ([head] + rest)[1..] == rest;
  }

  /**
   * Python's `s.split(sep)`: the pieces between the occurrences of `sep`,
   * found left to right without overlap. Joining them back with `sep`
   * gives `s`; `SplitPiecesFree` shows that no piece contains `sep`.
   */
  function Split<T(==)>(s: seq<T>, sep: seq<T>): (parts: seq<seq<T>>)
    requires |sep| > 0
    ensures |parts| >= 1
    ensures Join(parts, sep) == s
    ensures !Contains(s, sep) ==> parts == [s]
    ensures Contains(s, sep) ==> |parts| >= 2
    decreases |s|
  {
    match IndexOf(s, sep)
    case None => [s]
    case Some(i) =>
      var rest := Split(s[i + |sep|..], sep);
      SplitStep(s, sep, i, rest);
      [s[..i]] + rest
  }

  /** No piece of a split holds the separator. */
  lemma {:induction false} SplitPiecesFree<T>(s: seq<T>, sep: seq<T>)
    requires |sep| > 0
    ensures forall k :: 0 <= k < |Split(s, sep)| ==> !Contains(Split(s, sep)[k], sep)
    decreases |s|
  {
    match IndexOf(s, sep)
    case None =>
    case Some(i) =>
      var rest := Split(s[i + |sep|..], sep);
      SplitPiecesFree(s[i + |sep|..], sep);
      PrefixBeforeFirst(s, sep, i);
      var parts := [s[..i]] + rest;
      assert Split(s, sep) == parts;
      assert forall k :: 1 <= k < |parts| ==> parts[k] == rest[k - 1];
  }

  /** The first piece is the text before the first occurrence of the separator. */
  lemma {:induction false} SplitHead<T>(s: seq<T>, sep: seq<T>)
    requires |sep| > 0
    ensures Contains(s, sep) ==> Split(s, sep)[0] == s[..IndexOf(s, sep).value]
  {
  }

  /**
   * Python's `s.replace(pat, rep)` for a non-empty `pat`: every occurrence,
   * found left to right without overlap, is replaced by `rep`.
   */
  function Replace<T(==)>(s: seq<T>, pat: seq<T>, rep: seq<T>): seq<T>
    requires |pat| > 0
    decreases |s|
  {
    if |s| < |pat| then s
    else if s[..|pat|] == pat then rep + Replace(s[|pat|..], pat, rep)
    else [s[0]] + Replace(s[1..], pat, rep)
  }

  /** A pattern that does not occur leaves the text unchanged. */
  lemma {:induction false} ReplaceAbsent<T>(s: seq<T>, pat: seq<T>, rep: seq<T>)
    requires |pat| > 0 && !Contains(s, pat)
    ensures Replace(s, pat, rep) == s
    decreases |s|
  {
    if |s| >= |pat| {
      assert !OccursAt(s, pat, 0);
      assert IndexOf(s[1..], pat).None?;
      ReplaceAbsent(s[1..], pat, rep);
      assert s == [s[0]] + s[1..];
    }
  }

  /** No occurrence of `pat` starts in the first `i` positions of `s`. */
  ghost predicate ClearFor<T>(s: seq<T>, pat: seq<T>, i: nat)
    decreases i
  {
    i == 0 || (|s| > 0 && !StartsWith(s, pat) && ClearFor(s[1..], pat, i - 1))
  }

  /** The first occurrence, at `i`, has no occurrence before it. */
  lemma {:induction false} IndexOfClears<T>(s: seq<T>, pat: seq<T>, i: nat)
    requires |pat| > 0 && IndexOf(s, pat) == Some(i)
    ensures i + |pat| <= |s| && StartsWith(s[i..], pat) && ClearFor(s, pat, i)
    decreases i
  {
    if i > 0 {
      assert |s| >= |pat| && s[..|pat|] != pat;
      IndexOfClears(s[1..], pat, i - 1);
      assert s[1..][i - 1..] == s[i..];
    } else {
      assert s[..|pat|] == pat;
    }
  }

  /**
   * When no occurrence of the pattern starts inside `p`, replacing in
   * `p + pat + q` copies `p`, replaces the pattern and goes on with `q`.
   */
  lemma {:induction false} ReplaceBefore<T>(p: seq<T>, pat: seq<T>, q: seq<T>, rep: seq<T>)
    requires |pat| > 0 && ClearFor(p + pat + q, pat, |p|)
    ensures Replace(p + pat + q, pat, rep) == p + rep + Replace(q, pat, rep)
    decreases |p|
  {
    var s := p + pat + q;
    if |p| == 0 {
      assert s == pat + q;
      assert s[..|pat|] == pat && s[|pat|..] == q;
    } else {
      assert s[1..] == p[1..] + pat + q;
      ReplaceBefore(p[1..], pat, q, rep);
      assert Replace(s, pat, rep) == [s[0]] + Replace(s[1..], pat, rep);
      assert p == [p[0]] + p[1..];
    }
  }

  /** Splitting at the first occurrence, found at `i`. */
  lemma {:induction false} SplitAt<T>(s: seq<T>, sep: seq<T>, i: nat)
    requires |sep| > 0 && IndexOf(s, sep) == Some(i)
    ensures i + |sep| <= |s|
    ensures Split(s, sep) == [s[..i]] + Split(s[i + |sep|..], sep)
  {
  }

  /** Replacing is splitting at the pattern and joining the pieces with the replacement. */
  lemma {:induction false} ReplaceIsJoinOfSplit<T>(s: seq<T>, pat: seq<T>, rep: seq<T>)
    requires |pat| > 0
    ensures Replace(s, pat, rep) == Join(Split(s, pat), rep)
    decreases |s|
  {
    match IndexOf(s, pat)
    case None =>
      ReplaceAbsent(s, pat, rep);
    case Some(i) =>
      IndexOfClears(s, pat, i);
      assert s == s[..i] + pat + s[i + |pat|..];
      ReplaceBefore(s[..i], pat, s[i + |pat|..], rep);
      ReplaceIsJoinOfSplit(s[i + |pat|..], pat, rep);
      SplitAt(s, pat, i);
      var rest := Split(s[i + |pat|..], pat);
      assert ([s[..i]] + rest)[1..] == rest;
  }

  /**
   * When no character of `p` can start the pattern, replacing in
   * `p + pat + q` copies `p`, replaces the pattern and goes on with `q`.
   */
  lemma {:induction false} ReplaceAfterPrefix<T>(p: seq<T>, pat: seq<T>, q: seq<T>, rep: seq<T>)
    requires |pat| > 0
    requires forall i :: 0 <= i < |p| ==> p[i] != pat[0]
    ensures Replace(p + pat + q, pat, rep) == p + rep + Replace(q, pat, rep)
    decreases |p|
  {
    var s := p + pat + q;
    if |p| == 0 {
      assert s == pat + q;
      assert s[..|pat|] == pat && s[|pat|..] == q;
    } else {
      assert s[..|pat|][0] == p[0];
      assert s[..|pat|] != pat;
      assert s[1..] == p[1..] + pat + q;
      ReplaceAfterPrefix(p[1..], pat, q, rep);
      assert Replace(s, pat, rep) == [s[0]] + Replace(s[1..], pat, rep);
      assert p == [p[0]] + p[1..];
    }
  }

  // ---------------------------------------------------------------------------
  // Deleting one element everywhere
  // ---------------------------------------------------------------------------

  /** `s` with every `x` removed. */
  function Delete<T(==)>(s: seq<T>, x: T): (r: seq<T>)
    ensures x !in r
    ensures |r| <= |s|
  {
    if s == [] then []
    else if s[0] == x then
      assert s == [s[0]] + s[1..];
      Delete(s[1..], x)
    else
      assert s == [s[0]] + s[1..];
      [s[0]] + Delete(s[1..], x)
  }

  lemma {:induction false} DeleteConcat<T>(a: seq<T>, b: seq<T>, x: T)
    ensures Delete(a + b, x) == Delete(a, x) + Delete(b, x)
  {
    if a != [] {
      DeleteConcat(a[1..], b, x);
      assert (a + b)[1..] == a[1..] + b;
    } else {
      assert a + b == b;
    }
  }

  lemma {:induction false} DeleteAbsent<T>(s: seq<T>, x: T)
    requires forall i :: 0 <= i < |s| ==> s[i] != x
    ensures Delete(s, x) == s
  {
    if s != [] {
      DeleteAbsent(s[1..], x);
    }
  }

  /** Nothing is replaced in a text that never holds the first element of the pattern. */
  lemma {:induction false} ReplaceWithoutStart<T>(s: seq<T>, pat: seq<T>, rep: seq<T>)
    requires |pat| > 0 && forall i :: 0 <= i < |s| ==> s[i] != pat[0]
    ensures Replace(s, pat, rep) == s
    decreases |s|
  {
    if |s| >= |pat| {
      assert s[..|pat|][0] != pat[0];
      ReplaceWithoutStart(s[1..], pat, rep);
    }
  }

  /** `s.replace(c, "")` deletes every `c`. */
  lemma {:induction false} ReplaceOneWithNothing<T>(s: seq<T>, x: T)
    ensures Replace(s, [x], []) == Delete(s, x)
  {
    if s != [] {
      ReplaceOneWithNothing(s[1..], x);
    }
  }

  // ---------------------------------------------------------------------------
  // ASCII case mapping
  // ---------------------------------------------------------------------------

  function UpperChar(c: char): char {
    if 'a' <= c <= 'z' then (c as int - 32) as char else c
  }

  function LowerChar(c: char): char {
    if 'A' <= c <= 'Z' then (c as int + 32) as char else c
  }

  /** Python's `s.upper()` on a byte string: ASCII letters only. */
  function Upper(s: string): (r: string)
    ensures |r| == |s|
    ensures forall i :: 0 <= i < |s| ==> r[i] == UpperChar(s[i])
  {
    if s == [] then [] else [UpperChar(s[0])] + Upper(s[1..])
  }

  /** Python's `s.lower()`, restricted to ASCII letters. */
  function Lower(s: string): (r: string)
    ensures |r| == |s|
    ensures forall i :: 0 <= i < |s| ==> r[i] == LowerChar(s[i])
  {
    if s == [] then [] else [LowerChar(s[0])] + Lower(s[1..])
  }

  /** Upper-casing checked one character at a time. */
  lemma {:induction false} UpperIs(s: string, t: string)
    requires |s| == |t| && forall i :: 0 <= i < |s| ==> UpperChar(s[i]) == t[i]
    ensures Upper(s) == t
  {
  }

  /** Lower-casing checked one character at a time. */
  lemma {:induction false} LowerIs(s: string, t: string)
    requires |s| == |t| && forall i :: 0 <= i < |s| ==> LowerChar(s[i]) == t[i]
    ensures Lower(s) == t
  {
  }

  lemma {:induction false} UpperConcat(a: string, b: string)
    ensures Upper(a + b) == Upper(a) + Upper(b)
  {
  }

  lemma {:induction false} LowerConcat(a: string, b: string)
    ensures Lower(a + b) == Lower(a) + Lower(b)
  {
  }

  // ---------------------------------------------------------------------------
  // Whitespace
  // ---------------------------------------------------------------------------

  /** The characters Python's unicode `strip()` removes. */
  predicate IsSpace(c: char) {
    ('\t' <= c <= '\r') || ('\U{1C}' <= c <= ' ') || c == '\U{85}' || c == '\U{A0}'
    || c == '\U{1680}' || c == '\U{180E}' || ('\U{2000}' <= c <= '\U{200A}')
    || c == '\U{2028}' || c == '\U{2029}' || c == '\U{202F}' || c == '\U{205F}' || c == '\U{3000}'
  }

  function StripLeft(s: string): (r: string)
    ensures |r| <= |s| && r == s[|s| - |r|..]
    ensures r != [] ==> !IsSpace(r[0])
    ensures forall i :: 0 <= i < |s| - |r| ==> IsSpace(s[i])
  {
    if s != [] && IsSpace(s[0]) then StripLeft(s[1..]) else s
  }

  function StripRight(s: string): (r: string)
    ensures |r| <= |s| && r == s[..|r|]
    ensures r != [] ==> !IsSpace(r[|r| - 1])
    ensures forall i :: |r| <= i < |s| ==> IsSpace(s[i])
  {
    if s != [] && IsSpace(s[|s| - 1]) then StripRight(s[..|s| - 1]) else s
  }

  /**
   * Python's `s.strip()`: the longest slice of `s` that neither starts nor
   * ends with whitespace, with only whitespace cut off around it.
   */
  function Strip(s: string): (r: string)
    ensures exists lo :: (0 <= lo <= |s| - |r| && r == s[lo..][..|r|]
      && (forall i :: 0 <= i < lo ==> IsSpace(s[i]))
      && (forall i :: lo + |r| <= i < |s| ==> IsSpace(s[i])))
    ensures r != [] ==> !IsSpace(r[0]) && !IsSpace(r[|r| - 1])
  {
    var l := StripLeft(s);
    var r := StripRight(l);
    var lo := |s| - |l|;
    assert r == s[lo..][..|r|];
    r
  }

  // ---------------------------------------------------------------------------
  // Decimal numerals
  // ---------------------------------------------------------------------------

  predicate IsDigit(c: char) {
    '0' <= c <= '9'
  }

  predicate AllDigits(s: string) {
    forall i :: 0 <= i < |s| ==> IsDigit(s[i])
  }

  function DigitChar(d: nat): (c: char)
    requires d < 10
    ensures IsDigit(c)
  {
    ('0' as int + d) as char
  }

  function DigitValue(c: char): (d: nat)
    requires IsDigit(c)
    ensures d < 10
  {
    c as int - '0' as int
  }

  /** Python's `"%d" % n` for a non-negative `n`. */
  function Decimal(n: nat): (r: string)
    ensures r != [] && AllDigits(r)
    ensures r[0] == '0' ==> n == 0
    decreases n
  {
    if n < 10 then [DigitChar(n)] else Decimal(n / 10) + [DigitChar(n % 10)]
  }

  /** The number a string of decimal digits denotes. */
  function DecimalValue(s: string): nat
    requires AllDigits(s)
  {
    if s == [] then 0 else DecimalValue(s[..|s| - 1]) * 10 + DigitValue(s[|s| - 1])
  }

  /** Reading back what `"%d" % n` wrote gives `n`. */
  lemma {:induction false} DecimalRoundTrip(n: nat)
    ensures DecimalValue(Decimal(n)) == n
    decreases n
  {
    if n >= 10 {
      DecimalRoundTrip(n / 10);
      var r := Decimal(n);
      assert r[..|r| - 1] == Decimal(n / 10);
    }
  }

  /**
   * Python's `int(s)` in base 10: optional surrounding whitespace, an
   * optional sign and at least one ASCII digit; anything else is a
   * `ValueError`, here `None`.
   */
  function ParseInt(s: string): Option<int> {
    IntLiteral(Strip(s))
  }

  /** An optional sign followed by at least one ASCII digit, with nothing around them. */
  function IntLiteral(t: string): Option<int> {
    if t != [] && (t[0] == '+' || t[0] == '-') then
      var digits := t[1..];
      if digits != [] && AllDigits(digits) then
        var v: int := DecimalValue(digits);
        Some(if t[0] == '-' then -v else v)
      else None
    else if t != [] && AllDigits(t) then Some(DecimalValue(t))
    else None
  }

  lemma {:induction false} StripUnchanged(s: string)
    requires s != [] ==> !IsSpace(s[0]) && !IsSpace(s[|s| - 1])
    ensures Strip(s) == s
  {
    assert StripLeft(s) == s;
    assert StripRight(s) == s;
  }

  lemma {:induction false} StripIdempotent(s: string)
    ensures Strip(Strip(s)) == Strip(s)
  {
    StripUnchanged(Strip(s));
  }

  /** `int()` strips its argument itself, so stripping first changes nothing. */
  lemma {:induction false} ParseStripped(s: string)
    ensures ParseInt(Strip(s)) == ParseInt(s)
  {
    StripIdempotent(s);
  }

  /** `int("%d" % n) == n`. */
  lemma {:induction false} ParseDecimal(n: nat)
    ensures ParseInt(Decimal(n)) == Some(n)
  {
    var d := Decimal(n);
    assert IsDigit(d[0]) && IsDigit(d[|d| - 1]);
    StripUnchanged(d);
    DecimalRoundTrip(n);
  }

  // ---------------------------------------------------------------------------
  // ISO-8859-1
  // ---------------------------------------------------------------------------

  predicate IsLatin1(s: string) {
    forall i :: 0 <= i < |s| ==> s[i] as int < 256
  }

  /** Python's `s.encode("iso-8859-1")`: one octet per character, or failure. */
  function Latin1Encode(s: string): (r: Option<seq<Byte>>)
    ensures r.Some? <==> IsLatin1(s)
    ensures r.Some? ==> |r.value| == |s| && forall i :: 0 <= i < |s| ==> r.value[i] == s[i] as int
  {
    if IsLatin1(s) then Some(seq(|s|, i requires 0 <= i < |s| => s[i] as int as Byte)) else None
  }
}
