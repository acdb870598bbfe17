/**
 * The JavaScript string operations the service relies on, over `string`
 * (a sequence of characters): `trim`, `join`, `split` by the three patterns
 * the source uses, `startsWith`/`endsWith`, number-to-decimal conversion and
 * the string escaping of `JSON.stringify`.
 */
module Text {

  /** The characters ECMAScript treats as white space or line terminators:
      what the regular-expression class `\s` matches and what `trim` strips. */
  predicate IsWhitespace(c: char) {
    c == '\t' || c == '\n' || c == '\U{B}' || c == '\U{C}' || c == '\r' || c == ' '
    || c == '\U{A0}' || c == '\U{1680}' || ('\U{2000}' <= c <= '\U{200A}')
    || c == '\U{2028}' || c == '\U{2029}' || c == '\U{202F}' || c == '\U{205F}'
    || c == '\U{3000}' || c == '\U{FEFF}'
  }

  predicate IsNewline(c: char) { c == '\n' }

  /** The character class `[.!?]` of the sentence-break pattern. */
  predicate IsSentencePunct(c: char) { c == '.' || c == '!' || c == '?' }

  predicate AllWhitespace(s: string) {
    forall i :: 0 <= i < |s| ==> IsWhitespace(s[i])
  }

  predicate StartsWith(s: string, prefix: string) {
    |prefix| <= |s| && s[..|prefix|] == prefix
  }

  predicate EndsWith(s: string, suffix: string) {
    |suffix| <= |s| && s[|s| - |suffix|..] == suffix
  }

  // ---------------------------------------------------------------------------
  // trim

  function TrimStart(s: string): (r: string)
    ensures |r| <= |s|
  {
    if s != [] && IsWhitespace(s[0]) then TrimStart(s[1..]) else s
  }

  /** `TrimStart` removes exactly the leading white space. */
  lemma {:induction false} TrimStartSpec(s: string)
    ensures var r := TrimStart(s);
      r == s[|s| - |r|..] && AllWhitespace(s[..|s| - |r|]) && (r == [] || !IsWhitespace(r[0]))
    decreases |s|
  {
    if s != [] && IsWhitespace(s[0]) {
      TrimStartSpec(s[1..]);
      var r := TrimStart(s);
      assert s[1..][|s| - 1 - |r|..] == s[|s| - |r|..];
      forall i | 0 <= i < |s| - |r| ensures IsWhitespace(s[i]) {
        if i > 0 {
          assert s[i] == s[1..][..|s| - 1 - |r|][i - 1];
        }
      }
    }
  }

  function TrimEnd(s: string): (r: string)
    ensures |r| <= |s|
  {
    if s != [] && IsWhitespace(s[|s| - 1]) then TrimEnd(s[..|s| - 1]) else s
  }

  /** `TrimEnd` removes exactly the trailing white space. */
  lemma {:induction false} TrimEndSpec(s: string)
    ensures var r := TrimEnd(s);
      r == s[..|r|] && AllWhitespace(s[|r|..]) && (r == [] || !IsWhitespace(r[|r| - 1]))
    decreases |s|
  {
    if s != [] && IsWhitespace(s[|s| - 1]) {
      var init := s[..|s| - 1];
      TrimEndSpec(init);
      var r := TrimEnd(s);
      assert init[..|r|] == s[..|r|];
      forall i | |r| <= i < |s| ensures IsWhitespace(s[i]) {
        if i < |s| - 1 {
          assert s[i] == init[|r|..][i - |r|];
        }
      }
    }
  }

  /** `String.prototype.trim`: white space removed at both ends. */
  function Trim(s: string): (r: string)
    ensures |r| <= |s|
  {
    TrimEnd(TrimStart(s))
  }

  /** What `Trim` leaves is the infix of `s` between its leading and its
      trailing white space, and it neither starts nor ends with white space. */
  lemma TrimInfix(s: string)
    ensures var r := Trim(s);
      var lead := |s| - |TrimStart(s)|;
      lead + |r| <= |s| && r == s[lead..lead + |r|]
      && AllWhitespace(s[..lead]) && AllWhitespace(s[lead + |r|..])
      && (r == [] || (!IsWhitespace(r[0]) && !IsWhitespace(r[|r| - 1])))
  {
    var t := TrimStart(s);
    var r := TrimEnd(t);
    var lead := |s| - |t|;
    TrimStartSpec(s);
    TrimEndSpec(t);
    PrefixOfSuffix(s, t, r);
  }

  /** A prefix `r` of a suffix `t` of `s` is an infix of `s`, and what
      follows it in `t` is what follows it in `s`. */
  lemma PrefixOfSuffix(s: string, t: string, r: string)
    requires |t| <= |s| && t == s[|s| - |t|..]
    requires |r| <= |t| && r == t[..|r|]
    ensures var lead := |s| - |t|;
      r == s[lead..lead + |r|] && s[lead + |r|..] == t[|r|..]
  {
  }

  /** A string trims to nothing exactly when it is all white space. */
  lemma TrimEmpty(s: string)
    ensures Trim(s) == [] <==> AllWhitespace(s)
  {
    var lead := |s| - |TrimStart(s)|;
    var r := Trim(s);
    TrimInfix(s);
    if r == [] {
      forall i | 0 <= i < |s| ensures IsWhitespace(s[i]) {
        if i < lead {
          assert s[i] == s[..lead][i];
        } else {
          assert s[i] == s[lead..][i - lead];
        }
      }
    } else {
      assert s[lead] == r[0];
    }
  }

  // ---------------------------------------------------------------------------
  // join and its inverse direction

  /** `Array.prototype.join`: the parts with `sep` between consecutive ones. */
  function Join(parts: seq<string>, sep: string): string {
    if |parts| == 0 then ""
    else if |parts| == 1 then parts[0]
    else parts[0] + sep + Join(parts[1..], sep)
  }

  /** `segments[0] + separators[0] + segments[1] + ... + segments[n]`: the
      text a split came from, given what the split removed. */
  function Interleave(segments: seq<string>, separators: seq<string>): string
    requires |segments| == |separators| + 1
  {
    if separators == [] then segments[0]
    else segments[0] + separators[0] + Interleave(segments[1..], separators[1..])
  }

  // ---------------------------------------------------------------------------
  // split

  /** The three separators the source splits on: `/\n\n+/` (paragraphs),
      `/[.!?]+\s+/` (sentences) and the single space `' '` (words). */
  datatype Delimiter = BlankLines | SentenceEnd | Space

  /** Length of the longest prefix of `s` whose characters satisfy `p`. */
  function Run(s: string, p: char -> bool): (n: nat)
    ensures n <= |s|
    ensures forall i :: 0 <= i < n ==> p(s[i])
    ensures n == |s| || !p(s[n])
  {
    if s != [] && p(s[0]) then 1 + Run(s[1..], p) else 0
  }

  /** Length of the match of `[.!?]+\s+` that starts at the first character of
      `s`, or 0: the whole run of punctuation followed by the whole run of
      white space after it, which must not be empty. */
  function SentenceBreakLen(s: string): (n: nat)
    ensures n <= |s|
  {
    if s != [] && IsSentencePunct(s[0]) then
      var rest := SentenceBreakLen(s[1..]);
      if rest > 0 then 1 + rest
      else
        var w := Run(s[1..], IsWhitespace);
        if w > 0 then 1 + w else 0
    else 0
  }

  /** Length of the separator match of `d` that starts at the first character
      of `s`, or 0 when the pattern does not match there. The patterns are
      greedy. */
  function SepLen(d: Delimiter, s: string): (n: nat)
    ensures n <= |s|
    ensures s == [] ==> n == 0
  {
    match d
    case BlankLines =>
      if 2 <= |s| && s[0] == '\n' && s[1] == '\n' then Run(s, IsNewline) else 0
    case SentenceEnd =>
      SentenceBreakLen(s)
    case Space =>
      if 1 <= |s| && s[0] == ' ' then 1 else 0
  }

  /** Left-to-right scan of `String.prototype.split` with a pattern that
      cannot match the empty string: `current` is the segment read so far. */
  function SplitFrom(d: Delimiter, s: string, current: string): (r: seq<string>)
    ensures |r| >= 1
    decreases |s|
  {
    if s == [] then [current]
    else
      var n := SepLen(d, s);
      if n > 0 then [current] + SplitFrom(d, s[n..], [])
      else SplitFrom(d, s[1..], current + [s[0]])
  }

  /** The separators the same scan removes, in order. */
  function SeparatorsFrom(d: Delimiter, s: string): seq<string>
    decreases |s|
  {
    if s == [] then []
    else
      var n := SepLen(d, s);
      if n > 0 then [s[..n]] + SeparatorsFrom(d, s[n..])
      else SeparatorsFrom(d, s[1..])
  }

  function Split(d: Delimiter, s: string): seq<string> {
    SplitFrom(d, s, [])
  }

  function Separators(d: Delimiter, s: string): (r: seq<string>)
    ensures |r| + 1 == |Split(d, s)|
  {
    SplitFromCount(d, s, []);
    SeparatorsFrom(d, s)
  }

  lemma {:induction false} SplitFromCount(d: Delimiter, s: string, current: string)
    ensures |SplitFrom(d, s, current)| == |SeparatorsFrom(d, s)| + 1
    decreases |s|
  {
    if s != [] {
      var n := SepLen(d, s);
      if n > 0 {
        SplitFromCount(d, s[n..], []);
      } else {
        SplitFromCount(d, s[1..], current + [s[0]]);
      }
    }
  }

  lemma {:induction false} SplitFromReconstructs(d: Delimiter, s: string, current: string)
    ensures |SplitFrom(d, s, current)| == |SeparatorsFrom(d, s)| + 1
    ensures Interleave(SplitFrom(d, s, current), SeparatorsFrom(d, s)) == current + s
    decreases |s|
  {
    SplitFromCount(d, s, current);
    if s != [] {
      var n := SepLen(d, s);
      if n > 0 {
        SplitFromReconstructs(d, s[n..], []);
        SeparatorStep(current, s, n, SplitFrom(d, s[n..], []), SeparatorsFrom(d, s[n..]));
      } else {
        SplitFromReconstructs(d, s[1..], current + [s[0]]);
        CharacterStep(current, s);
      }
    }
  }

  /** Re-inserting a separator of length `n` at the front of `s`. */
  lemma SeparatorStep(current: string, s: string, n: nat, rest: seq<string>, separators: seq<string>)
    requires 0 < n <= |s| && |rest| == |separators| + 1
    requires Interleave(rest, separators) == [] + s[n..]
    ensures Interleave([current] + rest, [s[..n]] + separators) == current + s
  {
    InterleaveCons(current, rest, s[..n], separators);
    assert s[..n] + s[n..] == s;
  }

  lemma CharacterStep(current: string, s: string)
    requires s != []
    ensures current + [s[0]] + s[1..] == current + s
  {
    assert [s[0]] + s[1..] == s;
  }

  lemma InterleaveCons(first: string, segments: seq<string>, sep: string, separators: seq<string>)
    requires |segments| == |separators| + 1
    ensures Interleave([first] + segments, [sep] + separators) == first + sep + Interleave(segments, separators)
  {
    assert ([first] + segments)[1..] == segments;
    assert ([sep] + separators)[1..] == separators;
  }

  /** Splitting loses nothing: putting the removed separators back between
      the segments gives the original text, and there is one more segment than
      separators (so even the empty string splits into one segment). */
  lemma SplitReconstructs(d: Delimiter, s: string)
    ensures |Split(d, s)| == |Separators(d, s)| + 1
    ensures Interleave(Split(d, s), Separators(d, s)) == s
  {
    SplitFromReconstructs(d, s, []);
  }

  lemma SplitEmpty(d: Delimiter)
    ensures Split(d, "") == [""]
  {
  }

  function CountChar(s: string, c: char): nat {
    if s == [] then 0 else (if s[0] == c then 1 else 0) + CountChar(s[1..], c)
  }

  /** A character is counted zero times exactly when it does not occur. */
  lemma {:induction false} CountCharAbsent(s: string, c: char)
    ensures CountChar(s, c) == 0 <==> c !in s
  {
    if s != [] {
      CountCharAbsent(s[1..], c);
      assert s == [s[0]] + s[1..];
    }
  }

  lemma {:induction false} SpaceSplitFromCount(s: string, current: string)
    ensures |SplitFrom(Space, s, current)| == CountChar(s, ' ') + 1
    decreases |s|
  {
    if s != [] {
      if s[0] == ' ' {
        SpaceSplitFromCount(s[1..], []);
      } else {
        SpaceSplitFromCount(s[1..], current + [s[0]]);
      }
    }
  }

  /** `s.split(' ').length` is the number of space characters plus one: the
      empty string has one segment and every extra space adds one. */
  lemma SpaceSplitCount(s: string)
    ensures |Split(Space, s)| == CountChar(s, ' ') + 1
  {
    SpaceSplitFromCount(s, []);
  }

  // ---------------------------------------------------------------------------
  // numbers as decimal text

  function DigitChar(d: nat): (c: char)
    requires d < 10
    ensures '0' <= c <= '9' && c as int - '0' as int == d
  {
    ('0' as int + d) as char
  }

  predicate IsDecimal(s: string) {
    forall i :: 0 <= i < |s| ==> '0' <= s[i] <= '9'
  }

  /** The number a string of decimal digits denotes. */
  function DecimalValue(s: string): nat
    requires IsDecimal(s)
  {
    if s == [] then 0
    else DecimalValue(s[..|s| - 1]) * 10 + (s[|s| - 1] as int - '0' as int)
  }

  /** How JavaScript prints a non-negative integer: decimal digits without
      leading zeros. */
  function NatToString(n: nat): (r: string)
    ensures |r| >= 1 && IsDecimal(r)
    ensures r[0] == '0' ==> r == "0"
  {
    if n < 10 then [DigitChar(n)] else NatToString(n / 10) + [DigitChar(n % 10)]
  }

  lemma {:induction false} NatToStringRoundTrip(n: nat)
    ensures DecimalValue(NatToString(n)) == n
  {
    if n >= 10 {
      NatToStringRoundTrip(n / 10);
      var r := NatToString(n);
      assert r[..|r| - 1] == NatToString(n / 10);
    }
  }

  function IntToString(i: int): string {
    if i < 0 then "-" + NatToString(-i) else NatToString(i)
  }

  // ---------------------------------------------------------------------------
  // JSON.stringify of a string

  function HexDigit(d: nat): char
    requires d < 16
  {
    "0123456789abcdef"[d]
  }

  function JsonEscapeChar(c: char): string {
    if c == '"' then "\\\""
    else if c == '\\' then "\\\\"
    else if c == '\U{8}' then "\\b"
    else if c == '\U{C}' then "\\f"
    else if c == '\n' then "\\n"
    else if c == '\r' then "\\r"
    else if c == '\t' then "\\t"
    else if c < ' ' then "\\u00" + [HexDigit(c as int / 16), HexDigit(c as int % 16)]
    else [c]
  }

  function JsonEscape(s: string): string {
    if s == [] then "" else JsonEscapeChar(s[0]) + JsonEscape(s[1..])
  }

  /** The JSON text `JSON.stringify` produces for the string `s`. */
  function JsonString(s: string): string {
    "\"" + JsonEscape(s) + "\""
  }
}
