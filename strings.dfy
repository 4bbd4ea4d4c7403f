/**
 * The string primitives the core relies on, with JavaScript's semantics:
 * `startsWith`, `endsWith`, `indexOf`, `replace` with a one-character
 * pattern, `split` and `join`, `Number.prototype.toString(radix)` and the
 * string case of `JSON.stringify`.
 */
module Strings {
  import opened Wrappers

  predicate StartsWith(s: string, p: string) {
    |p| <= |s| && s[..|p|] == p
  }

  predicate EndsWith(s: string, p: string) {
    |p| <= |s| && s[|s| - |p|..] == p
  }

  /** `s.findIndex(p)`: the first position whose element satisfies `p`; `None` stands for -1. */
  function FindIndex<T>(s: seq<T>, p: T -> bool): (r: Option<nat>)
    ensures r.Some? ==> r.value < |s| && p(s[r.value])
    ensures r.Some? ==> forall j :: 0 <= j < r.value ==> !p(s[j])
    ensures r.None? ==> forall j :: 0 <= j < |s| ==> !p(s[j])
  {
    if s == [] then None
    else if p(s[0]) then Some(0)
    else
      assert forall j :: 1 <= j < |s| ==> s[j] == s[1..][j - 1];
      match FindIndex(s[1..], p)
      case None => None
      case Some(i) => Some(i + 1)
  }

  /** A text opens with each of its prefixes. */
  lemma PrefixOfConcat(a: string, b: string)
    ensures StartsWith(a + b, a)
  {
    assert (a + b)[..|a|] == a;
  }

  /** A text ends with each of its suffixes. */
  lemma SuffixOfConcat(a: string, b: string)
    ensures EndsWith(a + b, b)
  {
    assert (a + b)[|a|..] == b;
  }

  /** Two parts joined: the first, the separator, the second. */
  lemma JoinPair(a: string, b: string, sep: string)
    ensures Join([a, b], sep) == a + sep + b
  {
    assert [a, b][1..] == [b];
  }

  /** Texts that differ in their first character do not share a prefix. */
  lemma FirstCharDiffers(s: string, p: string)
    requires s != [] && p != [] && s[0] != p[0]
    ensures !StartsWith(s, p)
  {
    if |p| <= |s| {
      assert s[..|p|][0] == s[0];
    }
  }

  /** `s.indexOf(c)` for a one-character needle; `None` stands for -1. */
  function IndexOf(s: string, c: char): (r: Option<nat>)
    ensures r.None? <==> c !in s
    ensures r.Some? ==> r.value < |s| && s[r.value] == c && c !in s[..r.value]
  {
    if s == [] then None
    else if s[0] == c then Some(0)
    else
      match IndexOf(s[1..], c)
      case None => None
      case Some(i) =>
        assert s[1..][..i] == s[1..i + 1];
        Some(i + 1)
  }

  /** `s.lastIndexOf(c)` for a one-character needle; `None` stands for -1. */
  function LastIndexOf(s: string, c: char): (r: Option<nat>)
    ensures r.None? <==> c !in s
    ensures r.Some? ==> r.value < |s| && s[r.value] == c && c !in s[r.value + 1..]
  {
    if s == [] then None
    else if s[|s| - 1] == c then Some(|s| - 1)
    else
      match LastIndexOf(s[..|s| - 1], c)
      case None => None
      case Some(i) =>
        assert s[..|s| - 1][i + 1..] + [s[|s| - 1]] == s[i + 1..];
        Some(i)
  }

  /** The text before the first `c` (the whole of `s` when there is none): `s.split(c)[0]`. */
  function Before(s: string, c: char): (r: string)
    ensures c !in r
    ensures StartsWith(s, r)
    ensures r == s || (|r| < |s| && s[|r|] == c)
  {
    match IndexOf(s, c)
    case None => s
    case Some(i) => s[..i]
  }

  /** `s.replace(c, repl)` with a one-character string pattern: only the first occurrence is replaced. */
  function ReplaceFirst(s: string, c: char, repl: string): (r: string)
    ensures c !in s ==> r == s
  {
    match IndexOf(s, c)
    case None => s
    case Some(i) => s[..i] + repl + s[i + 1..]
  }

  /** Replacing the first `c` in `a + [c] + b`, where `a` holds no `c`, splices `repl` in its place. */
  lemma {:induction false} ReplaceFirstAt(a: string, c: char, b: string, repl: string)
    requires c !in a
    ensures ReplaceFirst(a + [c] + b, c, repl) == a + repl + b
  {
    var s := a + [c] + b;
    IndexOfFirst(a, c, b);
    assert s[..|a|] == a;
    assert s[|a| + 1..] == b;
  }

  /** The first occurrence of `c` in `a + [c] + b` is at `|a|` when `a` holds none. */
  lemma {:induction false} IndexOfFirst(a: string, c: char, b: string)
    requires c !in a
    ensures IndexOf(a + [c] + b, c) == Some(|a|)
  {
    var s := a + [c] + b;
    assert s[|a|] == c;
    assert s[..|a|] == a;
    var r := IndexOf(s, c);
    if r.value < |a| {
      assert false;
    } else if r.value > |a| {
      assert false;
    }
  }

  /** The last occurrence of `c` in `a + [c] + b` is at `|a|` when `b` holds none. */
  lemma {:induction false} LastIndexOfLast(a: string, c: char, b: string)
    requires c !in b
    ensures LastIndexOf(a + [c] + b, c) == Some(|a|)
  {
    var s := a + [c] + b;
    assert s[|a|] == c;
    assert s[|a| + 1..] == b;
    var r := LastIndexOf(s, c);
    if r.value < |a| {
      assert false;
    } else if r.value > |a| {
      assert false;
    }
  }

  /** `parts.join(sep)`. */
  function Join(parts: seq<string>, sep: string): string {
    if |parts| == 0 then ""
    else if |parts| == 1 then parts[0]
    else parts[0] + sep + Join(parts[1..], sep)
  }

  /** `s.split(sep)` for a one-character separator: the pieces between separators, empty ones included. */
  function SplitOn(s: string, sep: char): (r: seq<string>)
    ensures |r| >= 1
    ensures forall i :: 0 <= i < |r| ==> sep !in r[i]
    decreases |s|
  {
    match IndexOf(s, sep)
    case None => [s]
    case Some(i) => [s[..i]] + SplitOn(s[i + 1..], sep)
  }

  /** Joining the pieces of a split with the separator gives back the original text. */
  lemma {:induction false} JoinSplitOn(s: string, sep: char)
    ensures Join(SplitOn(s, sep), [sep]) == s
    decreases |s|
  {
    match IndexOf(s, sep)
    case None =>
    case Some(i) =>
      var rest := SplitOn(s[i + 1..], sep);
      JoinSplitOn(s[i + 1..], sep);
      assert SplitOn(s, sep) == [s[..i]] + rest;
      assert s == s[..i] + [sep] + s[i + 1..];
  }

  /** Splitting a join of separator-free pieces gives back the pieces. */
  lemma {:induction false} SplitOnJoin(parts: seq<string>, sep: char)
    requires |parts| >= 1
    requires forall i :: 0 <= i < |parts| ==> sep !in parts[i]
    ensures SplitOn(Join(parts, [sep]), sep) == parts
  {
    if |parts| == 1 {
      assert IndexOf(parts[0], sep).None?;
    } else {
      var head, tail := parts[0], Join(parts[1..], [sep]);
      assert Join(parts, [sep]) == head + [sep] + tail;
      SplitOnCons(head, sep, tail);
      SplitOnJoin(parts[1..], sep);
      assert parts == [head] + parts[1..];
    }
  }

  /** A separator-free head followed by the separator is split off as the first piece. */
  lemma SplitOnCons(head: string, sep: char, tail: string)
    requires sep !in head
    ensures SplitOn(head + [sep] + tail, sep) == [head] + SplitOn(tail, sep)
  {
    var s := head + [sep] + tail;
    IndexOfFirst(head, sep, tail);
    assert s[..|head|] == head;
    assert s[|head| + 1..] == tail;
  }

  /**
   * The number of matches `s.split(pat)` cuts at, scanning left to right
   * without overlap; `s.split(pat).length` is one more than this.
   */
  function CountMatches(s: string, pat: string): (n: nat)
    requires |pat| > 0
    ensures n <= |s|
    decreases |s|
  {
    if |s| < |pat| then 0
    else if StartsWith(s, pat) then 1 + CountMatches(s[|pat|..], pat)
    else CountMatches(s[1..], pat)
  }

  /** A one-character pattern is cut at every occurrence: the split count agrees with `SplitOn`. */
  lemma {:induction false} CountMatchesSplitOn(s: string, c: char)
    ensures |SplitOn(s, c)| == CountMatches(s, [c]) + 1
    decreases |s|
  {
    if s == [] {
    } else if s[0] == c {
      assert IndexOf(s, c) == Some(0);
      assert StartsWith(s, [c]);
      CountMatchesSplitOn(s[1..], c);
    } else {
      assert !StartsWith(s, [c]);
      CountMatchesSplitOn(s[1..], c);
      match IndexOf(s[1..], c)
      case None =>
      case Some(i) =>
        assert IndexOf(s, c) == Some(i + 1);
        assert s[i + 2..] == s[1..][i + 1..];
    }
  }

  /** `s.slice(1)`: everything after the first character (nothing, for the empty string). */
  function Slice1(s: string): (r: string)
    ensures s != [] ==> [s[0]] + r == s
    ensures s == [] ==> r == []
  {
    if s == [] then [] else s[1..]
  }

  /** A possibly-undefined value inside a template literal: `undefined` is written out as such. */
  function Interpolate(v: Option<string>): string {
    match v
    case Some(s) => s
    case None => "undefined"
  }

  // ---------------------------------------------------------------------------
  // Numerals: `n.toString(radix)` for radix 10 and 16
  // ---------------------------------------------------------------------------

  const DigitChars: string := "0123456789abcdef"

  /** The value of a lower-case digit character (0 for anything else). */
  function DigitValue(c: char): (d: nat)
    ensures d < 16
    ensures d < |DigitChars| && (c in DigitChars ==> DigitChars[d] == c)
  {
    if '0' <= c <= '9' then (c as int - '0' as int)
    else if 'a' <= c <= 'f' then (c as int - 'a' as int + 10)
    else 0
  }

  /** `n.toString(radix)`: lower-case digits, most significant first, no leading zeros. */
  function ToBase(n: nat, radix: nat): (r: string)
    requires 2 <= radix <= 16
    ensures |r| >= 1
    ensures forall i :: 0 <= i < |r| ==> r[i] in DigitChars[..radix]
    ensures |r| > 1 ==> r[0] != '0'
    decreases n
  {
    if n < radix then [DigitChars[n]]
    else
      DivBounds(n, radix);
      ToBase(n / radix, radix) + [DigitChars[n % radix]]
  }

  /** Dividing by the radix shrinks a number of two or more digits and leaves a digit. */
  lemma DivBounds(n: nat, radix: nat)
    requires 2 <= radix <= n
    ensures 1 <= n / radix < n && n % radix < radix
  {
    var q, d := n / radix, n % radix;
    DivMod(n, radix);
    assert q * radix >= q * 2;
  }

  /** The number a string of digits denotes in the given radix (`parseInt(s, radix)` on valid input). */
  function FromBase(s: string, radix: nat): nat
    requires 2 <= radix <= 16
  {
    if s == [] then 0
    else FromBase(s[..|s| - 1], radix) * radix + DigitValue(s[|s| - 1])
  }

  /** Reading back a rendered number gives the number: the rendering loses nothing. */
  lemma {:induction false} FromBaseToBase(n: nat, radix: nat)
    requires 2 <= radix <= 16
    ensures FromBase(ToBase(n, radix), radix) == n
    decreases n
  {
    if n < radix {
      FromBaseSnoc([], DigitChars[n], radix);
      DigitValueOf(n);
    } else {
      DivMod(n, radix);
      FromBaseToBase(n / radix, radix);
      ToBaseStep(n, radix);
    }
  }

  /** One step of the induction: the last digit rendered is read back as `n % radix`. */
  lemma ToBaseStep(n: nat, radix: nat)
    requires 2 <= radix <= 16 && n >= radix
    requires FromBase(ToBase(n / radix, radix), radix) == n / radix
    ensures FromBase(ToBase(n, radix), radix) == n
  {
    var q, d := n / radix, n % radix;
    assert ToBase(n, radix) == ToBase(q, radix) + [DigitChars[d]];
    FromBaseSnoc(ToBase(q, radix), DigitChars[d], radix);
    DigitValueOf(d);
    DivMod(n, radix);
  }

  lemma DigitValueOf(d: nat)
    requires d < 16
    ensures DigitValue(DigitChars[d]) == d
  {
  }

  lemma FromBaseSnoc(head: string, c: char, radix: nat)
    requires 2 <= radix <= 16
    ensures FromBase(head + [c], radix) == FromBase(head, radix) * radix + DigitValue(c)
  {
    assert (head + [c])[..|head|] == head;
  }

  lemma DivMod(n: nat, radix: nat)
    requires 2 <= radix
    ensures n == (n / radix) * radix + n % radix
  {
  }

  /** Distinct numbers render as distinct strings. */
  lemma ToBaseInjective(m: nat, n: nat, radix: nat)
    requires 2 <= radix <= 16
    requires ToBase(m, radix) == ToBase(n, radix)
    ensures m == n
  {
    FromBaseToBase(m, radix);
    FromBaseToBase(n, radix);
  }

  /** `n.toString(16)`. */
  function Hex(n: nat): string {
    ToBase(n, 16)
  }

  /** `String(n)` for a non-negative integer. */
  function Dec(n: nat): string {
    ToBase(n, 10)
  }

  // ---------------------------------------------------------------------------
  // JSON.stringify on a string
  // ---------------------------------------------------------------------------

  /** How `JSON.stringify` writes one character inside a string literal. */
  function JsonEscapeChar(c: char): (r: string)
    ensures |r| >= 1
  {
    if c == '"' then "\\\""
    else if c == '\\' then "\\\\"
    else if c as int == 8 then "\\b"
    else if c as int == 9 then "\\t"
    else if c as int == 10 then "\\n"
    else if c as int == 12 then "\\f"
    else if c as int == 13 then "\\r"
    else if c as int < 32 then "\\u00" + [DigitChars[c as int / 16], DigitChars[c as int % 16]]
    else [c]
  }

  function JsonEscape(s: string): string {
    if s == [] then "" else JsonEscapeChar(s[0]) + JsonEscape(s[1..])
  }

  /** `JSON.stringify(s)` for a string `s`: a double-quoted, escaped literal. */
  function JsonQuote(s: string): (r: string)
    ensures |r| >= 2 && r[0] == '"' && r[|r| - 1] == '"'
  {
    "\"" + JsonEscape(s) + "\""
  }

  /** The character a one-letter JSON escape `\x` stands for. */
  function JsonSimpleEscape(x: char): Option<char> {
    if x == '"' then Some('"')
    else if x == '\\' then Some('\\')
    else if x == '/' then Some('/')
    else if x == 'b' then Some(8 as char)
    else if x == 't' then Some(9 as char)
    else if x == 'n' then Some(10 as char)
    else if x == 'f' then Some(12 as char)
    else if x == 'r' then Some(13 as char)
    else None
  }

  predicate IsHexDigit(c: char) {
    '0' <= c <= '9' || 'a' <= c <= 'f' || 'A' <= c <= 'F'
  }

  function HexDigitValue(c: char): nat {
    if '0' <= c <= '9' then c as int - '0' as int
    else if 'a' <= c <= 'f' then c as int - 'a' as int + 10
    else if 'A' <= c <= 'F' then c as int - 'A' as int + 10
    else 0
  }

  /** The body of a JSON string literal, decoded (`None` for a malformed body). */
  function JsonUnescape(t: string): Option<string>
    decreases |t|
  {
    if t == [] then Some([])
    else if t[0] == '"' || t[0] as int < 32 then None
    else if t[0] != '\\' then
      match JsonUnescape(t[1..])
      case None => None
      case Some(rest) => Some([t[0]] + rest)
    else if |t| < 2 then None
    else if t[1] == 'u' then
      if |t| < 6 || !(IsHexDigit(t[2]) && IsHexDigit(t[3]) && IsHexDigit(t[4]) && IsHexDigit(t[5])) then None
      else
        var v := ((HexDigitValue(t[2]) * 16 + HexDigitValue(t[3])) * 16 + HexDigitValue(t[4])) * 16 + HexDigitValue(t[5]);
        if 0xD800 <= v then None
        else
          match JsonUnescape(t[6..])
          case None => None
          case Some(rest) => Some([v as char] + rest)
    else
      match JsonSimpleEscape(t[1])
      case None => None
      case Some(c) =>
        match JsonUnescape(t[2..])
        case None => None
        case Some(rest) => Some([c] + rest)
  }

  /** `JSON.parse` restricted to string literals. */
  function JsonUnquote(t: string): Option<string> {
    if |t| >= 2 && t[0] == '"' && t[|t| - 1] == '"' then JsonUnescape(t[1..|t| - 1]) else None
  }

  /** Decoding one escaped character followed by more text. */
  lemma JsonUnescapeChar(c: char, rest: string)
    ensures JsonUnescape(JsonEscapeChar(c) + rest) ==
      match JsonUnescape(rest)
      case None => None
      case Some(r) => Some([c] + r)
  {
    var t := JsonEscapeChar(c) + rest;
    if c as int < 32 && c as int !in {8, 9, 10, 12, 13} {
      JsonUnescapeControl(c, rest);
    } else if |JsonEscapeChar(c)| == 2 {
      assert t[2..] == rest;
    } else {
      assert t[1..] == rest;
    }
  }

  /** A control character written as `\u00XX` reads back as itself. */
  lemma JsonUnescapeControl(c: char, rest: string)
    requires c as int < 32 && c as int !in {8, 9, 10, 12, 13}
    ensures JsonUnescape(JsonEscapeChar(c) + rest) ==
      match JsonUnescape(rest)
      case None => None
      case Some(r) => Some([c] + r)
  {
    var t := JsonEscapeChar(c) + rest;
    var hi, lo := c as int / 16, c as int % 16;
    assert t[..6] == "\\u00" + [DigitChars[hi], DigitChars[lo]];
    assert t[4] == DigitChars[hi] && t[5] == DigitChars[lo];
    assert HexDigitValue(t[4]) == hi && HexDigitValue(t[5]) == lo;
    assert t[6..] == rest;
  }

  /** Every string survives `JSON.stringify` followed by `JSON.parse`. */
  lemma {:induction false} JsonRoundTrip(s: string)
    ensures JsonUnquote(JsonQuote(s)) == Some(s)
  {
    var q := JsonQuote(s);
    assert q[1..|q| - 1] == JsonEscape(s);
    JsonUnescapeEscape(s);
  }

  lemma {:induction false} JsonUnescapeEscape(s: string)
    ensures JsonUnescape(JsonEscape(s)) == Some(s)
  {
    if s != [] {
      JsonUnescapeEscape(s[1..]);
      JsonUnescapeChar(s[0], JsonEscape(s[1..]));
      assert [s[0]] + s[1..] == s;
    }
  }
}
