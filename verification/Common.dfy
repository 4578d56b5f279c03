/** Small value types and .NET string helpers shared by the whole model. */
module Common {

  datatype Option<+T> = None | Some(value: T)

  datatype Result<+T, +E> = Ok(value: T) | Err(error: E)

  /** `char.IsWhiteSpace`: the Unicode space separators, line/paragraph separators and the
      control characters TAB, LF, VT, FF, CR and NEL. */
  predicate IsWhiteSpace(c: char)
  {
    || ('\U{0009}' <= c <= '\U{000D}')
    || c == ' ' || c == '\U{0085}' || c == '\U{00A0}' || c == '\U{1680}'
    || ('\U{2000}' <= c <= '\U{200A}')
    || c == '\U{2028}' || c == '\U{2029}' || c == '\U{202F}' || c == '\U{205F}' || c == '\U{3000}'
  }

  /** `string.IsNullOrWhiteSpace` on a non-null string. */
  predicate IsBlank(s: string)
  {
    forall i :: 0 <= i < |s| ==> IsWhiteSpace(s[i])
  }

  /** `string.IsNullOrWhiteSpace` on a nullable string. */
  predicate IsNullOrBlank(s: Option<string>)
  {
    s.None? || IsBlank(s.value)
  }

  /** `string.Trim()`: drops white space at both ends. */
  function TrimStart(s: string): (r: string)
    ensures |r| <= |s| && r == s[|s| - |r|..]
    ensures r == [] || !IsWhiteSpace(r[0])
    ensures forall i :: 0 <= i < |s| - |r| ==> IsWhiteSpace(s[i])
  {
    if s != [] && IsWhiteSpace(s[0]) then TrimStart(s[1..]) else s
  }

  function TrimEnd(s: string): (r: string)
    ensures |r| <= |s| && r == s[..|r|]
    ensures r == [] || !IsWhiteSpace(r[|r| - 1])
    ensures forall i :: |r| <= i < |s| ==> IsWhiteSpace(s[i])
  {
    if s != [] && IsWhiteSpace(s[|s| - 1]) then TrimEnd(s[..|s| - 1]) else s
  }

  function Trim(s: string): string
  {
    TrimEnd(TrimStart(s))
  }

  lemma TrimOfBlank(s: string)
    ensures IsBlank(s) <==> Trim(s) == []
  {
  }

  /** One character of the ordinal case-insensitive comparison (ASCII letters only). */
  function FoldChar(c: char): char
  {
    if 'a' <= c <= 'z' then (c as int - 32) as char else c
  }

  function Fold(s: string): (r: string)
    ensures |r| == |s| && forall i :: 0 <= i < |s| ==> r[i] == FoldChar(s[i])
  {
    seq(|s|, i requires 0 <= i < |s| => FoldChar(s[i]))
  }

  /** `StringComparison.OrdinalIgnoreCase` equality. */
  predicate EqualsIgnoreCase(a: string, b: string)
  {
    Fold(a) == Fold(b)
  }

  /** Membership in a `HashSet<string>` built with `StringComparer.OrdinalIgnoreCase`. */
  predicate ContainsIgnoreCase(words: set<string>, w: string)
  {
    exists v :: v in words && EqualsIgnoreCase(v, w)
  }

  /** Strings whose characters at `i` differ even after folding are not equal ignoring case. */
  lemma DiffersAt(a: string, b: string, i: nat)
    requires i < |a| && i < |b| && FoldChar(a[i]) != FoldChar(b[i])
    ensures !EqualsIgnoreCase(a, b)
  {
    assert Fold(a)[i] != Fold(b)[i];
  }

  /** `char.IsLetterOrDigit`, restricted to ASCII. */
  predicate IsLetterOrDigit(c: char)
  {
    ('a' <= c <= 'z') || ('A' <= c <= 'Z') || ('0' <= c <= '9')
  }

  predicate StartsWith(s: string, prefix: string)
  {
    |prefix| <= |s| && s[..|prefix|] == prefix
  }

  /** The text before the first occurrence of `sep` (all of `s` if there is none):
      `s.Split(sep)[0]`. */
  function BeforeFirst(s: string, sep: char): (r: string)
    ensures |r| <= |s| && r == s[..|r|]
    ensures sep !in r
    ensures |r| < |s| ==> s[|r|] == sep
  {
    if s == [] then []
    else if s[0] == sep then []
    else [s[0]] + BeforeFirst(s[1..], sep)
  }

  /** Splits at the first `sep`: the text before it and the text after it. */
  function SplitOnce(s: string, sep: char): (r: Option<(string, string)>)
    ensures r.None? <==> sep !in s
  {
    var head := BeforeFirst(s, sep);
    if |head| < |s| then Some((head, s[|head| + 1..])) else None
  }

  lemma {:induction false} SplitOnceAt(p: string, sep: char, t: string)
    requires sep !in p
    ensures SplitOnce(p + [sep] + t, sep) == Some((p, t))
  {
    BeforeFirstPrefix(p, sep, t);
    var s := p + [sep] + t;
    assert s[|p| + 1..] == t;
  }

  lemma {:induction false} BeforeFirstPrefix(p: string, sep: char, t: string)
    requires sep !in p
    ensures BeforeFirst(p + [sep] + t, sep) == p
  {
    if p != [] {
      assert (p + [sep] + t)[1..] == p[1..] + [sep] + t;
      BeforeFirstPrefix(p[1..], sep, t);
    }
  }

  /** `s.Split(sep)`: the pieces between separators, in order. */
  function Split(s: string, sep: char): (r: seq<string>)
    ensures |r| >= 1
    ensures forall i :: 0 <= i < |r| ==> sep !in r[i]
    decreases |s|
  {
    match SplitOnce(s, sep)
    case None => [s]
    case Some((head, tail)) => [head] + Split(tail, sep)
  }

  // Decimal text

  predicate IsDigit(c: char)
  {
    '0' <= c <= '9'
  }

  function DigitChar(d: nat): (c: char)
    requires d < 10
    ensures IsDigit(c) && c as int == '0' as int + d
  {
    ('0' as int + d) as char
  }

  function DigitValue(c: char): (d: nat)
    requires IsDigit(c)
    ensures d < 10 && DigitChar(d) == c
  {
    c as int - '0' as int
  }

  /** The invariant-culture decimal rendering of a natural number. */
  function NatToString(n: nat): (r: string)
    ensures |r| >= 1 && forall i :: 0 <= i < |r| ==> IsDigit(r[i])
  {
    if n < 10 then [DigitChar(n)] else NatToString(n / 10) + [DigitChar(n % 10)]
  }

  function IntToString(n: int): string
  {
    if n < 0 then "-" + NatToString(-n) else NatToString(n)
  }

  predicate AllDigits(s: string)
  {
    forall i :: 0 <= i < |s| ==> IsDigit(s[i])
  }

  function DigitsValue(s: string): nat
    requires AllDigits(s)
  {
    if s == [] then 0 else DigitsValue(s[..|s| - 1]) * 10 + DigitValue(s[|s| - 1])
  }

  /** Reads a non-empty run of decimal digits. */
  function ParseNat(s: string): (r: Option<nat>)
    ensures r.Some? <==> s != [] && AllDigits(s)
  {
    if s != [] && AllDigits(s) then Some(DigitsValue(s)) else None
  }

  /** Reading back the rendering of `n` gives `n`. */
  lemma {:induction false} ParseNatToString(n: nat)
    ensures ParseNat(NatToString(n)) == Some(n)
  {
    var s := NatToString(n);
    if n >= 10 {
      ParseNatToString(n / 10);
      assert s[..|s| - 1] == NatToString(n / 10);
      assert DigitValue(s[|s| - 1]) == n % 10;
      assert DigitsValue(s) == DigitsValue(NatToString(n / 10)) * 10 + n % 10;
    } else {
      assert s[..0] == [];
      assert DigitsValue(s) == DigitValue(s[0]);
    }
  }

  lemma NoDigitIsSeparator(n: nat, c: char)
    requires !IsDigit(c)
    ensures c !in NatToString(n)
  {
  }

  /* ---------------------------------------------------------------------------------------
     UTF-16 lengths: a .NET string's `Length` and `Substring` count UTF-16 code units
     --------------------------------------------------------------------------------------- */

  /** The UTF-16 code units that encode `ch`: a surrogate pair for a character outside the
      Basic Multilingual Plane, one unit otherwise. */
  function Utf16Units(ch: char): (n: nat)
    ensures n == 1 || n == 2
  {
    if ch as int >= 0x10000 then 2 else 1
  }

  /** The length of `s` in UTF-16 code units, the length a .NET string reports: between one
      and two units per character. */
  function Utf16Length(s: string): (n: nat)
    ensures |s| <= n <= 2 * |s|
  {
    if s == [] then 0 else Utf16Length(s[..|s| - 1]) + Utf16Units(s[|s| - 1])
  }

  /** Text made only of characters of the Basic Multilingual Plane has one unit per
      character. */
  lemma {:induction false} Utf16LengthBmp(s: string)
    requires forall i :: 0 <= i < |s| ==> s[i] as int < 0x10000
    ensures Utf16Length(s) == |s|
  {
    if s != [] {
      Utf16LengthBmp(s[..|s| - 1]);
    }
  }

  /** The units of a concatenation are the units of its parts. */
  lemma {:induction false} Utf16LengthAppend(a: string, b: string)
    ensures Utf16Length(a + b) == Utf16Length(a) + Utf16Length(b)
  {
    if b != [] {
      assert (a + b)[..|a + b| - 1] == a + b[..|b| - 1];
      Utf16LengthAppend(a, b[..|b| - 1]);
    } else {
      assert a + b == a;
    }
  }

  /** The longest prefix of `s` that takes at most `width` UTF-16 units. */
  function FitPrefix(s: string, width: nat): (r: string)
    ensures |r| <= |s| && r == s[..|r|] && Utf16Length(r) <= width
    ensures r == s || Utf16Length(r) + Utf16Units(s[|r|]) > width
  {
    if Utf16Length(s) <= width then s
    else
      FitPrefix(s[..|s| - 1], width)
  }

  /** `s.Substring(0, n)` when `s` is longer than `n`, both counted in UTF-16 units; the
      result is a prefix of `s` (`TruncateUnits` says which). */
  function Truncate(s: string, n: nat): (r: string)
    ensures |r| <= |s| && r == s[..|r|]
  {
    if Utf16Length(s) > n then FitPrefix(s, n) else s
  }

  /** Text that fits in `n` UTF-16 units is kept; longer text loses its tail and keeps `n`
      units, or one fewer when the cut falls inside a surrogate pair (that character is
      dropped whole, since the next one would not fit). */
  lemma TruncateUnits(s: string, n: nat)
    ensures Utf16Length(s) <= n ==> Truncate(s, n) == s
    ensures Utf16Length(s) > n ==>
              var r := Truncate(s, n);
              && |r| < |s|
              && n - 1 <= Utf16Length(r) <= n
              && Utf16Length(r) + Utf16Units(s[|r|]) > n
  {
  }
}
