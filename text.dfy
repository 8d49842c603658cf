/**
 * The pieces of the Kotlin standard library the client relies on, stated on
 * `string`. A Dafny `char` is a Unicode scalar value where Kotlin's is a
 * UTF-16 code unit; nothing here depends on the difference, because
 * lower-casing touches ASCII letters only, every whitespace character is in
 * the Basic Multilingual Plane, and `&` and `=` are single code units either
 * way. The operations are `lowercase()`, `isBlank()`,
 * `Int.toString()` and `joinToString(separator)`. The splitting and parsing
 * functions are not used by the client; they are the decoding side against
 * which the request builder is checked.
 */
module Text {
  import opened Wrappers

  // ---------------------------------------------------------------------------
  // Lower-casing (ASCII letters only)
  // ---------------------------------------------------------------------------

  predicate IsUpper(c: char) { 'A' <= c <= 'Z' }

  predicate IsLower(c: char) { 'a' <= c <= 'z' }

  function LowerChar(c: char): (r: char)
    ensures !IsUpper(r)
    ensures !IsUpper(c) ==> r == c
    ensures IsUpper(c) ==> IsLower(r)
  {
    if IsUpper(c) then (c as int + 32) as char else c
  }

  /** `String.lowercase()`, restricted to the ASCII letters. */
  function Lowercase(s: string): (r: string)
    ensures |r| == |s|
  {
    if s == [] then [] else [LowerChar(s[0])] + Lowercase(s[1..])
  }

  /** Each character is lower-cased on its own. */
  lemma {:induction false} LowercaseAt(s: string)
    ensures forall i :: 0 <= i < |s| ==> Lowercase(s)[i] == LowerChar(s[i])
  {
    if s != [] {
      LowercaseAt(s[1..]);
      assert forall i :: 1 <= i < |s| ==> Lowercase(s)[i] == Lowercase(s[1..])[i - 1];
    }
  }

  lemma {:induction false} LowercaseHasNoUpper(s: string)
    ensures forall i :: 0 <= i < |s| ==> !IsUpper(Lowercase(s)[i])
  {
    if s != [] {
      LowercaseHasNoUpper(s[1..]);
      assert forall i :: 1 <= i < |s| ==> Lowercase(s)[i] == Lowercase(s[1..])[i - 1];
    }
  }

  /** Lower-casing twice is lower-casing once. */
  lemma {:induction false} LowercaseIdempotent(s: string)
    ensures Lowercase(Lowercase(s)) == Lowercase(s)
  {
    if s != [] {
      LowercaseIdempotent(s[1..]);
      assert Lowercase(s)[1..] == Lowercase(s[1..]);
    }
  }

  /** Lower-casing neither creates nor removes a character that is not a letter. */
  lemma {:induction false} LowercaseKeepsCount(s: string, c: char)
    requires !IsUpper(c) && !IsLower(c)
    ensures multiset(Lowercase(s))[c] == multiset(s)[c]
  {
    if s != [] {
      LowercaseKeepsCount(s[1..], c);
      assert s == [s[0]] + s[1..];
      assert Lowercase(s) == [LowerChar(s[0])] + Lowercase(s[1..]);
      assert (LowerChar(s[0]) == c) == (s[0] == c);
    }
  }

  // ---------------------------------------------------------------------------
  // Blank strings
  // ---------------------------------------------------------------------------

  /**
   * `Char.isWhitespace()` on the JVM: `Character.isWhitespace` or
   * `Character.isSpaceChar`, i.e. the control characters U+0009..U+000D and
   * U+001C..U+001F and the Unicode space, line and paragraph separators.
   */
  predicate IsWhitespace(c: char) {
    var n := c as int;
    || 0x09 <= n <= 0x0D
    || 0x1C <= n <= 0x20
    || n == 0xA0 || n == 0x1680
    || 0x2000 <= n <= 0x200A
    || n == 0x2028 || n == 0x2029 || n == 0x202F || n == 0x205F || n == 0x3000
  }

  /** `CharSequence.isBlank()`: empty, or whitespace only. */
  predicate IsBlank(s: string) {
    forall i :: 0 <= i < |s| ==> IsWhitespace(s[i])
  }

  // ---------------------------------------------------------------------------
  // Decimal notation of integers
  // ---------------------------------------------------------------------------

  predicate IsDigit(c: char) { '0' <= c <= '9' }

  function DigitChar(d: int): (c: char)
    requires 0 <= d < 10
    ensures IsDigit(c)
  {
    ('0' as int + d) as char
  }

  function DigitValue(c: char): (d: nat)
    requires IsDigit(c)
    ensures d < 10
  {
    c as int - '0' as int
  }

  /** The decimal digits of `n`, most significant first, without leading zeros. */
  function NatToDecimal(n: nat): (s: string)
    ensures |s| > 0
    ensures forall i :: 0 <= i < |s| ==> IsDigit(s[i])
    decreases n
  {
    if n < 10 then [DigitChar(n)] else NatToDecimal(n / 10) + [DigitChar(n % 10)]
  }

  /** `Int.toString()`: a minus sign before the digits of a negative number. */
  function IntToDecimal(n: int): (s: string)
    ensures |s| > 0
    ensures forall i :: 0 <= i < |s| ==> IsDigit(s[i]) || s[i] == '-'
  {
    if n < 0 then "-" + NatToDecimal(-n) else NatToDecimal(n)
  }

  /** Reads a non-empty run of decimal digits; anything else is `None`. */
  function ParseNat(s: string): Option<nat>
    decreases |s|
  {
    if s == [] || !IsDigit(s[|s| - 1]) then None
    else if |s| == 1 then Some(DigitValue(s[0]))
    else match ParseNat(s[..|s| - 1])
      case None => None
      case Some(v) => Some(v * 10 + DigitValue(s[|s| - 1]))
  }

  /** Reads an optional minus sign followed by decimal digits. */
  function ParseInt(s: string): Option<int> {
    if |s| > 0 && s[0] == '-' then
      match ParseNat(s[1..])
      case None => None
      case Some(v) => Some(-(v as int))
    else
      match ParseNat(s)
      case None => None
      case Some(v) => Some(v as int)
  }

  lemma {:induction false} ParseNatDecimal(n: nat)
    ensures ParseNat(NatToDecimal(n)) == Some(n)
    decreases n
  {
    if n >= 10 {
      var s := NatToDecimal(n);
      ParseNatDecimal(n / 10);
      assert s[..|s| - 1] == NatToDecimal(n / 10);
    }
  }

  /** Reading back the decimal notation of any integer gives that integer. */
  lemma IntDecimalRoundTrip(n: int)
    ensures ParseInt(IntToDecimal(n)) == Some(n)
  {
    if n < 0 {
      var digits := NatToDecimal(-n);
      ParseNatDecimal(-n);
      assert IntToDecimal(n) == "-" + digits;
      assert ("-" + digits)[0] == '-' && ("-" + digits)[1..] == digits;
    } else {
      var digits := NatToDecimal(n);
      ParseNatDecimal(n);
      assert IntToDecimal(n) == digits;
      assert IsDigit(digits[0]);
    }
  }

  // ---------------------------------------------------------------------------
  // Joining and splitting on a separator
  // ---------------------------------------------------------------------------

  /** `joinToString(sep)`: the parts with one separator between neighbours. */
  function Join(parts: seq<string>, sep: char): string {
    if |parts| == 0 then ""
    else if |parts| == 1 then parts[0]
    else parts[0] + [sep] + Join(parts[1..], sep)
  }

  /** The pieces of `s` between occurrences of `sep`; always at least one. */
  function Split(s: string, sep: char): (parts: seq<string>)
    ensures |parts| > 0
  {
    if s == [] then [""]
    else
      var rest := Split(s[1..], sep);
      if s[0] == sep then [""] + rest else [[s[0]] + rest[0]] + rest[1..]
  }

  /** Splitting a piece without the separator leaves it whole. */
  lemma {:induction false} SplitNoSeparator(s: string, sep: char)
    requires sep !in s
    ensures Split(s, sep) == [s]
  {
    if s != [] {
      SplitNoSeparator(s[1..], sep);
      assert [s[0]] + s[1..] == s;
    }
  }

  lemma {:induction false} SplitAfterPiece(a: string, sep: char, b: string)
    requires sep !in a
    ensures Split(a + [sep] + b, sep) == [a] + Split(b, sep)
  {
    if a != [] {
      SplitAfterPiece(a[1..], sep, b);
      assert (a + [sep] + b)[1..] == a[1..] + [sep] + b;
      assert [a[0]] + a[1..] == a;
    } else {
      assert ([] + [sep] + b)[1..] == b;
    }
  }

  /** Splitting undoes joining when no part contains the separator. */
  lemma {:induction false} SplitJoin(parts: seq<string>, sep: char)
    requires |parts| > 0
    requires forall i :: 0 <= i < |parts| ==> sep !in parts[i]
    ensures Split(Join(parts, sep), sep) == parts
  {
    if |parts| == 1 {
      SplitNoSeparator(parts[0], sep);
    } else {
      SplitJoin(parts[1..], sep);
      SplitAfterPiece(parts[0], sep, Join(parts[1..], sep));
      assert [parts[0]] + parts[1..] == parts;
    }
  }

  /** The number of occurrences of `c` over all the parts. */
  function SumOccurrences(parts: seq<string>, c: char): nat {
    if parts == [] then 0 else multiset(parts[0])[c] + SumOccurrences(parts[1..], c)
  }

  /** Joining adds exactly one separator between each pair of neighbours. */
  lemma {:induction false} JoinOccurrences(parts: seq<string>, sep: char)
    requires |parts| > 0
    ensures multiset(Join(parts, sep))[sep] == |parts| - 1 + SumOccurrences(parts, sep)
  {
    if |parts| > 1 {
      JoinOccurrences(parts[1..], sep);
    }
  }

  /** Cuts `s` at its first `c` into what comes before and what comes after. */
  function SplitAtFirst(s: string, c: char): (string, string) {
    if s == [] then ("", "")
    else if s[0] == c then ("", s[1..])
    else
      var (before, after) := SplitAtFirst(s[1..], c);
      ([s[0]] + before, after)
  }

  lemma {:induction false} SplitAtFirstJoin(before: string, c: char, after: string)
    requires c !in before
    ensures SplitAtFirst(before + [c] + after, c) == (before, after)
  {
    if before != [] {
      SplitAtFirstJoin(before[1..], c, after);
      assert (before + [c] + after)[1..] == before[1..] + [c] + after;
      assert [before[0]] + before[1..] == before;
    } else {
      assert ([] + [c] + after)[1..] == after;
    }
  }

  /** Without `c`, nothing is cut off. */
  lemma {:induction false} SplitAtFirstAbsent(s: string, c: char)
    requires c !in s
    ensures SplitAtFirst(s, c) == (s, "")
  {
    if s != [] {
      SplitAtFirstAbsent(s[1..], c);
      assert [s[0]] + s[1..] == s;
    }
  }

  /** A prefix without `c` stays in front of the cut. */
  lemma {:induction false} SplitAtFirstPrefix(p: string, s: string, c: char)
    requires c !in p
    ensures SplitAtFirst(p + s, c).0 == p + SplitAtFirst(s, c).0
  {
    if p != [] {
      SplitAtFirstPrefix(p[1..], s, c);
      assert (p + s)[1..] == p[1..] + s;
      assert [p[0]] + p[1..] == p;
    } else {
      assert [] + s == s;
    }
  }

  /** Text after a `c` does not reach the part before the first `c`. */
  lemma {:induction false} SplitAtFirstStops(s: string, t: string, c: char)
    requires t == [] || t[0] == c
    ensures SplitAtFirst(s + t, c).0 == SplitAtFirst(s, c).0
  {
    if s == [] {
      assert [] + t == t;
    } else {
      SplitAtFirstStops(s[1..], t, c);
      assert (s + t)[1..] == s[1..] + t;
    }
  }

  /** The first piece of a split is the part before the first separator. */
  lemma {:induction false} SplitFirstPiece(s: string, sep: char)
    ensures Split(s, sep)[0] == SplitAtFirst(s, sep).0
  {
    if s != [] {
      SplitFirstPiece(s[1..], sep);
    }
  }

  /** The part of a joined string before its first separator lies in the first part. */
  lemma {:induction false} JoinFirstPiece(parts: seq<string>, sep: char)
    requires |parts| > 0
    ensures SplitAtFirst(Join(parts, sep), sep).0 == SplitAtFirst(parts[0], sep).0
  {
    if |parts| > 1 {
      assert Join(parts, sep) == parts[0] + ([sep] + Join(parts[1..], sep));
      SplitAtFirstStops(parts[0], [sep] + Join(parts[1..], sep), sep);
    }
  }
}
