/** The string operations of Python that the creator relies on: the
    substring test `x in s`, `s.split()`, `s.split(sep)`, `s.lower()` and
    decimal conversion. `\d`, `\w` and `lower()` are taken on ASCII (see
    README); whitespace is Python's full set. */
module Text {

  predicate IsDigit(c: char) { '0' <= c <= '9' }

  /** `\w` restricted to ASCII: letters, digits and the underscore. */
  predicate IsWordChar(c: char) {
    IsDigit(c) || ('a' <= c <= 'z') || ('A' <= c <= 'Z') || c == '_'
  }

  /** The characters `str.split()` treats as whitespace (`str.isspace`):
      tab to carriage return, the four separators U+001C to U+001F, the
      space, and the Unicode spaces and line and paragraph separators. */
  predicate IsWhitespace(c: char) {
    ('\t' <= c <= '\r') || ('\U{1C}' <= c <= ' ') || c == '\U{85}' || c == '\U{A0}'
    || c == '\U{1680}' || ('\U{2000}' <= c <= '\U{200A}') || c == '\U{2028}' || c == '\U{2029}'
    || c == '\U{202F}' || c == '\U{205F}' || c == '\U{3000}'
  }

  predicate AllDigits(s: string) {
    forall i :: 0 <= i < |s| ==> IsDigit(s[i])
  }

  // ---------------------------------------------------------------------
  // Substring test: Python's `needle in hay` on two strings.

  predicate OccursAt(hay: string, needle: string, i: nat) {
    i + |needle| <= |hay| && hay[i..i + |needle|] == needle
  }

  function Contains(hay: string, needle: string): (r: bool)
    ensures r <==> exists i: nat :: OccursAt(hay, needle, i)
    decreases |hay|
  {
    if |needle| > |hay| then false
    else if hay[..|needle|] == needle then (assert OccursAt(hay, needle, 0); true)
    else
      var r := Contains(hay[1..], needle);
      assert forall i: nat :: OccursAt(hay, needle, i + 1) <==> OccursAt(hay[1..], needle, i) by {
        forall i: nat ensures OccursAt(hay, needle, i + 1) <==> OccursAt(hay[1..], needle, i) {
          if i + 1 + |needle| <= |hay| {
            assert hay[1..][i..i + |needle|] == hay[i + 1..i + 1 + |needle|];
          }
        }
      }
      assert r ==> exists i: nat :: OccursAt(hay, needle, i) by {
        if r {
          var i: nat :| OccursAt(hay[1..], needle, i);
          assert OccursAt(hay, needle, i + 1);
        }
      }
      assert (exists i: nat :: OccursAt(hay, needle, i)) ==> r by {
        if exists i: nat :: OccursAt(hay, needle, i) {
          var i: nat :| OccursAt(hay, needle, i);
          assert i != 0;
          assert OccursAt(hay[1..], needle, i - 1);
        }
      }
      r
  }

  // ---------------------------------------------------------------------
  // `s.split()`: the maximal runs of non-whitespace characters.

  /** Length of the leading run of non-whitespace characters. */
  function WordLength(s: string): (n: nat)
    ensures n <= |s|
    ensures forall i :: 0 <= i < n ==> !IsWhitespace(s[i])
    ensures n < |s| ==> IsWhitespace(s[n])
  {
    if s == [] || IsWhitespace(s[0]) then 0 else 1 + WordLength(s[1..])
  }

  function SplitWhitespace(s: string): (r: seq<string>)
    decreases |s|
  {
    if s == [] then []
    else if IsWhitespace(s[0]) then SplitWhitespace(s[1..])
    else
      var n := WordLength(s);
      [s[..n]] + SplitWhitespace(s[n..])
  }

  /** The characters of `s` that are not whitespace, in order. */
  function WithoutWhitespace(s: string): string {
    if s == [] then []
    else if IsWhitespace(s[0]) then WithoutWhitespace(s[1..])
    else [s[0]] + WithoutWhitespace(s[1..])
  }

  function Concat(ss: seq<string>): string {
    if ss == [] then [] else ss[0] + Concat(ss[1..])
  }

  /** Every token is non-empty and free of whitespace, and the tokens
      together hold exactly the non-whitespace characters of the input. */
  lemma {:induction false} SplitWhitespaceTokens(s: string)
    ensures forall t :: t in SplitWhitespace(s) ==> |t| > 0 && forall i :: 0 <= i < |t| ==> !IsWhitespace(t[i])
    ensures Concat(SplitWhitespace(s)) == WithoutWhitespace(s)
    decreases |s|
  {
    if s == [] {
    } else if IsWhitespace(s[0]) {
      SplitWhitespaceTokens(s[1..]);
    } else {
      var n := WordLength(s);
      SplitWhitespaceTokens(s[n..]);
      WithoutWhitespacePrefix(s, n);
      assert SplitWhitespace(s) == [s[..n]] + SplitWhitespace(s[n..]);
      assert Concat(SplitWhitespace(s)) == s[..n] + Concat(SplitWhitespace(s[n..]));
    }
  }

  lemma {:induction false} WithoutWhitespacePrefix(s: string, n: nat)
    requires n <= |s|
    requires forall i :: 0 <= i < n ==> !IsWhitespace(s[i])
    ensures WithoutWhitespace(s) == s[..n] + WithoutWhitespace(s[n..])
  {
    if n > 0 {
      WithoutWhitespacePrefix(s[1..], n - 1);
      assert s[1..][n - 1..] == s[n..];
      assert s[..n] == [s[0]] + s[1..][..n - 1];
    }
  }

  // ---------------------------------------------------------------------
  // `s.split(sep)` and its inverse `sep.join(parts)`.

  function SplitOn(s: string, sep: char): (r: seq<string>)
    ensures |r| >= 1
    decreases |s|
  {
    if s == [] then [""]
    else if s[0] == sep then [""] + SplitOn(s[1..], sep)
    else
      var rest := SplitOn(s[1..], sep);
      [[s[0]] + rest[0]] + rest[1..]
  }

  function JoinWith(parts: seq<string>, sep: char): string
    requires |parts| >= 1
    decreases |parts|
  {
    if |parts| == 1 then parts[0] else parts[0] + [sep] + JoinWith(parts[1..], sep)
  }

  function Count(s: string, c: char): nat {
    if s == [] then 0 else (if s[0] == c then 1 else 0) + Count(s[1..], c)
  }

  /** Splitting and joining again gives back the input; no part holds the
      separator; there is one part more than there are separators. */
  lemma {:induction false} SplitOnJoin(s: string, sep: char)
    ensures JoinWith(SplitOn(s, sep), sep) == s
    ensures forall p :: p in SplitOn(s, sep) ==> sep !in p
    ensures |SplitOn(s, sep)| == Count(s, sep) + 1
    decreases |s|
  {
    if s == [] {
    } else if s[0] == sep {
      SplitOnJoin(s[1..], sep);
      assert SplitOn(s, sep)[1..] == SplitOn(s[1..], sep);
    } else {
      SplitOnJoin(s[1..], sep);
      var rest := SplitOn(s[1..], sep);
      var r := SplitOn(s, sep);
      assert r[1..] == rest[1..];
      if |rest| == 1 {
        assert JoinWith(r, sep) == [s[0]] + rest[0];
      } else {
        assert JoinWith(r, sep) == [s[0]] + rest[0] + [sep] + JoinWith(rest[1..], sep);
        assert JoinWith(rest, sep) == rest[0] + [sep] + JoinWith(rest[1..], sep);
      }
      assert [s[0]] + s[1..] == s;
      forall p | p in r ensures sep !in p {
        if p != r[0] { assert p in rest; }
      }
    }
  }

  /** Joining parts that do not hold the separator and splitting again
      gives back the parts. */
  lemma {:induction false} JoinSplitOn(parts: seq<string>, sep: char)
    requires |parts| >= 1
    requires forall p :: p in parts ==> sep !in p
    ensures SplitOn(JoinWith(parts, sep), sep) == parts
    decreases |parts|, |parts[0]|
  {
    if |parts[0]| > 0 {
      var p0 := parts[0];
      var tail := [p0[1..]] + parts[1..];
      assert forall p :: p in tail ==> sep !in p by {
        forall p | p in tail ensures sep !in p {
          if p == p0[1..] { assert forall c :: c in p0[1..] ==> c in p0; } else { assert p in parts; }
        }
      }
      JoinSplitOn(tail, sep);
      JoinFirst(parts, sep);
      JoinFirst(tail, sep);
      assert JoinWith(parts, sep) == [p0[0]] + JoinWith(tail, sep) by {
        assert p0 == [p0[0]] + p0[1..];
      }
      assert p0[0] in p0;
      assert [p0[0]] + p0[1..] == p0;
    } else if |parts| > 1 {
      JoinSplitOn(parts[1..], sep);
      assert JoinWith(parts, sep) == [sep] + JoinWith(parts[1..], sep);
      assert ([sep] + JoinWith(parts[1..], sep))[1..] == JoinWith(parts[1..], sep);
      assert parts == [""] + parts[1..];
    }
  }

  /** Every character of a join is the separator or comes from a part. */
  lemma {:induction false} JoinWithChars(parts: seq<string>, sep: char, c: char)
    requires |parts| >= 1
    requires c in JoinWith(parts, sep)
    ensures c == sep || exists i :: 0 <= i < |parts| && c in parts[i]
    decreases |parts|
  {
    if |parts| > 1 && c !in parts[0] && c != sep {
      assert c in JoinWith(parts[1..], sep);
      JoinWithChars(parts[1..], sep, c);
      var i :| 0 <= i < |parts| - 1 && c in parts[1..][i];
      assert c in parts[i + 1];
    }
  }

  /** The join starts with the first part, followed by the rest. */
  lemma JoinFirst(parts: seq<string>, sep: char)
    requires |parts| >= 1
    ensures JoinWith(parts, sep) == parts[0] + (if |parts| == 1 then "" else [sep] + JoinWith(parts[1..], sep))
  {
  }

  // ---------------------------------------------------------------------
  // `s.lower()` on ASCII letters.

  function LowerChar(c: char): char {
    if 'A' <= c <= 'Z' then (c as int + 32) as char else c
  }

  function Lower(s: string): (r: string)
    ensures |r| == |s|
    ensures forall i :: 0 <= i < |s| ==> r[i] == LowerChar(s[i])
  {
    seq(|s|, i requires 0 <= i < |s| => LowerChar(s[i]))
  }

  // ---------------------------------------------------------------------
  // Decimal numerals: `str(n)` and `int(s)` on ASCII digit strings.

  function DigitChar(d: nat): (c: char)
    requires d < 10
    ensures IsDigit(c)
  {
    ('0' as int + d) as char
  }

  function DigitValue(c: char): (d: nat)
    requires IsDigit(c)
    ensures d < 10
  {
    c as int - '0' as int
  }

  function NatToString(n: nat): (s: string)
    ensures |s| >= 1 && AllDigits(s)
  {
    if n < 10 then [DigitChar(n)] else NatToString(n / 10) + [DigitChar(n % 10)]
  }

  function DecimalValue(s: string): nat
    requires AllDigits(s)
  {
    if s == [] then 0 else DecimalValue(s[..|s| - 1]) * 10 + DigitValue(s[|s| - 1])
  }

  /** `int(str(n)) == n`, and `str(n)` has no leading zero. */
  lemma {:induction false} DecimalRoundTrip(n: nat)
    ensures DecimalValue(NatToString(n)) == n
    ensures NatToString(n)[0] == '0' ==> n == 0
  {
    if n >= 10 {
      DecimalRoundTrip(n / 10);
      var s := NatToString(n);
      assert s[..|s| - 1] == NatToString(n / 10);
    }
  }

  /** A numeral is canonical when it has no leading zero, or is "0". */
  predicate Canonical(s: string) {
    |s| >= 1 && AllDigits(s) && (s[0] == '0' ==> |s| == 1)
  }

  /** `str(int(s)) == s` for a canonical numeral. */
  lemma {:induction false} DecimalCanonical(s: string)
    requires Canonical(s)
    ensures NatToString(DecimalValue(s)) == s
    decreases |s|
  {
    if |s| > 1 {
      var t := s[..|s| - 1];
      assert t[0] == s[0];
      DecimalCanonical(t);
      DecimalPositive(t);
    }
  }

  lemma {:induction false} DecimalPositive(s: string)
    requires |s| >= 1 && AllDigits(s) && s[0] != '0'
    ensures DecimalValue(s) >= 1
    decreases |s|
  {
    if |s| > 1 {
      var t := s[..|s| - 1];
      assert t[0] == s[0];
      DecimalPositive(t);
    }
  }

  /** `str(n)` is canonical. */
  lemma NatToStringCanonical(n: nat)
    ensures Canonical(NatToString(n))
  {
    DecimalRoundTrip(n);
  }

  /** The numeral of a number below 10^k has at most k digits. */
  lemma {:induction false} NatToStringLength(n: nat)
    ensures n < 10 ==> |NatToString(n)| == 1
    ensures n < 100 ==> |NatToString(n)| <= 2
    ensures n < 1000 ==> |NatToString(n)| <= 3
  {
    if n >= 10 { NatToStringLength(n / 10); }
  }
}
