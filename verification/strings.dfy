/**
 * The JavaScript string operations the application relies on, over `string` = `seq<char>`:
 * `trim`, `split` on a single character, the "word count" idiom
 * `s.split(' ').filter(w => w.length > 0).length`, character replacement, ASCII lower-casing,
 * lengths in UTF-16 code units
 * and the decimal rendering of integers (`n.toString()`).
 */
module Strings {

  /** The characters JavaScript's `trim` strips and the regular-expression class `\s` matches:
      these, and the range U+2000 to U+200A. */
  const WhitespaceChars: set<char> := {
    ' ', '\t', '\n', '\r', '\U{000B}', '\U{000C}', '\U{00A0}', '\U{1680}',
    '\U{2028}', '\U{2029}', '\U{202F}', '\U{205F}', '\U{3000}', '\U{FEFF}'}

  predicate IsWhitespace(c: char) {
    c in WhitespaceChars || '\U{2000}' <= c <= '\U{200A}'
  }

  predicate AllWhitespace(s: string) {
    forall i :: 0 <= i < |s| ==> IsWhitespace(s[i])
  }

  function TrimStart(s: string): (r: string)
    ensures |r| <= |s| && r == s[|s| - |r|..]
    ensures forall i :: 0 <= i < |s| - |r| ==> IsWhitespace(s[i])
    ensures r == [] || !IsWhitespace(r[0])
  {
    if s == [] || !IsWhitespace(s[0]) then s else TrimStart(s[1..])
  }

  function TrimEnd(s: string): (r: string)
    ensures |r| <= |s| && r == s[..|r|]
    ensures forall i :: |r| <= i < |s| ==> IsWhitespace(s[i])
    ensures r == [] || !IsWhitespace(r[|r| - 1])
  {
    if s == [] || !IsWhitespace(s[|s| - 1]) then s else TrimEnd(s[..|s| - 1])
  }

  /** Number of white-space characters `s` starts with. */
  function LeadingSpace(s: string): (n: nat)
    ensures n <= |s|
    ensures forall i :: 0 <= i < n ==> IsWhitespace(s[i])
    ensures n < |s| ==> !IsWhitespace(s[n])
  {
    if s == [] || !IsWhitespace(s[0]) then 0 else 1 + LeadingSpace(s[1..])
  }

  /** `s` neither starts nor ends with white space. */
  predicate SpaceFreeEnds(s: string) {
    s == [] || (!IsWhitespace(s[0]) && !IsWhitespace(s[|s| - 1]))
  }

  /** JavaScript's `trim`: the longest infix without white space at either end. */
  function Trim(s: string): (r: string)
    ensures |r| <= |s|
    ensures r == [] <==> AllWhitespace(s)
    ensures SpaceFreeEnds(r)
    ensures SpaceFreeEnds(s) ==> r == s
  {
    var t := TrimStart(s);
    var r := TrimEnd(t);
    TrimEmpty(s, t, r);
    TrimEnds(s, t, r);
    r
  }

  /** `TrimStart` drops exactly the leading white space. */
  lemma TrimStartIsLeading(s: string)
    ensures TrimStart(s) == s[LeadingSpace(s)..]
  {
    var t := TrimStart(s);
    var k := |s| - |t|;
    var n := LeadingSpace(s);
    assert k == n by {
      assert k < |s| ==> s[k] == t[0];
    }
  }

  /** `Trim` cuts only white space: its result is the piece of `s` after the leading white
      space, and everything after that piece is white space too. */
  lemma TrimIsInfix(s: string, r: string, n: nat)
    requires r == Trim(s) && n == LeadingSpace(s)
    ensures n + |r| <= |s|
    ensures forall i :: 0 <= i < |r| ==> r[i] == s[n + i]
    ensures forall i :: n + |r| <= i < |s| ==> IsWhitespace(s[i])
  {
    TrimStartIsLeading(s);
    TrimEndOfSuffix(s, TrimStart(s), r, n);
  }

  /** `TrimEnd` of the suffix of `s` starting at `n` is the piece of `s` at `n` and is
      followed in `s` by white space only. */
  lemma TrimEndOfSuffix(s: string, t: string, r: string, n: nat)
    requires n <= |s| && t == s[n..] && r == TrimEnd(t)
    ensures n + |r| <= |s|
    ensures forall i :: 0 <= i < |r| ==> r[i] == s[n + i]
    ensures forall i :: n + |r| <= i < |s| ==> IsWhitespace(s[i])
  {
    assert |r| <= |t| && r == t[..|r|];
    forall i | n + |r| <= i < |s| ensures IsWhitespace(s[i]) {
      assert s[i] == t[i - n];
    }
  }

  lemma TrimEmpty(s: string, t: string, r: string)
    requires t == TrimStart(s) && r == TrimEnd(t)
    ensures r == [] <==> AllWhitespace(s)
  {
    var k := |s| - |t|;
    assert t == s[k..];
    if r == [] {
      // Everything `TrimEnd` cut is white space, so `TrimStart` left nothing.
      assert t == [];
    } else {
      // The last kept character is not white space, and it is a character of `s`.
      var c := r[|r| - 1];
      assert !IsWhitespace(c);
      assert c == t[|r| - 1] == s[k + |r| - 1];
    }
  }

  lemma TrimEnds(s: string, t: string, r: string)
    requires t == TrimStart(s) && r == TrimEnd(t)
    ensures SpaceFreeEnds(r)
    ensures SpaceFreeEnds(s) ==> r == s
  {
    if r != [] {
      assert r[0] == t[0] && r[|r| - 1] == t[|r| - 1];
    }
    if s != [] && !IsWhitespace(s[0]) && !IsWhitespace(s[|s| - 1]) {
      assert t == s;
    }
  }

  /** `!s.trim()`: the string is empty or white space only. */
  predicate IsBlank(s: string) {
    Trim(s) == []
  }

  /** Number of occurrences of `c` in `s`. */
  function Occurrences(s: string, c: char): nat {
    if s == [] then 0 else (if s[0] == c then 1 else 0) + Occurrences(s[1..], c)
  }

  /** JavaScript's `s.split(sep)` for a one-character separator: the pieces between
      separators, including empty ones; `"".split(sep)` is `[""]`. */
  function Split(s: string, sep: char): (r: seq<string>)
    ensures |r| == Occurrences(s, sep) + 1
    ensures forall i :: 0 <= i < |r| ==> sep !in r[i]
  {
    if s == [] then [[]]
    else
      var rest := Split(s[1..], sep);
      if s[0] == sep then [[]] + rest else [[s[0]] + rest[0]] + rest[1..]
  }

  /** `pieces.join(sep)`. */
  function Join(pieces: seq<string>, sep: char): string
    requires |pieces| >= 1
  {
    if |pieces| == 1 then pieces[0] else pieces[0] + [sep] + Join(pieces[1..], sep)
  }

  /** Splitting and re-joining on the same separator gives back the original text. */
  lemma {:induction false} JoinSplit(s: string, sep: char)
    ensures Join(Split(s, sep), sep) == s
  {
    if s != [] {
      var rest := Split(s[1..], sep);
      JoinSplit(s[1..], sep);
      if s[0] == sep {
        assert ([[]] + rest)[1..] == rest;
      } else if |rest| == 1 {
      } else {
        var r := [[s[0]] + rest[0]] + rest[1..];
        assert r[1..] == rest[1..];
        assert Join(rest, sep) == rest[0] + [sep] + Join(rest[1..], sep);
        assert [s[0]] + s[1..] == s;
      }
    }
  }

  /** Number of non-empty strings in `pieces`. */
  function NonEmptyCount(pieces: seq<string>): nat {
    if pieces == [] then 0 else (if pieces[0] != [] then 1 else 0) + NonEmptyCount(pieces[1..])
  }

  /** `s.split(' ').filter(w => w.length > 0).length`: splits on the space character only,
      so a tab or a newline does not separate words. */
  function WordCount(s: string): nat {
    NonEmptyCount(Split(s, ' '))
  }

  /** Reference definition of the word count: the positions holding a non-space character
      that is first in `s` (when `afterSpace`) or follows a space. */
  function WordStarts(s: string, afterSpace: bool): nat {
    if s == [] then 0
    else (if s[0] != ' ' && afterSpace then 1 else 0) + WordStarts(s[1..], s[0] == ' ')
  }

  lemma {:induction false} WordStartsSplit(s: string, afterSpace: bool)
    ensures WordStarts(s, afterSpace)
         == NonEmptyCount(Split(s, ' ')) - (if !afterSpace && Split(s, ' ')[0] != [] then 1 else 0)
  {
    if s != [] {
      var rest := Split(s[1..], ' ');
      WordStartsSplit(s[1..], s[0] == ' ');
      if s[0] == ' ' {
        assert ([[]] + rest)[1..] == rest;
      } else {
        var r := [[s[0]] + rest[0]] + rest[1..];
        assert r[1..] == rest[1..];
        assert NonEmptyCount(rest) == (if rest[0] != [] then 1 else 0) + NonEmptyCount(rest[1..]);
      }
    }
  }

  /** The word count is the number of maximal runs of non-space characters. */
  lemma WordCountIsWordStarts(s: string)
    ensures WordCount(s) == WordStarts(s, true)
  {
    WordStartsSplit(s, true);
  }

  /** A string of spaces only has no words, and every other string has at least one. */
  lemma WordCountZero(s: string)
    ensures WordCount(s) == 0 <==> forall i :: 0 <= i < |s| ==> s[i] == ' '
  {
    WordCountIsWordStarts(s);
    if forall i :: 0 <= i < |s| ==> s[i] == ' ' {
      SpacesHaveNoWordStarts(s);
    } else {
      var i :| 0 <= i < |s| && s[i] != ' ';
      while 0 < i && s[i - 1] != ' '
        invariant 0 <= i < |s| && s[i] != ' '
        decreases i
      {
        i := i - 1;
      }
      FirstWordStartCounts(s, i);
    }
  }

  lemma {:induction false} SpacesHaveNoWordStarts(s: string)
    requires forall i :: 0 <= i < |s| ==> s[i] == ' '
    ensures WordStarts(s, true) == 0
  {
    if s != [] {
      SpacesHaveNoWordStarts(s[1..]);
    }
  }

  lemma {:induction false} FirstWordStartCounts(s: string, i: nat)
    requires i < |s| && s[i] != ' ' && (i == 0 || s[i - 1] == ' ')
    ensures WordStarts(s, true) >= 1
  {
    if i > 0 {
      assert s[1..][i - 1] == s[i];
      if s[0] == ' ' {
        if i > 1 {
          assert s[1..][i - 2] == s[i - 1];
        }
        FirstWordStartCounts(s[1..], i - 1);
      } else {
      }
    }
  }

  /** `s.replace(/c/g, rep)`: every occurrence of `c` replaced by `rep`. */
  function ReplaceChar(s: string, c: char, rep: string): (r: string)
    ensures c !in rep ==> c !in r
    ensures c !in s ==> r == s
    ensures |rep| == 1 ==> |r| == |s|
  {
    if s == [] then []
    else (if s[0] == c then rep else [s[0]]) + ReplaceChar(s[1..], c, rep)
  }

  /** `toLowerCase` on the ASCII letters; other characters are left as they are. */
  function ToLowerAscii(c: char): (r: char)
    ensures 'A' <= c <= 'Z' ==> 'a' <= r <= 'z'
    ensures !('A' <= c <= 'Z') ==> r == c
  {
    if 'A' <= c <= 'Z' then (c as int + 32) as char else c
  }

  function LowerAscii(s: string): (r: string)
    ensures |r| == |s|
    ensures forall i :: 0 <= i < |s| ==> r[i] == ToLowerAscii(s[i])
  {
    if s == [] then [] else [ToLowerAscii(s[0])] + LowerAscii(s[1..])
  }

  // ---------------------------------------------------------------------------------------
  // Lengths as JavaScript counts them

  /** How many UTF-16 code units a character takes: two above U+FFFF, one otherwise. */
  function Utf16Width(c: char): nat {
    if c as int > 0xFFFF then 2 else 1
  }

  /** A string's `length` in JavaScript, which is also what Mongoose's `minlength` and
      `maxlength` and a text box's `maxLength` compare: the number of UTF-16 code units. */
  function Utf16Length(s: string): (n: nat)
    ensures |s| <= n <= 2 * |s|
  {
    if s == [] then 0 else Utf16Width(s[0]) + Utf16Length(s[1..])
  }

  lemma Utf16LengthCons(c: char, s: string)
    ensures Utf16Length([c] + s) == Utf16Width(c) + Utf16Length(s)
  {
    assert ([c] + s)[1..] == s;
  }

  /** The JavaScript length equals the number of characters exactly when no character lies
      above U+FFFF. */
  lemma {:induction false} Utf16LengthBmp(s: string)
    ensures Utf16Length(s) == |s| <==> forall i :: 0 <= i < |s| ==> s[i] as int <= 0xFFFF
  {
    if s != [] {
      Utf16LengthBmp(s[1..]);
      assert forall i :: 1 <= i < |s| ==> s[i] == s[1..][i - 1];
    }
  }

  lemma {:induction false} Utf16LengthAppend(a: string, b: string)
    ensures Utf16Length(a + b) == Utf16Length(a) + Utf16Length(b)
  {
    if a == [] {
      assert a + b == b;
    } else {
      Utf16LengthAppend(a[1..], b);
      assert a + b == [a[0]] + (a[1..] + b);
      Utf16LengthCons(a[0], a[1..] + b);
    }
  }

  /** Two strings whose characters take the same number of code units position by position
      have the same JavaScript length. */
  lemma {:induction false} Utf16LengthPointwise(a: string, b: string)
    requires |a| == |b| && forall i :: 0 <= i < |a| ==> Utf16Width(a[i]) == Utf16Width(b[i])
    ensures Utf16Length(a) == Utf16Length(b)
  {
    if a != [] {
      assert forall i :: 0 <= i < |a| - 1 ==> a[1..][i] == a[i + 1] && b[1..][i] == b[i + 1];
      Utf16LengthPointwise(a[1..], b[1..]);
    }
  }

  /** The longest prefix of `s` whose JavaScript length stays within `limit`, cut between
      characters: what a text box with `maxLength` keeps of the text put into it. */
  function Utf16Prefix(s: string, limit: nat): (r: string)
    ensures r <= s && Utf16Length(r) <= limit
    ensures Utf16Length(s) <= limit ==> r == s
    ensures r == s || Utf16Length(s[..|r| + 1]) > limit
  {
    if s == [] then []
    else if Utf16Width(s[0]) > limit then
      Utf16LengthCons(s[0], []);
      assert s[..1] == [s[0]] + [];
      []
    else
      var r := Utf16Prefix(s[1..], limit - Utf16Width(s[0]));
      Utf16PrefixCons(s, r, limit);
      Utf16PrefixWhole(s, r, limit);
      Utf16PrefixLongest(s, r, limit);
      [s[0]] + r
  }

  lemma Utf16PrefixCons(s: string, r: string, limit: nat)
    requires s != [] && Utf16Width(s[0]) <= limit
    requires r <= s[1..] && Utf16Length(r) <= limit - Utf16Width(s[0])
    ensures [s[0]] + r <= s && Utf16Length([s[0]] + r) <= limit
  {
    assert s == [s[0]] + s[1..];
    Utf16LengthCons(s[0], r);
  }

  lemma Utf16PrefixWhole(s: string, r: string, limit: nat)
    requires s != [] && Utf16Width(s[0]) <= limit
    requires Utf16Length(s[1..]) <= limit - Utf16Width(s[0]) ==> r == s[1..]
    ensures Utf16Length(s) <= limit ==> [s[0]] + r == s
  {
    assert s == [s[0]] + s[1..];
    Utf16LengthCons(s[0], s[1..]);
  }

  lemma Utf16PrefixLongest(s: string, r: string, limit: nat)
    requires s != [] && Utf16Width(s[0]) <= limit
    requires r <= s[1..]
    requires r == s[1..] || Utf16Length(s[1..][..|r| + 1]) > limit - Utf16Width(s[0])
    ensures [s[0]] + r == s || Utf16Length(s[..|r| + 2]) > limit
  {
    if r != s[1..] {
      assert s[..|r| + 2] == [s[0]] + s[1..][..|r| + 1];
      Utf16LengthCons(s[0], s[1..][..|r| + 1]);
    }
  }

  function DigitChar(d: int): (c: char)
    requires 0 <= d < 10
    ensures '0' <= c <= '9'
  {
    ('0' as int + d) as char
  }

  function DigitValue(c: char): int {
    c as int - '0' as int
  }

  /** The decimal digits of `n`, most significant first, without leading zeros. */
  function NatDigits(n: nat): (r: string)
    ensures 1 <= |r|
    ensures forall i :: 0 <= i < |r| ==> '0' <= r[i] <= '9'
    ensures n < 10 <==> |r| == 1
    ensures 10 <= n < 100 <==> |r| == 2
    decreases n
  {
    if n < 10 then [DigitChar(n)] else NatDigits(n / 10) + [DigitChar(n % 10)]
  }

  /** Reads a non-empty run of decimal digits. */
  function ParseNat(s: string): int
    requires 1 <= |s|
  {
    if |s| == 1 then DigitValue(s[0]) else ParseNat(s[..|s| - 1]) * 10 + DigitValue(s[|s| - 1])
  }

  lemma {:induction false} ParseNatDigits(n: nat)
    ensures ParseNat(NatDigits(n)) == n
    decreases n
  {
    if n >= 10 {
      var d := NatDigits(n / 10);
      ParseNatDigits(n / 10);
      assert (d + [DigitChar(n % 10)])[..|d|] == d;
    }
  }

  /** JavaScript's `n.toString()` for an integer `n`. */
  function IntString(n: int): (r: string)
    ensures 1 <= |r|
    ensures n >= 0 ==> r == NatDigits(n)
  {
    if n < 0 then "-" + NatDigits(-n) else NatDigits(n)
  }

  /** Reads back what `IntString` writes. */
  function ParseInt(s: string): int
    requires 1 <= |s|
  {
    if s[0] == '-' && |s| > 1 then -ParseNat(s[1..]) else ParseNat(s)
  }

  lemma ParseIntString(n: int)
    ensures ParseInt(IntString(n)) == n
  {
    if n < 0 {
      ParseNatDigits(-n);
      assert IntString(n)[1..] == NatDigits(-n);
    } else {
      ParseNatDigits(n);
      assert '0' <= IntString(n)[0] <= '9';
    }
  }

  /** Two integers have the same decimal rendering exactly when they are equal, so
      comparing `slotNumber.toString()` with a stored rendering compares the numbers. */
  lemma IntStringInjective(a: int, b: int)
    ensures IntString(a) == IntString(b) <==> a == b
  {
    if IntString(a) == IntString(b) {
      ParseIntString(a);
      ParseIntString(b);
    }
  }
}
