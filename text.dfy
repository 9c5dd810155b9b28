/** The JavaScript string operations the components use, on `seq<char>`:
    `trim`, `split`, `join`, `toLowerCase`/`toUpperCase` (ASCII letters
    only), the decimal rendering of a count in a template literal, the
    global `parseInt`, and `length` (which counts UTF-16 code units). */
module Text {

  import Seqs
  import opened Types

  // ---------------------------------------------------------------- trim

  /** JavaScript's WhiteSpace and LineTerminator code points, which `trim`
      removes. */
  predicate IsSpace(c: char)
  {
    var n := c as int;
    n == 0x09 || n == 0x0A || n == 0x0B || n == 0x0C || n == 0x0D || n == 0x20
    || n == 0xA0 || n == 0x1680 || (0x2000 <= n <= 0x200A) || n == 0x2028
    || n == 0x2029 || n == 0x202F || n == 0x205F || n == 0x3000 || n == 0xFEFF
  }

  /** Drops the leading white space: the result is the longest suffix of `s`
      that does not start with white space. */
  function TrimStart(s: string): (r: string)
    ensures |r| <= |s| && r == s[|s| - |r|..]
    ensures r == [] || !IsSpace(r[0])
    ensures forall k :: 0 <= k < |s| - |r| ==> IsSpace(s[k])
  {
    if s != [] && IsSpace(s[0]) then TrimStart(s[1..]) else s
  }

  /** Drops the trailing white space: the result is the longest prefix of `s`
      that does not end with white space. */
  function TrimEnd(s: string): (r: string)
    ensures |r| <= |s| && r == s[..|r|]
    ensures r == [] || !IsSpace(r[|r| - 1])
    ensures forall k :: |r| <= k < |s| ==> IsSpace(s[k])
  {
    if s != [] && IsSpace(s[|s| - 1]) then TrimEnd(s[..|s| - 1]) else s
  }

  /** `s.trim()`. */
  function Trim(s: string): (r: string)
    ensures |r| <= |s|
    ensures r == [] || (!IsSpace(r[0]) && !IsSpace(r[|r| - 1]))
  {
    TrimEnd(TrimStart(s))
  }

  /** A string without white space at either end is its own trim; in
      particular trimming is idempotent. */
  lemma TrimFixpoint(s: string)
    requires s == [] || (!IsSpace(s[0]) && !IsSpace(s[|s| - 1]))
    ensures Trim(s) == s
  {
  }

  lemma TrimIdempotent(s: string)
    ensures Trim(Trim(s)) == Trim(s)
  {
    TrimFixpoint(Trim(s));
  }

  /** A string that trims to nothing consists of white space only. */
  lemma BlankIsAllSpace(s: string)
    requires Trim(s) == []
    ensures forall k :: 0 <= k < |s| ==> IsSpace(s[k])
  {
    var t := TrimStart(s);
    assert TrimEnd(t) == [];
    forall k | 0 <= k < |s| ensures IsSpace(s[k]) {
      if k >= |s| - |t| {
        assert s[k] == t[k - (|s| - |t|)];
      }
    }
  }

  /** White space only trims to nothing. */
  lemma AllSpaceTrimsToEmpty(s: string)
    requires forall k :: 0 <= k < |s| ==> IsSpace(s[k])
    ensures Trim(s) == []
  {
  }

  // --------------------------------------------------------- split, join

  /** `s.split(sep)`, where every character of `seps` separates: the pieces
      between separators, empty pieces included. */
  function Split(s: string, seps: set<char>): (r: seq<string>)
    ensures |r| >= 1
    ensures forall i, k :: 0 <= i < |r| && 0 <= k < |r[i]| ==> r[i][k] !in seps
  {
    if s == [] then [""]
    else if s[0] in seps then [""] + Split(s[1..], seps)
    else
      var rest := Split(s[1..], seps);
      [[s[0]] + rest[0]] + rest[1..]
  }

  /** Splitting at a separator splits the two sides independently. */
  lemma {:induction false} SplitAppend(a: string, c: char, b: string, seps: set<char>)
    requires c in seps
    ensures Split(a + [c] + b, seps) == Split(a, seps) + Split(b, seps)
  {
    if a == [] {
      assert a + [c] + b == [c] + b;
      assert ([c] + b)[1..] == b;
    } else {
      assert (a + [c] + b)[1..] == a[1..] + [c] + b;
      SplitAppend(a[1..], c, b, seps);
    }
  }

  /** A string without separators is one piece. */
  lemma {:induction false} SplitNoSeparator(s: string, seps: set<char>)
    requires forall k :: 0 <= k < |s| ==> s[k] !in seps
    ensures Split(s, seps) == [s]
  {
    if s != [] {
      SplitNoSeparator(s[1..], seps);
      assert [s[0]] + s[1..] == s;
    }
  }

  /** `words.join(c)`. */
  function JoinWith(words: seq<string>, c: char): string
  {
    if |words| == 0 then ""
    else if |words| == 1 then words[0]
    else words[0] + [c] + JoinWith(words[1..], c)
  }

  /** Joining the pieces with the separator gives back the string. */
  lemma {:induction false} JoinSplit(s: string, c: char)
    ensures JoinWith(Split(s, {c}), c) == s
  {
    if s != [] {
      var rest := Split(s[1..], {c});
      JoinSplit(s[1..], c);
      if s[0] == c {
        assert Split(s, {c}) == [""] + rest;
        assert ([""] + rest)[1..] == rest;
        assert s == [c] + s[1..];
      } else {
        var pieces := [[s[0]] + rest[0]] + rest[1..];
        assert Split(s, {c}) == pieces;
        if |rest| == 1 {
          assert s == [s[0]] + rest[0];
        } else {
          assert pieces[1..] == rest[1..];
          assert JoinWith(rest, c) == rest[0] + [c] + JoinWith(rest[1..], c);
          assert s == [s[0]] + s[1..];
        }
      }
    }
  }

  /** Splitting words joined with a separator they do not contain gives the
      words back. */
  lemma {:induction false} SplitJoin(words: seq<string>, c: char, seps: set<char>)
    requires c in seps && |words| >= 1
    requires forall i, k :: 0 <= i < |words| && 0 <= k < |words[i]| ==> words[i][k] !in seps
    ensures Split(JoinWith(words, c), seps) == words
  {
    SplitNoSeparator(words[0], seps);
    if |words| > 1 {
      SplitJoin(words[1..], c, seps);
      SplitAppend(words[0], c, JoinWith(words[1..], c), seps);
      assert words == [words[0]] + words[1..];
    }
  }

  /** The first piece is the longest prefix without a separator. */
  lemma {:induction false} SplitFirst(s: string, seps: set<char>)
    ensures var p := Split(s, seps)[0];
      |p| <= |s| && p == s[..|p|] && (|p| < |s| ==> s[|p|] in seps)
  {
    if s != [] && s[0] !in seps {
      SplitFirst(s[1..], seps);
      var rest := Split(s[1..], seps);
      assert Split(s, seps)[0] == [s[0]] + rest[0];
    }
  }

  /** Every character of a piece comes from the string split. */
  lemma {:induction false} SplitPieceChars(s: string, seps: set<char>)
    ensures forall i, k :: 0 <= i < |Split(s, seps)| && 0 <= k < |Split(s, seps)[i]| ==> Split(s, seps)[i][k] in s
  {
    if s != [] {
      SplitPieceChars(s[1..], seps);
      var rest := Split(s[1..], seps);
      var r := Split(s, seps);
      forall i, k | 0 <= i < |r| && 0 <= k < |r[i]| ensures r[i][k] in s {
        if s[0] in seps {
          assert r[i] == rest[i - 1];
        } else if i == 0 {
          if k > 0 {
            assert r[0][k] == rest[0][k - 1];
          }
        } else {
          assert r[i] == rest[i];
        }
      }
    }
  }

  // ------------------------------------------------------------- case

  /** `toUpperCase` on one character, for ASCII letters only. */
  function UpperChar(c: char): (u: char)
  {
    if 'a' <= c <= 'z' then (c as int - 32) as char else c
  }

  /** `toLowerCase` on one character, for ASCII letters only. */
  function LowerChar(c: char): (l: char)
  {
    if 'A' <= c <= 'Z' then (c as int + 32) as char else c
  }

  function Upper(s: string): (r: string)
    ensures |r| == |s|
    ensures forall i :: 0 <= i < |s| ==> r[i] == UpperChar(s[i])
  {
    Seqs.Map(s, UpperChar)
  }

  function Lower(s: string): (r: string)
    ensures |r| == |s|
    ensures forall i :: 0 <= i < |s| ==> r[i] == LowerChar(s[i])
  {
    Seqs.Map(s, LowerChar)
  }

  lemma LowerIdempotent(s: string)
    ensures Lower(Lower(s)) == Lower(s)
  {
  }

  /** Lower-casing distributes over concatenation. */
  lemma LowerAppend(a: string, b: string)
    ensures Lower(a + b) == Lower(a) + Lower(b)
  {
    assert forall i :: 0 <= i < |a + b| ==> Lower(a + b)[i] == (Lower(a) + Lower(b))[i];
  }

  // ------------------------------------------------------------ length

  /** `s.length`: JavaScript counts UTF-16 code units, so a character
      outside the Basic Multilingual Plane counts twice. */
  function Utf16Length(s: string): nat
  {
    if s == [] then 0 else (if s[0] as int > 0xFFFF then 2 else 1) + Utf16Length(s[1..])
  }

  lemma {:induction false} Utf16LengthBounds(s: string)
    ensures |s| <= Utf16Length(s) <= 2 * |s|
    ensures (forall k :: 0 <= k < |s| ==> s[k] as int <= 0xFFFF) ==> Utf16Length(s) == |s|
  {
    if s != [] {
      Utf16LengthBounds(s[1..]);
    }
  }

  // -------------------------------------------------- numbers as text

  /** The value of `c` as a digit in any radix up to 36, or 36 if it is not
      a digit at all. */
  function DigitValue(c: char): (d: nat)
    ensures d <= 36
  {
    if '0' <= c <= '9' then c as int - '0' as int
    else if 'a' <= c <= 'z' then c as int - 'a' as int + 10
    else if 'A' <= c <= 'Z' then c as int - 'A' as int + 10
    else 36
  }

  predicate IsDigitIn(c: char, radix: nat)
  {
    DigitValue(c) < radix
  }

  predicate AllDigitsIn(s: string, radix: nat)
  {
    forall k :: 0 <= k < |s| ==> IsDigitIn(s[k], radix)
  }

  /** The number a string of digits denotes, most significant first. */
  function ValueIn(s: string, radix: nat): nat
    requires AllDigitsIn(s, radix)
  {
    if s == [] then 0 else radix * ValueIn(s[..|s| - 1], radix) + DigitValue(s[|s| - 1])
  }

  /** The longest prefix of `s` made of digits in `radix`. */
  function DigitPrefix(s: string, radix: nat): (d: string)
    ensures |d| <= |s| && d == s[..|d|]
    ensures AllDigitsIn(d, radix)
    ensures |d| < |s| ==> !IsDigitIn(s[|d|], radix)
  {
    if s != [] && IsDigitIn(s[0], radix) then [s[0]] + DigitPrefix(s[1..], radix) else []
  }

  function DigitChar(d: nat): (c: char)
    requires d < 10
    ensures DigitValue(c) == d && '0' <= c <= '9'
  {
    ('0' as int + d) as char
  }

  /** `${n}` for a non-negative integer: its shortest decimal numeral. */
  function NatToString(n: nat): (s: string)
    ensures |s| >= 1 && AllDigitsIn(s, 10)
    ensures s[0] == '0' ==> n == 0
    decreases n
  {
    if n < 10 then [DigitChar(n)] else NatToString(n / 10) + [DigitChar(n % 10)]
  }

  /** Reading the numeral back gives the number. */
  lemma {:induction false} NatToStringValue(n: nat)
    ensures ValueIn(NatToString(n), 10) == n
    decreases n
  {
    var s := NatToString(n);
    if n >= 10 {
      NatToStringValue(n / 10);
      assert s[..|s| - 1] == NatToString(n / 10);
    }
  }

  /** The digit prefix of a numeral followed by a non-digit is the numeral. */
  lemma {:induction false} DigitPrefixOfDigits(d: string, rest: string, radix: nat)
    requires AllDigitsIn(d, radix)
    requires rest == [] || !IsDigitIn(rest[0], radix)
    ensures DigitPrefix(d + rest, radix) == d
  {
    if d == [] {
      assert d + rest == rest;
    } else {
      assert (d + rest)[1..] == d[1..] + rest;
      DigitPrefixOfDigits(d[1..], rest, radix);
      assert d == [d[0]] + d[1..];
    }
  }

  /** The global `parseInt(s)` with no radix: leading white space is skipped,
      then an optional sign; a `0x`/`0X` prefix selects radix 16; the
      longest run of digits that follows is read. `None` is `NaN`, the
      result when there is no digit at all. */
  function ParseInt(s: string): Option<int>
  {
    var t := TrimStart(s);
    if |t| > 0 && t[0] == '-' then
      match ParseUnsigned(t[1..])
      case None => None
      case Some(v) => Some(-v)
    else if |t| > 0 && t[0] == '+' then ParseUnsigned(t[1..])
    else ParseUnsigned(t)
  }

  /** After the sign: a `0x`/`0X` prefix selects radix 16, otherwise 10. */
  function ParseUnsigned(u: string): Option<int>
  {
    if |u| >= 2 && u[0] == '0' && (u[1] == 'x' || u[1] == 'X') then ReadDigits(u[2..], 16)
    else ReadDigits(u, 10)
  }

  /** The value of the longest run of digits at the front, `NaN` if there
      is none. */
  function ReadDigits(s: string, radix: nat): Option<int>
  {
    var digits := DigitPrefix(s, radix);
    if digits == [] then None else Some(ValueIn(digits, radix))
  }

  /** Text that starts with neither white space, a sign nor a digit is not
      a number. */
  lemma ParseIntOfWord(s: string)
    requires s != [] && !IsSpace(s[0]) && s[0] != '-' && s[0] != '+' && !IsDigitIn(s[0], 10)
    ensures ParseInt(s).None?
  {
    TrimStartOfNonSpace(s);
    assert ParseInt(s) == ParseUnsigned(s);
  }

  /** `parseInt` reads back a rendered count, whatever non-digit text
      follows it (an `x` right after a lone `0` would make it hexadecimal). */
  lemma ParseIntOfNumeral(n: nat, rest: string)
    requires rest == [] || (!IsDigitIn(rest[0], 10) && rest[0] != 'x' && rest[0] != 'X')
    ensures ParseInt(NatToString(n) + rest) == Some(n)
  {
    var d := NatToString(n);
    var s := d + rest;
    assert s[0] == d[0] && IsDigitIn(d[0], 10);
    if |s| >= 2 && s[0] == '0' {
      assert n == 0 && s[1] == rest[0];
    }
    ParseIntOfDecimal(s);
    DigitPrefixOfDigits(d, rest, 10);
    NatToStringValue(n);
  }

  /** Text that starts with a decimal digit, other than a `0x` prefix, is
      read as the value of its digit prefix. */
  lemma ParseIntOfDecimal(s: string)
    requires s != [] && '0' <= s[0] <= '9'
    requires |s| >= 2 && s[0] == '0' ==> s[1] != 'x' && s[1] != 'X'
    ensures ParseInt(s) == Some(ValueIn(DigitPrefix(s, 10), 10))
  {
    TrimStartOfNonSpace(s);
    assert ParseInt(s) == ParseUnsigned(s);
    assert ParseUnsigned(s) == ReadDigits(s, 10);
    assert DigitPrefix(s, 10) != [];
  }

  lemma TrimStartOfNonSpace(s: string)
    requires s != [] && (!IsSpace(s[0]) || '0' <= s[0] <= '9')
    ensures TrimStart(s) == s
  {
  }
}
