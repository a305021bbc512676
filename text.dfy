/**
  The parts of Python's `str` behaviour that the modelled code relies on:
  whitespace as `str.isspace()` and the `\s` regex class see it, ASCII case
  mapping, `strip()`, `split(c)`, `sep.join(...)`, `str(int)` and `zfill`.
 */
module Text {

  /** `str.isspace()` of one character; the same class `\s` matches in a str pattern and `strip()` removes. */
  predicate IsSpace(c: char) {
    var n := c as int;
    || (9 <= n <= 13) || (28 <= n <= 32) || n == 0x85 || n == 0xA0 || n == 0x1680
    || (0x2000 <= n <= 0x200A) || n == 0x2028 || n == 0x2029 || n == 0x202F || n == 0x205F || n == 0x3000
  }

  predicate IsUpper(c: char) { 'A' <= c <= 'Z' }

  predicate IsLower(c: char) { 'a' <= c <= 'z' }

  predicate IsDigit(c: char) { '0' <= c <= '9' }

  function LowerChar(c: char): (r: char)
    ensures !IsUpper(r)
    ensures !IsUpper(c) ==> r == c
  {
    if IsUpper(c) then (c as int + 32) as char else c
  }

  function UpperChar(c: char): (r: char)
    ensures !IsLower(r)
    ensures !IsLower(c) ==> r == c
  {
    if IsLower(c) then (c as int - 32) as char else c
  }

  /** `s.lower()` restricted to ASCII letters. */
  function Lower(s: string): (r: string)
    ensures |r| == |s|
    ensures forall k :: 0 <= k < |r| ==> !IsUpper(r[k]) && r[k] == LowerChar(s[k])
  {
    if s == [] then [] else [LowerChar(s[0])] + Lower(s[1..])
  }

  /** `s.upper()` restricted to ASCII letters. */
  function Upper(s: string): (r: string)
    ensures |r| == |s|
    ensures forall k :: 0 <= k < |r| ==> !IsLower(r[k]) && r[k] == UpperChar(s[k])
  {
    if s == [] then [] else [UpperChar(s[0])] + Upper(s[1..])
  }

  /** Upper-casing leaves a string without lower-case letters as it is. */
  lemma {:induction false} UpperOfUpperCase(s: string)
    requires forall k :: 0 <= k < |s| ==> !IsLower(s[k])
    ensures Upper(s) == s
  {
    if s != [] {
      UpperOfUpperCase(s[1..]);
    }
  }

  /** Upper-casing introduces no character that is not a lower-case letter's upper case. */
  lemma UpperAvoids(s: string, c: char)
    requires c !in s && !IsUpper(c)
    ensures c !in Upper(s)
  {
    var r := Upper(s);
    forall k | 0 <= k < |r| ensures r[k] != c {
      assert r[k] == UpperChar(s[k]);
    }
  }

  // ---------------------------------------------------------------- strip()

  /** A string with no whitespace at either end: what `strip()` returns. */
  predicate Stripped(s: string) {
    s == [] || (!IsSpace(s[0]) && !IsSpace(s[|s| - 1]))
  }

  /** The index of the first non-whitespace character at or after `i`, or |s|. */
  function StripStartFrom(s: string, i: nat): (a: nat)
    requires i <= |s|
    ensures i <= a <= |s|
    ensures forall k :: i <= k < a ==> IsSpace(s[k])
    ensures a < |s| ==> !IsSpace(s[a])
    decreases |s| - i
  {
    if i < |s| && IsSpace(s[i]) then StripStartFrom(s, i + 1) else i
  }

  /** The index just past the last non-whitespace character of s[lo..hi], or `lo`. */
  function StripEndFrom(s: string, lo: nat, hi: nat): (b: nat)
    requires lo <= hi <= |s|
    ensures lo <= b <= hi
    ensures forall k :: b <= k < hi ==> IsSpace(s[k])
    ensures lo < b ==> !IsSpace(s[b - 1])
    decreases hi
  {
    if lo < hi && IsSpace(s[hi - 1]) then StripEndFrom(s, lo, hi - 1) else hi
  }

  /** Where `s.strip()` starts in `s`: every character before it is whitespace. */
  function StripStart(s: string): (a: nat)
    ensures a <= |s|
    ensures forall k :: 0 <= k < a ==> IsSpace(s[k])
  {
    StripStartFrom(s, 0)
  }

  /** Where `s.strip()` ends in `s`: every character from it on is whitespace. */
  function StripEnd(s: string): (b: nat)
    ensures StripStart(s) <= b <= |s|
    ensures forall k :: b <= k < |s| ==> IsSpace(s[k])
  {
    StripEndFrom(s, StripStart(s), |s|)
  }

  /** `s.strip()`: the middle slice of `s` with whitespace only around it, itself without whitespace at either end. */
  function Strip(s: string): (r: string)
    ensures Stripped(r)
    ensures r == s[StripStart(s)..StripEnd(s)]
  {
    s[StripStart(s)..StripEnd(s)]
  }

  lemma StrippedIsFixed(s: string)
    requires Stripped(s)
    ensures Strip(s) == s
  {
    assert StripStart(s) == 0;
    assert StripEnd(s) == |s|;
  }

  /** Stripping a stripped string that was given one leading space gives it back. */
  lemma StripLeadingSpace(c: char, s: string)
    requires IsSpace(c) && Stripped(s)
    ensures Strip([c] + s) == s
  {
    var t := [c] + s;
    assert StripStartFrom(t, 1) == 1;
    assert StripStart(t) == 1;
    assert StripEnd(t) == |t|;
    assert t[1..] == s;
  }

  /** Stripping only removes characters: a character absent from `s` is absent from `s.strip()`. */
  lemma StripAvoids(s: string, c: char)
    requires c !in s
    ensures c !in Strip(s)
  {
    var r := Strip(s);
    forall i | 0 <= i < |r| ensures r[i] != c {
      assert r[i] == s[StripStart(s) + i];
    }
  }

  /** Strips every piece of a list. */
  function StripAll(pieces: seq<string>): (r: seq<string>)
    ensures |r| == |pieces|
    ensures forall k :: 0 <= k < |r| ==> r[k] == Strip(pieces[k])
  {
    if pieces == [] then [] else [Strip(pieces[0])] + StripAll(pieces[1..])
  }

  lemma StripAllAvoids(pieces: seq<string>, c: char)
    requires forall k :: 0 <= k < |pieces| ==> c !in pieces[k]
    ensures forall k :: 0 <= k < |StripAll(pieces)| ==> c !in StripAll(pieces)[k]
  {
    forall k | 0 <= k < |pieces| ensures c !in StripAll(pieces)[k] {
      StripAvoids(pieces[k], c);
    }
  }

  lemma StripAllOfStripped(pieces: seq<string>)
    requires forall k :: 0 <= k < |pieces| ==> Stripped(pieces[k])
    ensures StripAll(pieces) == pieces
  {
    forall k | 0 <= k < |pieces| ensures StripAll(pieces)[k] == pieces[k] {
      StrippedIsFixed(pieces[k]);
    }
  }

  // ---------------------------------------------------------------- split(c) and join

  /** `s.split(sep)` for a one-character separator: never empty, pieces free of `sep`. */
  function Split(s: string, sep: char): (parts: seq<string>)
    ensures |parts| >= 1
    ensures forall k :: 0 <= k < |parts| ==> sep !in parts[k]
  {
    if s == [] then [""]
    else
      var rest := Split(s[1..], sep);
      if s[0] == sep then [""] + rest else [[s[0]] + rest[0]] + rest[1..]
  }

  /** `sep.join(parts)`. */
  function Join(parts: seq<string>, sep: string): string {
    if |parts| == 0 then ""
    else if |parts| == 1 then parts[0]
    else parts[0] + sep + Join(parts[1..], sep)
  }

  /** Joining the pieces of a split with the separator gives the string back. */
  lemma {:induction false} JoinSplit(s: string, sep: char)
    ensures Join(Split(s, sep), [sep]) == s
  {
    if s != [] {
      var rest := Split(s[1..], sep);
      JoinSplit(s[1..], sep);
      if s[0] == sep {
        assert Split(s, sep) == [""] + rest;
        assert Join(Split(s, sep), [sep]) == "" + [sep] + Join(rest, [sep]);
      } else if |rest| == 1 {
        assert Split(s, sep) == [[s[0]] + rest[0]];
      } else {
        var parts := Split(s, sep);
        assert parts == [[s[0]] + rest[0]] + rest[1..];
        assert parts[1..] == rest[1..];
        assert Join(parts, [sep]) == [s[0]] + rest[0] + [sep] + Join(rest[1..], [sep]);
      }
    }
  }

  lemma {:induction false} SplitWithoutSep(s: string, sep: char)
    requires sep !in s
    ensures Split(s, sep) == [s]
  {
    if s != [] {
      SplitWithoutSep(s[1..], sep);
      assert [s[0]] + s[1..] == s;
    }
  }

  lemma {:induction false} SplitAfterPiece(x: string, sep: char, t: string)
    requires sep !in x
    ensures Split(x + [sep] + t, sep) == [x] + Split(t, sep)
  {
    var s := x + [sep] + t;
    if x == [] {
      assert s[1..] == t;
    } else {
      assert s[1..] == x[1..] + [sep] + t;
      SplitAfterPiece(x[1..], sep, t);
      assert [x[0]] + x[1..] == x;
    }
  }

  /** Splitting a join of separator-free pieces gives the pieces back. */
  lemma {:induction false} SplitJoin(parts: seq<string>, sep: char)
    requires |parts| >= 1
    requires forall k :: 0 <= k < |parts| ==> sep !in parts[k]
    ensures Split(Join(parts, [sep]), sep) == parts
  {
    if |parts| == 1 {
      SplitWithoutSep(parts[0], sep);
    } else {
      SplitJoin(parts[1..], sep);
      SplitAfterPiece(parts[0], sep, Join(parts[1..], [sep]));
      assert [parts[0]] + parts[1..] == parts;
    }
  }

  /** A split yields one piece more than there are separators. */
  lemma {:induction false} SplitCount(s: string, sep: char)
    ensures |Split(s, sep)| == multiset(s)[sep] + 1
  {
    if s != [] {
      SplitCount(s[1..], sep);
      assert s == [s[0]] + s[1..];
      assert multiset(s) == multiset{s[0]} + multiset(s[1..]);
    }
  }

  lemma {:induction false} JoinAvoids(parts: seq<string>, sep: string, c: char)
    requires c !in sep
    requires forall k :: 0 <= k < |parts| ==> c !in parts[k]
    ensures c !in Join(parts, sep)
  {
    if |parts| > 1 {
      JoinAvoids(parts[1..], sep, c);
    }
  }

  /** Every piece given one leading space. */
  function Prefixed(parts: seq<string>): (r: seq<string>)
    ensures |r| == |parts|
    ensures forall k :: 0 <= k < |r| ==> r[k] == " " + parts[k]
  {
    seq(|parts|, k requires 0 <= k < |parts| => " " + parts[k])
  }

  /** Joining with `", "` is joining with `","` after giving every piece but the first a leading space. */
  lemma {:induction false} JoinCommaSpace(x: string, rest: seq<string>)
    ensures Join([x] + rest, ", ") == Join([x] + Prefixed(rest), ",")
    decreases |rest|
  {
    if rest != [] {
      var r0 := rest[0];
      JoinCommaSpace(" " + r0, rest[1..]);
      assert ([x] + rest)[1..] == rest == [r0] + rest[1..];
      assert ([x] + Prefixed(rest))[1..] == Prefixed(rest) == [" " + r0] + Prefixed(rest[1..]);
      if |rest| == 1 {
        assert Join([x] + rest, ", ") == x + ", " + r0;
        assert Join([x] + Prefixed(rest), ",") == x + "," + (" " + r0);
      } else {
        var tail := Join(rest[1..], ", ");
        assert Join([r0] + rest[1..], ", ") == r0 + ", " + tail;
        assert Join([" " + r0] + rest[1..], ", ") == " " + r0 + ", " + tail;
        assert Join([x] + rest, ", ") == x + ", " + (r0 + ", " + tail);
        assert Join([x] + Prefixed(rest), ",") == x + "," + (" " + r0 + ", " + tail);
      }
    }
  }

  /** The pieces of a `", "`-join of stripped, comma-free pieces, as a split on `','` sees them. */
  lemma CommaSpacePieces(parts: seq<string>)
    requires |parts| >= 1
    requires forall k :: 0 <= k < |parts| ==> ',' !in parts[k]
    ensures Split(Join(parts, ", "), ',') == [parts[0]] + Prefixed(parts[1..])
  {
    var spaced := [parts[0]] + Prefixed(parts[1..]);
    assert [parts[0]] + parts[1..] == parts;
    JoinCommaSpace(parts[0], parts[1..]);
    forall k | 0 <= k < |spaced| ensures ',' !in spaced[k] {
      if k > 0 {
        assert spaced[k] == " " + parts[1..][k - 1];
        assert parts[1..][k - 1] == parts[k];
      }
    }
    SplitJoin(spaced, ',');
  }

  /** Stripping pieces that were given a leading space gives the stripped originals back. */
  lemma StripPrefixed(parts: seq<string>)
    requires forall k :: 0 <= k < |parts| ==> Stripped(parts[k])
    ensures StripAll(Prefixed(parts)) == parts
  {
    var r := StripAll(Prefixed(parts));
    forall k | 0 <= k < |parts| ensures r[k] == parts[k] {
      StripLeadingSpace(' ', parts[k]);
    }
  }

  /** Stripping the pieces of a `", "`-join gives the stripped originals back. */
  lemma StripSpacedPieces(parts: seq<string>)
    requires |parts| >= 1
    requires forall k :: 0 <= k < |parts| ==> Stripped(parts[k])
    ensures StripAll([parts[0]] + Prefixed(parts[1..])) == parts
  {
    var spaced := [parts[0]] + Prefixed(parts[1..]);
    assert spaced[1..] == Prefixed(parts[1..]);
    StrippedIsFixed(parts[0]);
    StripPrefixed(parts[1..]);
    assert [parts[0]] + parts[1..] == parts;
  }

  /**
    Splitting a `", "`-join of stripped, comma-free pieces on `','` and
    stripping every piece gives the pieces back.
   */
  lemma SplitStripCommaSpaceJoin(parts: seq<string>)
    requires |parts| >= 1
    requires forall k :: 0 <= k < |parts| ==> Stripped(parts[k]) && ',' !in parts[k]
    ensures StripAll(Split(Join(parts, ", "), ',')) == parts
  {
    CommaSpacePieces(parts);
    StripSpacedPieces(parts);
  }

  /** `"".join(parts)`, the result of repeated `+=`. */
  function Concat(parts: seq<string>): string {
    if parts == [] then "" else parts[0] + Concat(parts[1..])
  }

  lemma {:induction false} ConcatSnoc(parts: seq<string>, x: string)
    ensures Concat(parts + [x]) == Concat(parts) + x
  {
    if parts != [] {
      assert (parts + [x])[1..] == parts[1..] + [x];
      ConcatSnoc(parts[1..], x);
    }
  }

  /** Every line followed by the terminator `sep`. */
  function Terminated(lines: seq<string>, sep: char): (r: seq<string>)
    ensures |r| == |lines|
    ensures forall k :: 0 <= k < |r| ==> r[k] == lines[k] + [sep]
  {
    seq(|lines|, k requires 0 <= k < |lines| => lines[k] + [sep])
  }

  /** Splitting terminated lines that hold no terminator gives the lines back, then an empty piece. */
  lemma {:induction false} SplitTerminated(lines: seq<string>, sep: char)
    requires forall k :: 0 <= k < |lines| ==> sep !in lines[k]
    ensures Split(Concat(Terminated(lines, sep)), sep) == lines + [""]
  {
    var t := Terminated(lines, sep);
    if lines == [] {
      assert t == [];
    } else {
      assert t[1..] == Terminated(lines[1..], sep);
      SplitTerminated(lines[1..], sep);
      SplitAfterPiece(lines[0], sep, Concat(t[1..]));
      assert Concat(t) == lines[0] + [sep] + Concat(t[1..]);
      assert lines == [lines[0]] + lines[1..];
    }
  }

  // ---------------------------------------------------------------- str(int) and zfill

  function DigitChar(d: nat): (c: char)
    requires d < 10
    ensures IsDigit(c)
  {
    ('0' as int + d) as char
  }

  /** Decimal digits of a natural number, most significant first, without leading zeros. */
  function NatToString(n: nat): (r: string)
    ensures |r| >= 1
    ensures forall k :: 0 <= k < |r| ==> IsDigit(r[k])
  {
    if n < 10 then [DigitChar(n)] else NatToString(n / 10) + [DigitChar(n % 10)]
  }

  /** `str(n)` for an integer. */
  function IntToString(n: int): (r: string)
    ensures |r| >= 1 && IsDigit(r[|r| - 1])
    ensures forall k :: 0 <= k < |r| ==> IsDigit(r[k]) || (k == 0 && r[k] == '-')
  {
    if n < 0 then "-" + NatToString(-n) else NatToString(n)
  }

  /** The value of a string of decimal digits: the inverse of NatToString. */
  function DigitsValue(s: string): int {
    if s == [] then 0 else DigitsValue(s[..|s| - 1]) * 10 + (s[|s| - 1] as int - '0' as int)
  }

  /** `int(s)` for what IntToString produces. */
  function ParseInt(s: string): int {
    if s != [] && s[0] == '-' then - DigitsValue(s[1..]) else DigitsValue(s)
  }

  lemma {:induction false} NatToStringRoundTrip(n: nat)
    ensures DigitsValue(NatToString(n)) == n
  {
    if n >= 10 {
      NatToStringRoundTrip(n / 10);
      var s := NatToString(n);
      assert s[..|s| - 1] == NatToString(n / 10);
    }
  }

  /** `int(str(n)) == n`. */
  lemma IntToStringRoundTrip(n: int)
    ensures ParseInt(IntToString(n)) == n
  {
    if n < 0 {
      NatToStringRoundTrip(-n);
      assert IntToString(n)[1..] == NatToString(-n);
    } else {
      NatToStringRoundTrip(n);
    }
  }

  /** A string of `n` copies of `c`. */
  function Repeat(c: char, n: nat): (r: string)
    ensures |r| == n
    ensures forall k :: 0 <= k < n ==> r[k] == c
  {
    if n == 0 then [] else [c] + Repeat(c, n - 1)
  }

  /** `s.zfill(width)`: left-pads with zeros to `width`, keeping a leading sign in front. */
  function ZFill(s: string, width: int): (r: string)
    ensures |r| == if |s| >= width then |s| else width
    ensures |s| > 0 && IsDigit(s[|s| - 1]) ==> r[|r| - 1] == s[|s| - 1]
  {
    if |s| >= width then s
    else if |s| > 0 && (s[0] == '+' || s[0] == '-') then [s[0]] + Repeat('0', width - |s|) + s[1..]
    else Repeat('0', width - |s|) + s
  }

  /** Leading zeros do not change the value of a string of digits. */
  lemma {:induction false} DigitsValueLeadingZeros(n: nat, s: string)
    ensures DigitsValue(Repeat('0', n) + s) == DigitsValue(s)
  {
    var z := Repeat('0', n);
    if s == [] {
      assert z + s == z;
      if n > 0 {
        assert z[..n - 1] == Repeat('0', n - 1);
        DigitsValueLeadingZeros(n - 1, []);
        assert Repeat('0', n - 1) + [] == Repeat('0', n - 1);
      }
    } else {
      assert (z + s)[..|z + s| - 1] == z + s[..|s| - 1];
      DigitsValueLeadingZeros(n, s[..|s| - 1]);
    }
  }

  /** Zero-filling the decimal string of a natural number keeps its value. */
  lemma ZFillKeepsValue(n: nat, width: int)
    ensures ParseInt(ZFill(IntToString(n), width)) == n
  {
    var s := IntToString(n);
    NatToStringRoundTrip(n);
    if |s| < width {
      DigitsValueLeadingZeros(width - |s|, s);
    }
  }

  /** Zero-filling adds only zeros, and a sign it keeps in front. */
  lemma ZFillChars(s: string, width: int)
    ensures forall k :: 0 <= k < |ZFill(s, width)| ==> ZFill(s, width)[k] == '0' || ZFill(s, width)[k] in s
  {
    var r := ZFill(s, width);
    if |s| < width {
      var z := Repeat('0', width - |s|);
      if |s| > 0 && (s[0] == '+' || s[0] == '-') {
        forall k | 0 <= k < |r| ensures r[k] == '0' || r[k] in s {
          if k == 0 {
          } else if k <= |z| {
            assert r[k] == z[k - 1];
          } else {
            assert r[k] == s[k - |z|];
          }
        }
      } else {
        forall k | 0 <= k < |r| ensures r[k] == '0' || r[k] in s {
          if k < |z| {
            assert r[k] == z[k];
          } else {
            assert r[k] == s[k - |z|];
          }
        }
      }
    }
  }
}
