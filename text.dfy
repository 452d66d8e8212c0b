/**
 * The parts of Python's `str` behaviour that the trace pipelines rely on: whitespace,
 * `strip()`, `split()`, `startswith`, `int(s, base)`, `sep.join(...)`, and the hexadecimal and
 * decimal rendering the tracer uses when it writes numbers.
 */
module Text {
  import opened Wrappers

  /** Python's `str.isspace()`: the characters `strip()` and `split()` treat as whitespace. */
  predicate IsSpace(c: char) {
    c == ' ' || ('\t' <= c <= '\r') || ('\U{1C}' <= c <= '\U{1F}') || c == '\U{85}' || c == '\U{A0}'
    || c == '\U{1680}' || ('\U{2000}' <= c <= '\U{200A}') || c == '\U{2028}' || c == '\U{2029}'
    || c == '\U{202F}' || c == '\U{205F}' || c == '\U{3000}'
  }

  predicate NoSpace(s: string) {
    forall k :: 0 <= k < |s| ==> !IsSpace(s[k])
  }

  /** `s.startswith(p)`. */
  predicate StartsWith(s: string, p: string) {
    p == [] || (s != [] && s[0] == p[0] && StartsWith(s[1..], p[1..]))
  }

  lemma {:induction false} StartsWithPrefix(s: string, p: string)
    ensures StartsWith(s, p) <==> |p| <= |s| && s[..|p|] == p
  {
    if p != [] && s != [] {
      StartsWithPrefix(s[1..], p[1..]);
      if |p| <= |s| && s[..|p|] == p {
        assert s[1..][..|p| - 1] == p[1..];
      }
      if StartsWith(s, p) {
        assert s[..|p|] == [s[0]] + s[1..][..|p| - 1];
      }
    }
  }

  /** Drops leading whitespace. */
  function StripLeft(s: string): string
  {
    if s != [] && IsSpace(s[0]) then StripLeft(s[1..]) else s
  }

  /** What is dropped is whitespace, and what is kept is a suffix that does not start with it. */
  lemma {:induction false} StripLeftSpaces(s: string)
    ensures var r := StripLeft(s);
      && |r| <= |s| && r == s[|s| - |r|..]
      && (r == [] || !IsSpace(r[0])) && forall k :: 0 <= k < |s| - |r| ==> IsSpace(s[k])
  {
    if s != [] && IsSpace(s[0]) {
      var t := s[1..];
      StripLeftSpaces(t);
      var r := StripLeft(t);
      assert StripLeft(s) == r;
      assert s[|s| - |r|..] == t[|t| - |r|..];
      forall k | 1 <= k < |s| - |r| ensures IsSpace(s[k]) {
        assert s[k] == t[k - 1];
      }
    }
  }

  /** Drops trailing whitespace. */
  function StripRight(s: string): string
  {
    if s != [] && IsSpace(s[|s| - 1]) then StripRight(s[..|s| - 1]) else s
  }

  /** What is dropped is whitespace, and what is kept is a prefix that does not end with it. */
  lemma {:induction false} StripRightSpaces(s: string)
    ensures var r := StripRight(s);
      && |r| <= |s| && r == s[..|r|]
      && (r == [] || !IsSpace(r[|r| - 1])) && forall k :: |r| <= k < |s| ==> IsSpace(s[k])
  {
    if s != [] && IsSpace(s[|s| - 1]) {
      var t := s[..|s| - 1];
      StripRightSpaces(t);
      var r := StripRight(t);
      assert StripRight(s) == r;
      assert s[..|r|] == t[..|r|];
      forall k | |r| <= k < |s| ensures IsSpace(s[k]) {
        if k < |t| {
          assert s[k] == t[k];
        }
      }
    }
  }

  /** `s.strip()`: a contiguous piece of `s`. */
  function Strip(s: string): (r: string)
    ensures |r| <= |s|
    ensures exists i, j :: 0 <= i <= j <= |s| && r == s[i..j]
  {
    var l := StripLeft(s);
    StripLeftSpaces(s);
    StripRightSpaces(l);
    var r := StripRight(l);
    assert r == s[|s| - |l|..|s| - |l| + |r|];
    r
  }

  lemma {:induction false} StripRightKeepsFirst(s: string)
    requires s != [] && !IsSpace(s[0])
    ensures StripRight(s) != []
  {
    if |s| > 1 && IsSpace(s[|s| - 1]) {
      StripRightKeepsFirst(s[..|s| - 1]);
    }
  }

  /** Text starting with a non-space character keeps that character first. */
  lemma StripFirst(s: string)
    ensures s != [] && !IsSpace(s[0]) ==> Strip(s) != [] && Strip(s)[0] == s[0]
  {
    if s != [] && !IsSpace(s[0]) {
      StripRightKeepsFirst(s);
      StripRightSpaces(s);
    }
  }

  /** `s.strip()` is empty exactly when `s` is all whitespace, and otherwise starts and ends with a
      non-space character. */
  lemma StripSpec(s: string)
    ensures var r := Strip(s);
      && (r == [] || (!IsSpace(r[0]) && !IsSpace(r[|r| - 1])))
      && (r == [] <==> forall k :: 0 <= k < |s| ==> IsSpace(s[k]))
  {
    var l := StripLeft(s);
    StripLeftSpaces(s);
    StripRightSpaces(l);
    if l != [] {
      StripRightKeepsFirst(l);
    }
  }

  /** A string that already starts and ends with a non-space character is its own `strip()`,
      also after trailing whitespace such as a line terminator. */
  lemma StripTrimmed(s: string, tail: string)
    requires s != [] && !IsSpace(s[0]) && !IsSpace(s[|s| - 1])
    requires forall k :: 0 <= k < |tail| ==> IsSpace(tail[k])
    ensures Strip(s + tail) == s
  {
    var l := StripLeft(s + tail);
    assert |l| == |s + tail|;
    assert l == s + tail;
    var r := StripRight(l);
    StripRightSpaces(l);
    assert !IsSpace(l[|s| - 1]);
    assert |r| >= |s|;
    assert forall k :: |s| <= k < |l| ==> IsSpace(l[k]);
    assert r == (s + tail)[..|s|];
  }

  /** The longest whitespace-free prefix of `s`. */
  function Word(s: string): (w: string)
    ensures |w| <= |s| && w == s[..|w|]
  {
    if s == [] || IsSpace(s[0]) then [] else [s[0]] + Word(s[1..])
  }

  /** `s.split()`: the maximal runs of non-whitespace characters, in order. */
  function Split(s: string): (r: seq<string>)
    ensures |r| <= |s|
    ensures s != [] && NoSpace(s) ==> r == [s]
    decreases |s|
  {
    if s == [] then []
    else if IsSpace(s[0]) then Split(s[1..])
    else
      var w := Word(s);
      if NoSpace(s) then
        WordOf(s, []);
        assert s + [] == s;
        assert s[|w|..] == [];
        [w] + Split(s[|w|..])
      else
        [w] + Split(s[|w|..])
  }

  /** The tokens are nonempty and free of whitespace. */
  lemma {:induction false} SplitTokens(s: string)
    ensures forall k :: 0 <= k < |Split(s)| ==> Split(s)[k] != [] && NoSpace(Split(s)[k])
    decreases |s|
  {
    if s != [] {
      if IsSpace(s[0]) {
        SplitTokens(s[1..]);
      } else {
        WordNoSpace(s);
        SplitTokens(s[|Word(s)|..]);
      }
    }
  }

  lemma {:induction false} WordNoSpace(s: string)
    ensures NoSpace(Word(s))
  {
    if s != [] && !IsSpace(s[0]) {
      WordNoSpace(s[1..]);
    }
  }

  /** A string that starts with a non-space character yields at least one token. */
  lemma SplitFirst(s: string)
    requires s != [] && !IsSpace(s[0])
    ensures |Split(s)| >= 1 && Split(s)[0] == Word(s) && Split(s)[0][0] == s[0]
  {
  }

  lemma {:induction false} WordOf(w: string, rest: string)
    requires NoSpace(w)
    requires rest == [] || IsSpace(rest[0])
    ensures Word(w + rest) == w
  {
    if w != [] {
      assert (w + rest)[1..] == w[1..] + rest;
      WordOf(w[1..], rest);
    }
  }

  /** `sep.join(parts)`. */
  function Join(parts: seq<string>, sep: string): string
  {
    if |parts| == 0 then []
    else if |parts| == 1 then parts[0]
    else parts[0] + sep + Join(parts[1..], sep)
  }

  /** A word followed by whitespace (or nothing) is the first token. */
  lemma SplitWordThen(w: string, rest: string)
    requires w != [] && NoSpace(w)
    requires rest == [] || IsSpace(rest[0])
    ensures Split(w + rest) == [w] + Split(rest)
  {
    WordOf(w, rest);
    assert (w + rest)[|w|..] == rest;
  }

  lemma SplitSpaceThen(s: string)
    ensures Split(" " + s) == Split(s)
  {
    assert (" " + s)[1..] == s;
  }

  /** Splitting words written with single spaces between them gives the words back. */
  lemma {:induction false} SplitJoined(ws: seq<string>, tail: string)
    requires forall k :: 0 <= k < |ws| ==> ws[k] != [] && NoSpace(ws[k])
    requires tail == [] || IsSpace(tail[0])
    ensures Split(Join(ws, " ") + tail) == ws + Split(tail)
  {
    if |ws| == 0 {
      assert Join(ws, " ") + tail == tail;
    } else if |ws| == 1 {
      SplitWordThen(ws[0], tail);
    } else {
      var rest := ws[1..];
      assert forall k :: 0 <= k < |rest| ==> rest[k] == ws[k + 1];
      SplitJoined(rest, tail);
      var after := Join(rest, " ") + tail;
      assert Join(ws, " ") == ws[0] + " " + Join(rest, " ");
      ConcatAssoc(ws[0], " ", Join(rest, " "), tail);
      SplitWordThen(ws[0], " " + after);
      SplitSpaceThen(after);
      ConsAppend(ws, Split(tail));
    }
  }

  lemma ConcatAssoc(a: string, b: string, c: string, d: string)
    ensures a + b + c + d == a + (b + (c + d))
  {
  }

  lemma ConsAppend<T>(xs: seq<T>, ys: seq<T>)
    requires xs != []
    ensures [xs[0]] + (xs[1..] + ys) == xs + ys
  {
    assert xs == [xs[0]] + xs[1..];
  }

  /** The longest prefix of `s` without `c`. */
  function BeforeChar(s: string, c: char): (r: string)
    ensures |r| <= |s| && r == s[..|r|]
    ensures c !in r
    ensures |r| == |s| || s[|r|] == c
  {
    if s == [] || s[0] == c then [] else [s[0]] + BeforeChar(s[1..], c)
  }

  /** `s.split(c)[1]` for an `s` that contains `c`: the text between the first `c` and the next
      one (or the end). */
  function SecondField(s: string, c: char): (r: string)
    requires c in s
    ensures c !in r
  {
    var first := BeforeChar(s, c);
    BeforeChar(s[|first| + 1..], c)
  }

  lemma {:induction false} BeforeCharAbsent(s: string, c: char)
    requires c !in s
    ensures BeforeChar(s, c) == s
  {
    if s != [] {
      BeforeCharAbsent(s[1..], c);
    }
  }

  lemma {:induction false} BeforeCharFirst(pre: string, c: char, rest: string)
    requires c !in pre
    ensures BeforeChar(pre + [c] + rest, c) == pre
  {
    if pre != [] {
      assert (pre + [c] + rest)[1..] == pre[1..] + [c] + rest;
      BeforeCharFirst(pre[1..], c, rest);
    }
  }

  /** `(key + "=" + value).split("=")[1] == value` when neither part contains `=`. */
  lemma SecondFieldOf(key: string, value: string)
    requires '=' !in key && '=' !in value
    ensures '=' in key + "=" + value
    ensures SecondField(key + "=" + value, '=') == value
  {
    var s := key + "=" + value;
    assert s == key + ['='] + value;
    BeforeCharFirst(key, '=', value);
    assert s[|key| + 1..] == value;
    BeforeCharAbsent(value, '=');
  }

  /** The value of a digit character in bases up to 16; 99 for anything else. */
  function CharValue(c: char): nat {
    if '0' <= c <= '9' then c as int - '0' as int
    else if 'a' <= c <= 'f' then c as int - 'a' as int + 10
    else if 'A' <= c <= 'F' then c as int - 'A' as int + 10
    else 99
  }

  predicate AllDigits(s: string, base: nat) {
    forall k :: 0 <= k < |s| ==> CharValue(s[k]) < base
  }

  /** The value of a digit string, most significant digit first. */
  function Value(s: string, base: nat): nat
  {
    if s == [] then 0 else Value(s[..|s| - 1], base) * base + CharValue(s[|s| - 1])
  }

  /** Python's `int(s, base)` for base 10 and base 16: an optional sign, in base 16 an optional
      `0x`/`0X` prefix, then at least one digit. `None` stands for the `ValueError` raised on
      anything else. */
  function ParseInt(s: string, base: nat): (r: Option<int>)
    ensures s == [] || s == "-" || s == "+" ==> r.None?
    ensures r.Some? && r.value < 0 ==> s[0] == '-'
    ensures base <= 16 && s != [] && AllDigits(s, base) ==> r == Some(Value(s, base))
  {
    var neg := s != [] && s[0] == '-';
    var unsigned := if s != [] && (s[0] == '-' || s[0] == '+') then s[1..] else s;
    var body :=
      if base == 16 && |unsigned| >= 2 && unsigned[0] == '0' && (unsigned[1] == 'x' || unsigned[1] == 'X')
      then unsigned[2..] else unsigned;
    var v: int := Value(body, base);
    if body != [] && AllDigits(body, base) then Some(if neg then -v else v)
    else None
  }

  /** The lower-case digit for `d`. */
  function DigitChar(d: nat): (c: char)
    requires d < 16
    ensures CharValue(c) == d
  {
    if d < 10 then ('0' as int + d) as char else ('a' as int + d - 10) as char
  }

  /** `n` written in `base` without leading zeros (C++ `ostream << hex` / `<< dec`, Python `str`). */
  function Render(n: nat, base: nat): (s: string)
    requires 2 <= base <= 16
    ensures s != [] && AllDigits(s, base) && Value(s, base) == n
    decreases n
  {
    if n < base then
      assert Value([DigitChar(n)], base) == Value([], base) * base + n;
      [DigitChar(n)]
    else
      var init := Render(n / base, base);
      var c := DigitChar(n % base);
      DigitAppended(init, c, base);
      DivMod(n, base);
      init + [c]
  }

  lemma DivMod(n: nat, base: nat)
    requires base > 0
    ensures (n / base) * base + n % base == n
  {
  }

  /** Appending one digit multiplies the value so far by the base and adds the digit. */
  lemma DigitAppended(init: string, c: char, base: nat)
    requires AllDigits(init, base) && CharValue(c) < base
    ensures AllDigits(init + [c], base)
    ensures Value(init + [c], base) == Value(init, base) * base + CharValue(c)
  {
    var s := init + [c];
    assert s[..|s| - 1] == init;
    forall k | 0 <= k < |s| ensures CharValue(s[k]) < base {
      if k < |init| {
        assert s[k] == init[k];
      }
    }
  }

  function Hex(n: nat): string { Render(n, 16) }

  function Decimal(n: nat): string { Render(n, 10) }

  /** Digit strings hold no whitespace, */
  lemma DigitsNoSpace(s: string, base: nat)
    requires base <= 16 && AllDigits(s, base)
    ensures NoSpace(s)
  {
    assert forall k :: 0 <= k < |s| ==> CharValue(s[k]) < 16;
  }

  /** and no `=`, also behind a `0x` prefix. */
  lemma DigitsNoEquals(s: string, base: nat)
    requires base <= 16 && AllDigits(s, base)
    ensures '=' !in s && '=' !in "0x" + s
  {
    assert forall k :: 0 <= k < |s| ==> CharValue(s[k]) < 16;
    assert forall k :: 2 <= k < |"0x" + s| ==> ("0x" + s)[k] == s[k - 2];
  }

  /** Reading back what the tracer writes: decimal, */
  lemma ParseDecimal(n: nat)
    ensures ParseInt(Decimal(n), 10) == Some(n)
  {
    var d := Decimal(n);
    assert CharValue(d[0]) < 10;
  }

  /** bare hexadecimal, */
  lemma ParseHex(n: nat)
    ensures ParseInt(Hex(n), 16) == Some(n)
  {
    var h := Hex(n);
    assert CharValue(h[0]) < 16;
    assert |h| >= 2 ==> CharValue(h[1]) < 16;
  }

  /** and `0x`-prefixed hexadecimal. */
  lemma Parse0xHex(n: nat)
    ensures ParseInt("0x" + Hex(n), 16) == Some(n)
  {
    var h := Hex(n);
    var p := "0x" + h;
    assert p[2..] == h;
  }

  /** Python's `hex(n)`: `0x` and the lower-case digits, with a leading `-` for negative `n`. */
  function PyHex(n: int): (s: string)
    ensures |s| >= 3
    ensures n >= 0 ==> s[..2] == "0x" && AllDigits(s[2..], 16) && Value(s[2..], 16) == n
    ensures n < 0 ==> s[..3] == "-0x" && AllDigits(s[3..], 16) && Value(s[3..], 16) == -n
  {
    if n < 0 then
      var s := "-0x" + Hex(-n);
      assert s[3..] == Hex(-n);
      s
    else
      var s := "0x" + Hex(n);
      assert s[2..] == Hex(n);
      s
  }

  /** `int(hex(n), 16) == n`. */
  lemma ParsePyHex(n: int)
    ensures ParseInt(PyHex(n), 16) == Some(n)
  {
    if n < 0 {
      var h := Hex(-n);
      var s := "-0x" + h;
      assert s[1..] == "0x" + h;
      assert s[1..][2..] == h;
    } else {
      Parse0xHex(n);
    }
  }
}
