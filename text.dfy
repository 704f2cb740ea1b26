/** The string and number primitives of the two runtimes the dashboard runs on:
    JavaScript's `split`, `trim`, `includes`, `toLowerCase` and `Number`, and
    Go's `strings.TrimSpace` and `%d` formatting. Strings are sequences of
    code points. */
module Text {
  import opened Wrappers

  /** Which runtime's notion of white space is meant. */
  datatype SpaceSet =
    | JsSpace  // JavaScript `\s`, `trim` and `Number`: WhiteSpace and LineTerminator
    | GoSpace  // Go `unicode.IsSpace`, used by `strings.TrimSpace`

  predicate IsSpace(ws: SpaceSet, c: char) {
    || c == ' ' || c == '\t' || c == '\n' || c == '\r' || c == 11 as char || c == 12 as char
    || c == 0xA0 as char || c == 0x1680 as char || (0x2000 as char <= c <= 0x200A as char)
    || c == 0x2028 as char || c == 0x2029 as char || c == 0x202F as char
    || c == 0x205F as char || c == 0x3000 as char
    || (ws == JsSpace && c == 0xFEFF as char)
    || (ws == GoSpace && c == 0x85 as char)
  }

  predicate NoSpace(ws: SpaceSet, s: string) {
    forall i | 0 <= i < |s| :: !IsSpace(ws, s[i])
  }

  /** The characters of a regular expression's `\w`. */
  predicate IsWordChar(c: char) {
    'a' <= c <= 'z' || 'A' <= c <= 'Z' || '0' <= c <= '9' || c == '_'
  }

  predicate IsDigit(c: char) {
    '0' <= c <= '9'
  }

  predicate AllDigits(s: string) {
    forall i | 0 <= i < |s| :: IsDigit(s[i])
  }

  lemma DigitIsNotSpace(ws: SpaceSet, c: char)
    requires IsDigit(c) || c == '-' || c == '(' || c == ')'
    ensures !IsSpace(ws, c)
  {
  }

  // ---------------------------------------------------------------------
  // Case and containment

  /** `toLowerCase` on the ASCII letters; every other character is kept. */
  function LowerChar(c: char): char {
    if 'A' <= c <= 'Z' then (c as int + 32) as char else c
  }

  function Lower(s: string): (r: string)
    ensures |r| == |s|
    ensures forall i | 0 <= i < |s| :: r[i] == LowerChar(s[i])
  {
    seq(|s|, i requires 0 <= i < |s| => LowerChar(s[i]))
  }

  lemma LowerSlice(s: string, i: int, j: int)
    requires 0 <= i <= j <= |s|
    ensures Lower(s[i..j]) == Lower(s)[i..j]
  {
  }

  predicate OccursAt(s: string, t: string, i: int) {
    0 <= i && i + |t| <= |s| && s[i..i + |t|] == t
  }

  /** `s.includes(t)`: case-sensitive substring containment. */
  predicate Contains(s: string, t: string) {
    exists i | 0 <= i <= |s| :: OccursAt(s, t, i)
  }

  // ---------------------------------------------------------------------
  // Trimming

  function TrimLeft(ws: SpaceSet, s: string): (r: string)
    ensures |r| <= |s| && r == s[|s| - |r|..]
    ensures r == [] || !IsSpace(ws, r[0])
    ensures |s| > 0 && IsSpace(ws, s[0]) ==> |r| < |s|
    decreases |s|
  {
    if |s| > 0 && IsSpace(ws, s[0]) then TrimLeft(ws, s[1..]) else s
  }

  function TrimRight(ws: SpaceSet, s: string): (r: string)
    ensures |r| <= |s| && r == s[..|r|]
    ensures r == [] || !IsSpace(ws, r[|r| - 1])
    ensures r == [] || r[0] == s[0]
    decreases |s|
  {
    if |s| > 0 && IsSpace(ws, s[|s| - 1]) then TrimRight(ws, s[..|s| - 1]) else s
  }

  /** `s[i..j]` is what remains of `s` once white space is cut from both ends. */
  predicate PaddedBy(ws: SpaceSet, s: string, i: nat, j: nat)
    requires i <= j <= |s|
  {
    (forall k | 0 <= k < i :: IsSpace(ws, s[k])) && (forall k | j <= k < |s| :: IsSpace(ws, s[k]))
  }

  /** `trim()` in JavaScript, `strings.TrimSpace` in Go. TrimIsInfix
      below says which infix of the text it is. */
  function Trim(ws: SpaceSet, s: string): (r: string)
    ensures r == [] || (!IsSpace(ws, r[0]) && !IsSpace(ws, r[|r| - 1]))
    ensures |r| <= |s|
  {
    TrimRight(ws, TrimLeft(ws, s))
  }

  /** The trimmed text is an infix of the text, with nothing but white space
      before and after it; with the ends `Trim` guarantees, this makes it
      the longest such infix. */
  lemma TrimIsInfix(ws: SpaceSet, s: string)
    ensures exists i: nat, j: nat | i <= j <= |s| :: Trim(ws, s) == s[i..j] && PaddedBy(ws, s, i, j)
  {
    var left := TrimLeft(ws, s);
    var r := TrimRight(ws, left);
    var i := |s| - |left|;
    assert left == s[i..];
    assert r == left[..|r|];
    TrimLeftDropsSpace(ws, s);
    TrimRightDropsSpace(ws, left);
    SuffixSpaces(ws, s, left, |r|);
    assert r == s[i..i + |r|];
  }

  /** Everything `TrimLeft` drops is white space. */
  lemma {:induction false} TrimLeftDropsSpace(ws: SpaceSet, s: string)
    ensures forall k | 0 <= k < |s| - |TrimLeft(ws, s)| :: IsSpace(ws, s[k])
    decreases |s|
  {
    if |s| > 0 && IsSpace(ws, s[0]) {
      TrimLeftDropsSpace(ws, s[1..]);
      forall k | 1 <= k < |s| - |TrimLeft(ws, s)|
        ensures IsSpace(ws, s[k])
      {
        assert s[k] == s[1..][k - 1];
      }
    }
  }

  /** Everything `TrimRight` drops is white space. */
  lemma {:induction false} TrimRightDropsSpace(ws: SpaceSet, s: string)
    ensures forall k | |TrimRight(ws, s)| <= k < |s| :: IsSpace(ws, s[k])
    decreases |s|
  {
    if |s| > 0 && IsSpace(ws, s[|s| - 1]) {
      var s' := s[..|s| - 1];
      TrimRightDropsSpace(ws, s');
      forall k | |TrimRight(ws, s)| <= k < |s| - 1
        ensures IsSpace(ws, s[k])
      {
        assert s[k] == s'[k];
      }
    }
  }

  /** White space at the end of a suffix `left` of `s` is white space of `s`. */
  lemma SuffixSpaces(ws: SpaceSet, s: string, left: string, n: nat)
    requires |left| <= |s| && left == s[|s| - |left|..] && n <= |left|
    requires forall k | n <= k < |left| :: IsSpace(ws, left[k])
    ensures forall k | |s| - |left| + n <= k < |s| :: IsSpace(ws, s[k])
  {
    forall k | |s| - |left| + n <= k < |s|
      ensures IsSpace(ws, s[k])
    {
      assert s[k] == left[k - (|s| - |left|)];
    }
  }

  lemma TrimUnpadded(ws: SpaceSet, s: string)
    requires s == [] || (!IsSpace(ws, s[0]) && !IsSpace(ws, s[|s| - 1]))
    ensures Trim(ws, s) == s
  {
  }

  // ---------------------------------------------------------------------
  // Splitting and joining

  /** `s.split(/\s+/)`: the fields between maximal runs of white space. A
      leading or trailing run yields an empty first or last field. */
  function SplitWhitespace(s: string): (r: seq<string>)
    ensures |r| >= 1
    decreases |s|
  {
    if s == [] then [""]
    else if IsSpace(JsSpace, s[0]) then [""] + SplitWhitespace(TrimLeft(JsSpace, s))
    else
      var rest := SplitWhitespace(s[1..]);
      [[s[0]] + rest[0]] + rest[1..]
  }

  /** No field holds white space, and only the first and the last can be
      empty; the first is not when the text starts with a non-space. */
  lemma {:induction false} SplitWhitespaceFields(s: string)
    ensures var r := SplitWhitespace(s);
      && (forall k | 0 <= k < |r| :: NoSpace(JsSpace, r[k]))
      && (forall k | 0 < k < |r| - 1 :: r[k] != "")
      && (s != [] && !IsSpace(JsSpace, s[0]) ==> r[0] != "")
    decreases |s|
  {
    var r := SplitWhitespace(s);
    if s == [] {
    } else if IsSpace(JsSpace, s[0]) {
      var t := TrimLeft(JsSpace, s);
      var rest := SplitWhitespace(t);
      SplitWhitespaceFields(t);
      assert r == [""] + rest;
      forall k | 0 <= k < |r|
        ensures NoSpace(JsSpace, r[k])
      {
        if k > 0 {
          assert r[k] == rest[k - 1];
        }
      }
      forall k | 0 < k < |r| - 1
        ensures r[k] != ""
      {
        assert r[k] == rest[k - 1];
        if k == 1 {
          assert t != [];
        }
      }
    } else {
      var rest := SplitWhitespace(s[1..]);
      SplitWhitespaceFields(s[1..]);
      assert r == [[s[0]] + rest[0]] + rest[1..];
      forall k | 0 <= k < |r|
        ensures NoSpace(JsSpace, r[k])
      {
        if k > 0 {
          assert r[k] == rest[k];
        } else {
          assert NoSpace(JsSpace, rest[0]);
          var w := [s[0]] + rest[0];
          assert forall m | 1 <= m < |w| :: w[m] == rest[0][m - 1];
        }
      }
      forall k | 0 < k < |r| - 1
        ensures r[k] != ""
      {
        assert r[k] == rest[k];
      }
    }
  }

  lemma {:induction false} SplitWhitespaceOfWord(s: string)
    requires NoSpace(JsSpace, s)
    ensures SplitWhitespace(s) == [s]
    decreases |s|
  {
    if s != [] {
      SplitWhitespaceOfWord(s[1..]);
      assert [s[0]] + s[1..] == s;
    }
  }

  /** A word followed by one space splits off as the first field. */
  lemma {:induction false} SplitWhitespaceCons(x: string, y: string)
    requires NoSpace(JsSpace, x)
    requires y == [] || !IsSpace(JsSpace, y[0])
    ensures SplitWhitespace(x + " " + y) == [x] + SplitWhitespace(y)
    decreases |x|
  {
    var s := x + " " + y;
    if x == [] {
      assert s == " " + y;
      assert TrimLeft(JsSpace, s) == TrimLeft(JsSpace, y) == y;
    } else {
      assert s[1..] == x[1..] + " " + y;
      SplitWhitespaceCons(x[1..], y);
      assert [x[0]] + x[1..] == x;
    }
  }

  /** Words joined by single spaces split back into the words. */
  lemma {:induction false} SplitWhitespaceJoin(words: seq<string>)
    requires |words| >= 1
    requires forall k | 0 <= k < |words| :: words[k] != "" && NoSpace(JsSpace, words[k])
    ensures SplitWhitespace(Join(words, " ")) == words
    decreases |words|
  {
    if |words| == 1 {
      SplitWhitespaceOfWord(words[0]);
    } else {
      var rest := Join(words[1..], " ");
      SplitWhitespaceJoin(words[1..]);
      assert words[1..][0] == words[1] && rest[0] == words[1][0];
      SplitWhitespaceCons(words[0], rest);
      assert [words[0]] + words[1..] == words;
    }
  }

  /** `s.split(sep)` for a one-character separator. */
  function SplitOn(s: string, sep: char): (r: seq<string>)
    ensures |r| >= 1
    decreases |s|
  {
    if s == [] then [""]
    else
      var rest := SplitOn(s[1..], sep);
      if s[0] == sep then [""] + rest else [[s[0]] + rest[0]] + rest[1..]
  }

  lemma {:induction false} SplitOnNoSeparator(s: string, sep: char)
    requires sep !in s
    ensures SplitOn(s, sep) == [s]
    decreases |s|
  {
    if s != [] {
      SplitOnNoSeparator(s[1..], sep);
      assert [s[0]] + s[1..] == s;
    }
  }

  lemma {:induction false} SplitOnCons(x: string, sep: char, y: string)
    requires sep !in x
    ensures SplitOn(x + [sep] + y, sep) == [x] + SplitOn(y, sep)
    decreases |x|
  {
    var s := x + [sep] + y;
    if x == [] {
      assert s[1..] == y;
    } else {
      assert s[1..] == x[1..] + [sep] + y;
      SplitOnCons(x[1..], sep, y);
      assert [x[0]] + x[1..] == x;
    }
  }

  /** `parts.join(sep)`. */
  function Join(parts: seq<string>, sep: string): (r: string)
    ensures |parts| >= 1 ==> parts[0] <= r
    decreases |parts|
  {
    if |parts| == 0 then ""
    else if |parts| == 1 then parts[0]
    else parts[0] + sep + Join(parts[1..], sep)
  }

  // ---------------------------------------------------------------------
  // Decimal integers

  function DigitChar(d: nat): (c: char)
    requires d < 10
    ensures IsDigit(c)
  {
    ('0' as int + d) as char
  }

  function NatToString(n: nat): (r: string)
    ensures |r| >= 1 && AllDigits(r)
    decreases n
  {
    if n < 10 then [DigitChar(n)] else NatToString(n / 10) + [DigitChar(n % 10)]
  }

  /** Go's `%d` / `%v` of an integer, which is also how JavaScript prints one. */
  function IntToString(n: int): (r: string)
    ensures |r| >= 1
    ensures IsDigit(r[0]) || (r[0] == '-' && |r| > 1 && AllDigits(r[1..]))
    ensures n >= 0 ==> AllDigits(r)
  {
    if n < 0 then "-" + NatToString(-n) else NatToString(n)
  }

  /** A printed integer holds only digits and a minus sign. */
  lemma {:induction false} IntToStringChars(n: int, c: char)
    requires !IsDigit(c) && c != '-'
    ensures c !in IntToString(n)
  {
    var s := IntToString(n);
    forall i | 0 <= i < |s|
      ensures s[i] != c
    {
      if n < 0 && i > 0 {
        assert s[i] == s[1..][i - 1];
      }
    }
  }

  function DigitsValue(s: string): nat
    requires AllDigits(s)
    decreases |s|
  {
    if s == [] then 0 else DigitsValue(s[..|s| - 1]) * 10 + (s[|s| - 1] as int - '0' as int)
  }

  lemma {:induction false} DigitsValueOfNatToString(n: nat)
    ensures DigitsValue(NatToString(n)) == n
    decreases n
  {
    if n >= 10 {
      var s := NatToString(n);
      assert s[..|s| - 1] == NatToString(n / 10);
      DigitsValueOfNatToString(n / 10);
    }
  }

  /** JavaScript's `Number(s)` on the integers written in decimal, with an
      optional sign and surrounding white space; the empty (or all-blank)
      string is 0. Every other string is NaN, written None. */
  /** The characters a decimal integer is written with. */
  predicate NumeralChar(c: char) {
    IsDigit(c) || c == '-' || c == '+'
  }

  function ParseNumber(s: string): Option<int> {
    var t := Trim(JsSpace, s);
    if t == [] then Some(0)
    else if (t[0] == '-' || t[0] == '+') && |t| > 1 && AllDigits(t[1..]) then
      Some(if t[0] == '-' then -(DigitsValue(t[1..]) as int) else DigitsValue(t[1..]))
    else if AllDigits(t) then Some(DigitsValue(t))
    else None
  }

  /** Blank text reads as 0, and text that reads as a number holds nothing
      but numeral characters and white space. */
  lemma ParseNumberChars(s: string)
    ensures (forall k | 0 <= k < |s| :: IsSpace(JsSpace, s[k])) ==> ParseNumber(s) == Some(0)
    ensures ParseNumber(s).Some? ==> forall k | 0 <= k < |s| :: NumeralChar(s[k]) || IsSpace(JsSpace, s[k])
  {
    if forall k | 0 <= k < |s| :: IsSpace(JsSpace, s[k]) {
      TrimBlank(JsSpace, s);
    }
    if ParseNumber(s).Some? {
      ParsedIsNumeral(s);
      TrimmedNumeral(s);
    }
  }

  /** Text that reads as a number trims to numeral characters. */
  lemma ParsedIsNumeral(s: string)
    requires ParseNumber(s).Some?
    ensures var t := Trim(JsSpace, s); forall m | 0 <= m < |t| :: NumeralChar(t[m])
  {
    var t := Trim(JsSpace, s);
    if t != [] && (t[0] == '-' || t[0] == '+') && |t| > 1 && AllDigits(t[1..]) {
      forall m | 0 < m < |t|
        ensures IsDigit(t[m])
      {
        assert t[m] == t[1..][m - 1];
      }
    }
  }

  /** Blank text trims to nothing. */
  lemma TrimBlank(ws: SpaceSet, s: string)
    requires forall k | 0 <= k < |s| :: IsSpace(ws, s[k])
    ensures Trim(ws, s) == []
  {
    TrimIsInfix(ws, s);
  }

  /** Text that trims to numeral characters holds nothing but those and
      white space. */
  lemma TrimmedNumeral(s: string)
    requires var t := Trim(JsSpace, s); forall m | 0 <= m < |t| :: NumeralChar(t[m])
    ensures forall k | 0 <= k < |s| :: NumeralChar(s[k]) || IsSpace(JsSpace, s[k])
  {
    TrimIsInfix(JsSpace, s);
    var t := Trim(JsSpace, s);
    var i: nat, j: nat :| i <= j <= |s| && t == s[i..j] && PaddedBy(JsSpace, s, i, j);
    forall k | i <= k < j
      ensures NumeralChar(s[k])
    {
      assert s[k] == t[k - i];
    }
  }

  /** Printing an integer and reading it back gives the integer. */
  lemma ParseNumberOfIntToString(n: int)
    ensures ParseNumber(IntToString(n)) == Some(n)
  {
    var s := IntToString(n);
    DigitIsNotSpace(JsSpace, s[0]);
    DigitIsNotSpace(JsSpace, s[|s| - 1]);
    TrimUnpadded(JsSpace, s);
    assert Trim(JsSpace, s) == s;
    if n < 0 {
      assert s[1..] == NatToString(-n);
      DigitsValueOfNatToString(-n);
    } else {
      DigitsValueOfNatToString(n);
    }
  }

  /** A character that no JavaScript numeric literal holds: not a digit,
      not a letter (hex digits, exponents, radix prefixes, `Infinity`), and
      not a point or a sign. */
  predicate OutsideNumerals(c: char) {
    !IsDigit(c) && !('a' <= c <= 'z') && !('A' <= c <= 'Z') && c != '.' && c != '+' && c != '-'
  }

  /** A printed integer followed by text holding a character that no numeral
      holds, such as a parenthesis, is NaN. */
  lemma ParseNumberOfIntWithTail(n: int, tail: string, k: nat)
    requires k < |tail| && OutsideNumerals(tail[k])
    requires !IsSpace(JsSpace, tail[|tail| - 1])
    ensures ParseNumber(IntToString(n) + tail) == None
  {
    var digits := IntToString(n);
    var s := digits + tail;
    assert s[0] == digits[0];
    DigitIsNotSpace(JsSpace, s[0]);
    assert s[|s| - 1] == tail[|tail| - 1];
    TrimUnpadded(JsSpace, s);
    assert Trim(JsSpace, s) == s;
    assert s[|digits| + k] == tail[k];
    assert s[1..][|digits| + k - 1] == tail[k];
  }
}
