/** The JavaScript string operations the source relies on: `trim`, `toLowerCase`,
  * `toUpperCase`, `includes`, `startsWith`, `padStart`, `padEnd`, `split`,
  * `Number(...)`, `toString()` and the `<`/`>` comparison of strings. */
module Text {
  import opened Wrappers
  import opened Seqs

  /** The characters `String.prototype.trim` removes: the WhiteSpace and
    * LineTerminator productions of ECMAScript (every Unicode space separator). */
  predicate IsWhitespace(c: char) {
    || c == ' ' || c == '\t' || c == '\n' || c == '\r' || c == '\U{000B}' || c == '\U{000C}'
    || c == '\U{00A0}' || c == '\U{1680}' || ('\U{2000}' <= c <= '\U{200A}')
    || c == '\U{2028}' || c == '\U{2029}' || c == '\U{202F}' || c == '\U{205F}'
    || c == '\U{3000}' || c == '\U{FEFF}'
  }

  function TrimStart(s: string): (r: string)
    ensures r == [] || !IsWhitespace(r[0])
    ensures |r| <= |s| && r == s[|s| - |r|..]
  {
    if s != [] && IsWhitespace(s[0]) then TrimStart(s[1..]) else s
  }

  function TrimEnd(s: string): (r: string)
    ensures |r| <= |s| && r == s[..|r|]
    ensures r == [] || !IsWhitespace(r[|r| - 1])
  {
    if s != [] && IsWhitespace(s[|s| - 1]) then TrimEnd(s[..|s| - 1]) else s
  }

  /** `s.trim()`. */
  function Trim(s: string): (r: string)
    ensures |r| <= |s|
    ensures r == [] || (!IsWhitespace(r[0]) && !IsWhitespace(r[|r| - 1]))
  {
    var t := TrimStart(s);
    var r := TrimEnd(t);
    assert r != [] ==> r[0] == t[0];
    r
  }

  lemma TrimOfTrimmed(s: string)
    requires s == [] || (!IsWhitespace(s[0]) && !IsWhitespace(s[|s| - 1]))
    ensures Trim(s) == s
  {
  }

  /** Trimming twice is trimming once. */
  lemma TrimIdempotent(s: string)
    ensures Trim(Trim(s)) == Trim(s)
  {
    TrimOfTrimmed(Trim(s));
  }

  /** The case mapping of `toLowerCase`, on ASCII letters. */
  function LowerChar(c: char): char {
    if 'A' <= c <= 'Z' then (c as int + 32) as char else c
  }

  /** The case mapping of `toUpperCase`, on ASCII letters. */
  function UpperChar(c: char): char {
    if 'a' <= c <= 'z' then (c as int - 32) as char else c
  }

  /** `s.toLowerCase()`. */
  function ToLower(s: string): (r: string)
    ensures |r| == |s|
  {
    seq(|s|, i requires 0 <= i < |s| => LowerChar(s[i]))
  }

  /** `s.toUpperCase()`. */
  function ToUpper(s: string): (r: string)
    ensures |r| == |s|
  {
    seq(|s|, i requires 0 <= i < |s| => UpperChar(s[i]))
  }

  /** An upper-cased string has no lower-case ASCII letter, and lower-casing twice is lower-casing once. */
  lemma CaseMappingsSettle(s: string)
    ensures forall i :: 0 <= i < |s| ==> !('a' <= ToUpper(s)[i] <= 'z')
    ensures forall i :: 0 <= i < |s| ==> !('A' <= ToLower(s)[i] <= 'Z')
    ensures ToLower(ToLower(s)) == ToLower(s) && ToUpper(ToUpper(s)) == ToUpper(s)
  {
  }

  /** Upper-casing a trimmed string leaves it trimmed. */
  lemma UpperOfTrimmed(s: string)
    ensures Trim(ToUpper(Trim(s))) == ToUpper(Trim(s))
  {
    var t := Trim(s);
    var u := ToUpper(t);
    if u != [] {
      assert u[0] == UpperChar(t[0]) && u[|u| - 1] == UpperChar(t[|t| - 1]);
    }
    TrimOfTrimmed(u);
  }

  /** Case mapping leaves whitespace alone, so it commutes with `trim`. */
  lemma {:induction false} LowerTrimCommute(s: string)
    ensures ToLower(Trim(s)) == Trim(ToLower(s))
  {
    LowerTrimStart(s);
    LowerTrimEnd(TrimStart(s));
  }

  lemma {:induction false} LowerTrimStart(s: string)
    ensures ToLower(TrimStart(s)) == TrimStart(ToLower(s))
  {
    if s != [] {
      LowerKeepsWhitespace(s[0]);
      assert ToLower(s)[0] == LowerChar(s[0]);
      if IsWhitespace(s[0]) {
        assert ToLower(s)[1..] == ToLower(s[1..]);
        LowerTrimStart(s[1..]);
      }
    }
  }

  lemma {:induction false} LowerTrimEnd(s: string)
    ensures ToLower(TrimEnd(s)) == TrimEnd(ToLower(s))
  {
    if s != [] {
      var l := ToLower(s);
      LowerKeepsWhitespace(s[|s| - 1]);
      assert l[|s| - 1] == LowerChar(s[|s| - 1]);
      if IsWhitespace(s[|s| - 1]) {
        assert l[..|s| - 1] == ToLower(s[..|s| - 1]);
        LowerTrimEnd(s[..|s| - 1]);
      }
    }
  }

  /** Lower-casing maps whitespace to itself and nothing else to whitespace. */
  lemma LowerKeepsWhitespace(c: char)
    ensures IsWhitespace(LowerChar(c)) <==> IsWhitespace(c)
    ensures IsWhitespace(c) ==> LowerChar(c) == c
  {
  }

  /** `prefix.length <= s.length && s` begins with `prefix`: JavaScript's `startsWith`. */
  predicate StartsWith(s: string, prefix: string) {
    prefix <= s
  }

  /** `s.includes(sub)`: `sub` occurs in `s` at some offset. */
  predicate Contains(s: string, sub: string)
    ensures Contains(s, sub) <==> exists i :: 0 <= i <= |s| && sub <= s[i..]
  {
    if sub <= s then assert s[0..] == s; true
    else if s == [] then false
    else
      assert forall i :: 1 <= i <= |s| ==> s[1..][i - 1..] == s[i..];
      Contains(s[1..], sub)
  }

  predicate IsDigit(c: char) {
    '0' <= c <= '9'
  }

  predicate AllDigits(s: string) {
    forall i :: 0 <= i < |s| ==> IsDigit(s[i])
  }

  lemma DigitNotWhitespace(c: char)
    requires IsDigit(c)
    ensures !IsWhitespace(c)
  {
  }

  function DigitChar(d: nat): (c: char)
    requires d < 10
    ensures IsDigit(c)
  {
    ('0' as int + d) as char
  }

  function DigitValue(c: char): nat
    requires IsDigit(c)
  {
    c as int - '0' as int
  }

  /** The decimal digits of a non-negative number, without leading zeros: `n.toString()`. */
  function NatToString(n: nat): (r: string)
    ensures r != [] && AllDigits(r)
    ensures |r| == 1 <==> n < 10
  {
    if n < 10 then [DigitChar(n)] else NatToString(n / 10) + [DigitChar(n % 10)]
  }

  /** `i.toString()` for any integer. */
  function IntToString(i: int): string {
    if i < 0 then "-" + NatToString(-i) else NatToString(i)
  }

  /** The value of a string of decimal digits; the empty string reads as 0. */
  function ParseDigits(s: string): nat
    requires AllDigits(s)
  {
    if s == [] then 0 else ParseDigits(s[..|s| - 1]) * 10 + DigitValue(s[|s| - 1])
  }

  /** `Number(s)` on unsigned decimal numerals: surrounding whitespace is ignored, an
    * empty string is 0 and decimal digits are their value. Every other string is NaN
    * (None) here, including the signed, fractional and hex forms JavaScript reads. */
  function Number(s: string): (r: Option<int>)
    ensures r.Some? ==> r.value >= 0
  {
    var t := Trim(s);
    if AllDigits(t) then Some(ParseDigits(t)) else None
  }

  /** A string of decimal digits reads as its value. */
  lemma NumberOfDigits(s: string)
    requires AllDigits(s)
    ensures Number(s) == Some(ParseDigits(s))
  {
    if s != [] {
      DigitNotWhitespace(s[0]);
      DigitNotWhitespace(s[|s| - 1]);
    }
    TrimOfTrimmed(s);
  }

  lemma {:induction false} ParseNatToString(n: nat)
    ensures ParseDigits(NatToString(n)) == n
  {
    if n >= 10 {
      var s := NatToString(n);
      assert s[..|s| - 1] == NatToString(n / 10);
      ParseNatToString(n / 10);
    }
  }

  lemma {:induction false} ParseLeadingZero(s: string)
    requires AllDigits(s)
    ensures AllDigits("0" + s) && ParseDigits("0" + s) == ParseDigits(s)
  {
    if s != [] {
      var z := "0" + s;
      assert z[..|z| - 1] == "0" + s[..|s| - 1];
      ParseLeadingZero(s[..|s| - 1]);
    }
  }

  /** `s.padStart(n, c)`. */
  function PadStart(s: string, n: nat, c: char): (r: string)
    ensures |r| == if |s| < n then n else |s|
  {
    if |s| < n then Repeat(c, n - |s|) + s else s
  }

  /** `s.padEnd(n, c)`. */
  function PadEnd(s: string, n: nat, c: char): (r: string)
    ensures |r| == if |s| < n then n else |s|
  {
    if |s| < n then s + Repeat(c, n - |s|) else s
  }

  /** `n.toString().padStart(2, '0')` is the two-digit form of every `n < 100`. */
  lemma TwoDigits(n: nat)
    requires n < 100
    ensures PadStart(NatToString(n), 2, '0') == [DigitChar(n / 10), DigitChar(n % 10)]
  {
    if n >= 10 {
      assert NatToString(n / 10) == [DigitChar(n / 10)];
    }
  }

  /** Zero padding does not change the value read back from the digits. */
  lemma PaddedNumber(n: nat)
    ensures AllDigits(PadStart(NatToString(n), 2, '0'))
    ensures Number(PadStart(NatToString(n), 2, '0')) == Some(n)
  {
    var s := NatToString(n);
    ParseNatToString(n);
    if |s| < 2 {
      assert Repeat('0', 1) == "0";
      assert PadStart(s, 2, '0') == "0" + s;
      ParseLeadingZero(s);
    }
    NumberOfDigits(PadStart(s, 2, '0'));
  }

  /** `s.split(sep)`: the pieces between the separators, at least one. */
  function Split(s: string, sep: char): (r: seq<string>)
    ensures |r| >= 1
  {
    if s == [] then [""]
    else
      var rest := Split(s[1..], sep);
      if s[0] == sep then [""] + rest else [[s[0]] + rest[0]] + rest[1..]
  }

  lemma {:induction false} SplitWithout(s: string, sep: char)
    requires sep !in s
    ensures Split(s, sep) == [s]
  {
    if s != [] {
      assert s[0] != sep && sep !in s[1..];
      SplitWithout(s[1..], sep);
      assert [s[0]] + s[1..] == s;
    }
  }

  lemma {:induction false} SplitAt(a: string, b: string, sep: char)
    requires sep !in a
    ensures Split(a + [sep] + b, sep) == [a] + Split(b, sep)
  {
    if a == [] {
      assert ([sep] + b)[1..] == b;
    } else {
      assert (a + [sep] + b)[1..] == a[1..] + [sep] + b;
      assert (a + [sep] + b)[0] == a[0] != sep;
      SplitAt(a[1..], b, sep);
      assert [a[0]] + a[1..] == a;
    }
  }

  /** The comparison `a < b` of two JavaScript strings, character by character. */
  predicate LexLess(a: string, b: string) {
    if a == [] then b != []
    else if b == [] then false
    else if a[0] != b[0] then a[0] < b[0]
    else LexLess(a[1..], b[1..])
  }

  /** `a <= b` on strings; also the order `localeCompare` is modelled by. */
  predicate LexLe(a: string, b: string) {
    a == b || LexLess(a, b)
  }

  lemma {:induction false} LexLessIrreflexive(a: string)
    ensures !LexLess(a, a)
  {
    if a != [] {
      LexLessIrreflexive(a[1..]);
    }
  }

  lemma {:induction false} LexLessTransitive(a: string, b: string, c: string)
    requires LexLess(a, b) && LexLess(b, c)
    ensures LexLess(a, c)
  {
    if a != [] && b != [] && c != [] && a[0] == b[0] && b[0] == c[0] {
      LexLessTransitive(a[1..], b[1..], c[1..]);
    }
  }

  lemma {:induction false} LexLessTrichotomy(a: string, b: string)
    ensures LexLess(a, b) || a == b || LexLess(b, a)
  {
    if a != [] && b != [] && a[0] == b[0] {
      LexLessTrichotomy(a[1..], b[1..]);
      if a[1..] == b[1..] {
        assert a == [a[0]] + a[1..] && b == [b[0]] + b[1..];
      }
    }
  }

  /** `LexLe` is a total order on strings. */
  lemma LexLeTotalOrder()
    ensures forall a, b :: LexLe(a, b) || LexLe(b, a)
    ensures forall a, b, c :: LexLe(a, b) && LexLe(b, c) ==> LexLe(a, c)
    ensures forall a, b :: LexLe(a, b) && LexLe(b, a) ==> a == b
  {
    forall a, b ensures LexLe(a, b) || LexLe(b, a) {
      LexLessTrichotomy(a, b);
    }
    forall a, b, c | LexLe(a, b) && LexLe(b, c) ensures LexLe(a, c) {
      if a != b && b != c {
        LexLessTransitive(a, b, c);
      }
    }
    forall a, b | LexLe(a, b) && LexLe(b, a) ensures a == b {
      if a != b {
        LexLessTransitive(a, b, a);
        LexLessIrreflexive(a);
      }
    }
  }
}
