/** The few `str` operations the core relies on: `rsplit(sep, 1)[-1]`,
    `int(text)`, `lower()` and `startswith`, over ASCII text. */
module Text {
  import opened Base

  /** `s.rsplit(sep, 1)[-1]`: the text after the last occurrence of `sep`,
      or all of `s` when `sep` does not occur. */
  function AfterLast(s: string, sep: string): (r: string)
    requires |sep| > 0
    ensures |r| <= |s|
    decreases |s|
  {
    if |s| < |sep| then s
    else if s[|s| - |sep|..] == sep then ""
    else AfterLast(s[..|s| - 1], sep) + [s[|s| - 1]]
  }

  predicate IsDigit(c: char)
  {
    '0' <= c <= '9'
  }

  /** The characters `str.strip()` removes (the ASCII ones). */
  predicate IsSpace(c: char)
  {
    c == ' ' || c == '\t' || c == '\n' || c == '\r' || c == '\U{0B}' || c == '\U{0C}'
    || c == '\U{1C}' || c == '\U{1D}' || c == '\U{1E}' || c == '\U{1F}'
  }

  /** `s.lstrip()`: a suffix of `s` that does not start with whitespace. */
  function StripLeft(s: string): (r: string)
    ensures |r| <= |s| && r == s[|s| - |r|..]
    ensures |r| > 0 ==> !IsSpace(r[0])
  {
    if |s| > 0 && IsSpace(s[0]) then StripLeft(s[1..]) else s
  }

  /** `s.rstrip()`: a prefix of `s` that does not end with whitespace. */
  function StripRight(s: string): (r: string)
    ensures |r| <= |s| && r == s[..|r|]
    ensures |r| > 0 ==> !IsSpace(r[|r| - 1])
  {
    if |s| > 0 && IsSpace(s[|s| - 1]) then StripRight(s[..|s| - 1]) else s
  }

  /** `s.strip()`: `s` without its leading and trailing whitespace. */
  function Strip(s: string): (t: string)
    ensures |t| <= |s|
    ensures |t| > 0 ==> !IsSpace(t[0]) && !IsSpace(t[|t| - 1])
  {
    StripRight(StripLeft(s))
  }

  /** A text that neither starts nor ends with whitespace is its own strip. */
  lemma StripUnpadded(s: string)
    requires |s| > 0 && !IsSpace(s[0]) && !IsSpace(s[|s| - 1])
    ensures Strip(s) == s
  {
    assert StripLeft(s) == s;
  }

  /** The digit grammar `int()` accepts in base 10: digits, with single
      underscores allowed between two digits. */
  predicate DigitText(d: string)
  {
    && |d| > 0
    && IsDigit(d[0])
    && IsDigit(d[|d| - 1])
    && (forall i :: 0 <= i < |d| ==> IsDigit(d[i]) || d[i] == '_')
    && (forall i :: 0 <= i < |d| - 1 ==> d[i] == '_' ==> d[i + 1] != '_')
  }

  /** The number a digit text denotes, underscores ignored. */
  function DigitValue(d: string): nat
  {
    if |d| == 0 then 0
    else if d[|d| - 1] == '_' then DigitValue(d[..|d| - 1])
    else DigitValue(d[..|d| - 1]) * 10 + CharValue(d[|d| - 1])
  }

  function CharValue(c: char): nat
  {
    if IsDigit(c) then (c as int) - ('0' as int) else 0
  }

  /** `int(text)`: None where Python raises ValueError. Python accepts the
      text once surrounding whitespace is stripped, if what is left is a digit
      text, optionally after one sign. */
  function ParseInt(text: string): (r: Option<int>)
    ensures var t := Strip(text);
      r.Some? <==> DigitText(t) || (|t| > 0 && (t[0] == '+' || t[0] == '-') && DigitText(t[1..]))
    ensures var t := Strip(text);
      DigitText(t) ==> r == Some(DigitValue(t) as int)
    ensures var t := Strip(text);
      |t| > 0 && DigitText(t[1..]) ==>
        (t[0] == '+' ==> r == Some(DigitValue(t[1..]) as int)) && (t[0] == '-' ==> r == Some(-(DigitValue(t[1..]) as int)))
  {
    var t := Strip(text);
    if |t| > 0 && (t[0] == '+' || t[0] == '-') then
      if DigitText(t[1..]) then
        Some(if t[0] == '-' then -(DigitValue(t[1..]) as int) else DigitValue(t[1..]))
      else None
    else if DigitText(t) then Some(DigitValue(t))
    else None
  }

  /** `str(n)` for a natural number. */
  function NatText(n: nat): (r: string)
    ensures |r| > 0 && forall i :: 0 <= i < |r| ==> IsDigit(r[i])
  {
    if n < 10 then [Digit(n)] else NatText(n / 10) + [Digit(n % 10)]
  }

  function Digit(n: nat): (c: char)
    requires n < 10
    ensures IsDigit(c) && CharValue(c) == n
  {
    ('0' as int + n) as char
  }

  /** `s.lower()` over ASCII letters. */
  function Lower(s: string): (r: string)
    ensures |r| == |s|
  {
    if |s| == 0 then "" else [LowerChar(s[0])] + Lower(s[1..])
  }

  function LowerChar(c: char): char
  {
    if 'A' <= c <= 'Z' then ((c as int) + 32) as char else c
  }

  predicate StartsWith(s: string, prefix: string)
  {
    prefix <= s
  }

  /** The value of the text `str(n)` is `n`. */
  lemma {:induction false} DigitValueOfNatText(n: nat)
    ensures DigitValue(NatText(n)) == n
  {
    if n >= 10 {
      var t := NatText(n);
      assert t[..|t| - 1] == NatText(n / 10);
      DigitValueOfNatText(n / 10);
    }
  }

  /** `int(str(n)) == n`. */
  lemma NatTextParses(n: nat)
    ensures ParseInt(NatText(n)) == Some(n)
  {
    var t := NatText(n);
    assert StripLeft(t) == t;
    assert StripRight(t) == t;
    assert DigitText(t);
    DigitValueOfNatText(n);
  }

  /** A text without the separator's first character is all after the last
      separator. */
  lemma {:induction false} AfterLastAbsent(s: string, sep: string)
    requires |sep| > 0 && sep[0] !in s
    ensures AfterLast(s, sep) == s
    decreases |s|
  {
    if |s| >= |sep| {
      assert s[|s| - |sep|..][0] == s[|s| - |sep|];
      AfterLastAbsent(s[..|s| - 1], sep);
      assert s[..|s| - 1] + [s[|s| - 1]] == s;
    }
  }

  /** The text after the last `sep` is what follows an appended `sep`, provided
      that tail cannot take part in an occurrence of `sep`. */
  lemma {:induction false} AfterLastAppended(a: string, d: string)
    requires forall i :: 0 <= i < |d| ==> d[i] != '_'
    ensures AfterLast(a + "_s" + d, "_s") == d
    decreases |d|
  {
    var s := a + "_s" + d;
    if |d| == 0 {
      assert s == a + "_s";
      assert s[|s| - 2..] == "_s";
    } else {
      var d' := d[..|d| - 1];
      var s' := a + "_s" + d';
      assert s == s' + [d[|d| - 1]];
      assert s[..|s| - 1] == s';
      assert s[|s| - 2..] != "_s" by {
        if |d| == 1 { assert s[|s| - 2] == 's'; } else { assert s[|s| - 2] == d[|d| - 2]; }
        assert s[|s| - 2..][0] == s[|s| - 2];
      }
      AfterLastAppended(a, d');
      assert d' + [d[|d| - 1]] == d;
    }
  }

  /** A name that ends in `_s` followed by the decimal text of `n` has `n` as its
      series text. */
  lemma SeriesSuffixParses(prefix: string, n: nat)
    ensures ParseInt(AfterLast(prefix + "_s" + NatText(n), "_s")) == Some(n)
  {
    var t := NatText(n);
    assert forall i :: 0 <= i < |t| ==> t[i] != '_';
    AfterLastAppended(prefix, t);
    NatTextParses(n);
  }
}
