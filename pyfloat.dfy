/** When Python's `float(s)` accepts a string. The wait action converts its
    value with `float`, and a string it rejects raises ValueError, which makes
    the action script fail. The whitespace `float` strips is ASCII \t \n \v
    \f \r and space, plus the non-ASCII characters for which `str.isspace`
    holds; digits are the ASCII ones only. */
module PyFloat {
  import opened Py

  predicate IsDigit(c: char) { '0' <= c <= '9' }

  /** The characters `float` strips around its argument: ASCII \t \n \v \f
      \r and space, and the non-ASCII characters for which `str.isspace`
      holds (those become spaces before the ASCII strip). The separators
      chr(28) to chr(31) satisfy `str.isspace` but are not stripped. */
  predicate IsSpace(c: char)
  {
    var n := c as int;
    || 9 <= n <= 13 || n == 32 || n == 0x85 || n == 0xA0 || n == 0x1680
    || 0x2000 <= n <= 0x200A || n == 0x2028 || n == 0x2029 || n == 0x202F || n == 0x205F || n == 0x3000
  }

  /** `digitpart ::= digit (["_"] digit)*`: digits, with single underscores
      only between two digits. */
  predicate DigitPart(s: string)
  {
    && |s| > 0
    && (forall i :: 0 <= i < |s| ==> IsDigit(s[i]) || s[i] == '_')
    && (forall i :: 0 <= i < |s| && s[i] == '_' ==> 0 < i < |s| - 1 && IsDigit(s[i - 1]) && IsDigit(s[i + 1]))
  }

  /** `number ::= [digitpart] "." digitpart | digitpart ["."]` */
  predicate Number(s: string)
  {
    var d := IndexOf(s, '.');
    if d == |s| then DigitPart(s)
    else
      var whole, frac := s[..d], s[d + 1..];
      if frac == [] then DigitPart(whole)
      else (whole == [] || DigitPart(whole)) && DigitPart(frac)
  }

  /** `exponent ::= ("e" | "E") ["+" | "-"] digitpart`, without its letter. */
  predicate ExponentDigits(s: string)
  {
    DigitPart(s) || (|s| > 0 && (s[0] == '+' || s[0] == '-') && DigitPart(s[1..]))
  }

  /** `floatnumber ::= number [exponent]` */
  predicate FloatNumber(s: string)
  {
    var e := min(IndexOf(s, 'e'), IndexOf(s, 'E'));
    if e == |s| then Number(s)
    else Number(s[..e]) && ExponentDigits(s[e + 1..])
  }

  function min(a: nat, b: nat): nat { if a <= b then a else b }

  function LowerChar(c: char): char
  {
    if 'A' <= c <= 'Z' then (c as int + 32) as char else c
  }

  function Lower(s: string): (r: string)
    ensures |r| == |s|
    ensures forall k :: 0 <= k < |s| ==> r[k] == LowerChar(s[k])
  {
    if s == [] then [] else [LowerChar(s[0])] + Lower(s[1..])
  }

  /** `floatvalue ::= [sign] (floatnumber | infinity | nan)`, the last two
      without regard to case. */
  predicate FloatValue(s: string)
  {
    FloatNumber(Unsigned(s)) || Lower(Unsigned(s)) in {"inf", "infinity", "nan"}
  }

  /** `s` without its leading sign, if it has one. */
  function Unsigned(s: string): (r: string)
    ensures forall i :: 0 <= i < |r| ==> r[i] in s
  {
    if |s| > 0 && (s[0] == '+' || s[0] == '-') then s[1..] else s
  }

  /** `s` with leading and trailing whitespace removed, as `float` does. */
  function Strip(s: string): (r: string)
    ensures |r| <= |s|
    ensures r == [] || (!IsSpace(r[0]) && !IsSpace(r[|r| - 1]))
    ensures forall i :: 0 <= i < |r| ==> r[i] in s
  {
    if s == [] then []
    else if IsSpace(s[0]) then Strip(s[1..])
    else if IsSpace(s[|s| - 1]) then Strip(s[..|s| - 1])
    else s
  }

  /** `float(s)` returns instead of raising ValueError. */
  predicate Parses(s: string)
  {
    FloatValue(Strip(s))
  }

  /** A non-empty string of ASCII digits always converts. */
  lemma {:induction false} DigitsParse(s: string)
    requires |s| > 0
    requires forall i :: 0 <= i < |s| ==> IsDigit(s[i])
    ensures Parses(s)
  {
    NoSpace(s);
    assert Unsigned(s) == s;
    assert IndexOf(s, 'e') == |s| && IndexOf(s, 'E') == |s| && IndexOf(s, '.') == |s|;
    assert DigitPart(s);
  }

  lemma {:induction false} NumberHasDigit(x: string)
    requires Number(x)
    ensures exists i :: 0 <= i < |x| && IsDigit(x[i])
  {
    var d := IndexOf(x, '.');
    if d == |x| {
      assert IsDigit(x[0]);
    } else if d + 1 == |x| {
      assert IsDigit(x[..d][0]);
      assert IsDigit(x[0]);
    } else {
      assert IsDigit(x[d + 1..][0]);
      assert IsDigit(x[d + 1]);
    }
  }

  lemma {:induction false} FloatNumberHasDigit(x: string)
    requires FloatNumber(x)
    ensures exists i :: 0 <= i < |x| && IsDigit(x[i])
  {
    var e := min(IndexOf(x, 'e'), IndexOf(x, 'E'));
    if e == |x| {
      NumberHasDigit(x);
    } else {
      NumberHasDigit(x[..e]);
      var i :| 0 <= i < e && IsDigit(x[..e][i]);
      assert IsDigit(x[i]);
    }
  }

  /** A string with no digit whose text, once stripped and unsigned, does
      not begin like "inf", "infinity" or "nan" never converts: `float`
      raises ValueError. */
  lemma {:induction false} NonNumericRejected(s: string)
    requires forall i :: 0 <= i < |s| ==> !IsDigit(s[i])
    requires var u := Unsigned(Strip(s)); u == [] || u[0] !in {'i', 'I', 'n', 'N'}
    ensures !Parses(s)
  {
    var u := Unsigned(Strip(s));
    assert forall i :: 0 <= i < |u| ==> !IsDigit(u[i]) by {
      forall i | 0 <= i < |u| ensures !IsDigit(u[i]) {
        assert u[i] in Strip(s);
        var j :| 0 <= j < |s| && s[j] == u[i];
      }
    }
    if FloatNumber(u) {
      FloatNumberHasDigit(u);
    }
    NotSpecial(u);
  }

  /** Text after the digits is rejected. */
  lemma TrailingTextRejected()
    ensures !Parses("1x")
  {
    NoSpace("1x");
    assert Unsigned("1x") == "1x";
    assert IndexOf("1x", 'e') == 2 && IndexOf("1x", 'E') == 2 && IndexOf("1x", '.') == 2;
    assert !IsDigit("1x"[1]);
    NotSpecial("1x");
  }

  /** A string of digits and decimal points with two points or more is
      rejected, "1.2.3" for one. */
  lemma SecondPointRejected(s: string, p: nat, q: nat)
    requires forall i :: 0 <= i < |s| ==> IsDigit(s[i]) || s[i] == '.'
    requires p < q < |s| && s[p] == '.' && s[q] == '.'
    ensures !Parses(s)
  {
    NoSpace(s);
    assert Unsigned(s) == s;
    assert IndexOf(s, 'e') == |s| && IndexOf(s, 'E') == |s|;
    TwoPoints(s, p, q);
    NotSpecial(s);
  }

  /** A number has at most one decimal point. */
  lemma TwoPoints(x: string, p: nat, q: nat)
    requires p < q < |x| && x[p] == '.' && x[q] == '.'
    ensures !Number(x)
  {
    var d := IndexOf(x, '.');
    assert d <= p;
    var frac := x[d + 1..];
    assert frac[q - d - 1] == '.';
  }

  /** A word that merely starts like "nan" is rejected. */
  lemma NanPrefixRejected()
    ensures !Parses("none")
  {
    NoSpace("none");
    assert Unsigned("none") == "none";
    assert IndexOf("none", 'e') == 3 && IndexOf("none", 'E') == 4;
    assert "none"[..3] == "non" && IndexOf("non", '.') == 3 && !IsDigit("non"[0]);
    assert |Lower("none")| == 4;
  }

  /** The information separators chr(28) to chr(31) are not stripped, so
      digits with one of them before or after are rejected ("\x1c1" for one). */
  lemma SeparatorRejected(c: char, d: string)
    requires 28 <= c as int <= 31
    requires |d| > 0 && forall i :: 0 <= i < |d| ==> IsDigit(d[i])
    ensures !Parses([c] + d)
    ensures !Parses(d + [c])
  {
    SeparatorLeads(c, d);
    SeparatorTrails(c, d);
  }

  lemma SeparatorLeads(c: char, d: string)
    requires 28 <= c as int <= 31
    requires |d| > 0 && forall i :: 0 <= i < |d| ==> IsDigit(d[i])
    ensures !Parses([c] + d)
  {
    var x := [c] + d;
    NoSpace(x);
    assert Unsigned(x) == x;
    assert forall i :: 0 <= i < |x| ==> x[i] != 'e' && x[i] != 'E' && x[i] != '.';
    assert IndexOf(x, 'e') == |x| && IndexOf(x, 'E') == |x| && IndexOf(x, '.') == |x|;
    assert !IsDigit(x[0]) && x[0] != '_';
    NotSpecial(x);
  }

  lemma SeparatorTrails(c: char, d: string)
    requires 28 <= c as int <= 31
    requires |d| > 0 && forall i :: 0 <= i < |d| ==> IsDigit(d[i])
    ensures !Parses(d + [c])
  {
    var x := d + [c];
    NoSpace(x);
    assert Unsigned(x) == x;
    assert forall i :: 0 <= i < |x| ==> x[i] != 'e' && x[i] != 'E' && x[i] != '.';
    assert IndexOf(x, 'e') == |x| && IndexOf(x, 'E') == |x| && IndexOf(x, '.') == |x|;
    assert !IsDigit(x[|x| - 1]) && x[|x| - 1] != '_';
    NotSpecial(x);
  }

  /** Stripping leaves a string alone that neither starts nor ends with whitespace. */
  lemma NoSpace(s: string)
    requires s != [] && !IsSpace(s[0]) && !IsSpace(s[|s| - 1])
    ensures Strip(s) == s
  {
  }

  /** A string that does not start with i, I, n or N is none of the special values. */
  lemma NotSpecial(u: string)
    requires u == [] || u[0] !in {'i', 'I', 'n', 'N'}
    ensures Lower(u) !in {"inf", "infinity", "nan"}
  {
    if u != [] {
      assert Lower(u)[0] == LowerChar(u[0]);
      assert Lower(u)[0] != 'i' && Lower(u)[0] != 'n';
    }
  }
}
