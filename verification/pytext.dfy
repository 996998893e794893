/** The two Python string builtins the views depend on: `str.strip()` (notes
    typed by the user) and `int(str)` (the posted score, the `skill` query
    parameter when Django turns it into a primary key). */
module PyText {
  import opened Basics

  /** Python's `str.isspace()` for one code point: the characters that
      `strip()` with no argument removes. */
  predicate IsSpace(c: char)
  {
    var n := c as int;
    (9 <= n <= 13) || (28 <= n <= 32) || n == 0x85 || n == 0xA0 || n == 0x1680
    || (0x2000 <= n <= 0x200A) || n == 0x2028 || n == 0x2029 || n == 0x202F
    || n == 0x205F || n == 0x3000
  }

  /** Number of leading whitespace characters. */
  function LeadLen(s: string): (n: nat)
    ensures n <= |s|
    ensures forall k | 0 <= k < n :: IsSpace(s[k])
    ensures n < |s| ==> !IsSpace(s[n])
  {
    if |s| > 0 && IsSpace(s[0]) then 1 + LeadLen(s[1..]) else 0
  }

  /** Number of trailing whitespace characters. */
  function TrailLen(s: string): (n: nat)
    ensures n <= |s|
    ensures forall k | |s| - n <= k < |s| :: IsSpace(s[k])
    ensures n < |s| ==> !IsSpace(s[|s| - 1 - n])
  {
    if |s| > 0 && IsSpace(s[|s| - 1]) then 1 + TrailLen(s[..|s| - 1]) else 0
  }

  /** Python's `s.strip()`: the text between the leading and the trailing
      whitespace. */
  function Strip(s: string): (r: string)
    ensures r != [] ==> !IsSpace(r[0]) && !IsSpace(r[|r| - 1])
    ensures r == [] <==> forall k | 0 <= k < |s| :: IsSpace(s[k])
    ensures LeadLen(s) + |r| <= |s|
    ensures forall k | 0 <= k < |r| :: r[k] == s[LeadLen(s) + k]
    ensures forall k | 0 <= k < LeadLen(s) :: IsSpace(s[k])
    ensures forall k | LeadLen(s) + |r| <= k < |s| :: IsSpace(s[k])
  {
    var i := LeadLen(s);
    var t := s[i..];
    var j := TrailLen(t);
    assert forall k | i + |t| - j <= k < |s| :: s[k] == t[k - i];
    t[..|t| - j]
  }

  /** Stripping text that neither starts nor ends with whitespace changes
      nothing. */
  lemma StripUnpadded(s: string)
    requires s != [] && !IsSpace(s[0]) && !IsSpace(s[|s| - 1])
    ensures Strip(s) == s
  {
    var r := Strip(s);
    assert LeadLen(s) == 0;
    assert |r| == |s|;
  }

  predicate IsDigit(c: char)
  {
    '0' <= c <= '9'
  }

  predicate AllDigits(s: string)
  {
    forall k | 0 <= k < |s| :: IsDigit(s[k])
  }

  /** Value of a string of decimal digits, most significant first. */
  function DigitsValue(s: string): nat
    requires AllDigits(s)
  {
    if s == [] then 0
    else DigitsValue(s[..|s| - 1]) * 10 + (s[|s| - 1] as int - '0' as int)
  }

  /** The four ASCII information separators, U+001C to U+001F. `isspace()`
      holds for them and `strip()` removes them, but `int()` does not: it
      skips only tab, line feed, vertical tab, form feed, carriage return and
      space among the ASCII characters (non-ASCII whitespace it reads as a
      space), so text holding a separator anywhere is not a number. */
  predicate IsSeparator(c: char)
  {
    28 <= c as int <= 31
  }

  predicate HasSeparator(s: string)
  {
    exists k | 0 <= k < |s| :: IsSeparator(s[k])
  }

  /** An optional sign and one or more decimal digits, nothing else. */
  function ParseSigned(t: string): Option<int>
  {
    var negative := |t| > 0 && t[0] == '-';
    var body := if |t| > 0 && (t[0] == '-' || t[0] == '+') then t[1..] else t;
    if |body| > 0 && AllDigits(body) then
      var v: int := DigitsValue(body);
      Some(if negative then -v else v)
    else None
  }

  /** Python's `int(s)` on text: surrounding whitespace other than the
      information separators is ignored, then an optional sign and one or
      more decimal digits; anything else is a `ValueError`, modelled as
      `None`. */
  function ParseInt(s: string): Option<int>
  {
    if HasSeparator(s) then None else ParseSigned(Strip(s))
  }

  /** Decimal digits of a natural number, most significant first. */
  function NatDigits(n: nat): (s: string)
    ensures |s| > 0 && AllDigits(s)
  {
    var d := ['0' + (n % 10) as char];
    if n < 10 then d else NatDigits(n / 10) + d
  }

  /** Python's `str(n)`: the text a form posts for the integer `n`. */
  function IntToString(n: int): string
  {
    if n < 0 then "-" + NatDigits(-n) else NatDigits(n)
  }

  lemma {:induction false} NatDigitsValue(n: nat)
    ensures DigitsValue(NatDigits(n)) == n
  {
    var s := NatDigits(n);
    if n >= 10 {
      assert s[..|s| - 1] == NatDigits(n / 10);
      NatDigitsValue(n / 10);
    }
  }

  /** Every integer survives the round trip through its decimal text:
      `int(str(n)) == n`. */
  lemma ParseIntToString(n: int)
    ensures ParseInt(IntToString(n)) == Some(n)
  {
    var s := IntToString(n);
    var d := NatDigits(if n < 0 then -n else n);
    assert IsDigit(d[0]) && IsDigit(d[|d| - 1]);
    assert !IsSpace(s[0]) && !IsSpace(s[|s| - 1]);
    StripUnpadded(s);
    IntToStringNoSeparator(n);
    ParseSignedToString(n);
  }

  /** The sign-and-digits reading of an integer's decimal text. */
  lemma ParseSignedToString(n: int)
    ensures ParseSigned(IntToString(n)) == Some(n)
  {
    var s := IntToString(n);
    var m: nat := if n < 0 then -n else n;
    var d := NatDigits(m);
    NatDigitsValue(m);
    if n < 0 {
      assert s[1..] == d;
    } else {
      assert s == d && s[0] != '-' && s[0] != '+';
    }
  }

  /** The decimal text of an integer holds only digits and a minus sign. */
  lemma IntToStringNoSeparator(n: int)
    ensures !HasSeparator(IntToString(n))
  {
    var s := IntToString(n);
    var d := NatDigits(if n < 0 then -n else n);
    forall k | 0 <= k < |s| ensures !IsSeparator(s[k]) {
      if n < 0 && k > 0 {
        assert s[k] == d[k - 1];
      }
    }
  }

  /** Text with no decimal digit at all (empty, blank, words, a decimal
      point alone) does not parse. */
  lemma ParseIntNeedsDigit(s: string)
    requires forall k | 0 <= k < |s| :: !IsDigit(s[k])
    ensures ParseInt(s) == None
  {
    var t := Strip(s);
    if |t| > 0 {
      var body := if t[0] == '-' || t[0] == '+' then t[1..] else t;
      if |body| > 0 {
        var k := |t| - |body|;
        assert body[0] == t[k] == s[LeadLen(s) + k];
      }
    }
  }

  /** What `int()` skips around a number: whitespace, ASCII or not, other
      than the information separators. */
  lemma ParseIntPadded(pre: string, t: string, post: string)
    requires forall k | 0 <= k < |pre| :: IsSpace(pre[k]) && !IsSeparator(pre[k])
    requires forall k | 0 <= k < |post| :: IsSpace(post[k]) && !IsSeparator(post[k])
    requires t != [] && !IsSpace(t[0]) && !IsSpace(t[|t| - 1]) && !HasSeparator(t)
    ensures ParseInt(pre + t + post) == ParseSigned(t)
  {
    StripPadded(pre, t, post);
    NoSeparatorJoin(pre, t, post);
  }

  /** Joining texts free of separators gives a text free of them. */
  lemma NoSeparatorJoin(pre: string, t: string, post: string)
    requires !HasSeparator(pre) && !HasSeparator(t) && !HasSeparator(post)
    ensures !HasSeparator(pre + t + post)
  {
    var s := pre + t + post;
    forall k | 0 <= k < |s| ensures !IsSeparator(s[k]) {
      if k < |pre| {
        assert s[k] == pre[k];
      } else if k < |pre| + |t| {
        assert s[k] == t[k - |pre|];
      } else {
        assert s[k] == post[k - |pre| - |t|];
      }
    }
  }

  /** An information separator that `strip()` would remove still makes
      `int()` fail. */
  lemma SeparatorPadding()
    ensures Strip("\U{1C}5") == "5" && ParseInt("\U{1C}5") == None
  {
    var c := "\U{1C}5";
    assert c == "\U{1C}" + "5" + "";
    StripPadded("\U{1C}", "5", "");
    assert IsSeparator(c[0]);
  }

  /** Stripping whitespace padding from around text that neither starts nor
      ends with whitespace gives that text back. */
  lemma StripPadded(pre: string, t: string, post: string)
    requires forall k | 0 <= k < |pre| :: IsSpace(pre[k])
    requires forall k | 0 <= k < |post| :: IsSpace(post[k])
    requires t != [] && !IsSpace(t[0]) && !IsSpace(t[|t| - 1])
    ensures Strip(pre + t + post) == t
  {
    var s := pre + t + post;
    var r := Strip(s);
    assert forall k | 0 <= k < |pre| :: s[k] == pre[k];
    assert forall k | 0 <= k < |post| :: s[|pre| + |t| + k] == post[k];
    assert s[|pre|] == t[0];
    assert LeadLen(s) == |pre|;
    assert s[|pre| + |t| - 1] == t[|t| - 1];
    assert |r| == |t|;
    assert forall k | 0 <= k < |t| :: r[k] == s[|pre| + k] == t[k];
  }
}
