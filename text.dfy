/**
 * The text primitives the tracker relies on: stripping surrounding whitespace
 * (Python's `str.strip()`), reading a command-line id (Python's `int()`), and
 * writing an integer in decimal (the f-string `{id}` of a listing line).
 */
module Text {
  import opened Options

  /** Whitespace as `str.strip()` removes it, limited to ASCII: space, \t, \n, \v, \f, \r. */
  predicate IsSpace(c: char) {
    c == ' ' || '\t' <= c <= '\r'
  }

  /** The whitespace characters, one by one: space, tab, line feed, vertical tab, form feed, carriage return. */
  lemma IsSpaceExactly(c: char)
    ensures IsSpace(c) <==> c == ' ' || c == '\t' || c == '\n' || c == '\U{000B}' || c == '\U{000C}' || c == '\r'
  {
  }

  predicate AllSpace(s: string) {
    forall i :: 0 <= i < |s| ==> IsSpace(s[i])
  }

  /** Where the text proper starts: the length of the leading run of whitespace. */
  function TextStart(s: string): (i: nat)
    ensures i <= |s|
    ensures forall k :: 0 <= k < i ==> IsSpace(s[k])
    ensures i < |s| ==> !IsSpace(s[i])
  {
    if s == [] || !IsSpace(s[0]) then 0 else 1 + TextStart(s[1..])
  }

  /** Where the text proper ends: the start of the trailing run of whitespace, not before `lo`. */
  function TextEnd(s: string, lo: nat): (j: nat)
    requires lo <= |s|
    ensures lo <= j <= |s|
    ensures forall k :: j <= k < |s| ==> IsSpace(s[k])
    ensures lo < j ==> !IsSpace(s[j - 1])
  {
    if |s| == lo || !IsSpace(s[|s| - 1]) then |s| else TextEnd(s[..|s| - 1], lo)
  }

  /** Python's `s.strip()`: the text between the leading and the trailing whitespace. */
  function Strip(s: string): (r: string)
    ensures r != [] ==> !IsSpace(r[0]) && !IsSpace(r[|r| - 1])
  {
    var i := TextStart(s);
    s[i..TextEnd(s, i)]
  }

  /**
   * Strip keeps exactly the middle slice of `s`: everything before `i` and
   * after `j` is whitespace, and the slice starts and ends with a non-space.
   */
  lemma StripSlice(s: string) returns (i: nat, j: nat)
    ensures i <= j <= |s| && Strip(s) == s[i..j]
    ensures AllSpace(s[..i]) && AllSpace(s[j..])
    ensures i < j ==> !IsSpace(s[i]) && !IsSpace(s[j - 1])
  {
    i := TextStart(s);
    j := TextEnd(s, i);
  }

  /** A text strips to nothing exactly when it is all whitespace (the "blank" test of add and update). */
  lemma StripBlank(s: string)
    ensures Strip(s) == [] <==> AllSpace(s)
  {
    var i := TextStart(s);
    var j := TextEnd(s, i);
    if AllSpace(s) {
      assert i == |s|;
    }
  }

  /** A text that neither starts nor ends with whitespace is its own strip. */
  lemma StripUnpadded(s: string)
    requires s != [] && !IsSpace(s[0]) && !IsSpace(s[|s| - 1])
    ensures Strip(s) == s
  {
    assert TextStart(s) == 0;
    assert TextEnd(s, 0) == |s|;
  }

  /** Stripping twice is stripping once: the second `strip()` in update_task changes nothing. */
  lemma StripIdempotent(s: string)
    ensures Strip(Strip(s)) == Strip(s)
  {
    var t := Strip(s);
    if t != [] {
      StripUnpadded(t);
    }
  }

  predicate IsDigit(c: char) {
    '0' <= c <= '9'
  }

  predicate IsDecimal(s: string) {
    s != [] && forall i :: 0 <= i < |s| ==> IsDigit(s[i])
  }

  function DigitValue(c: char): nat
    requires IsDigit(c)
  {
    c as int - '0' as int
  }

  function DigitChar(d: nat): (c: char)
    requires d < 10
    ensures IsDigit(c) && DigitValue(c) == d
  {
    ('0' as int + d) as char
  }

  /** The number a string of decimal digits denotes, most significant digit first. */
  function DigitsValue(ds: string): nat
    requires forall i :: 0 <= i < |ds| ==> IsDigit(ds[i])
  {
    if ds == [] then 0 else DigitsValue(ds[..|ds| - 1]) * 10 + DigitValue(ds[|ds| - 1])
  }

  /** The shortest decimal spelling of `n` (no leading zeros). */
  function NatDigits(n: nat): (r: string)
    ensures IsDecimal(r)
    ensures r[0] == '0' ==> n == 0
  {
    if n < 10 then [DigitChar(n)] else NatDigits(n / 10) + [DigitChar(n % 10)]
  }

  /** `str(n)` for an integer: a minus sign for negatives, then the digits. */
  function FormatInt(n: int): (r: string)
    ensures r != [] && (r[0] == '-' <==> n < 0)
  {
    if n < 0 then "-" + NatDigits(-n) else NatDigits(n)
  }

  /** An optional sign followed by one or more decimal digits, and nothing else. */
  function ParseSigned(t: string): Option<int> {
    if t != [] && (t[0] == '-' || t[0] == '+') then
      if IsDecimal(t[1..]) then
        var v: int := DigitsValue(t[1..]);
        Some(if t[0] == '-' then -v else v)
      else
        None
    else if IsDecimal(t) then
      Some(DigitsValue(t))
    else
      None
  }

  /**
   * Python's `int(s)` on a command-line word: surrounding whitespace is
   * ignored, then an optional sign, then one or more decimal digits; anything
   * else is a ValueError, here `None`.
   */
  function ParseInt(s: string): (r: Option<int>)
    ensures r.Some? ==> !AllSpace(s)
  {
    StripBlank(s);
    ParseSigned(Strip(s))
  }

  lemma {:induction false} NatDigitsValue(n: nat)
    ensures DigitsValue(NatDigits(n)) == n
  {
    var ds := NatDigits(n);
    if n >= 10 {
      NatDigitsValue(n / 10);
      assert ds[..|ds| - 1] == NatDigits(n / 10);
    }
  }

  /** A run of digits reads as its value. */
  lemma ParseDigits(ds: string)
    requires IsDecimal(ds)
    ensures ParseInt(ds) == Some(DigitsValue(ds) as int)
  {
    StripUnpadded(ds);
    assert IsDigit(ds[0]);
  }

  lemma SignedNegated(ds: string)
    requires IsDecimal(ds)
    ensures ParseSigned("-" + ds) == Some(-(DigitsValue(ds) as int))
  {
    var m := "-" + ds;
    assert m[1..] == ds;
  }

  lemma StripNegated(ds: string)
    requires IsDecimal(ds)
    ensures Strip("-" + ds) == "-" + ds
  {
    var m := "-" + ds;
    assert m[|m| - 1] == ds[|ds| - 1];
    StripUnpadded(m);
  }

  /** A minus sign followed by a run of digits reads as the negated value. */
  lemma ParseNegated(ds: string)
    requires IsDecimal(ds)
    ensures ParseInt("-" + ds) == Some(-(DigitsValue(ds) as int))
  {
    StripNegated(ds);
    SignedNegated(ds);
  }

  /** Reading back a printed id gives the id: `int(str(n)) == n`. */
  lemma ParseFormat(n: int)
    ensures ParseInt(FormatInt(n)) == Some(n)
  {
    if n < 0 {
      var ds := NatDigits(-n);
      NatDigitsValue(-n);
      ParseNegated(ds);
      assert FormatInt(n) == "-" + ds;
      assert -(DigitsValue(ds) as int) == n;
    } else {
      var ds := NatDigits(n);
      NatDigitsValue(n);
      ParseDigits(ds);
      assert FormatInt(n) == ds;
    }
  }

  /** Words that are not integers raise in `int()`: letters, a decimal point, a hexadecimal prefix, a lone sign. */
  lemma ParseRejects()
    ensures ParseInt("abc") == None
    ensures ParseInt("1.5") == None
    ensures ParseInt("0x1F") == None
    ensures ParseInt(" - ") == None
  {
    StripUnpadded("abc");
    assert !IsDigit("abc"[0]);
    StripUnpadded("1.5");
    assert !IsDigit("1.5"[1]);
    StripUnpadded("0x1F");
    assert !IsDigit("0x1F"[1]);
    assert Strip(" - ") == "-" by {
      assert TextStart(" - ") == 1;
      assert TextEnd(" - ", 1) == 2;
    }
    assert "-"[1..] == [];
  }
}
