/**
 The counter widget of one funnel metric: a minus button that stops at zero,
 a plus button, and a number field read with JavaScript's `parseInt`. Zero is
 shown as an empty field. The widget's icon is drawn as an image when it
 looks like a URL and as an icon-font class otherwise.
 */
module CounterWidget {
  import opened Model
  import opened Text

  /** The minus button: `Math.max(0, value - 1)`. */
  function Decrement(value: nat): (r: nat)
    ensures r <= value
    ensures value > 0 ==> r + 1 == value
    ensures value == 0 ==> r == 0
  {
    if value == 0 then 0 else value - 1
  }

  /** The plus button. */
  function Increment(value: nat): (r: nat)
    ensures r > value
  {
    value + 1
  }

  /** Minus undoes plus, and plus undoes minus away from zero. */
  lemma IncrementDecrement(value: nat)
    ensures Decrement(Increment(value)) == value
    ensures value > 0 ==> Increment(Decrement(value)) == value
  {
  }

  /** StrWhiteSpaceChar of ECMA-262 (White Space, section 12.2, and Line Terminators, section 12.3): the characters
      `parseInt` skips before the number. */
  predicate IsStrWhiteSpace(c: char)
  {
    || c == '\t' || c == '\n' || c == '\U{B}' || c == '\U{C}' || c == '\r' || c == ' '
    || c == '\U{A0}' || c == '\U{1680}' || ('\U{2000}' <= c <= '\U{200A}')
    || c == '\U{2028}' || c == '\U{2029}' || c == '\U{202F}' || c == '\U{205F}'
    || c == '\U{3000}' || c == '\U{FEFF}'
  }

  /** The input without its leading white space. */
  function TrimStart(s: string): (r: string)
    ensures |r| <= |s| && r == s[|s| - |r|..]
    ensures forall i :: 0 <= i < |s| - |r| ==> IsStrWhiteSpace(s[i])
    ensures |r| > 0 ==> !IsStrWhiteSpace(r[0])
  {
    if |s| > 0 && IsStrWhiteSpace(s[0]) then TrimStart(s[1..]) else s
  }

  /** The value of `c` as a digit in base 10 or 16, if it is one. */
  function RadixDigit(c: char, radix: nat): (r: Option<nat>)
    requires radix == 10 || radix == 16
    ensures r.Some? ==> r.value < radix
    ensures radix == 10 ==> (r.Some? <==> IsDigit(c))
    ensures IsDigit(c) ==> r == Some(DigitValue(c))
  {
    var v :=
      if '0' <= c <= '9' then Some((c as int - '0' as int) as nat)
      else if 'a' <= c <= 'f' then Some((c as int - 'a' as int + 10) as nat)
      else if 'A' <= c <= 'F' then Some((c as int - 'A' as int + 10) as nat)
      else None;
    if v.Some? && v.value < radix then v else None
  }

  predicate AllDigits(s: string, radix: nat)
    requires radix == 10 || radix == 16
  {
    forall i :: 0 <= i < |s| ==> RadixDigit(s[i], radix).Some?
  }

  /** The length of the longest prefix made of digits. */
  function DigitPrefix(s: string, radix: nat): (n: nat)
    requires radix == 10 || radix == 16
    ensures n <= |s|
    ensures AllDigits(s[..n], radix)
    ensures n < |s| ==> RadixDigit(s[n], radix).None?
  {
    if |s| == 0 || RadixDigit(s[0], radix).None? then 0
    else
      var n := 1 + DigitPrefix(s[1..], radix);
      assert forall i :: 1 <= i < n ==> s[..n][i] == s[1..][..n - 1][i - 1];
      n
  }

  /** The number the digits denote, most significant first. */
  function RadixValue(s: string, radix: nat): nat
    requires radix == 10 || radix == 16
    requires AllDigits(s, radix)
  {
    if |s| == 0 then 0
    else RadixValue(s[..|s| - 1], radix) * radix + RadixDigit(s[|s| - 1], radix).value
  }

  /** `parseInt(text)` with no radix, as section 19.2.5 of ECMA-262 defines
      it: skip white space, take an optional sign, switch to base 16 after
      "0x" or "0X", read the longest digit prefix; no digits is NaN (None). */
  function ParseInt(text: string): (r: Option<int>)
  {
    var s := TrimStart(text);
    if |s| > 0 && s[0] == '-' then Negate(ParseUnsigned(s[1..]))
    else if |s| > 0 && s[0] == '+' then ParseUnsigned(s[1..])
    else ParseUnsigned(s)
  }

  function Negate(v: Option<nat>): (r: Option<int>)
    ensures r.None? <==> v.None?
    ensures v.Some? ==> r.value == 0 - v.value
  {
    match v
    case None => None
    case Some(n) => Some(0 - n)
  }

  /** The digits after the sign, in base 16 behind a "0x" or "0X" prefix. */
  function ParseUnsigned(s: string): (r: Option<nat>)
  {
    if |s| >= 2 && s[0] == '0' && (s[1] == 'x' || s[1] == 'X') then ParseDigits(s[2..], 16)
    else ParseDigits(s, 10)
  }

  /** The value of the longest digit prefix, or None when there is none. */
  function ParseDigits(s: string, radix: nat): (r: Option<nat>)
    requires radix == 10 || radix == 16
    ensures r.None? <==> DigitPrefix(s, radix) == 0
  {
    var n := DigitPrefix(s, radix);
    if n == 0 then None else Some(RadixValue(s[..n], radix))
  }

  /** The typed-input handler: NaN becomes 0 and negatives are clamped to 0. */
  function TypedValue(text: string): nat
  {
    match ParseInt(text)
    case None => 0
    case Some(v) => if v < 0 then 0 else v
  }

  /** What the field shows: nothing for zero, else the decimal rendering. */
  function DisplayValue(value: nat): (s: string)
    ensures s == "" <==> value == 0
  {
    if value == 0 then "" else NatToString(value)
  }

  lemma {:induction false} RadixValueDecimal(s: string)
    requires forall i :: 0 <= i < |s| ==> IsDigit(s[i])
    ensures AllDigits(s, 10)
    ensures RadixValue(s, 10) == DigitsValue(s)
    decreases |s|
  {
    if |s| > 0 {
      RadixValueDecimal(s[..|s| - 1]);
    }
  }

  /** A string that starts with a digit other than a "0x" prefix is read in
      base 10 up to its first non-digit. */
  lemma ParseDecimal(s: string)
    requires |s| > 0 && IsDigit(s[0])
    requires |s| >= 2 && s[0] == '0' ==> s[1] != 'x' && s[1] != 'X'
    ensures ParseInt(s) == ParseDigits(s, 10)
    ensures ParseUnsigned(s) == ParseDigits(s, 10)
  {
    assert !IsStrWhiteSpace(s[0]);
    assert TrimStart(s) == s;
    assert ParseInt(s) == ParseUnsigned(s);
  }

  /** All of a string of decimal digits is read. */
  lemma ParseAllDigits(s: string)
    requires |s| > 0 && forall i :: 0 <= i < |s| ==> IsDigit(s[i])
    ensures ParseDigits(s, 10) == Some(DigitsValue(s))
  {
    RadixValueDecimal(s);
    var k := DigitPrefix(s, 10);
    assert k == |s|;
    assert s[..k] == s;
  }

  /** The decimal rendering of a natural parses back to it. */
  lemma ParseNatToString(n: nat)
    ensures ParseInt(NatToString(n)) == Some(n)
    ensures ParseUnsigned(NatToString(n)) == Some(n)
  {
    ParseDecimal(NatToString(n));
    ParseAllDigits(NatToString(n));
    DigitsValueOfNatToString(n);
  }

  /** Reading back what the field shows gives the counter's value: the field
      and the counter never disagree. */
  lemma TypedDisplayRoundTrip(value: nat)
    ensures TypedValue(DisplayValue(value)) == value
  {
    if value > 0 {
      ParseNatToString(value);
    }
  }

  /** Clearing the field sets the counter to zero. */
  lemma EmptyFieldIsZero()
    ensures ParseInt("").None? && TypedValue("") == 0
  {
  }

  /** A leading minus negates what follows it. */
  lemma ParseMinus(u: string)
    ensures ParseInt("-" + u) == Negate(ParseUnsigned(u))
  {
    var s := "-" + u;
    TrimStartStops(s);
    assert s[1..] == u;
  }

  /** Typing a negative number sets the counter to zero. */
  lemma NegativeIsClamped(n: nat)
    ensures ParseInt("-" + NatToString(n)) == Some(0 - n)
    ensures TypedValue("-" + NatToString(n)) == 0
  {
    ParseMinus(NatToString(n));
    ParseNatToString(n);
    TypedOfParsed("-" + NatToString(n), 0 - n);
  }

  lemma TrimStartStops(s: string)
    requires |s| > 0 && !IsStrWhiteSpace(s[0])
    ensures TrimStart(s) == s
  {
  }

  lemma TrimStartSkips(s: string)
    requires |s| > 0 && IsStrWhiteSpace(s[0])
    ensures TrimStart(s) == TrimStart(s[1..])
  {
  }

  /** Leading white space does not change what is read. */
  lemma LeadingSpaceIgnored(c: char, text: string)
    requires IsStrWhiteSpace(c)
    ensures ParseInt([c] + text) == ParseInt(text)
  {
    TrimStartSkips([c] + text);
    assert ([c] + text)[1..] == text;
  }

  /** Whatever follows the digits is ignored: "12abc" and "3.7" read as the
      numbers their digits spell. After a lone "0" an 'x' would start a
      base-16 number instead. */
  lemma TrailingTextIgnored(n: nat, rest: string)
    requires |rest| == 0 || !IsDigit(rest[0])
    requires n == 0 && |rest| > 0 ==> rest[0] != 'x' && rest[0] != 'X'
    ensures TypedValue(NatToString(n) + rest) == n
  {
    var s := NatToString(n) + rest;
    DecimalStart(n, rest);
    DigitsThenRest(NatToString(n), rest);
    DigitsValueOfNatToString(n);
    TypedOfParsed(s, n);
  }

  /** A decimal rendering followed by anything but an 'x' after a lone "0" is
      read in base 10. */
  lemma DecimalStart(n: nat, rest: string)
    requires n == 0 && |rest| > 0 ==> rest[0] != 'x' && rest[0] != 'X'
    ensures ParseInt(NatToString(n) + rest) == ParseDigits(NatToString(n) + rest, 10)
  {
    var digits := NatToString(n);
    var s := digits + rest;
    assert s[0] == digits[0];
    if |s| >= 2 && s[0] == '0' {
      assert n == 0;
      assert s[1] == rest[0];
    }
    ParseDecimal(s);
  }

  /** Digits followed by a non-digit read as the value of the digits. */
  lemma DigitsThenRest(digits: string, rest: string)
    requires |digits| > 0 && forall i :: 0 <= i < |digits| ==> IsDigit(digits[i])
    requires |rest| == 0 || !IsDigit(rest[0])
    ensures ParseDigits(digits + rest, 10) == Some(DigitsValue(digits))
  {
    var s := digits + rest;
    assert DigitPrefix(s, 10) == |digits| by {
      assert forall i :: 0 <= i < |digits| ==> s[i] == digits[i];
      DigitPrefixOfDigits(s, |digits|);
    }
    assert s[..|digits|] == digits;
    RadixValueDecimal(digits);
  }

  lemma TypedOfParsed(text: string, v: int)
    requires ParseInt(text) == Some(v)
    ensures TypedValue(text) == if v < 0 then 0 else v
  {
  }

  /** A run of `m` decimal digits followed by a non-digit is a digit prefix
      of length `m`. */
  lemma {:induction false} DigitPrefixOfDigits(s: string, m: nat)
    requires m <= |s|
    requires forall i :: 0 <= i < m ==> IsDigit(s[i])
    requires m < |s| ==> !IsDigit(s[m])
    ensures DigitPrefix(s, 10) == m
    decreases m
  {
    if m > 0 {
      DigitPrefixOfDigits(s[1..], m - 1);
    }
  }

  /** Behind a "0x" prefix the digits are read in base 16. */
  lemma HexPrefix(body: string)
    ensures ParseInt("0x" + body) == ParseDigits(body, 16)
  {
    var s := "0x" + body;
    TrimStartStops(s);
    assert s[2..] == body;
  }

  /** `isImageUrl`: a data URI, a web address, or anything with a slash. */
  predicate IsImageUrl(icon: string)
  {
    StartsWith(icon, "data:") || StartsWith(icon, "http") || '/' in icon
  }

  /** An icon-font class name ("fa-" and no slash) is never taken for an
      image, while any path, link or data URI is. */
  lemma IconFontIsNotImage(icon: string)
    requires StartsWith(icon, "fa-") && '/' !in icon
    ensures !IsImageUrl(icon)
  {
    assert icon[0] == "fa-"[0] == 'f';
    assert !StartsWith(icon, "data:") by {
      if |icon| >= 5 { assert icon[..5][0] == 'f'; }
    }
    assert !StartsWith(icon, "http") by {
      if |icon| >= 4 { assert icon[..4][0] == 'f'; }
    }
  }

  lemma ImageSources(prefix: string, rest: string)
    requires prefix == "data:" || prefix == "http" || '/' in prefix
    ensures IsImageUrl(prefix + rest)
  {
    var icon := prefix + rest;
    assert icon[..|prefix|] == prefix;
    if '/' in prefix {
      var i :| 0 <= i < |prefix| && prefix[i] == '/';
      assert icon[i] == '/';
    }
  }

  /** Icon-font class names are not images; a data URI and a link are. */
  lemma IconExamples()
    ensures !IsImageUrl("fa-fish-fins")
    ensures IsImageUrl("data:image/png;base64,AAAA")
    ensures IsImageUrl("https://example.org/hook.png")
    ensures IsImageUrl("icons/lure.svg")
  {
    var fish := "fa-fish-fins";
    assert fish[..5] != "data:" by { assert fish[..5][0] == 'f'; }
    assert fish[..4] != "http" by { assert fish[..4][0] == 'f'; }
    assert forall i :: 0 <= i < |fish| ==> fish[i] != '/';
    assert "icons/lure.svg"[5] == '/';
  }
}
