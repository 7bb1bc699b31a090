/** The string handling the ledger applies to form input: whitespace
    stripping (Python's `str.strip()`) and the four-digit PIN check. */
module Text {

  /** Python's `str.isspace()` for one character: the code points whose
      bidirectional class is WS, B or S, or whose category is Zs. */
  predicate IsSpace(c: char)
  {
    var k := c as int;
    || k == 0x20
    || 0x09 <= k <= 0x0D
    || 0x1C <= k <= 0x1F
    || k == 0x85
    || k == 0xA0
    || k == 0x1680
    || 0x2000 <= k <= 0x200A
    || k == 0x2028
    || k == 0x2029
    || k == 0x202F
    || k == 0x205F
    || k == 0x3000
  }

  /** An ASCII decimal digit. */
  predicate IsDigit(c: char)
  {
    '0' <= c <= '9'
  }

  /** The number of whitespace characters `s` starts with. */
  function LeadingSpaces(s: string): (n: nat)
    ensures n <= |s|
    ensures forall k :: 0 <= k < n ==> IsSpace(s[k])
    ensures n < |s| ==> !IsSpace(s[n])
    decreases |s|
  {
    if |s| > 0 && IsSpace(s[0]) then 1 + LeadingSpaces(s[1..]) else 0
  }

  /** The number of whitespace characters `s` ends with. */
  function TrailingSpaces(s: string): (n: nat)
    ensures n <= |s|
    ensures forall k :: |s| - n <= k < |s| ==> IsSpace(s[k])
    ensures n < |s| ==> !IsSpace(s[|s| - n - 1])
    decreases |s|
  {
    if |s| > 0 && IsSpace(s[|s| - 1]) then 1 + TrailingSpaces(s[..|s| - 1]) else 0
  }

  /** Python's `s.strip()`: the slice of `s` after its leading whitespace
      with whitespace only after it and a non-space character at each end
      of it. In particular it is empty exactly when `s` is all whitespace. */
  function Strip(s: string): (r: string)
    ensures var i := LeadingSpaces(s);
            && i + |r| <= |s|
            && r == s[i..i + |r|]
            && forall k :: i + |r| <= k < |s| ==> IsSpace(s[k])
    ensures |r| > 0 ==> !IsSpace(r[0]) && !IsSpace(r[|r| - 1])
    ensures r == [] <==> forall k :: 0 <= k < |s| ==> IsSpace(s[k])
  {
    var i := LeadingSpaces(s);
    var t := s[i..];
    var r := t[..|t| - TrailingSpaces(t)];
    assert r == s[i..i + |r|];
    assert forall k :: i + |r| <= k < |s| ==> s[k] == t[k - i];
    r
  }

  /** A string with no whitespace at either end is its own strip. */
  lemma StripUntrimmed(s: string)
    requires |s| > 0 ==> !IsSpace(s[0]) && !IsSpace(s[|s| - 1])
    ensures Strip(s) == s
  {
  }

  /** Stripping twice is stripping once. */
  lemma StripIdempotent(s: string)
    ensures Strip(Strip(s)) == Strip(s)
  {
    StripUntrimmed(Strip(s));
  }

  /** Every character is a digit (the recursive form of `str.isdigit()`
      on a non-empty string). */
  predicate AllDigits(s: string)
    decreases |s|
  {
    |s| == 0 || (IsDigit(s[0]) && AllDigits(s[1..]))
  }

  /** app.py `validate_pin`: exactly four characters, all digits; the
      empty string and every other length are refused. */
  function ValidatePin(pin: string): (ok: bool)
    ensures ok <==> |pin| == 4 && forall k :: 0 <= k < |pin| ==> IsDigit(pin[k])
  {
    AllDigitsMeans(pin);
    |pin| == 4 && AllDigits(pin)
  }

  /** The recursive digit check agrees with the character-wise one. */
  lemma {:induction false} AllDigitsMeans(s: string)
    ensures AllDigits(s) <==> forall k :: 0 <= k < |s| ==> IsDigit(s[k])
    decreases |s|
  {
    if |s| > 0 {
      AllDigitsMeans(s[1..]);
      assert forall k :: 1 <= k < |s| ==> s[k] == s[1..][k - 1];
    }
  }

  /** Strip removes exactly the whitespace around a core that neither
      starts nor ends with whitespace. */
  lemma StripAround(pre: string, core: string, post: string)
    requires forall k :: 0 <= k < |pre| ==> IsSpace(pre[k])
    requires forall k :: 0 <= k < |post| ==> IsSpace(post[k])
    requires |core| > 0 ==> !IsSpace(core[0]) && !IsSpace(core[|core| - 1])
    ensures Strip(pre + core + post) == core
  {
    var s := pre + core + post;
    var r := Strip(s);
    var i := LeadingSpaces(s);
    if |core| == 0 {
      assert forall k :: 0 <= k < |s| ==> IsSpace(s[k]) by {
        forall k | 0 <= k < |s| ensures IsSpace(s[k]) {
          if k < |pre| { assert s[k] == pre[k]; } else { assert s[k] == post[k - |pre|]; }
        }
      }
    } else {
      assert s[|pre|] == core[0];
      assert forall k :: 0 <= k < |pre| ==> s[k] == pre[k];
      assert i == |pre|;
      assert s[|pre| + |core| - 1] == core[|core| - 1];
      assert forall k :: |pre| + |core| <= k < |s| ==> s[k] == post[k - |pre| - |core|];
      assert |r| == |core|;
      assert s[|pre|..|pre| + |core|] == core;
    }
  }

  /** Leading whitespace before a name is stripped. */
  lemma StripNameExample()
    ensures Strip("  Bob") == "Bob"
  {
    StripAround("  ", "Bob", "");
    assert "  " + "Bob" + "" == "  Bob";
  }

  /** Whitespace on both sides of a PIN is stripped. */
  lemma StripPinExample()
    ensures Strip(" 1234 ") == "1234"
  {
    StripAround(" ", "1234", " ");
    assert " " + "1234" + " " == " 1234 ";
  }

  /** Four ASCII digits make a valid PIN; three, five, or a letter among
      them do not. */
  lemma PinExamples()
    ensures ValidatePin("1234") && ValidatePin("5678")
    ensures !ValidatePin("123") && !ValidatePin("12345") && !ValidatePin("12a4")
  {
    assert !IsDigit("12a4"[2]);
  }
}
