/**
 * The text a quantity input accepts, `""` or `^[1-9]\d*$`, shared by the
 * bicycle page and the cart page, and the integer such a text denotes.
 */
module QuantityText {

  predicate IsDigit(c: char) {
    '0' <= c <= '9'
  }

  predicate AllDigits(s: string) {
    forall i :: 0 <= i < |s| ==> IsDigit(s[i])
  }

  /** `s` matches `^[1-9]\d*$`: a non-empty digit string without a leading zero. */
  predicate IsPositiveDecimal(s: string) {
    |s| > 0 && '1' <= s[0] <= '9' && AllDigits(s)
  }

  /** What a quantity field lets through: an empty text, or a positive decimal. */
  predicate AcceptsQuantityInput(s: string) {
    s == "" || IsPositiveDecimal(s)
  }

  /** The number a digit string denotes (`parseInt(s, 10)` on such a string). */
  function DecimalValue(s: string): nat
    requires AllDigits(s)
  {
    if s == "" then 0
    else DecimalValue(s[..|s| - 1]) * 10 + (s[|s| - 1] as int - '0' as int)
  }

  /** The decimal spelling of a positive integer (`String(n)`). */
  function DecimalText(n: nat): (s: string)
    requires n >= 1
    ensures IsPositiveDecimal(s)
  {
    var d := ('0' as int + n % 10) as char;
    if n < 10 then [d]
    else
      var prefix := DecimalText(n / 10);
      assert forall i :: 0 <= i < |prefix| ==> (prefix + [d])[i] == prefix[i];
      prefix + [d]
  }

  /** Every accepted non-empty quantity text denotes at least one unit. */
  lemma {:induction false} PositiveDecimalAtLeastOne(s: string)
    requires IsPositiveDecimal(s)
    ensures DecimalValue(s) >= 1
  {
    if |s| > 1 {
      var prefix := s[..|s| - 1];
      assert prefix[0] == s[0];
      assert IsPositiveDecimal(prefix);
      PositiveDecimalAtLeastOne(prefix);
    }
  }

  /** Spelling a positive integer and reading it back yields that integer. */
  lemma {:induction false} ValueOfText(n: nat)
    requires n >= 1
    ensures DecimalValue(DecimalText(n)) == n
    decreases n
  {
    var s := DecimalText(n);
    if n >= 10 {
      ValueOfText(n / 10);
      assert s[..|s| - 1] == DecimalText(n / 10);
    }
  }

  /** Reading an accepted text and spelling the value yields that text: the accepted texts are exactly the spellings. */
  lemma {:induction false} TextOfValue(s: string)
    requires IsPositiveDecimal(s)
    ensures DecimalValue(s) >= 1 && DecimalText(DecimalValue(s)) == s
    decreases |s|
  {
    PositiveDecimalAtLeastOne(s);
    var n := DecimalValue(s);
    var last := s[|s| - 1] as int - '0' as int;
    if |s| == 1 {
      assert n == last;
      assert DecimalText(n) == [s[0]];
    } else {
      var prefix := s[..|s| - 1];
      assert prefix[0] == s[0];
      assert IsPositiveDecimal(prefix);
      TextOfValue(prefix);
      PositiveDecimalAtLeastOne(prefix);
      assert n == DecimalValue(prefix) * 10 + last;
      assert n / 10 == DecimalValue(prefix) && n % 10 == last;
      assert s == prefix + [s[|s| - 1]];
    }
  }

  /** The input rule accepts exactly the empty text and the spellings of positive integers. */
  lemma AcceptedTextsAreSpellings(s: string)
    ensures AcceptsQuantityInput(s) <==> s == "" || exists n: nat :: n >= 1 && DecimalText(n) == s
  {
    if IsPositiveDecimal(s) {
      TextOfValue(s);
    }
  }
}
