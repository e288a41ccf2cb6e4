/** `zeroPaddedString`: a natural number's decimal digits padded with zeros to a given width. */
module FormattedNumber {
  import opened Wrappers
  import Text

  /** The exceptions `zeroPaddedString` throws, in the order it checks for them. */
  datatype PadError =
    | NegativeNumber    // RangeError "negative number"
    | InvalidZeroes     // RangeError "invalid number of zeroes"
    | InvalidPosition   // TypeError "invalid position (before or after only)"
    | InvalidCount      // RangeError from `repeat` with a negative count

  /** `c.repeat(n)` */
  function Repeat(c: char, n: nat): (s: string)
    ensures |s| == n && forall i :: 0 <= i < n ==> s[i] == c
  {
    if n == 0 then "" else [c] + Repeat(c, n - 1)
  }

  /** `zeroPaddedString(num, requiredDigits, position)` over integers. */
  function ZeroPaddedString(num: int, requiredDigits: int, position: string): (r: Result<string, PadError>)
    ensures num < 0 ==> r == Failure(NegativeNumber)
    ensures num >= 0 && requiredDigits < 0 ==> r == Failure(InvalidZeroes)
    ensures num >= 0 && requiredDigits >= 0 && position != "before" && position != "after" ==> r == Failure(InvalidPosition)
    ensures r.Success? <==>
      num >= 0 && (position == "before" || position == "after") && |Text.NatToString(num)| <= requiredDigits
    ensures r.Success? ==> |r.value| == requiredDigits
    ensures r.Failure? && r.error == InvalidCount ==> num >= 0 && requiredDigits >= 0 && |Text.NatToString(num)| > requiredDigits
  {
    if num < 0 then Failure(NegativeNumber)
    else if requiredDigits < 0 then Failure(InvalidZeroes)
    else if position != "before" && position != "after" then Failure(InvalidPosition)
    else
      // `(num + "").replace(".", "")` is the digit string itself for a natural number
      var digits := Text.NatToString(num);
      var requiredZeroes := requiredDigits - |digits|;
      if requiredZeroes < 0 then Failure(InvalidCount)
      else
        var zeroes := Repeat('0', requiredZeroes);
        Success(if position == "before" then zeroes + digits else digits + zeroes)
  }

  function Pow10(k: nat): nat
  {
    if k == 0 then 1 else 10 * Pow10(k - 1)
  }

  /** A string of zeros reads as 0. */
  lemma {:induction false} ZerosValue(k: nat)
    ensures Text.DigitsValue(Repeat('0', k)) == 0
  {
    if k > 0 {
      var z := Repeat('0', k);
      assert z[..k - 1] == Repeat('0', k - 1);
      ZerosValue(k - 1);
    }
  }

  /** Leading zeros do not change the value of a numeral. */
  lemma {:induction false} LeadingZerosValue(k: nat, d: string)
    requires forall i :: 0 <= i < |d| ==> Text.IsDigit(d[i])
    ensures Text.DigitsValue(Repeat('0', k) + d) == Text.DigitsValue(d)
    decreases |d|
  {
    var s := Repeat('0', k) + d;
    if d == [] {
      assert s == Repeat('0', k);
      ZerosValue(k);
    } else {
      assert s[..|s| - 1] == Repeat('0', k) + d[..|d| - 1];
      LeadingZerosValue(k, d[..|d| - 1]);
    }
  }

  /** Trailing zeros multiply the value of a numeral by a power of ten. */
  lemma {:induction false} TrailingZerosValue(d: string, k: nat)
    requires forall i :: 0 <= i < |d| ==> Text.IsDigit(d[i])
    ensures Text.DigitsValue(d + Repeat('0', k)) == Text.DigitsValue(d) * Pow10(k)
  {
    if k == 0 {
      assert d + Repeat('0', 0) == d;
    } else {
      var s, shorter := d + Repeat('0', k), d + Repeat('0', k - 1);
      assert s[..|s| - 1] == shorter && s[|s| - 1] == '0';
      assert forall i :: 0 <= i < |shorter| ==> Text.IsDigit(shorter[i]);
      assert Text.DigitsValue(s) == Text.DigitsValue(shorter) * 10;
      TrailingZerosValue(d, k - 1);
      ShiftDecimal(Text.DigitsValue(d), Pow10(k - 1));
    }
  }

  lemma ShiftDecimal(v: int, p: int)
    ensures v * p * 10 == v * (10 * p)
  {
  }

  /**
   * With `before`, the padded string is a numeral of exactly the required width
   * whose value is the number itself.
   */
  lemma PadBeforeValue(num: nat, requiredDigits: int)
    requires ZeroPaddedString(num, requiredDigits, "before").Success?
    ensures Text.DigitsValue(ZeroPaddedString(num, requiredDigits, "before").value) == num
  {
    var digits := Text.NatToString(num);
    LeadingZerosValue(requiredDigits - |digits|, digits);
    Text.DigitsValueOfNatToString(num);
  }

  /**
   * With `after`, the padded string starts with the number's digits and reads
   * as the number times ten to the count of zeros added.
   */
  lemma PadAfterValue(num: nat, requiredDigits: int)
    requires ZeroPaddedString(num, requiredDigits, "after").Success?
    ensures Text.NatToString(num) <= ZeroPaddedString(num, requiredDigits, "after").value
    ensures Text.DigitsValue(ZeroPaddedString(num, requiredDigits, "after").value)
         == num * Pow10(requiredDigits - |Text.NatToString(num)|)
  {
    var digits := Text.NatToString(num);
    TrailingZerosValue(digits, requiredDigits - |digits|);
    Text.DigitsValueOfNatToString(num);
  }

  /** A number with as many digits as required comes back unpadded in either position. */
  lemma ExactWidth(num: nat, position: string)
    requires position == "before" || position == "after"
    ensures ZeroPaddedString(num, |Text.NatToString(num)|, position) == Success(Text.NatToString(num))
  {
    var digits := Text.NatToString(num);
    assert Repeat('0', 0) + digits == digits;
    assert digits + Repeat('0', 0) == digits;
  }
}
