/**
 * The number stepper and reps toggle of one settings row
 * (`handleIncrement`, `handleDecrement`, `handleToggle`). Each handler hands
 * at most one value to its callback; `None` means the callback is not called.
 */
module Stepper {
  import opened Wrappers
  import opened Strings

  /** The longest prefix of `s` made of decimal digits. */
  function LeadingDigits(s: string): (r: string)
    ensures IsDigits(r) && StartsWith(s, r)
    ensures |r| < |s| ==> !IsDigit(s[|r|])
  {
    if s != [] && IsDigit(s[0]) then [s[0]] + LeadingDigits(s[1..]) else []
  }

  /**
   * `parseInt(value) || 0`: an optional sign and the digits that follow it;
   * without digits `parseInt` gives `NaN`, which `|| 0` turns into 0.
   */
  function ParseIntOrZero(s: string): int {
    var negative := |s| > 0 && s[0] == '-';
    var body := if |s| > 0 && (s[0] == '-' || s[0] == '+') then s[1..] else s;
    var digits := LeadingDigits(body);
    var magnitude: int := if digits == [] then 0 else DigitsValue(digits);
    if negative then -magnitude else magnitude
  }

  /** JavaScript's `toString` of an integer. */
  function IntToString(i: int): string {
    if i < 0 then "-" + Decimal(-i) else Decimal(i)
  }

  lemma LeadingDigitsOfDigits(s: string)
    requires IsDigits(s)
    ensures LeadingDigits(s) == s
  {
    if s != [] {
      LeadingDigitsOfDigits(s[1..]);
      assert [s[0]] + s[1..] == s;
    }
  }

  /** Printing an integer and parsing it back gives the integer. */
  lemma IntToStringRoundTrip(i: int)
    ensures ParseIntOrZero(IntToString(i)) == i
  {
    var n: nat := if i < 0 then -i else i;
    DecimalValue(n);
    LeadingDigitsOfDigits(Decimal(n));
    if i < 0 {
      assert IntToString(i)[1..] == Decimal(n);
      assert Decimal(n) != [];
    } else {
      assert Decimal(n)[0] != '-' && Decimal(n)[0] != '+' by { assert IsDigit(Decimal(n)[0]); }
    }
  }

  /** `handleIncrement`: a number input emits its value plus one; any other input re-emits its value. */
  function Increment(isNumberInput: bool, value: string): (emitted: Option<string>)
    ensures emitted.Some?
    ensures isNumberInput ==> ParseIntOrZero(emitted.value) == ParseIntOrZero(value) + 1
    ensures !isNumberInput ==> emitted.value == value
  {
    if isNumberInput then
      var numValue := ParseIntOrZero(value);
      IntToStringRoundTrip(numValue + 1);
      Some(IntToString(numValue + 1))
    else
      Some(value)
  }

  /**
   * `handleDecrement`: a number input emits its value minus one only when the
   * value is positive, so it never emits a negative number; any other input
   * re-emits its value.
   */
  function Decrement(isNumberInput: bool, value: string): (emitted: Option<string>)
    ensures isNumberInput ==> (emitted.Some? <==> ParseIntOrZero(value) > 0)
    ensures isNumberInput && emitted.Some? ==>
              ParseIntOrZero(emitted.value) == ParseIntOrZero(value) - 1 >= 0
    ensures !isNumberInput ==> emitted == Some(value)
  {
    if isNumberInput then
      var numValue := ParseIntOrZero(value);
      if numValue > 0 then
        IntToStringRoundTrip(numValue - 1);
        Some(IntToString(numValue - 1))
      else
        None
    else
      Some(value)
  }

  /** `handleToggle`: with a toggle callback, emits the negation of the toggle's state; without one, nothing. */
  function Toggle(hasToggleCallback: bool, isToggleOn: bool): (emitted: Option<bool>)
    ensures emitted.Some? <==> hasToggleCallback
    ensures emitted.Some? ==> emitted.value != isToggleOn
  {
    if hasToggleCallback then Some(!isToggleOn) else None
  }

  /** The stepper on the values its row is shown with. */
  lemma StepperExamples()
    ensures Increment(true, "3") == Some("4")
    ensures Increment(true, "invalid") == Some("1")
    ensures Decrement(true, "3") == Some("2")
    ensures Decrement(true, "0") == None
    ensures Decrement(true, "invalid") == None
    ensures Increment(false, "10:30") == Some("10:30") && Decrement(false, "10:30") == Some("10:30")
  {
    assert LeadingDigits("3") == "3" by { LeadingDigitsOfDigits("3"); }
    assert LeadingDigits("0") == "0" by { LeadingDigitsOfDigits("0"); }
    assert LeadingDigits("invalid") == [];
    assert DigitsValue("3") == 3 by { assert "3"[..0] == []; }
    assert DigitsValue("0") == 0 by { assert "0"[..0] == []; }
  }
}
