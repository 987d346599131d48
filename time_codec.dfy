/**
 * The "MM:SS" duration codec of the dashboard (`timeStringToSeconds` and
 * `secondsToTimeString`).
 */
module TimeCodec {
  import opened Wrappers
  import opened Strings

  /**
   * JavaScript's `Number(field)` on the fields a duration string splits into:
   * a string of decimal digits is its value (the empty string is 0); any other
   * field is `NaN`, written `None`.
   */
  function FieldNumber(f: string): (r: Option<nat>)
    ensures r.Some? <==> IsDigits(f)
    ensures r.Some? ==> r.value == DigitsValue(f)
    ensures f == "" ==> r == Some(0)
  {
    if IsDigits(f) then Some(DigitsValue(f)) else None
  }

  /**
   * Splits at ':' and reads the first two fields as minutes and seconds;
   * further fields are ignored. `None` stands for `NaN`: a missing seconds
   * field or a field that is not a number.
   */
  function TimeStringToSeconds(t: string): Option<nat>
  {
    var fields := Split(t, ':');
    if |fields| < 2 then
      None
    else
      match (FieldNumber(fields[0]), FieldNumber(fields[1]))
      case (Some(minutes), Some(seconds)) => Some(minutes * 60 + seconds)
      case _ => None
  }

  /** Minutes and seconds, each at least two digits wide. */
  function SecondsToTimeString(n: nat): (r: string)
    ensures |r| >= 5 && r[|r| - 3] == ':'
    ensures IsDigits(r[..|r| - 3]) && DigitsValue(r[..|r| - 3]) == n / 60
    ensures IsDigits(r[|r| - 2..]) && DigitsValue(r[|r| - 2..]) == n % 60
  {
    var mins := PadStart(Decimal(n / 60), 2);
    var secs := PadStart(Decimal(n % 60), 2);
    PadStartDigits(Decimal(n / 60), 2);
    PadStartDigits(Decimal(n % 60), 2);
    DecimalValue(n / 60);
    DecimalValue(n % 60);
    assert |Decimal(n % 60)| <= 2 by { DecimalShort(n % 60); }
    var r := mins + ":" + secs;
    assert r[..|r| - 3] == mins && r[|r| - 2..] == secs;
    r
  }

  lemma DecimalShort(n: nat)
    requires n < 100
    ensures |Decimal(n)| <= 2
  {
  }

  lemma {:induction false} SplitAround(m: string, s: string)
    requires ':' !in m && ':' !in s
    ensures Split(m + ":" + s, ':') == [m, s]
  {
    if m == [] {
      assert (m + ":" + s)[1..] == s;
      SplitWithout(s, ':');
    } else {
      assert (m + ":" + s)[1..] == m[1..] + ":" + s;
      SplitAround(m[1..], s);
      assert [m[0]] + m[1..] == m;
    }
  }

  lemma NoColonInDigits(f: string)
    requires IsDigits(f)
    ensures ':' !in f
  {
  }

  /** Two digit fields around one ':' decode to minutes * 60 + seconds. */
  lemma ParseFields(m: string, s: string)
    requires IsDigits(m) && IsDigits(s)
    ensures TimeStringToSeconds(m + ":" + s) == Some(DigitsValue(m) * 60 + DigitsValue(s))
  {
    NoColonInDigits(m);
    NoColonInDigits(s);
    SplitAround(m, s);
    ParseSplit(m + ":" + s, m, s);
  }

  lemma ParseSplit(t: string, m: string, s: string)
    requires IsDigits(m) && IsDigits(s) && Split(t, ':') == [m, s]
    ensures TimeStringToSeconds(t) == Some(DigitsValue(m) * 60 + DigitsValue(s))
  {
    var minutes, seconds := DigitsValue(m), DigitsValue(s);
    assert FieldNumber(m) == Some(minutes) && FieldNumber(s) == Some(seconds);
    assert Split(t, ':')[0] == m && Split(t, ':')[1] == s;
  }

  /** Without a ':' there is no seconds field, so the result is `NaN`. */
  lemma {:induction false} ParseWithoutColon(t: string)
    requires ':' !in t
    ensures TimeStringToSeconds(t) == None
  {
    SplitWithout(t, ':');
  }

  /** Formatting then parsing gives back every non-negative number of seconds. */
  lemma {:induction false} FormatThenParse(n: nat)
    ensures TimeStringToSeconds(SecondsToTimeString(n)) == Some(n)
  {
    var r := SecondsToTimeString(n);
    assert r == r[..|r| - 3] + ":" + r[|r| - 2..];
    ParseFields(r[..|r| - 3], r[|r| - 2..]);
  }

  /** A field as `secondsToTimeString` writes it: at least two digits, zero-padded only to two. */
  predicate CanonicalField(f: string) {
    IsDigits(f) && |f| >= 2 && (|f| > 2 ==> f[0] != '0')
  }

  lemma PadDecimalCanonical(f: string)
    requires CanonicalField(f)
    ensures PadStart(Decimal(DigitsValue(f)), 2) == f
  {
    if f[0] != '0' {
      ValueDecimal(f);
    } else {
      var d := f[1..];
      assert f == ['0'] + d;
      LeadingZero(d);
      ValueDecimal(d);
    }
  }

  /**
   * Parsing then formatting gives back every canonical "MM:SS" string: minutes
   * as `secondsToTimeString` pads them and seconds as two digits below 60.
   */
  lemma {:induction false} ParseThenFormat(m: string, s: string)
    requires CanonicalField(m) && CanonicalField(s) && |s| == 2 && DigitsValue(s) < 60
    ensures TimeStringToSeconds(m + ":" + s).Some?
    ensures SecondsToTimeString(TimeStringToSeconds(m + ":" + s).value) == m + ":" + s
  {
    ParseFields(m, s);
    var n := DigitsValue(m) * 60 + DigitsValue(s);
    assert n / 60 == DigitsValue(m) && n % 60 == DigitsValue(s);
    PadDecimalCanonical(m);
    PadDecimalCanonical(s);
  }
}
