/** One-time codes as the controllers draw, store and compare them.

    A code is an integer drawn from [100000, 999999]. The database hands it
    back as its decimal string, which the API controller compares with the
    submitted string using PHP's `!==`, while the web controller compares
    with PHP 8's loose `!=`, under which two numeric strings are equal when
    their numeric values are. A submitted code arrives either as a string
    (a form field or a JSON string) or as a JSON integer. */
module OtpCodes {
  import opened Http

  const MinCode: nat := 100000
  const MaxCode: nat := 999999

  /** The range of `rand(100000, 999999)`. */
  predicate InCodeRange(n: int) {
    MinCode <= n <= MaxCode
  }

  predicate IsDigit(c: char) {
    '0' <= c <= '9'
  }

  predicate AllDigits(s: string) {
    forall i :: 0 <= i < |s| ==> IsDigit(s[i])
  }

  function DigitChar(d: nat): (c: char)
    requires d < 10
    ensures IsDigit(c)
  {
    ('0' as int + d) as char
  }

  function DigitValue(c: char): (d: nat)
    requires IsDigit(c)
    ensures d < 10
  {
    c as int - '0' as int
  }

  /** `(string)$n`: the decimal form of a non-negative integer, without
      leading zeros. */
  function Decimal(n: nat): (s: string)
    ensures 1 <= |s| && AllDigits(s)
  {
    if n < 10 then [DigitChar(n)] else Decimal(n / 10) + [DigitChar(n % 10)]
  }

  /** The number a string of digits denotes. */
  function Value(s: string): nat
    requires AllDigits(s)
  {
    if s == [] then 0 else 10 * Value(s[..|s| - 1]) + DigitValue(s[|s| - 1])
  }

  /** Laravel's `digits:6` rule, which the API controller puts on a
      submitted code. */
  predicate SixDigits(s: string) {
    |s| == 6 && AllDigits(s)
  }

  /** PHP truthiness of a string: every string but "" and "0" is true. */
  predicate PhpTruthy(s: string) {
    s != "" && s != "0"
  }

  /** The API controller lets a submitted code through when
      `!$user->otp || $user->otp !== (string)$request->otp` is false: a
      code is stored, it is truthy, and its string is identical. */
  predicate StrictMatch(stored: Option<nat>, submitted: string) {
    stored.Some? && PhpTruthy(Decimal(stored.value)) && Decimal(stored.value) == submitted
  }

  /** Laravel's `numeric` rule, restricted to plain digit strings. */
  predicate IsNumeric(s: string) {
    1 <= |s| && AllDigits(s)
  }

  /** A submitted `otp` as `$request->otp` holds it. */
  datatype Submitted = Text(text: string) | Number(number: int)

  /** Laravel's `numeric` rule on a submission: an integer always passes. */
  predicate IsNumericInput(s: Submitted) {
    s.Number? || IsNumeric(s.text)
  }

  /** The number a submission that passed `numeric` denotes. */
  function NumberOf(s: Submitted): int
    requires IsNumericInput(s)
  {
    if s.Number? then s.number else Value(s.text)
  }

  /** `(string)$request->otp`: a string is kept, an integer is written in
      decimal, with a minus sign when negative. */
  function PhpString(s: Submitted): (r: string)
    ensures s.Text? ==> r == s.text
    ensures s.Number? ==> (AllDigits(r) <==> s.number >= 0)
    ensures s.Number? && s.number >= 0 ==> Value(r) == s.number
  {
    match s
    case Text(t) => t
    case Number(n) =>
      if n >= 0 then DecimalRoundTrip(n); Decimal(n)
      else assert ("-" + Decimal(-n))[0] == '-'; "-" + Decimal(-n)
  }

  /** PHP 8 `==` between two strings: numerically when both are numeric,
      byte for byte otherwise. */
  predicate LooseEquals(a: string, b: string) {
    if IsNumeric(a) && IsNumeric(b) then Value(a) == Value(b) else a == b
  }

  /** What the stored code compares as: a null `otp` column compares with a
      string as "". */
  function StoredText(stored: Option<nat>): string {
    if stored.None? then "" else Decimal(stored.value)
  }

  /** The web controller lets a submitted code through when
      `$user->otp != $request->otp` is false. A string is compared with the
      stored text. An integer is compared numerically with a stored code,
      and with a null column as booleans, so null equals 0. */
  predicate LooseMatch(stored: Option<nat>, submitted: Submitted) {
    match submitted
    case Text(t) => LooseEquals(StoredText(stored), t)
    case Number(n) => if stored.None? then n == 0 else stored.value == n
  }

  lemma {:induction false} DigitRoundTrip(d: nat)
    requires d < 10
    ensures DigitValue(DigitChar(d)) == d
  {
  }

  /** Reading back the decimal string of a code gives the code. */
  lemma {:induction false} DecimalRoundTrip(n: nat)
    ensures Value(Decimal(n)) == n
    decreases n
  {
    if n >= 10 {
      var p := Decimal(n / 10);
      var s := Decimal(n);
      assert s == p + [DigitChar(n % 10)];
      assert s[..|s| - 1] == p;
      DecimalRoundTrip(n / 10);
      DigitRoundTrip(n % 10);
    } else {
      DigitRoundTrip(n);
    }
  }

  /** Digit strings of equal length and equal value are equal. */
  lemma {:induction false} SameLengthSameValue(a: string, b: string)
    requires AllDigits(a) && AllDigits(b)
    requires |a| == |b| && Value(a) == Value(b)
    ensures a == b
    decreases |a|
  {
    if a != [] {
      var pa, pb := a[..|a| - 1], b[..|b| - 1];
      var da, db := DigitValue(a[|a| - 1]), DigitValue(b[|b| - 1]);
      assert 10 * Value(pa) + da == 10 * Value(pb) + db;
      assert da == db && Value(pa) == Value(pb);
      SameLengthSameValue(pa, pb);
      assert a[|a| - 1] == b[|b| - 1];
      assert a == pa + [a[|a| - 1]] && b == pb + [b[|b| - 1]];
    }
  }

  lemma DecimalLengthStep(n: nat)
    requires n >= 10
    ensures |Decimal(n)| == |Decimal(n / 10)| + 1
  {
  }

  /** Every code `rand(100000, 999999)` can draw has a six-digit string. */
  lemma CodeHasSixDigits(n: nat)
    requires InCodeRange(n)
    ensures SixDigits(Decimal(n))
  {
    var n1 := n / 10;
    var n2 := n1 / 10;
    var n3 := n2 / 10;
    var n4 := n3 / 10;
    var n5 := n4 / 10;
    assert 1 <= n5 < 10;
    DecimalLengthStep(n);
    DecimalLengthStep(n1);
    DecimalLengthStep(n2);
    DecimalLengthStep(n3);
    DecimalLengthStep(n4);
  }

  /** The API's strict comparison, on a submission that passed `digits:6`
      against a slot holding an in-range code or nothing, accepts exactly
      the stored code. */
  lemma StrictMatchMeaning(stored: Option<nat>, submitted: string)
    requires SixDigits(submitted)
    requires stored.Some? ==> InCodeRange(stored.value)
    ensures StrictMatch(stored, submitted) <==> stored == Some(Value(submitted))
  {
    if stored.Some? {
      var code := stored.value;
      CodeHasSixDigits(code);
      DecimalRoundTrip(code);
      if code == Value(submitted) {
        SameLengthSameValue(Decimal(code), submitted);
      }
    }
  }

  /** The web controller's loose comparison accepts exactly the submissions
      whose numeric value is the stored code, and, against an empty slot,
      exactly the integer 0. */
  lemma LooseMatchMeaning(stored: Option<nat>, submitted: Submitted)
    requires IsNumericInput(submitted)
    ensures LooseMatch(stored, submitted) <==>
      || (stored.Some? && stored.value == NumberOf(submitted))
      || (stored.None? && submitted == Number(0))
  {
    if stored.Some? {
      DecimalRoundTrip(stored.value);
    }
  }

  /** On the submissions the API accepts as input the two comparisons agree. */
  lemma StrictAndLooseAgree(stored: Option<nat>, submitted: string)
    requires SixDigits(submitted)
    requires stored.Some? ==> InCodeRange(stored.value)
    ensures StrictMatch(stored, submitted) <==> LooseMatch(stored, Text(submitted))
  {
    StrictMatchMeaning(stored, submitted);
    LooseMatchMeaning(stored, Text(submitted));
  }

  lemma {:induction false} LeadingZeroValue(s: string)
    requires AllDigits(s)
    ensures AllDigits("0" + s) && Value("0" + s) == Value(s)
    decreases |s|
  {
    var z := "0" + s;
    if s != [] {
      var p := s[..|s| - 1];
      assert z[..|z| - 1] == "0" + p;
      assert z[|z| - 1] == s[|s| - 1];
      LeadingZeroValue(p);
    }
  }

  /** The web controller also accepts the code written with a leading zero,
      which the API controller refuses. */
  lemma LooseAcceptsLeadingZero(code: nat)
    requires InCodeRange(code)
    ensures LooseMatch(Some(code), Text("0" + Decimal(code)))
    ensures !StrictMatch(Some(code), "0" + Decimal(code))
  {
    LeadingZeroValue(Decimal(code));
    LooseMatchMeaning(Some(code), Text("0" + Decimal(code)));
    DecimalRoundTrip(code);
    assert |"0" + Decimal(code)| == |Decimal(code)| + 1;
  }
}
