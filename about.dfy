/** The career list of the about page: the duration label of a job and the
    label of its end date. The years and months of the interval come from a
    date library and are inputs here; either may be absent from its result. */
module About {
  import opened Js

  /** `${value}` for a duration field that may be missing. */
  function FieldText(field: Option<nat>): (s: string)
  {
    match field
    case Some(n) => Decimal(n)
    case None => "undefined"
  }

  /** `getDuration`: builds the label step by step, an optional year part
      followed by the month part. */
  method GetDuration(years: Option<nat>, months: Option<nat>) returns (durationStr: string)
    ensures years.Some? && years.value > 1 ==> durationStr == Decimal(years.value) + " yrs " + FieldText(months) + " mos"
    ensures years == Some(1) ==> durationStr == "1 yr " + FieldText(months) + " mos"
    ensures years.None? || years == Some(0) ==> durationStr == FieldText(months) + " mos"
    ensures months.Some? ==> durationStr == DurationLabel(CountedYears(years), months.value)
  {
    durationStr := "";
    if years.Some? && years.value != 0 && years.value > 1 {
      durationStr := Decimal(years.value) + " yrs ";
    } else if years == Some(1) {
      durationStr := Decimal(years.value) + " yr ";
    }
    durationStr := durationStr + FieldText(months) + " mos";
  }

  /** How many digits a string starts with. */
  function LeadingDigits(s: string): nat
    decreases |s|
  {
    if s == [] || !IsDigit(s[0]) then 0 else 1 + LeadingDigits(s[1..])
  }

  lemma {:induction false} LeadingDigitsOf(a: string, x: string)
    requires forall i :: 0 <= i < |a| ==> IsDigit(a[i])
    requires x != [] && !IsDigit(x[0])
    ensures LeadingDigits(a + x) == |a|
    decreases |a|
  {
    if a == [] {
      assert a + x == x;
    } else {
      assert (a + x)[0] == a[0] && (a + x)[1..] == a[1..] + x;
      LeadingDigitsOf(a[1..], x);
    }
  }

  /** A digit run followed by text that starts with a non-digit splits in
      only one way. */
  lemma DigitRunSplit(a: string, x: string, b: string, y: string)
    requires forall i :: 0 <= i < |a| ==> IsDigit(a[i])
    requires forall i :: 0 <= i < |b| ==> IsDigit(b[i])
    requires x != [] && !IsDigit(x[0]) && y != [] && !IsDigit(y[0])
    requires a + x == b + y
    ensures a == b && x == y
  {
    LeadingDigitsOf(a, x);
    LeadingDigitsOf(b, y);
    assert a == (a + x)[..|a|] && b == (b + y)[..|b|];
    assert x == (a + x)[|a|..] && y == (b + y)[|b|..];
  }

  /** The years counted by the label: none when absent or zero. */
  function CountedYears(years: Option<nat>): nat
  {
    match years
    case Some(n) => n
    case None => 0
  }

  function YearUnit(n: nat): string
  {
    if n == 1 then " yr " else " yrs "
  }

  /** The label for a counted number of years and of months. */
  function DurationLabel(years: nat, months: nat): string
  {
    (if years == 0 then "" else Decimal(years) + YearUnit(years)) + Decimal(months) + " mos"
  }

  /** Where the leading number of a label ends, and the letter two places on:
      `m` of "mos" without a year part, `y` of "yr"/"yrs" with one. */
  lemma LabelShape(n: nat, m: nat)
    ensures var text, d := DurationLabel(n, m), Decimal(if n == 0 then m else n);
      && LeadingDigits(text) == |d|
      && |text| > |d| + 1
      && text[..|d|] == d
      && text[|d| + 1] == if n == 0 then 'm' else 'y'
  {
    var rest := if n == 0 then " mos" else YearUnit(n) + Decimal(m) + " mos";
    var d := Decimal(if n == 0 then m else n);
    assert DurationLabel(n, m) == d + rest;
    LeadingDigitsOf(d, rest);
    assert (d + rest)[|d| + 1] == rest[1];
  }

  lemma YearPartInjective(n1: nat, m1: nat, n2: nat, m2: nat)
    requires n1 != 0 && n2 != 0 && DurationLabel(n1, m1) == DurationLabel(n2, m2)
    ensures n1 == n2 && m1 == m2
  {
    LabelShape(n1, m1);
    LabelShape(n2, m2);
    DecimalInjective(n1, n2);
    var text, u, d := DurationLabel(n1, m1), YearUnit(n1), Decimal(n1);
    assert text == (d + u) + (Decimal(m1) + " mos");
    assert text == (d + u) + (Decimal(m2) + " mos");
    assert Decimal(m1) + " mos" == text[|d + u|..] == Decimal(m2) + " mos";
    DigitRunSplit(Decimal(m1), " mos", Decimal(m2), " mos");
    DecimalInjective(m1, m2);
  }

  /** The label determines the duration: two labels are equal only when they
      count the same years and the same months. */
  lemma DurationLabelInjective(n1: nat, m1: nat, n2: nat, m2: nat)
    requires DurationLabel(n1, m1) == DurationLabel(n2, m2)
    ensures n1 == n2 && m1 == m2
  {
    LabelShape(n1, m1);
    LabelShape(n2, m2);
    if n1 == 0 && n2 == 0 {
      DecimalInjective(m1, m2);
    } else if n1 != 0 && n2 != 0 {
      YearPartInjective(n1, m1, n2, m2);
    }
  }

  /** The end column of a career item: the formatted end date when there is
      one (`formattedEnd` is what the date library prints), else `Present`. */
  function EndLabel(endDate: Option<string>, formattedEnd: string): (s: string)
  {
    if endDate.Some? && Truthy(endDate.value) then formattedEnd else "Present"
  }

  /** An open-ended item shows `Present`; a dated one shows its date. */
  lemma EndLabelPresent(endDate: Option<string>, formattedEnd: string)
    ensures endDate.None? ==> EndLabel(endDate, formattedEnd) == "Present"
    ensures endDate == Some("") ==> EndLabel(endDate, formattedEnd) == "Present"
    ensures endDate.Some? && endDate.value != "" ==> EndLabel(endDate, formattedEnd) == formattedEnd
  {
  }
}
