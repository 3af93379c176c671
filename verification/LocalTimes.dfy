/**
  Local dates and times of utoml (decode.go, localtime.go) in the format of section 5.6 of RFC 3339:
  what their String methods print, and what the parser makes of it.
*/
module LocalTimes {
  import opened TomlText
  import opened TomlPrinter

  // ---------- decimal digits ----------

  function Pow10(n: nat): (p: nat)
    ensures p >= 1
  {
    if n == 0 then 1 else 10 * Pow10(n - 1)
  }

  /** `%0wd` of a number of at most w digits. */
  function Padded(n: nat, w: nat): (s: Text)
    ensures |s| == w && forall i :: 0 <= i < w ==> IsDigit(s[i])
  {
    if w == 0 then [] else Padded(n / 10, w - 1) + [(n % 10 + '0' as int) as char]
  }

  /** `%0wd` of any number. */
  function Printed(n: nat, w: nat): Text {
    if n < Pow10(w) then Padded(n, w) else Digits(n)
  }

  /** `parseDecimalDigits` */
  function Number(b: Text): Result<nat> {
    if b == [] then Ok(0)
    else
      match Number(b[..|b| - 1])
      case Err => Err
      case Ok(n) => if IsDigit(b[|b| - 1]) then Ok(10 * n + (b[|b| - 1] as int - '0' as int)) else Err
  }

  lemma {:induction false} NumberFails(b: Text, i: nat)
    requires i < |b| && !IsDigit(b[i])
    ensures Number(b).Err?
    decreases |b|
  {
    if i < |b| - 1 { NumberFails(b[..|b| - 1], i); }
  }

  method ParseDecimalDigits(b: Text) returns (r: Result<nat>)
    ensures r == Number(b)
  {
    var v := 0;
    for i := 0 to |b|
      invariant Number(b[..i]) == Ok(v)
    {
      if !IsDigit(b[i]) {
        NumberFails(b, i);
        return Err;
      }
      assert b[..i + 1][..i] == b[..i];
      v := 10 * v + (b[i] as int - '0' as int);
    }
    assert b[..|b|] == b;
    return Ok(v);
  }

  lemma {:induction false} PaddedReads(n: nat, w: nat)
    requires n < Pow10(w)
    ensures Number(Padded(n, w)) == Ok(n)
  {
    if w > 0 {
      var s := Padded(n, w);
      assert s[..|s| - 1] == Padded(n / 10, w - 1);
      PaddedReads(n / 10, w - 1);
    }
  }

  /** The first digits of a padded number are the padded quotient. */
  lemma {:induction false} PaddedPrefix(n: nat, w: nat, p: nat)
    requires p <= w
    ensures Padded(n, w)[..p] == Padded(Quotient10(n, w - p), p)
    decreases w
  {
    if p == w {
      assert Padded(n, w)[..p] == Padded(n, w);
    } else {
      assert Padded(n, w)[..p] == Padded(n / 10, w - 1)[..p];
      PaddedPrefix(n / 10, w - 1, p);
    }
  }

  /** n divided by ten, k times. */
  function Quotient10(n: nat, k: nat): nat {
    if k == 0 then n else Quotient10(n / 10, k - 1)
  }

  lemma {:induction false} QuotientBounds(n: nat, k: nat, w: nat)
    requires k <= w && n < Pow10(w)
    ensures Quotient10(n, k) < Pow10(w - k)
    ensures Quotient10(n, k) * Pow10(k) <= n
    decreases k
  {
    if k > 0 {
      QuotientBounds(n / 10, k - 1, w - 1);
      TimesTen(Quotient10(n, k), Pow10(k - 1), n);
    }
  }

  lemma TimesTen(q: nat, p: nat, n: nat)
    requires q * p <= n / 10
    ensures q * (10 * p) <= n
  {
    assert q * (10 * p) == 10 * (q * p);
  }

  /** Does n end in k zeros? */
  predicate EndsInZeros(n: nat, k: nat) {
    k == 0 || (n % 10 == 0 && EndsInZeros(n / 10, k - 1))
  }

  lemma {:induction false} QuotientExact(n: nat, k: nat)
    ensures Quotient10(n, k) * Pow10(k) == n <==> EndsInZeros(n, k)
    decreases k
  {
    if k > 0 {
      QuotientExact(n / 10, k - 1);
      var q, p := Quotient10(n / 10, k - 1), Pow10(k - 1);
      assert q * (10 * p) == 10 * (q * p);
      QuotientAtMost(n / 10, k - 1);
    }
  }

  lemma {:induction false} QuotientAtMost(n: nat, k: nat)
    ensures Quotient10(n, k) * Pow10(k) <= n
    decreases k
  {
    if k > 0 {
      QuotientAtMost(n / 10, k - 1);
      TimesTen(Quotient10(n, k), Pow10(k - 1), n);
    }
  }

  /** A number ends in k zeros just when it is a multiple of the k-th power of ten. */
  lemma {:induction false} ZerosAreMultiples(n: nat, k: nat)
    ensures EndsInZeros(n, k) <==> n % Pow10(k) == 0
  {
    QuotientExact(n, k);
    var q, p := Quotient10(n, k), Pow10(k);
    if q * p == n {
      MultipleMod(q, p);
    } else if n % p == 0 {
      MultipleOf(n, p);
      QuotientOf(n / p, k);
    }
  }

  lemma MultipleMod(q: nat, p: nat)
    requires p > 0
    ensures (q * p) % p == 0
  {
    var n := q * p;
    Remainder(n, p);
    NoMultipleBetween(p, q - n / p, n % p);
  }

  lemma Remainder(n: nat, p: nat)
    requires p > 0
    ensures n == p * (n / p) + n % p && 0 <= n % p < p
  {
  }

  lemma NoMultipleBetween(p: nat, d: int, r: nat)
    requires r < p && p * d == r
    ensures r == 0
  {
    assert d >= 1 ==> p * d >= p;
    assert d <= -1 ==> p * d <= 0 - p;
  }

  lemma MultipleOf(n: nat, p: nat)
    requires p > 0 && n % p == 0
    ensures n == (n / p) * p
  {
  }

  lemma {:induction false} QuotientOf(m: nat, k: nat)
    ensures Quotient10(m * Pow10(k), k) == m
    decreases k
  {
    if k > 0 {
      var p := Pow10(k - 1);
      assert m * (10 * p) == 10 * (m * p);
      assert (10 * (m * p)) / 10 == m * p;
      QuotientOf(m, k - 1);
    } else {
      assert m * 1 == m;
    }
  }

  // ---------- times ----------

  datatype LocalTime = LocalTime(hour: nat, minute: nat, second: nat, nanosecond: nat, precision: nat)

  /** A time of day; sixty seconds are allowed for leap seconds. */
  predicate IsTime(t: LocalTime) {
    t.hour <= 23 && t.minute <= 59 && t.second <= 60 && t.nanosecond < 1_000_000_000 && t.precision <= 9
  }

  function TrimZeros(s: Text): (r: Text)
    ensures |r| <= |s|
  {
    if s == [] || s[|s| - 1] != '0' then s else TrimZeros(s[..|s| - 1])
  }

  /** `LocalTime.String` */
  function TimeString(t: LocalTime): Text
    requires IsTime(t)
  {
    Padded(t.hour, 2) + ":" + Padded(t.minute, 2) + ":" + Padded(t.second, 2) + Fraction(t)
  }

  function Fraction(t: LocalTime): Text
    requires t.precision <= 9
  {
    if t.precision > 0 then "." + Padded(t.nanosecond, 9)[..t.precision]
    else if t.nanosecond > 0 then "." + TrimZeros(Padded(t.nanosecond, 9))
    else []
  }

  function DigitRun(b: Text): (n: nat)
    ensures n <= |b| && (forall i :: 0 <= i < n ==> IsDigit(b[i])) && (n < |b| ==> !IsDigit(b[n]))
  {
    if b == [] || !IsDigit(b[0]) then 0 else 1 + DigitRun(b[1..])
  }

  /**
    The fraction of a second behind a point: nanoseconds, precision, and what follows; digits beyond nine are dropped.
  */
  function ParseFraction(b: Text): Result<(nat, nat, Text)> {
    var n := DigitRun(b);
    var p := if n <= 9 then n else 9;
    if n == 0 then Err
    else
      match Number(b[..p])
      case Err => Err
      case Ok(frac) => Ok((frac * Pow10(9 - p), p, b[n..]))
  }

  /** `parseLocalTime` */
  function ParseTime(b: Text): Result<(LocalTime, Text)> {
    if |b| < 8 then Err
    else
      match (Number(b[..2]), Number(b[3..5]), Number(b[6..8]))
      case (Ok(h), Ok(m), Ok(s)) =>
        if h > 23 || b[2] != ':' || m > 59 || b[5] != ':' || s > 60 then Err
        else if |b| > 8 && b[8] == '.' then
          (match ParseFraction(b[9..])
           case Err => Err
           case Ok((ns, p, rest)) => Ok((LocalTime(h, m, s, ns, p), rest)))
        else Ok((LocalTime(h, m, s, 0, 0), b[8..]))
      case _ => Err
  }

  lemma {:induction false} RunOfDigits(d: Text, rest: Text)
    requires (forall i :: 0 <= i < |d| ==> IsDigit(d[i])) && (rest == [] || !IsDigit(rest[0]))
    ensures DigitRun(d + rest) == |d|
  {
    if d == [] {
      assert d + rest == rest;
    } else {
      assert (d + rest)[1..] == d[1..] + rest;
      RunOfDigits(d[1..], rest);
    }
  }

  lemma TimeParts(h: Text, m: Text, s: Text, f: Text)
    requires |h| == 2 && |m| == 2 && |s| == 2
    ensures var b := h + ":" + m + ":" + s + f;
      |b| == 8 + |f| && b[..2] == h && b[2] == ':' && b[3..5] == m && b[5] == ':' && b[6..8] == s && b[8..] == f
  {
  }

  /** The digits of a fraction give back the nanoseconds just when no digit was cut off. */
  lemma FractionReads(ns: nat, p: nat)
    requires ns < 1_000_000_000 && 1 <= p <= 9
    ensures var r := ParseFraction(Padded(ns, 9)[..p]);
      r.Ok? && r.value.1 == p && r.value.2 == [] && (r.value.0 == ns <==> EndsInZeros(ns, 9 - p))
  {
    hide Padded, Number, Pow10, Quotient10, EndsInZeros, DigitRun;
    NinePlaces();
    var d := Padded(ns, 9)[..p];
    OnlyDigits(d);
    PaddedPrefix(ns, 9, p);
    QuotientBounds(ns, 9 - p, 9);
    PaddedReads(Quotient10(ns, 9 - p), p);
    QuotientExact(ns, 9 - p);
  }

  lemma OnlyDigits(d: Text)
    requires forall i :: 0 <= i < |d| ==> IsDigit(d[i])
    ensures DigitRun(d) == |d| && d[..|d|] == d && d[|d|..] == []
  {
    assert d + [] == d;
    RunOfDigits(d, []);
  }

  lemma ClockReads(t: LocalTime)
    requires IsTime(t)
    ensures Number(Padded(t.hour, 2)) == Ok(t.hour) && Number(Padded(t.minute, 2)) == Ok(t.minute)
    ensures Number(Padded(t.second, 2)) == Ok(t.second)
  {
    assert Pow10(2) == 100;
    PaddedReads(t.hour, 2);
    PaddedReads(t.minute, 2);
    PaddedReads(t.second, 2);
  }

  /** A printed time is read back as itself, with nothing left, if and only if its precision fits its nanoseconds. */
  lemma TimeRoundTripIff(t: LocalTime)
    requires IsTime(t)
    ensures ParseTime(TimeString(t)) == Ok((t, []))
       <==> if t.precision == 0 then t.nanosecond == 0 else t.nanosecond % Pow10(9 - t.precision) == 0
  {
    hide Padded, Number, Pow10, EndsInZeros, TrimZeros, ParseFraction;
    ClockReads(t);
    TimeParts(Padded(t.hour, 2), Padded(t.minute, 2), Padded(t.second, 2), Fraction(t));
    var b := TimeString(t);
    if t.precision > 0 {
      var d := Padded(t.nanosecond, 9)[..t.precision];
      assert b[8..] == "." + d;
      assert b[8] == '.' && b[9..] == d;
      FractionReads(t.nanosecond, t.precision);
      ZerosAreMultiples(t.nanosecond, 9 - t.precision);
    } else if t.nanosecond > 0 {
      assert b[8] == '.';
      assert b[9..] == TrimZeros(Padded(t.nanosecond, 9));
      SomePrecision(b[9..]);
    } else {
      assert b[8..] == [];
    }
  }

  lemma {:induction false} NumberBound(b: Text)
    ensures Number(b).Ok? ==> Number(b).value < Pow10(|b|)
  {
    if b != [] { NumberBound(b[..|b| - 1]); }
  }

  lemma ScaledBound(q: nat, p: nat, k: nat)
    requires q < Pow10(p)
    ensures q * Pow10(k) < Pow10(p + k) && (q * Pow10(k)) % Pow10(k) == 0
  {
    hide Pow10;
    PowSum(p, k);
    assert (q + 1) * Pow10(k) <= Pow10(p) * Pow10(k);
    MultipleMod(q, Pow10(k));
  }

  lemma {:induction false} PowSum(m: nat, n: nat)
    ensures Pow10(m + n) == Pow10(m) * Pow10(n)
  {
    if m > 0 {
      PowSum(m - 1, n);
      assert 10 * (Pow10(m - 1) * Pow10(n)) == (10 * Pow10(m - 1)) * Pow10(n);
    }
  }

  lemma FractionFits(b: Text)
    requires ParseFraction(b).Ok?
    ensures var (ns, p, _) := ParseFraction(b).value;
      1 <= p <= 9 && ns < 1_000_000_000 && ns % Pow10(9 - p) == 0
  {
    hide Number, Pow10;
    var n := DigitRun(b);
    var p := if n <= 9 then n else 9;
    NumberBound(b[..p]);
    ScaledBound(Number(b[..p]).value, p, 9 - p);
    NinePlaces();
  }

  lemma NinePlaces()
    ensures Pow10(9) == 1_000_000_000
  {
    assert Pow10(5) == 100_000;
    assert Pow10(7) == 10_000_000;
  }

  /** Whatever time the parser accepts is a time of day, and prints as text that reads as the same time. */
  lemma ParsedTimeStays(b: Text)
    requires ParseTime(b).Ok?
    ensures var t := ParseTime(b).value.0; IsTime(t) && ParseTime(TimeString(t)) == Ok((t, []))
  {
    hide Number, Pow10, ParseFraction, TimeString;
    if |b| > 8 && b[8] == '.' { FractionFits(b[9..]); }
    TimeRoundTripIff(ParseTime(b).value.0);
  }

  lemma SomePrecision(b: Text)
    ensures ParseFraction(b).Ok? ==> ParseFraction(b).value.1 > 0
  {
  }

  /** The loop over the fraction in `parseLocalTime`. */
  method ReadFraction(b: Text) returns (r: Result<(nat, nat, Text)>)
    ensures r == ParseFraction(b)
  {
    hide Pow10, Number, DigitRun;
    var frac, precision, digits := 0, 0, 0;
    NoDigitsYet(b);
    while digits < |b| && IsDigit(b[digits])
      invariant digits <= |b| && DigitRun(b) == digits + DigitRun(b[digits..])
      invariant precision == (if digits <= 9 then digits else 9) && Number(b[..precision]) == Ok(frac)
    {
      NextDigit(b, digits);
      if digits < 9 {
        frac := 10 * frac + (b[digits] as int - '0' as int);
        precision := precision + 1;
      }
      digits := digits + 1;
    }
    RunEnds(b[digits..]);
    if precision == 0 { return Err; }
    return Ok((frac * Pow10(9 - precision), precision, b[digits..]));
  }

  lemma NoDigitsYet(b: Text)
    ensures Number(b[..0]) == Ok(0) && b[0..] == b
  {
  }

  lemma NextDigit(b: Text, i: nat)
    requires i < |b| && IsDigit(b[i])
    ensures DigitRun(b[i..]) == 1 + DigitRun(b[i + 1..])
    ensures Number(b[..i]).Ok? ==> Number(b[..i + 1]) == Ok(10 * Number(b[..i]).value + (b[i] as int - '0' as int))
  {
    assert b[i..][1..] == b[i + 1..];
    assert b[..i + 1][..i] == b[..i];
  }

  lemma RunEnds(b: Text)
    requires b == [] || !IsDigit(b[0])
    ensures DigitRun(b) == 0
  {
  }

  method ReadTime(b: Text) returns (r: Result<(LocalTime, Text)>)
    ensures r == ParseTime(b)
  {
    hide Number, ParseFraction;
    if |b| < 8 { return Err; }
    var h := ParseDecimalDigits(b[..2]);
    if h.Err? || h.value > 23 || b[2] != ':' { return Err; }
    var m := ParseDecimalDigits(b[3..5]);
    if m.Err? || m.value > 59 || b[5] != ':' { return Err; }
    var s := ParseDecimalDigits(b[6..8]);
    if s.Err? || s.value > 60 { return Err; }
    var rest := b[8..];
    if |rest| >= 1 && rest[0] == '.' {
      var f := ReadFraction(rest[1..]);
      assert rest[1..] == b[9..];
      match f
      case Err => return Err;
      case Ok((ns, p, left)) => return Ok((LocalTime(h.value, m.value, s.value, ns, p), left));
    }
    return Ok((LocalTime(h.value, m.value, s.value, 0, 0), rest));
  }

  // ---------- dates ----------

  datatype Date = Date(year: int, month: int, day: int)

  predicate IsLeap(year: int) {
    year % 4 == 0 && (year % 100 != 0 || year % 400 == 0)
  }

  const DAYS_BEFORE: seq<int> := [0, 31, 59, 90, 120, 151, 181, 212, 243, 273, 304, 334, 365]

  /** `daysIn` */
  function DaysIn(month: int, year: int): (n: int)
    requires 1 <= month <= 12
    ensures 28 <= n <= 31
  {
    if month == 2 && IsLeap(year) then 29 else DAYS_BEFORE[month] - DAYS_BEFORE[month - 1]
  }

  /** The leap years from 1 to y. */
  function LeapYears(y: nat): nat {
    if y == 0 then 0 else LeapYears(y - 1) + if IsLeap(y) then 1 else 0
  }

  lemma Fourths(y: nat)
    requires y > 0
    ensures y / 4 == (y - 1) / 4 + if y % 4 == 0 then 1 else 0
  {
  }

  lemma Centuries(y: nat)
    requires y > 0
    ensures y / 100 == (y - 1) / 100 + if y % 100 == 0 then 1 else 0
    ensures y / 400 == (y - 1) / 400 + if y % 400 == 0 then 1 else 0
  {
  }

  /** The Gregorian calendar: every fourth year is a leap year, but of the centuries only every fourth. */
  lemma {:induction false} LeapYearsAre(y: nat)
    ensures LeapYears(y) == y / 4 - y / 100 + y / 400
  {
    if y > 0 {
      LeapYearsAre(y - 1);
      Fourths(y);
      Centuries(y);
      Divides(y);
    }
  }

  lemma Divides(y: nat)
    ensures (y % 100 == 0 ==> y % 4 == 0) && (y % 400 == 0 ==> y % 100 == 0)
  {
    if y % 100 == 0 { assert y == 4 * (25 * (y / 100)); }
    if y % 400 == 0 { assert y == 100 * (4 * (y / 400)); }
  }

  /** The days of the first m months of a year that begins in March. */
  function DaysFromMarch(m: nat, year: int): int
    requires m <= 12
  {
    if m == 0 then 0 else DaysFromMarch(m - 1, year) + DaysIn(if m <= 10 then m + 2 else m - 10, year)
  }

  /**
    Months have the lengths of the calendar: counted from March they begin after every (153 m + 2) / 5 days, and the
    year has 365 days, or one more if it adds to the leap years.
  */
  lemma MonthLengths(m: nat, year: nat)
    requires m <= 12 && year > 0
    ensures m <= 11 ==> DaysFromMarch(m, year) == (153 * m + 2) / 5
    ensures m == 12 ==> DaysFromMarch(m, year) == 365 + LeapYears(year) - LeapYears(year - 1)
  {
    if m > 0 { MonthLengths(m - 1, year); }
  }

  /** `isValidDate` */
  predicate IsValidDate(d: Date) {
    0 < d.month < 13 && 0 < d.day <= DaysIn(d.month, d.year)
  }

  /** The date that String and the parser put in place of one they do not accept. */
  function Clamp(d: Date): (r: Date)
    ensures IsValidDate(r) && r.year >= 1970 && (IsValidDate(d) && d.year >= 1970 ==> r == d)
  {
    var year := if d.year < 1970 then 1970 else d.year;
    var month := if d.month < 1 || d.month > 12 then 1 else d.month;
    Date(year, month, if d.day < 1 || d.day > DaysIn(month, year) then 1 else d.day)
  }

  /** Every field stays that can; one that cannot becomes the first year, month or day there is. */
  lemma ClampKeeps(d: Date)
    ensures var c := Clamp(d);
      && (c.year == d.year || c.year == 1970) && (d.year >= 1970 <==> c.year == d.year)
      && (c.month == d.month || c.month == 1) && (1 <= d.month <= 12 <==> c.month == d.month)
      && (c.day == d.day || c.day == 1) && (1 <= d.day <= DaysIn(c.month, c.year) <==> c.day == d.day)
  {
  }

  function DateString(d: Date): Text {
    var c := Clamp(d);
    Printed(c.year, 4) + "-" + Padded(c.month, 2) + "-" + Padded(c.day, 2)
  }

  /** `parseLocalDate`; its last test, for an impossible date, cannot fail. */
  function ParseDate(b: Text): Result<Date> {
    if |b| != 10 || b[4] != '-' || b[7] != '-' then Err
    else
      match (Number(b[..4]), Number(b[5..7]), Number(b[8..10]))
      case (Ok(y), Ok(m), Ok(d)) =>
        var date := Clamp(Date(if y > 9999 then 1970 else y, m, d));
        if !IsValidDate(date) then Err else Ok(date)
      case _ => Err
  }

  method ReadDate(b: Text) returns (r: Result<Date>)
    ensures r == ParseDate(b)
    ensures r.Err? <==>
      |b| != 10 || b[4] != '-' || b[7] != '-' || Number(b[..4]).Err? || Number(b[5..7]).Err? || Number(b[8..10]).Err?
  {
    hide Number;
    if |b| != 10 || b[4] != '-' || b[7] != '-' { return Err; }
    var year := ParseDecimalDigits(b[..4]);
    if year.Err? { return Err; }
    var y: int := year.value;
    if y < 1970 || y > 9999 { y := 1970; }
    var month := ParseDecimalDigits(b[5..7]);
    if month.Err? { return Err; }
    var m: int := month.value;
    if m < 1 || m > 12 { m := 1; }
    var day := ParseDecimalDigits(b[8..10]);
    if day.Err? { return Err; }
    var d: int := day.value;
    if d < 1 || d > DaysIn(m, y) { d := 1; }
    return Ok(Date(y, m, d));
  }

  class LocalDate {
    var year: int
    var month: int
    var day: int

    constructor (year: int, month: int, day: int)
      ensures this.year == year && this.month == month && this.day == day
    {
      this.year, this.month, this.day := year, month, day;
    }

    /** `LocalDate.String`, which also clamps the date it prints. */
    method String() returns (s: Text)
      modifies this
      ensures Date(year, month, day) == Clamp(Date(old(year), old(month), old(day)))
      ensures s == DateString(Date(old(year), old(month), old(day)))
    {
      if year < 1970 { year := 1970; }
      if month < 1 || month > 12 { month := 1; }
      if day < 1 || day > DaysIn(month, year) { day := 1; }
      s := Printed(year, 4) + "-" + Padded(month, 2) + "-" + Padded(day, 2);
    }
  }

  lemma DateParts(y: Text, m: Text, d: Text)
    requires |y| == 4 && |m| == 2 && |d| == 2
    ensures var b := y + "-" + m + "-" + d;
      |b| == 10 && b[..4] == y && b[4] == '-' && b[5..7] == m && b[7] == '-' && b[8..10] == d
  {
  }

  lemma {:induction false} ManyDigits(n: nat, w: nat)
    requires n >= Pow10(w)
    ensures |Digits(n)| > w
    decreases w
  {
    if w > 0 { ManyDigits(n / 10, w - 1); }
  }

  /** A printed date is read back as its clamped form if and only if its year has four digits; else it is refused. */
  lemma DateRoundTripIff(d: Date)
    ensures d.year <= 9999 ==> ParseDate(DateString(d)) == Ok(Clamp(d))
    ensures d.year > 9999 ==> ParseDate(DateString(d)) == Err
  {
    hide Padded, Number, Digits;
    var c := Clamp(d);
    assert Pow10(4) == 10000 && Pow10(2) == 100;
    if d.year <= 9999 {
      PaddedReads(c.year, 4);
      PaddedReads(c.month, 2);
      PaddedReads(c.day, 2);
      DateParts(Padded(c.year, 4), Padded(c.month, 2), Padded(c.day, 2));
    } else {
      ManyDigits(c.year, 4);
      assert |DateString(d)| > 10;
    }
  }

  /** Whatever date the parser accepts is a date of the calendar, and prints as text that reads as the same date. */
  lemma ParsedDateStays(b: Text)
    requires ParseDate(b).Ok?
    ensures var d := ParseDate(b).value; IsValidDate(d) && 1970 <= d.year <= 9999 && ParseDate(DateString(d)) == Ok(d)
  {
    hide Number, DateString;
    DateRoundTripIff(ParseDate(b).value);
  }

  // ---------- which digits say what ----------

  function Digit(n: nat): char
    requires n < 10
  {
    "0123456789"[n]
  }

  function Two(n: nat): Text
    requires n < 100
  {
    [Digit(n / 10), Digit(n % 10)]
  }

  lemma TwoReads(n: nat)
    requires n < 100
    ensures Number(Two(n)) == Ok(n)
  {
    var t := Two(n);
    assert t[..1] == [Digit(n / 10)] && t[..1][..0] == [];
    assert Number(t[..1]) == Ok(n / 10);
  }

  lemma NumberMore(t: Text, n: nat, d: nat)
    requires Number(t) == Ok(n) && d < 10
    ensures Number(t + [Digit(d)]) == Ok(10 * n + d)
  {
    assert (t + [Digit(d)])[..|t|] == t;
  }

  lemma FourReads(n: nat)
    requires n < 10000
    ensures Number(Two(n / 100) + Two(n % 100)) == Ok(n)
  {
    hide Number, Digit;
    var c, d := n % 100 / 10, n % 100 % 10;
    TwoReads(n / 100);
    NumberMore(Two(n / 100), n / 100, c);
    NumberMore(Two(n / 100) + [Digit(c)], n / 100 * 10 + c, d);
    assert Two(n / 100) + Two(n % 100) == Two(n / 100) + [Digit(c)] + [Digit(d)];
  }

  /** Hours, minutes and seconds, in this order; beyond a day, an hour or a leap second it is no time. */
  lemma TimeIs(h: nat, m: nat, s: nat)
    requires h < 100 && m < 100 && s < 100
    ensures ParseTime(Two(h) + ":" + Two(m) + ":" + Two(s)) ==
      if h < 24 && m < 60 && s <= 60 then Ok((LocalTime(h, m, s, 0, 0), [])) else Err
  {
    hide Number, Two;
    TwoReads(h);
    TwoReads(m);
    TwoReads(s);
    assert |Two(h)| == 2 && |Two(m)| == 2 && |Two(s)| == 2 by { TwoSize(); }
    var b := Two(h) + ":" + Two(m) + ":" + Two(s);
    TimeParts(Two(h), Two(m), Two(s), []);
    assert b + [] == b;
  }

  lemma TwoSize()
    ensures forall n: nat {:trigger Two(n)} :: n < 100 ==> |Two(n)| == 2
  {
  }

  /** Year, month and day, in this order. */
  lemma DateIs(y: nat, m: nat, d: nat)
    requires 1970 <= y < 10000 && 1 <= m <= 12 && 1 <= d <= DaysIn(m, y)
    ensures ParseDate(Two(y / 100) + Two(y % 100) + "-" + Two(m) + "-" + Two(d)) == Ok(Date(y, m, d))
  {
    hide Number, Two;
    FourReads(y);
    TwoReads(m);
    TwoReads(d);
    TwoSize();
    DateParts(Two(y / 100) + Two(y % 100), Two(m), Two(d));
  }
}
