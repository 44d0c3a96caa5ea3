/** Civil times, the seconds they stand for, and their fixed-width stamps. */
module Calendar {
  import opened Common
  import opened Text

  // ----- Seconds -----

  predicate IsLeap(y: nat) {
    y % 4 == 0 && (y % 100 != 0 || y % 400 == 0)
  }

  function DaysInMonth(y: nat, m: nat): nat {
    if m == 2 then (if IsLeap(y) then 29 else 28) else if m == 4 || m == 6 || m == 9 || m == 11 then 30 else 31
  }

  function DaysBeforeYear(y: nat): nat {
    if y == 0 then 0 else DaysBeforeYear(y - 1) + if IsLeap(y - 1) then 366 else 365
  }

  function DaysBeforeMonth(y: nat, m: nat): nat {
    if m <= 1 then 0 else DaysBeforeMonth(y, m - 1) + DaysInMonth(y, m - 1)
  }

  datatype Fields = Fields(year: nat, month: nat, day: nat, hour: nat, minute: nat, second: nat) {
    predicate Valid() {
      && year <= 9999 && 1 <= month <= 12 && 1 <= day <= DaysInMonth(year, month)
      && hour < 24 && minute < 60 && second < 60
    }
  }

  /** A time of the proleptic Gregorian calendar whose year prints in four digits. */
  type Civil = c: Fields | c.Valid() witness Fields(1970, 1, 1, 0, 0, 0)

  function Days(c: Civil): nat {
    DaysBeforeYear(c.year) + DaysBeforeMonth(c.year, c.month) + c.day - 1
  }

  function SecondOfDay(c: Civil): nat {
    (c.hour * 60 + c.minute) * 60 + c.second
  }

  function Seconds(c: Civil): nat {
    Days(c) * 86400 + SecondOfDay(c)
  }

  predicate Earlier(a: Civil, b: Civil) {
    if a.year != b.year then a.year < b.year
    else if a.month != b.month then a.month < b.month
    else if a.day != b.day then a.day < b.day
    else if a.hour != b.hour then a.hour < b.hour
    else if a.minute != b.minute then a.minute < b.minute
    else a.second < b.second
  }

  lemma {:induction false} YearsGrow(a: nat, b: nat)
    requires a < b
    ensures DaysBeforeYear(a) + (if IsLeap(a) then 366 else 365) <= DaysBeforeYear(b)
    decreases b
  {
    if a < b - 1 { YearsGrow(a, b - 1); }
  }

  lemma {:induction false} MonthsGrow(y: nat, a: nat, b: nat)
    requires 1 <= a < b
    ensures DaysBeforeMonth(y, a) + DaysInMonth(y, a) <= DaysBeforeMonth(y, b)
    decreases b
  {
    if a < b - 1 { MonthsGrow(y, a, b - 1); }
  }

  lemma {:induction false} YearIsTwelveMonths(y: nat)
    ensures DaysBeforeMonth(y, 12) + 31 == if IsLeap(y) then 366 else 365
  {
    assert DaysBeforeMonth(y, 2) == 31;
    assert DaysBeforeMonth(y, 3) == if IsLeap(y) then 60 else 59;
    assert DaysBeforeMonth(y, 5) == DaysBeforeMonth(y, 3) + 61;
    assert DaysBeforeMonth(y, 7) == DaysBeforeMonth(y, 5) + 61;
    assert DaysBeforeMonth(y, 9) == DaysBeforeMonth(y, 7) + 62;
    assert DaysBeforeMonth(y, 11) == DaysBeforeMonth(y, 9) + 61;
  }

  lemma {:induction false} DaysGrow(a: Civil, b: Civil)
    requires Earlier(a, b)
    ensures Days(a) <= Days(b)
    ensures !(a.year == b.year && a.month == b.month && a.day == b.day) ==> Days(a) < Days(b)
  {
    if a.year < b.year {
      YearsGrow(a.year, b.year);
      YearIsTwelveMonths(a.year);
      if a.month < 12 { MonthsGrow(a.year, a.month, 12); }
    } else if a.month < b.month {
      MonthsGrow(a.year, a.month, b.month);
    }
  }

  /** Civil order is the order of the seconds. */
  lemma {:induction false} EarlierIsFewerSeconds(a: Civil, b: Civil)
    ensures Earlier(a, b) <==> Seconds(a) < Seconds(b)
    ensures Seconds(a) == Seconds(b) ==> a == b
  {
    if Earlier(a, b) {
      DaysGrow(a, b);
      assert Seconds(a) < Seconds(b);
    } else if a != b {
      assert Earlier(b, a);
      DaysGrow(b, a);
      assert Seconds(b) < Seconds(a);
    }
  }

  // ----- Digits -----

  function Pow10(k: nat): (p: nat)
    ensures p > 0
  {
    if k == 0 then 1 else 10 * Pow10(k - 1)
  }

  function DigitChar(d: nat): char
    requires d < 10
  {
    '0' + d as char
  }

  predicate IsDigit(c: char) {
    '0' <= c <= '9'
  }

  /** The low digits of a number, zero-padded. */
  function Digits(n: nat, k: nat): (s: string)
    ensures |s| == k
  {
    if k == 0 then "" else Digits(n / 10, k - 1) + [DigitChar(n % 10)]
  }

  function Number(s: string): nat
    requires forall i | 0 <= i < |s| :: IsDigit(s[i])
  {
    if s == "" then 0 else
    assert IsDigit(s[|s| - 1]);
    10 * Number(s[..|s| - 1]) + (s[|s| - 1] as nat - '0' as nat)
  }

  lemma {:induction false} DigitsAreDigits(n: nat, k: nat)
    ensures forall i | 0 <= i < k :: IsDigit(Digits(n, k)[i])
    decreases k
  {
    if k > 0 { DigitsAreDigits(n / 10, k - 1); }
  }

  lemma {:induction false} NumberOfDigits(n: nat, k: nat)
    requires n < Pow10(k)
    ensures (forall i | 0 <= i < k :: IsDigit(Digits(n, k)[i])) && Number(Digits(n, k)) == n
    decreases k
  {
    DigitsAreDigits(n, k);
    if k > 0 {
      NumberOfDigits(n / 10, k - 1);
      assert Digits(n, k)[..k - 1] == Digits(n / 10, k - 1);
    }
  }

  /** Strings of one length compare by their first parts, then by the rest. */
  lemma {:induction false} LexOfConcat(p: string, q: string, r: string, s: string)
    requires |p| == |q|
    ensures LexLess(p + r, q + s) <==> LexLess(p, q) || (p == q && LexLess(r, s))
    decreases |p|
  {
    if p == "" {
      assert p + r == r && q + s == s;
    } else {
      assert (p + r)[1..] == p[1..] + r && (q + s)[1..] == q[1..] + s;
      LexOfConcat(p[1..], q[1..], r, s);
      assert p == [p[0]] + p[1..] && q == [q[0]] + q[1..];
    }
  }

  lemma {:induction false} DigitsOrder(a: nat, b: nat, k: nat)
    requires a < Pow10(k) && b < Pow10(k)
    ensures LexLess(Digits(a, k), Digits(b, k)) <==> a < b
    ensures Digits(a, k) == Digits(b, k) <==> a == b
    decreases k
  {
    if k > 0 {
      DigitsOrder(a / 10, b / 10, k - 1);
      LexOfConcat(Digits(a / 10, k - 1), Digits(b / 10, k - 1), [DigitChar(a % 10)], [DigitChar(b % 10)]);
      OneChar(DigitChar(a % 10), DigitChar(b % 10));
      NumberOfDigits(a, k);
      NumberOfDigits(b, k);
    }
  }

  lemma {:induction false} OneChar(x: char, y: char)
    ensures LexLess([x], [y]) <==> x < y
  {
    assert [x][1..] == "" && [y][1..] == "";
  }

  // ----- Stamps -----

  /** The date's eight digits. */
  function DateStamp(c: Civil): (s: string)
    ensures |s| == 8
  {
    Digits(c.year, 4) + Digits(c.month, 2) + Digits(c.day, 2)
  }

  function TimeStamp(c: Civil): (s: string)
    ensures |s| == 6
  {
    Digits(c.hour, 2) + Digits(c.minute, 2) + Digits(c.second, 2)
  }

  const STAMP_LEN := 14

  function Stamp(c: Civil): (s: string)
    ensures |s| == STAMP_LEN
  {
    DateStamp(c) + TimeStamp(c)
  }

  /** The stamp in an artifact's name. */
  function IsoStamp(c: Civil): (s: string)
    ensures |s| == 16
  {
    DateStamp(c) + "T" + TimeStamp(c) + "Z"
  }

  lemma {:induction false} FieldsFit(c: Civil)
    ensures c.year < Pow10(4) && c.month < Pow10(2) && c.day < Pow10(2)
    ensures c.hour < Pow10(2) && c.minute < Pow10(2) && c.second < Pow10(2)
  {
    assert Pow10(2) == 100;
    assert Pow10(4) == 10000;
  }

  lemma {:induction false} ThreeParts(a0: nat, a1: nat, a2: nat, b0: nat, b1: nat, b2: nat, k: nat)
    requires a0 < Pow10(k) && b0 < Pow10(k)
    requires a1 < Pow10(2) && a2 < Pow10(2) && b1 < Pow10(2) && b2 < Pow10(2)
    ensures var s, t := Digits(a0, k) + Digits(a1, 2) + Digits(a2, 2), Digits(b0, k) + Digits(b1, 2) + Digits(b2, 2);
            && (LexLess(s, t) <==> if a0 != b0 then a0 < b0 else if a1 != b1 then a1 < b1 else a2 < b2)
            && (s == t <==> a0 == b0 && a1 == b1 && a2 == b2)
  {
    DigitsOrder(a0, b0, k);
    DigitsOrder(a1, b1, 2);
    DigitsOrder(a2, b2, 2);
    var p, q := Digits(a0, k) + Digits(a1, 2), Digits(b0, k) + Digits(b1, 2);
    LexOfConcat(p, q, Digits(a2, 2), Digits(b2, 2));
    LexOfConcat(Digits(a0, k), Digits(b0, k), Digits(a1, 2), Digits(b1, 2));
    SplitsAgree(Digits(a0, k), Digits(b0, k), Digits(a1, 2), Digits(b1, 2));
    SplitsAgree(p, q, Digits(a2, 2), Digits(b2, 2));
  }

  lemma {:induction false} SplitsAgree(p: string, q: string, r: string, s: string)
    requires |p| == |q|
    ensures p + r == q + s <==> p == q && r == s
  {
    assert (p + r)[..|p|] == p && (q + s)[..|p|] == q && (p + r)[|p|..] == r && (q + s)[|p|..] == s;
  }

  lemma {:induction false} DateAndTimeOrder(a: Civil, b: Civil)
    ensures DateStamp(a) == DateStamp(b) <==> a.year == b.year && a.month == b.month && a.day == b.day
    ensures TimeStamp(a) == TimeStamp(b) <==> a.hour == b.hour && a.minute == b.minute && a.second == b.second
    ensures Earlier(a, b) <==>
            LexLess(DateStamp(a), DateStamp(b)) || (DateStamp(a) == DateStamp(b) && LexLess(TimeStamp(a), TimeStamp(b)))
  {
    FieldsFit(a);
    FieldsFit(b);
    ThreeParts(a.year, a.month, a.day, b.year, b.month, b.day, 4);
    ThreeParts(a.hour, a.minute, a.second, b.hour, b.minute, b.second, 2);
  }

  /** Stamps sort as their times, and different times have different stamps. */
  lemma {:induction false} StampsSortAsTimes(a: Civil, b: Civil)
    ensures LexLess(IsoStamp(a), IsoStamp(b)) <==> Seconds(a) < Seconds(b)
    ensures LexLess(Stamp(a), Stamp(b)) <==> Seconds(a) < Seconds(b)
    ensures Stamp(a) == Stamp(b) <==> a == b
    ensures IsoStamp(a) == IsoStamp(b) <==> a == b
  {
    EarlierIsFewerSeconds(a, b);
    DateAndTimeOrder(a, b);
    LexOfConcat(DateStamp(a), DateStamp(b), TimeStamp(a), TimeStamp(b));
    SplitsAgree(DateStamp(a), DateStamp(b), TimeStamp(a), TimeStamp(b));
    IsoParts(a);
    IsoParts(b);
    LexOfConcat(DateStamp(a), DateStamp(b), "T" + (TimeStamp(a) + "Z"), "T" + (TimeStamp(b) + "Z"));
    LexOfConcat("T", "T", TimeStamp(a) + "Z", TimeStamp(b) + "Z");
    LexOfConcat(TimeStamp(a), TimeStamp(b), "Z", "Z");
    LexIrreflexive("T");
    LexIrreflexive("Z");
    SplitsAgree(DateStamp(a), DateStamp(b), "T" + (TimeStamp(a) + "Z"), "T" + (TimeStamp(b) + "Z"));
    SplitsAgree("T", "T", TimeStamp(a) + "Z", TimeStamp(b) + "Z");
    SplitsAgree(TimeStamp(a), TimeStamp(b), "Z", "Z");
  }

  lemma {:induction false} IsoParts(c: Civil)
    ensures IsoStamp(c) == DateStamp(c) + ("T" + (TimeStamp(c) + "Z"))
  {}

  predicate AllDigits(s: string) {
    forall i | 0 <= i < |s| :: IsDigit(s[i])
  }

  /** Read a stamp back: fourteen digits that name a time. */
  function ParseStamp(s: string): Option<Civil> {
    if |s| != STAMP_LEN || !AllDigits(s) then None else
    var f := Fields(Number(s[..4]), Number(s[4..6]), Number(s[6..8]), Number(s[8..10]), Number(s[10..12]), Number(s[12..]));
    if f.Valid() then Some(f) else None
  }

  lemma {:induction false} StampParts(c: Civil)
    ensures var s := Stamp(c);
            && |s| == 14 && s[..4] == Digits(c.year, 4) && s[4..6] == Digits(c.month, 2) && s[6..8] == Digits(c.day, 2)
            && s[8..10] == Digits(c.hour, 2) && s[10..12] == Digits(c.minute, 2) && s[12..] == Digits(c.second, 2)
  {}

  /** What is stamped reads back. */
  lemma {:induction false} StampReadsBack(c: Civil)
    ensures ParseStamp(Stamp(c)) == Some(c)
  {
    FieldsFit(c);
    NumberOfDigits(c.year, 4);
    NumberOfDigits(c.month, 2);
    NumberOfDigits(c.day, 2);
    NumberOfDigits(c.hour, 2);
    NumberOfDigits(c.minute, 2);
    NumberOfDigits(c.second, 2);
    StampParts(c);
    StampIsDigits(c);
  }

  lemma {:induction false} StampIsDigits(c: Civil)
    ensures AllDigits(Stamp(c))
  {
    DigitsAreDigits(c.year, 4);
    DigitsAreDigits(c.month, 2);
    DigitsAreDigits(c.day, 2);
    DigitsAreDigits(c.hour, 2);
    DigitsAreDigits(c.minute, 2);
    DigitsAreDigits(c.second, 2);
  }
}
