/** The UTC timestamps of receipts: Date.toISOString on one side, datetime.fromisoformat on the other. */
module Timestamps {
  import opened Transcripts

  datatype Instant = Instant(year: nat, month: nat, day: nat, hour: nat, minute: nat, second: nat, ms: nat)

  predicate LeapYear(y: nat) { y % 4 == 0 && (y % 100 != 0 || y % 400 == 0) }

  function DaysIn(y: nat, m: nat): nat {
    if m == 2 then (if LeapYear(y) then 29 else 28) else if m == 4 || m == 6 || m == 9 || m == 11 then 30 else 31
  }

  predicate OnCalendar(year: int, month: int, day: int, hour: int, minute: int, second: int) {
    1 <= year <= 9999 && 1 <= month <= 12 && 1 <= day <= DaysIn(year, month) && 0 <= hour <= 23 && 0 <= minute <= 59
      && 0 <= second <= 59
  }

  predicate OnClock(t: Instant) { OnCalendar(t.year, t.month, t.day, t.hour, t.minute, t.second) && t.ms <= 999 }

  /** Instants a clock after 1970 can show before the year 10000. */
  predicate ValidInstant(t: Instant) { OnClock(t) && 1970 <= t.year }

  function D(n: nat): Symbol { Unit(48 + n % 10) }

  /** toISOString: YYYY-MM-DDTHH:MM:SS.mmmZ */
  function IsoText(t: Instant): (r: Txt)
    ensures |r| == 24
  {
    [D(t.year / 1000), D(t.year / 100), D(t.year / 10), D(t.year), Unit(45), D(t.month / 10), D(t.month), Unit(45),
     D(t.day / 10), D(t.day), Unit(84), D(t.hour / 10), D(t.hour), Unit(58), D(t.minute / 10), D(t.minute), Unit(58),
     D(t.second / 10), D(t.second), Unit(46), D(t.ms / 100), D(t.ms / 10), D(t.ms), Unit(90)]
  }

  predicate IsDigit(x: Symbol) { x.Unit? && 48 <= x.u <= 57 }

  function Value(x: Symbol): int
    requires IsDigit(x)
  {
    x.u as int - 48
  }

  function Pair(t: Txt, i: nat): int
    requires i + 1 < |t| && IsDigit(t[i]) && IsDigit(t[i + 1])
  {
    10 * Value(t[i]) + Value(t[i + 1])
  }

  predicate Layout(t: Txt) {
    && |t| == 24
    && (forall i :: i in {0, 1, 2, 3, 5, 6, 8, 9, 11, 12, 14, 15, 17, 18, 20, 21, 22} ==> IsDigit(t[i]))
    && t[4] == Unit(45) && t[7] == Unit(45) && t[10] == Unit(84) && t[13] == Unit(58) && t[16] == Unit(58)
       && t[19] == Unit(46) && t[23] == Unit(90)
  }

  /** endswith("Z") and fromisoformat, on the one layout toISOString produces. */
  predicate PythonParses(t: Txt) {
    && Layout(t)
    && OnCalendar(100 * Pair(t, 0) + Pair(t, 2), Pair(t, 5), Pair(t, 8), Pair(t, 11), Pair(t, 14), Pair(t, 17))
  }

  lemma TwoDigits(n: nat)
    requires n <= 99
    ensures 10 * Value(D(n / 10)) + Value(D(n)) == n
  {
  }

  lemma YearDigits(y: nat)
    requires y <= 9999
    ensures 10 * Value(D(y / 1000)) + Value(D(y / 100)) == y / 100
    ensures 10 * Value(D(y / 10)) + Value(D(y)) == y % 100
  {
    DropTwoDigits(y);
    TwoDigits(y / 100);
    TwoDigits(y % 100);
  }

  lemma DropTwoDigits(y: nat)
    ensures y / 100 / 10 == y / 1000
    ensures y / 10 % 10 == y % 100 / 10 % 10 && y % 10 == y % 100 % 10
  {
    var q, r := y / 100, y % 100;
    assert y == 100 * q + r;
    assert y / 10 == 10 * q + r / 10;
  }

  lemma IsoTextLayout(t: Instant)
    requires OnClock(t)
    ensures Layout(IsoText(t))
  {
    var x := IsoText(t);
    assert forall n: nat :: IsDigit(D(n));
  }

  /** The digits of t, two by two, at the places where fromisoformat looks for them. */
  lemma DigitsParse(x: Txt, t: Instant)
    requires OnClock(t) && Layout(x)
    requires x[0] == D(t.year / 1000) && x[1] == D(t.year / 100) && x[2] == D(t.year / 10) && x[3] == D(t.year)
    requires x[5] == D(t.month / 10) && x[6] == D(t.month) && x[8] == D(t.day / 10) && x[9] == D(t.day)
    requires x[11] == D(t.hour / 10) && x[12] == D(t.hour) && x[14] == D(t.minute / 10) && x[15] == D(t.minute)
    requires x[17] == D(t.second / 10) && x[18] == D(t.second)
    ensures PythonParses(x)
  {
    TwoDigits(t.month); TwoDigits(t.day); TwoDigits(t.hour); TwoDigits(t.minute); TwoDigits(t.second);
    YearDigits(t.year);
    assert 100 * Pair(x, 0) + Pair(x, 2) == t.year;
  }

  lemma IsoTextParses(t: Instant)
    requires OnClock(t)
    ensures PythonParses(IsoText(t))
  {
    IsoTextLayout(t);
    DigitsParse(IsoText(t), t);
  }

  lemma DigitIsWritten(x: Symbol, n: nat)
    requires IsDigit(x) && n % 10 == Value(x)
    ensures D(n) == x
  {
  }

  lemma PairIsWritten(t: Txt, i: nat, n: nat)
    requires i + 1 < |t| && IsDigit(t[i]) && IsDigit(t[i + 1]) && n == Pair(t, i)
    ensures D(n / 10) == t[i] && D(n) == t[i + 1]
  {
    DigitIsWritten(t[i], n / 10);
    DigitIsWritten(t[i + 1], n);
  }

  lemma HundredsAreWritten(t: Txt, n: nat)
    requires Layout(t) && n == 100 * Pair(t, 0) + Pair(t, 2)
    ensures D(n / 1000) == t[0] && D(n / 100) == t[1] && D(n / 10) == t[2] && D(n) == t[3]
  {
    var high, low := Pair(t, 0), Pair(t, 2);
    assert n / 100 == high && n % 100 == low;
    DropTwoDigits(n);
    PairIsWritten(t, 0, high);
    PairIsWritten(t, 2, low);
  }

  /** What the reader makes of the digits. */
  function ReadInstant(t: Txt): Instant
    requires Layout(t)
  {
    Instant(100 * Pair(t, 0) + Pair(t, 2), Pair(t, 5), Pair(t, 8), Pair(t, 11), Pair(t, 14), Pair(t, 17),
      100 * Value(t[20]) + Pair(t, 21))
  }

  lemma MillisecondsAreWritten(t: Txt, n: nat)
    requires Layout(t) && n == 100 * Value(t[20]) + Pair(t, 21)
    ensures D(n / 100) == t[20] && D(n / 10) == t[21] && D(n) == t[22]
  {
    var low := Pair(t, 21);
    assert n / 100 == Value(t[20]) && n % 100 == low;
    DropTwoDigits(n);
    DigitIsWritten(t[20], n / 100);
    PairIsWritten(t, 21, low);
  }

  lemma ReadIsWritten(t: Txt)
    requires Layout(t)
    ensures IsoText(ReadInstant(t)) == t
  {
    var i := ReadInstant(t);
    HundredsAreWritten(t, i.year);
    PairIsWritten(t, 5, i.month);
    PairIsWritten(t, 8, i.day);
    PairIsWritten(t, 11, i.hour);
    PairIsWritten(t, 14, i.minute);
    PairIsWritten(t, 17, i.second);
    MillisecondsAreWritten(t, i.ms);
  }

  /** Of the texts with that layout, Python accepts exactly those that name an instant on the calendar. */
  lemma ParsesExactlyWhatIsWritten(t: Txt)
    ensures PythonParses(t) <==> exists i :: OnClock(i) && t == IsoText(i)
  {
    if PythonParses(t) {
      ReadIsWritten(t);
      assert OnClock(ReadInstant(t));
    }
    forall i | OnClock(i) && t == IsoText(i)
      ensures PythonParses(t)
    {
      IsoTextParses(i);
    }
  }

  lemma IsoTextIsPlain(t: Instant)
    ensures PIPE !in IsoText(t) && WellFormed(IsoText(t))
  {
    var x := IsoText(t);
    assert forall i :: 0 <= i < |x| ==> x[i].Unit? && x[i].u < 100;
    PlainIsWellFormed(x);
  }
}
