/** The civil clock: a date and time to seconds since 1970-01-01, against a calendar counted day by day. */
module Clock {

  const WORD: nat := 0x1_0000_0000

  datatype Wall = Wall(year: nat, month: nat, day: nat, hour: nat, minute: nat, second: nat)

  // ---- as it is computed -----------------------------------------------------------------------------------

  /** Division as C has it, toward zero. */
  function TruncDiv(a: int, b: int): int
    requires b > 0
  {
    if a >= 0 then a / b else -(-a / b)
  }

  /** The month counted from March, in 32-bit arithmetic: -3u and 9u are added to it. */
  function FromMarch(m: nat): nat { (m + if m > 2 then WORD - 3 else 9) % WORD }

  function DayOfYear(m: nat, d: nat): nat
    requires d > 0
  {
    ((153 * FromMarch(m) + 2) % WORD / 5 + d - 1) % WORD
  }

  /** The day number of a date, day 0 being 1970-01-01. */
  function Days(year: nat, m: nat, d: nat): int
    requires d > 0
  {
    var y: int := year - if m <= 2 then 1 else 0;
    var era := TruncDiv(if y >= 0 then y else y - 399, 400);
    var yoe := y - era * 400;
    var doe := yoe * 365 + TruncDiv(yoe, 4) - TruncDiv(yoe, 100) + DayOfYear(m, d);
    era * 146097 + doe - 719468
  }

  /** clock_epoch_seconds.  A zero month or day counts as 1, and days before the epoch as the epoch. */
  function EpochSeconds(w: Wall): int {
    var m := if w.month == 0 then 1 else w.month;
    var d := if w.day == 0 then 1 else w.day;
    var days := Days(w.year, m, d);
    (if days < 0 then 0 else days) * 86400 + w.hour * 3600 + w.minute * 60 + w.second
  }

  // ---- the calendar ----------------------------------------------------------------------------------------

  datatype Date = Date(y: nat, m: nat, d: nat)

  predicate Leap(y: nat) { y % 4 == 0 && (y % 100 != 0 || y % 400 == 0) }

  function MonthLength(y: nat, m: nat): nat {
    match m
    case 2 => if Leap(y) then 29 else 28
    case 4 => 30
    case 6 => 30
    case 9 => 30
    case 11 => 30
    case _ => 31
  }

  predicate IsDate(t: Date) { 1 <= t.m <= 12 && 1 <= t.d <= MonthLength(t.y, t.m) && t.y < WORD }

  const EPOCH := Date(1970, 1, 1)

  /** The day after. */
  function Tomorrow(t: Date): Date {
    if t.d < MonthLength(t.y, t.m) then t.(d := t.d + 1)
    else if t.m < 12 then Date(t.y, t.m + 1, 1)
    else Date(t.y + 1, 1, 1)
  }

  function Number(t: Date): int
    requires IsDate(t)
  {
    Days(t.y, t.m, t.d)
  }

  // ---- the day number is the count -------------------------------------------------------------------------

  /** On months there are, the 32-bit wrap is a plain subtraction. */
  lemma WrapIsHarmless(m: nat, d: nat)
    requires 1 <= m <= 12 && 1 <= d <= 31
    ensures FromMarch(m) == if m > 2 then m - 3 else m + 9
    ensures DayOfYear(m, d) == (153 * FromMarch(m) + 2) / 5 + d - 1 < 368
  {
  }

  /** Days before March the first of a year that starts in March. */
  function YearStart(y: int): int { 365 * y + y / 4 - y / 100 + y / 400 }

  lemma Eras(y: int, era: int, yoe: int)
    requires y == 400 * era + yoe && 0 <= yoe < 400
    ensures YearStart(y) == era * 146097 + yoe * 365 + yoe / 4 - yoe / 100
  {
    assert y / 4 == 100 * era + yoe / 4;
    assert y / 100 == 4 * era + yoe / 100;
    assert y / 400 == era;
  }

  lemma DaysPlain(t: Date)
    requires IsDate(t)
    ensures var y: int := t.y - if t.m <= 2 then 1 else 0;
            Number(t) == YearStart(y) + (153 * FromMarch(t.m) + 2) / 5 + t.d - 1 - 719468
  {
    WrapIsHarmless(t.m, t.d);
    var y: int := t.y - if t.m <= 2 then 1 else 0;
    var era := TruncDiv(if y >= 0 then y else y - 399, 400);
    assert era == y / 400;
    Eras(y, era, y - era * 400);
  }

  lemma Fourth(y: nat)
    ensures (y - 1) / 4 == if y % 4 == 0 then y / 4 - 1 else y / 4
  {
  }

  lemma Century(y: nat)
    ensures (y - 1) / 100 == if y % 100 == 0 then y / 100 - 1 else y / 100
    ensures y % 100 == 0 ==> y % 4 == 0
  {
  }

  lemma FourCenturies(y: nat)
    ensures (y - 1) / 400 == if y % 400 == 0 then y / 400 - 1 else y / 400
    ensures y % 400 == 0 ==> y % 100 == 0
  {
  }

  lemma LeapDays(y: nat)
    ensures YearStart(y) - YearStart(y - 1) == if Leap(y) then 366 else 365
  {
    Fourth(y);
    Century(y);
    FourCenturies(y);
  }

  lemma EpochIsZero()
    ensures IsDate(EPOCH) && Number(EPOCH) == 0
  {
  }

  /** From each date to the next the day number grows by one. */
  lemma NextDay(t: Date)
    requires IsDate(t) && IsDate(Tomorrow(t))
    ensures Number(Tomorrow(t)) == Number(t) + 1
  {
    hide YearStart, Days;
    DaysPlain(t);
    DaysPlain(Tomorrow(t));
    WrapIsHarmless(t.m, t.d);
    WrapIsHarmless(Tomorrow(t).m, Tomorrow(t).d);
    if t.d == MonthLength(t.y, t.m) && t.m == 2 {
      LeapDays(t.y);
    }
  }

  /** The date n days after the epoch, counted day by day. */
  function Counted(n: nat): Date { if n == 0 then EPOCH else Tomorrow(Counted(n - 1)) }

  lemma {:induction false} CountedNumber(n: nat)
    requires IsDate(Counted(n))
    ensures Number(Counted(n)) == n
  {
    hide Days;
    EpochIsZero();
    if n > 0 {
      TomorrowBack(Counted(n - 1), n - 1);
      CountedNumber(n - 1);
      NextDay(Counted(n - 1));
    }
  }

  lemma {:induction false} TomorrowBack(t: Date, n: nat)
    requires t == Counted(n) && IsDate(Tomorrow(t))
    ensures IsDate(t)
  {
    hide Days;
    CountedShape(n);
  }

  lemma {:induction false} CountedShape(n: nat)
    ensures var t := Counted(n); 1 <= t.m <= 12 && 1 <= t.d <= MonthLength(t.y, t.m)
  {
    if n > 0 { CountedShape(n - 1); }
  }

  /** The day before. */
  function Yesterday(t: Date): Date
    requires t.y > 0
  {
    if t.d > 1 then t.(d := t.d - 1)
    else if t.m > 1 then Date(t.y, t.m - 1, MonthLength(t.y, t.m - 1))
    else Date(t.y - 1, 12, 31)
  }

  predicate Before(t: Date, u: Date) { t.y < u.y || (t.y == u.y && (t.m < u.m || (t.m == u.m && t.d < u.d))) }

  lemma YesterdayBack(t: Date)
    requires IsDate(t) && t.y >= 1970 && t != EPOCH
    ensures IsDate(Yesterday(t)) && Yesterday(t).y >= 1970 && Tomorrow(Yesterday(t)) == t
    ensures forall u: Date :: IsDate(u) && Before(u, t) ==> u == Yesterday(t) || Before(u, Yesterday(t))
  {
  }

  /** Every date from the epoch on is the one counted to by its day number, so the number is the count. */
  lemma {:induction false} NumberIsCount(t: Date)
    requires IsDate(t) && t.y >= 1970
    ensures Number(t) >= 0 && Counted(Number(t)) == t
    decreases t.y, t.m, t.d
  {
    hide Days;
    EpochIsZero();
    if t != EPOCH {
      var u := Yesterday(t);
      YesterdayBack(t);
      NumberIsCount(u);
      NextDay(u);
    }
  }

  /** Later dates have greater numbers. */
  lemma {:induction false} NumberGrows(t: Date, u: Date)
    requires IsDate(t) && IsDate(u) && t.y >= 1970 && Before(t, u)
    ensures Number(t) < Number(u)
    decreases u.y, u.m, u.d
  {
    hide Days;
    var v := Yesterday(u);
    YesterdayBack(u);
    NextDay(v);
    if t != v { NumberGrows(t, v); }
  }

  /** Exactly the dates before 1970 are clamped. */
  lemma ClampedExactly(t: Date)
    requires IsDate(t)
    ensures Number(t) < 0 <==> t.y < 1970
  {
    if t.y >= 1970 {
      NumberIsCount(t);
    } else {
      DaysPlain(t);
      WrapIsHarmless(t.m, t.d);
      var y: int := t.y - if t.m <= 2 then 1 else 0;
      assert YearStart(y) <= YearStart(if t.m <= 2 then 1968 else 1969) by {
        assert y / 4 <= 492 && y / 400 <= 4;
        YearsGrow(y, if t.m <= 2 then 1968 else 1969);
      }
    }
  }

  lemma YearsGrow(a: int, b: int)
    requires a <= b
    ensures YearStart(a) <= YearStart(b)
  {
    assert b / 100 - a / 100 <= b - a;
  }

  // ---- with the time of day --------------------------------------------------------------------------------

  predicate IsTime(w: Wall) { w.hour < 24 && w.minute < 60 && w.second < 60 }

  function DateOf(w: Wall): Date { Date(w.year, w.month, w.day) }

  function SecondOfDay(w: Wall): nat { w.hour * 3600 + w.minute * 60 + w.second }

  predicate Earlier(v: Wall, w: Wall) {
    Before(DateOf(v), DateOf(w)) || (DateOf(v) == DateOf(w) && SecondOfDay(v) < SecondOfDay(w))
  }

  /** A later date and time has a greater epoch; none comes near the end of 64 bits. */
  lemma EpochGrows(v: Wall, w: Wall)
    requires IsDate(DateOf(v)) && IsTime(v) && v.year >= 1970 && IsDate(DateOf(w)) && IsTime(w) && Earlier(v, w)
    ensures EpochSeconds(v) < EpochSeconds(w)
  {
    hide Days;
    NumberIsCount(DateOf(v));
    NumberIsCount(DateOf(w));
    if Before(DateOf(v), DateOf(w)) {
      NumberGrows(DateOf(v), DateOf(w));
    }
  }

  /** The second after. */
  function Later(w: Wall): Wall {
    if w.second < 59 then w.(second := w.second + 1)
    else if w.minute < 59 then w.(minute := w.minute + 1, second := 0)
    else if w.hour < 23 then w.(hour := w.hour + 1, minute := 0, second := 0)
    else var t := Tomorrow(DateOf(w)); Wall(t.y, t.m, t.d, 0, 0, 0)
  }

  /** The epoch starts at 0 and grows by one each second, midnight and the ends of months and years included. */
  lemma NextSecond(w: Wall)
    requires IsDate(DateOf(w)) && IsTime(w) && w.year >= 1970 && IsDate(Tomorrow(DateOf(w)))
    ensures EpochSeconds(Wall(1970, 1, 1, 0, 0, 0)) == 0
    ensures EpochSeconds(Later(w)) == EpochSeconds(w) + 1
  {
    hide Days;
    EpochIsZero();
    NumberIsCount(DateOf(w));
    NextDay(DateOf(w));
  }

  lemma EpochFits(w: Wall)
    requires IsDate(DateOf(w)) && IsTime(w)
    ensures 0 <= EpochSeconds(w) < 0x1_0000_0000_0000_0000
  {
    DaysPlain(DateOf(w));
    WrapIsHarmless(w.month, w.day);
  }

  /** The date a clock shows, a month or a day of 0, each on its own, standing for the first. */
  function Shown(w: Wall): Date {
    Date(w.year, if w.month == 0 then 1 else w.month, if w.day == 0 then 1 else w.day)
  }

  /** Whatever of month and day is 0, the epoch is that of the date so read, and of the epoch's own day before 1970. */
  lemma ZerosAreOnes(w: Wall)
    requires IsDate(Shown(w))
    ensures EpochSeconds(w) == (if w.year < 1970 then 0 else Number(Shown(w))) * 86400 + SecondOfDay(w)
  {
    hide Days;
    ClampedExactly(Shown(w));
  }
}
