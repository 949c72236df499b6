/**
 * app.py's template filters: `format_date`, `format_date_short` and
 * `time_ago`. A timestamp is the text "YYYY-MM-DD HH:MM:SS" that
 * `strptime` reads; the current time is a parameter.
 */
module App {
  import opened Wrappers
  import opened Text

  datatype Stamp = Stamp(year: nat, month: nat, day: nat, hour: nat, minute: nat, second: nat)

  predicate LeapYear(y: nat) { y % 4 == 0 && (y % 100 != 0 || y % 400 == 0) }

  function DaysIn(y: nat, m: nat): (n: nat)
    requires 1 <= m <= 12
    ensures 28 <= n <= 31
  {
    if m == 2 then (if LeapYear(y) then 29 else 28)
    else if m == 4 || m == 6 || m == 9 || m == 11 then 30
    else 31
  }

  /** What `datetime` accepts. */
  predicate ValidStamp(st: Stamp) {
    && 1 <= st.year <= 9999
    && 1 <= st.month <= 12
    && 1 <= st.day <= DaysIn(st.year, st.month)
    && st.hour < 24 && st.minute < 60 && st.second < 60
  }

  /** `%Y`: four digits. */
  function Pad4(n: nat): (s: string)
    requires n < 10000
    ensures |s| == 4 && AllDigits(s)
  {
    Pad2(n / 100) + Pad2(n % 100)
  }

  /** Three fields and two separators. */
  function Join3(a: string, b: string, c: string, sep: char): (s: string)
    ensures |s| == |a| + |b| + |c| + 2
  {
    a + [sep] + b + [sep] + c
  }

  lemma Join3Fields(a: string, b: string, c: string, sep: char)
    ensures var s := Join3(a, b, c, sep);
      && s[..|a|] == a && s[|a|] == sep && s[|a| + 1..|a| + 1 + |b|] == b
      && s[|a| + 1 + |b|] == sep && s[|a| + 2 + |b|..] == c
  {
  }

  lemma SplitJoin3(s: string, i: nat, j: nat, sep: char)
    requires i < j < |s| && s[i] == sep && s[j] == sep
    ensures s == Join3(s[..i], s[i + 1..j], s[j + 1..], sep)
  {
  }

  /** `%Y-%m-%d`, zero-padded. */
  function DateText(y: nat, m: nat, d: nat): (s: string)
    requires y < 10000 && m < 100 && d < 100
    ensures |s| == 10
  {
    Join3(Pad4(y), Pad2(m), Pad2(d), '-')
  }

  /** `%H:%M:%S`, zero-padded. */
  function TimeText(h: nat, m: nat, sec: nat): (s: string)
    requires h < 100 && m < 100 && sec < 100
    ensures |s| == 8
  {
    Join3(Pad2(h), Pad2(m), Pad2(sec), ':')
  }

  /** The text `strptime(_, "%Y-%m-%d %H:%M:%S")` reads back as `st`, fields zero-padded. */
  function Canonical(st: Stamp): (s: string)
    requires ValidStamp(st)
    ensures |s| == 19
  {
    DateText(st.year, st.month, st.day) + " " + TimeText(st.hour, st.minute, st.second)
  }

  datatype Fields = Fields(first: nat, second: nat, third: nat)

  /** Four digits, a separator, two digits, a separator, two digits. */
  function ReadFields(t: string, sep: char, width: nat): (r: Option<Fields>)
    requires width == 2 || width == 4
    ensures r.Some? ==> |t| == width + 6
  {
    if |t| == width + 6 && t[width] == sep && t[width + 3] == sep
      && AllDigits(t[..width]) && AllDigits(t[width + 1..width + 3]) && AllDigits(t[width + 4..])
    then Some(Fields(DigitsValue(t[..width]), DigitsValue(t[width + 1..width + 3]), DigitsValue(t[width + 4..])))
    else None
  }

  /** `strptime` with the zero-padded fields; `None` where it raises. */
  function Parse(s: string): (r: Option<Stamp>)
    ensures r.Some? ==> ValidStamp(r.value) && |s| == 19
  {
    if |s| == 19 && s[10] == ' ' then
      match (ReadFields(s[..10], '-', 4), ReadFields(s[11..], ':', 2))
      case (Some(d), Some(t)) =>
        var st := Stamp(d.first, d.second, d.third, t.first, t.second, t.third);
        if ValidStamp(st) then Some(st) else None
      case _ => None
    else None
  }

  /** The value of four digits is that of its two halves. */
  lemma FourDigits(s: string)
    requires |s| == 4 && AllDigits(s)
    ensures DigitsValue(s) == 100 * DigitsValue(s[..2]) + DigitsValue(s[2..])
  {
    assert s[..3][..2] == s[..2];
    assert s[..2][..1] == s[..1];
    assert DigitsValue(s[..3]) == 10 * DigitsValue(s[..2]) + DigitValue(s[2]);
    assert DigitsValue(s[2..]) == 10 * DigitsValue(s[2..][..1]) + DigitValue(s[3]);
    assert s[2..][..1][..0] == [];
  }

  lemma Pad4RoundTrip(n: nat)
    requires n < 10000
    ensures DigitsValue(Pad4(n)) == n
  {
    var s := Pad4(n);
    assert s[..2] == Pad2(n / 100) && s[2..] == Pad2(n % 100);
    FourDigits(s);
    Pad2RoundTrip(n / 100);
    Pad2RoundTrip(n % 100);
  }

  lemma Pad4OfDigits(s: string)
    requires |s| == 4 && AllDigits(s)
    ensures DigitsValue(s) < 10000 && Pad4(DigitsValue(s)) == s
  {
    FourDigits(s);
    Pad2OfDigits(s[..2]);
    Pad2OfDigits(s[2..]);
    assert s == s[..2] + s[2..];
  }

  lemma DateRoundTrip(y: nat, m: nat, d: nat)
    requires y < 10000 && m < 100 && d < 100
    ensures ReadFields(DateText(y, m, d), '-', 4) == Some(Fields(y, m, d))
  {
    Join3Fields(Pad4(y), Pad2(m), Pad2(d), '-');
    Pad4RoundTrip(y);
    Pad2RoundTrip(m);
    Pad2RoundTrip(d);
  }

  lemma TimeRoundTrip(h: nat, m: nat, sec: nat)
    requires h < 100 && m < 100 && sec < 100
    ensures ReadFields(TimeText(h, m, sec), ':', 2) == Some(Fields(h, m, sec))
  {
    Join3Fields(Pad2(h), Pad2(m), Pad2(sec), ':');
    Pad2RoundTrip(h);
    Pad2RoundTrip(m);
    Pad2RoundTrip(sec);
  }

  lemma DateIsText(t: string)
    requires ReadFields(t, '-', 4).Some?
    ensures var f := ReadFields(t, '-', 4).value;
      f.first < 10000 && f.second < 100 && f.third < 100 && t == DateText(f.first, f.second, f.third)
  {
    Pad4OfDigits(t[..4]);
    Pad2OfDigits(t[5..7]);
    Pad2OfDigits(t[8..]);
    SplitJoin3(t, 4, 7, '-');
  }

  lemma TimeIsText(t: string)
    requires ReadFields(t, ':', 2).Some?
    ensures var f := ReadFields(t, ':', 2).value;
      f.first < 100 && f.second < 100 && f.third < 100 && t == TimeText(f.first, f.second, f.third)
  {
    Pad2OfDigits(t[..2]);
    Pad2OfDigits(t[3..5]);
    Pad2OfDigits(t[6..]);
    SplitJoin3(t, 2, 5, ':');
  }

  /** `strptime` reads the canonical text of a valid stamp back as that stamp. */
  lemma CanonicalParses(st: Stamp)
    requires ValidStamp(st)
    ensures Parse(Canonical(st)) == Some(st)
  {
    var s := Canonical(st);
    assert s[..10] == DateText(st.year, st.month, st.day);
    assert s[11..] == TimeText(st.hour, st.minute, st.second);
    DateRoundTrip(st.year, st.month, st.day);
    TimeRoundTrip(st.hour, st.minute, st.second);
  }

  /** Every text `strptime` reads is the canonical text of the stamp it read. */
  lemma ParsedIsCanonical(s: string)
    requires Parse(s).Some?
    ensures s == Canonical(Parse(s).value)
  {
    DateIsText(s[..10]);
    TimeIsText(s[11..]);
    assert s == s[..10] + " " + s[11..];
  }

  /** `strftime("%d/%m/%Y %H:%M")`; `%Y` unpadded, as the C library writes it. */
  function LongForm(st: Stamp): string
    requires ValidStamp(st)
  {
    Pad2(st.day) + "/" + Pad2(st.month) + "/" + DecimalString(st.year) + " " + Pad2(st.hour) + ":" + Pad2(st.minute)
  }

  /** `strftime("%d/%m/%Y")`. */
  function ShortForm(st: Stamp): string
    requires ValidStamp(st)
  {
    Pad2(st.day) + "/" + Pad2(st.month) + "/" + DecimalString(st.year)
  }

  /** The `format_date` filter: the readable form, or the input unchanged when it does not parse. */
  function FormatDate(s: string): (r: string)
    ensures Parse(s).None? ==> r == s
  {
    match Parse(s)
    case Some(st) => LongForm(st)
    case None => s
  }

  /** The `format_date_short` filter. */
  function FormatDateShort(s: string): (r: string)
    ensures Parse(s).None? ==> r == s
  {
    match Parse(s)
    case Some(st) => ShortForm(st)
    case None => s
  }

  /**
   * For a year from 1000 on, `format_date` only rearranges the text it was
   * given: day, month and year of the date half swapped into place, the
   * seconds of the time half dropped.
   */
  lemma FormatDateRearranges(s: string)
    requires Parse(s).Some? && s[0] != '0'
    ensures var date, time := s[..10], s[11..];
      && FormatDate(s) == date[8..] + "/" + date[5..7] + "/" + date[..4] + " " + time[..5]
      && FormatDateShort(s) == date[8..] + "/" + date[5..7] + "/" + date[..4]
  {
    var st := Parse(s).value;
    var date, time := s[..10], s[11..];
    ParsedIsCanonical(s);
    assert date == DateText(st.year, st.month, st.day);
    assert time == TimeText(st.hour, st.minute, st.second);
    Join3Fields(Pad4(st.year), Pad2(st.month), Pad2(st.day), '-');
    Join3Fields(Pad2(st.hour), Pad2(st.minute), Pad2(st.second), ':');
    assert time[..5] == time[..2] + ":" + time[3..5];
    DecimalOfDigits(date[..4]);
  }

  /** Days from 0001-01-01 to the stamp's date, as `date.toordinal` counts them less one. */
  function DayNumber(st: Stamp): int
    requires ValidStamp(st)
  {
    var y := st.year - 1;
    365 * y + y / 4 - y / 100 + y / 400 + DaysBeforeMonth(st.year, st.month) + st.day - 1
  }

  function DaysBeforeMonth(y: nat, m: nat): (n: nat)
    requires 1 <= m <= 12
    decreases m
  {
    if m == 1 then 0 else DaysBeforeMonth(y, m - 1) + DaysIn(y, m - 1)
  }

  /** Seconds from `past` to `now`, negative when `past` is later. */
  function ElapsedSeconds(past: Stamp, now: Stamp): int
    requires ValidStamp(past) && ValidStamp(now)
  {
    (DayNumber(now) - DayNumber(past)) * 86400
      + (now.hour * 3600 + now.minute * 60 + now.second)
      - (past.hour * 3600 + past.minute * 60 + past.second)
  }

  /** What `time_ago` says. */
  datatype Ago = Years(n: nat) | Months(n: nat) | Days(n: nat) | Hours(n: nat) | Minutes(n: nat) | Moment

  /**
   * The if/elif chain over a `timedelta`'s `days` and `seconds`
   * (`0 <= seconds < 86400`, the normal form Python keeps).
   */
  function Bucket(days: int, seconds: int): (a: Ago)
    requires 0 <= seconds < 86400
    ensures !a.Moment? ==> a.n >= 1
    ensures a.Months? ==> a.n <= 12
    ensures a.Days? ==> a.n <= 30
    ensures a.Hours? ==> a.n <= 23
    ensures a.Minutes? ==> a.n <= 60
    ensures a.Years? || a.Months? || a.Days? <==> days > 0
  {
    if days > 365 then Years(days / 365)
    else if days > 30 then Months(days / 30)
    else if days > 0 then Days(days)
    else if seconds > 3600 then Hours(seconds / 3600)
    else if seconds > 60 then Minutes(seconds / 60)
    else Moment
  }

  /** The `timedelta` of an elapsed number of seconds. */
  function BucketOf(t: int): Ago {
    Bucket(t / 86400, t % 86400)
  }

  /** Exactly 365 days is still "12 meses"; a year is reported from 366 days. */
  lemma YearBoundary()
    ensures Bucket(365, 0) == Months(12)
    ensures Bucket(366, 0) == Years(1)
    ensures Bucket(31, 0) == Months(1) && Bucket(30, 0) == Days(30)
  {
  }

  /** Exactly an hour is "60 minutos"; a minute is reported from 61 seconds. */
  lemma HourBoundary()
    ensures Bucket(0, 3600) == Minutes(60)
    ensures Bucket(0, 3601) == Hours(1)
    ensures Bucket(0, 60) == Moment && Bucket(0, 61) == Minutes(1)
  {
  }

  /** A stamp a minute in the future has `days == -1` and reads as "hace 23 horas". */
  lemma FutureStampReadsAsHours()
    ensures BucketOf(-60) == Hours(23)
  {
  }

  function Rank(a: Ago): nat {
    match a
    case Moment => 0
    case Minutes(_) => 1
    case Hours(_) => 2
    case Days(_) => 3
    case Months(_) => 4
    case Years(_) => 5
  }

  /** `a` reports no more elapsed time than `b`. */
  predicate AgoLe(a: Ago, b: Ago) {
    Rank(a) < Rank(b) || (Rank(a) == Rank(b) && (a.Moment? || a.n <= b.n))
  }

  /** More elapsed time never reads as less. */
  lemma BucketMonotone(t1: int, t2: int)
    requires 0 <= t1 <= t2
    ensures AgoLe(BucketOf(t1), BucketOf(t2))
  {
    var d1, d2 := t1 / 86400, t2 / 86400;
    assert d1 <= d2;
    if d1 == d2 {
      assert t1 % 86400 <= t2 % 86400;
    }
  }

  /** The unit word, plural exactly when the count is above one. */
  function Word(a: Ago): string
    requires !a.Moment?
  {
    var plural := a.n > 1;
    match a
    case Years(_) => if plural then "años" else "año"
    case Months(_) => if plural then "meses" else "mes"
    case Days(_) => if plural then "días" else "día"
    case Hours(_) => if plural then "horas" else "hora"
    case Minutes(_) => if plural then "minutos" else "minuto"
  }

  /** The count and its unit. */
  function Counted(a: Ago): string
    requires !a.Moment?
  {
    DecimalString(a.n) + " " + Word(a)
  }

  /** The filter's text. */
  function Render(a: Ago): string {
    if a.Moment? then "hace un momento" else "hace " + Counted(a)
  }

  /** The first space after a run of digits is the one that ends it. */
  lemma SpaceAfterDigits(p: string, q: string)
    requires AllDigits(p)
    ensures IndexOf(p + " " + q, ' ') == Some(|p|)
  {
    var s := p + " " + q;
    assert s[|p|] == ' ';
    assert forall k :: 0 <= k < |p| ==> s[k] == p[k];
  }

  /** Digits followed by a space split only one way. */
  lemma DigitsThenSpace(p: string, q: string, p2: string, q2: string)
    requires AllDigits(p) && AllDigits(p2)
    requires p + " " + q == p2 + " " + q2
    ensures p == p2 && q == q2
  {
    var s := p + " " + q;
    SpaceAfterDigits(p, q);
    SpaceAfterDigits(p2, q2);
    assert p == s[..|p|] == p2;
    assert q == s[|p| + 1..] == q2;
  }

  /** With the count fixed, the unit word tells the reading apart. */
  lemma WordDetermines(a: Ago, b: Ago)
    requires !a.Moment? && !b.Moment? && a.n == b.n
    requires Word(a) == Word(b)
    ensures a == b
  {
  }

  /** A counted reading never renders as "hace un momento". */
  lemma CountedIsNotMoment(a: Ago)
    requires !a.Moment?
    ensures Render(a) != Render(Moment)
  {
    assert Render(a)[5] == DecimalString(a.n)[0];
    assert Render(Moment)[5] == 'u';
  }

  /** Count and unit together tell a counted reading apart. */
  lemma CountedInjective(a: Ago, b: Ago)
    requires !a.Moment? && !b.Moment? && Counted(a) == Counted(b)
    ensures a == b
  {
    DigitsThenSpace(DecimalString(a.n), Word(a), DecimalString(b.n), Word(b));
    DecimalRoundTrip(a.n);
    DecimalRoundTrip(b.n);
    WordDetermines(a, b);
  }

  /** Distinct readings render as distinct texts. */
  lemma RenderInjective(a: Ago, b: Ago)
    requires Render(a) == Render(b)
    ensures a == b
  {
    if a.Moment? && !b.Moment? {
      CountedIsNotMoment(b);
    } else if !a.Moment? && b.Moment? {
      CountedIsNotMoment(a);
    } else if !a.Moment? {
      assert Counted(a) == Render(a)[5..] == Render(b)[5..] == Counted(b);
      CountedInjective(a, b);
    }
  }

  /** The `time_ago` filter at time `now`; the input unchanged when it does not parse. */
  function TimeAgo(s: string, now: Stamp): (r: string)
    requires ValidStamp(now)
    ensures Parse(s).None? ==> r == s
    ensures Parse(s).Some? ==> r == Render(BucketOf(ElapsedSeconds(Parse(s).value, now)))
  {
    match Parse(s)
    case Some(st) => Render(BucketOf(ElapsedSeconds(st, now)))
    case None => s
  }

  /** Two timestamps read differently only when they fall in different buckets. */
  lemma TimeAgoDistinguishes(s1: string, s2: string, now: Stamp)
    requires ValidStamp(now) && Parse(s1).Some? && Parse(s2).Some?
    requires BucketOf(ElapsedSeconds(Parse(s1).value, now)) != BucketOf(ElapsedSeconds(Parse(s2).value, now))
    ensures TimeAgo(s1, now) != TimeAgo(s2, now)
  {
    var a := BucketOf(ElapsedSeconds(Parse(s1).value, now));
    var b := BucketOf(ElapsedSeconds(Parse(s2).value, now));
    if Render(a) == Render(b) {
      RenderInjective(a, b);
    }
  }
}
