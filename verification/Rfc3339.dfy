/** Instants and their RFC 3339 text, as `DateTime::<Utc>::to_rfc3339` and
    `to_rfc3339_opts(Micros, true)` write it (sections 5.6 and 5.8 of RFC 3339).

    An instant counts nanoseconds from 0000-01-01T00:00:00Z in the proleptic
    Gregorian calendar, without leap seconds. */
module Rfc3339 {
  import opened Common

  type Instant = nat

  const NANOS_PER_MICRO := 1_000
  const NANOS_PER_SECOND := 1_000_000_000
  const SECONDS_PER_DAY := 86_400

  // ----- The calendar -----

  predicate IsLeapYear(year: nat) {
    year % 4 == 0 && (year % 100 != 0 || year % 400 == 0)
  }

  function DaysInYear(year: nat): (days: nat)
    ensures days > 0
  {
    if IsLeapYear(year) then 366 else 365
  }

  function DaysInMonth(year: nat, month: nat): (days: nat)
    ensures 28 <= days <= 31
  {
    if month == 2 then (if IsLeapYear(year) then 29 else 28)
    else if month in {4, 6, 9, 11} then 30
    else 31
  }

  /** The year reached from the first day of `year` after `days` days, and the day within it. */
  function YearAndDay(year: nat, days: nat): (r: (nat, nat))
    ensures r.0 >= year && r.1 < DaysInYear(r.0)
    decreases days
  {
    if days < DaysInYear(year) then (year, days) else YearAndDay(year + 1, days - DaysInYear(year))
  }

  /** The month and zero-based day reached from the first day of `month`. */
  function MonthAndDay(year: nat, month: nat, days: nat): (r: (nat, nat))
    requires 1 <= month <= 12
    ensures month <= r.0 <= 12
    ensures r.0 < 12 ==> r.1 < 31
    decreases 12 - month
  {
    if month == 12 || days < DaysInMonth(year, month) then (month, days)
    else MonthAndDay(year, month + 1, days - DaysInMonth(year, month))
  }

  function DaysBeforeYear(year: nat): nat {
    if year == 0 then 0 else DaysBeforeYear(year - 1) + DaysInYear(year - 1)
  }

  function DaysBeforeMonth(year: nat, month: nat): nat
    requires 1 <= month <= 12
  {
    if month == 1 then 0 else DaysBeforeMonth(year, month - 1) + DaysInMonth(year, month - 1)
  }

  datatype Civil = Civil(year: nat, month: nat, day: nat, hour: nat, minute: nat, second: nat, nanos: nat)

  function CivilOf(t: Instant): (c: Civil) {
    var nanos := t % NANOS_PER_SECOND;
    var seconds := t / NANOS_PER_SECOND;
    var (year, dayOfYear) := YearAndDay(0, seconds / SECONDS_PER_DAY);
    var (month, day) := MonthAndDay(year, 1, dayOfYear);
    var s := seconds % SECONDS_PER_DAY;
    Civil(year, month, day + 1, s / 3600, s % 3600 / 60, s % 60, nanos)
  }

  function InstantOf(c: Civil): Instant
    requires 1 <= c.month <= 12 && c.day >= 1
  {
    var days := DaysBeforeYear(c.year) + DaysBeforeMonth(c.year, c.month) + (c.day - 1);
    (days * SECONDS_PER_DAY + c.hour * 3600 + c.minute * 60 + c.second) * NANOS_PER_SECOND + c.nanos
  }

  /** Every field after the year is small enough for its fixed-width text. */
  predicate InRange(c: Civil) {
    && 1 <= c.month <= 12 && 1 <= c.day <= 99
    && c.hour <= 23 && c.minute <= 59 && c.second <= 59 && c.nanos < NANOS_PER_SECOND
  }

  predicate FourDigitYear(t: Instant) {
    CivilOf(t).year <= 9999
  }

  lemma {:induction false} YearAndDayInverts(year: nat, days: nat)
    ensures var (y, d) := YearAndDay(year, days);
            DaysBeforeYear(y) + d == DaysBeforeYear(year) + days
    decreases days
  {
    if days >= DaysInYear(year) {
      YearAndDayInverts(year + 1, days - DaysInYear(year));
    }
  }

  lemma {:induction false} MonthAndDayInverts(year: nat, month: nat, days: nat)
    requires 1 <= month <= 12
    ensures var (m, d) := MonthAndDay(year, month, days);
            DaysBeforeMonth(year, m) + d == DaysBeforeMonth(year, month) + days
    decreases 12 - month
  {
    if month != 12 && days >= DaysInMonth(year, month) {
      MonthAndDayInverts(year, month + 1, days - DaysInMonth(year, month));
    }
  }

  lemma DaysBeforeDecember(year: nat)
    ensures DaysBeforeMonth(year, 12) == DaysInYear(year) - 31
  {
    var feb := DaysInMonth(year, 2);
    assert DaysBeforeMonth(year, 2) == 31;
    assert DaysBeforeMonth(year, 3) == 31 + feb;
    assert DaysBeforeMonth(year, 5) == 31 + feb + 31 + 30;
    assert DaysBeforeMonth(year, 7) == 31 + feb + 31 + 30 + 31 + 30;
    assert DaysBeforeMonth(year, 9) == 31 + feb + 31 + 30 + 31 + 30 + 31 + 31;
    assert DaysBeforeMonth(year, 11) == 31 + feb + 31 + 30 + 31 + 30 + 31 + 31 + 30 + 31;
  }

  /** The calendar loses nothing: an instant is recovered from its civil date and time. */
  lemma CivilRoundTrip(t: Instant)
    ensures var c := CivilOf(t);
            && 1 <= c.month <= 12 && 1 <= c.day <= 31 && c.hour <= 23 && c.minute <= 59
            && c.second <= 59 && c.nanos < NANOS_PER_SECOND
            && InstantOf(c) == t
  {
    var seconds := t / NANOS_PER_SECOND;
    var days := seconds / SECONDS_PER_DAY;
    var (year, dayOfYear) := YearAndDay(0, days);
    YearAndDayInverts(0, days);
    MonthAndDayInverts(year, 1, dayOfYear);
    var (month, day) := MonthAndDay(year, 1, dayOfYear);
    if month == 12 {
      DaysBeforeDecember(year);
    }
    var s := seconds % SECONDS_PER_DAY;
    assert s / 3600 * 3600 + s % 3600 / 60 * 60 + s % 60 == s by {
      assert s % 60 == s % 3600 % 60;
    }
  }

  // ----- Decimal fields -----

  function DigitChar(d: nat): (c: char)
    requires d < 10
    ensures '0' <= c <= '9'
  {
    ('0' as int + d) as char
  }

  /** The last `width` decimal digits of `n`. */
  function Pad(n: nat, width: nat): (s: string)
    ensures |s| == width && forall i :: 0 <= i < width ==> '0' <= s[i] <= '9'
  {
    if width == 0 then "" else Pad(n / 10, width - 1) + [DigitChar(n % 10)]
  }

  function Pow10(k: nat): nat {
    if k == 0 then 1 else 10 * Pow10(k - 1)
  }

  function DigitValue(c: char): nat {
    if '0' <= c <= '9' then c as int - '0' as int else 0
  }

  /** The number a run of decimal digits denotes. */
  function Value(s: string): nat {
    if s == "" then 0 else 10 * Value(s[..|s| - 1]) + DigitValue(s[|s| - 1])
  }

  lemma {:induction false} PadValue(n: nat, width: nat)
    requires n < Pow10(width)
    ensures Value(Pad(n, width)) == n
  {
    if width > 0 {
      PadValue(n / 10, width - 1);
      assert Pad(n, width)[..width - 1] == Pad(n / 10, width - 1);
    }
  }

  lemma Powers()
    ensures Pow10(2) == 100 && Pow10(3) == 1000 && Pow10(4) == 10000
    ensures Pow10(6) == 1_000_000 && Pow10(9) == 1_000_000_000
  {
    assert Pow10(3) == 1000;
    assert Pow10(6) == 1_000_000;
  }

  // ----- Rendering -----

  function Decimal(n: nat): string {
    if n < 10 then [DigitChar(n)] else Decimal(n / 10) + [DigitChar(n % 10)]
  }

  /** Years past 9999 carry a sign and as many digits as they need. */
  function YearText(year: nat): string {
    if year <= 9999 then Pad(year, 4) else "+" + Decimal(year)
  }

  function AfterYear(c: Civil): (s: string)
    ensures |s| == 15 && s[6] == 'T' && forall i :: 0 <= i < 15 && i != 6 ==> s[i] != 'T'
  {
    "-" + Pad(c.month, 2) + "-" + Pad(c.day, 2) + "T"
    + Pad(c.hour, 2) + ":" + Pad(c.minute, 2) + ":" + Pad(c.second, 2)
  }

  /** Fraction digits in the shortest of 0, 3, 6 or 9 that loses nothing. */
  function Fraction(nanos: nat): (s: string)
    ensures |s| in {0, 4, 7, 10} && forall i :: 0 <= i < |s| ==> s[i] != 'T'
  {
    if nanos == 0 then ""
    else if nanos % 1_000_000 == 0 then "." + Pad(nanos / 1_000_000, 3)
    else if nanos % 1_000 == 0 then "." + Pad(nanos / 1_000, 6)
    else "." + Pad(nanos, 9)
  }

  /** Everything after the year; its `T` is at a fixed place and is its last. */
  function Tail(c: Civil): (s: string)
    ensures |s| >= 21 && s[6] == 'T' && forall i :: 6 < i < |s| ==> s[i] != 'T'
  {
    AfterYear(c) + Fraction(c.nanos) + "+00:00"
  }

  /** `to_rfc3339` */
  function Render(t: Instant): string {
    YearText(CivilOf(t).year) + Tail(CivilOf(t))
  }

  /** `to_rfc3339_opts(SecondsFormat::Micros, true)` */
  function RenderMicros(t: Instant): string {
    var c := CivilOf(t);
    YearText(c.year) + AfterYear(c) + "." + Pad(c.nanos / NANOS_PER_MICRO, 6) + "Z"
  }

  // ----- Reading back -----

  function YearOf(text: string): nat {
    Value(if text != "" && text[0] == '+' then text[1..] else text)
  }

  /** The civil fields at the fixed positions after the year. */
  function ReadAfterYear(year: nat, s: string, nanos: nat): Civil
    requires |s| >= 15
  {
    Civil(year, Value(s[1..3]), Value(s[4..6]), Value(s[7..9]), Value(s[10..12]), Value(s[13..15]), nanos)
  }

  /** Read the microsecond form; `None` for text no `RenderMicros` produces. */
  function ParseMicros(s: string): Option<Instant> {
    if |s| < 27 then None
    else
      var rest := s[|s| - 23..];
      var c := ReadAfterYear(YearOf(s[..|s| - 23]), rest, Value(rest[16..22]) * NANOS_PER_MICRO);
      if 1 <= c.month <= 12 && c.day >= 1 then Some(InstantOf(c)) else None
  }

  lemma {:induction false} DecimalValue(n: nat)
    ensures Value(Decimal(n)) == n && Decimal(n) != ""
    ensures forall i :: 0 <= i < |Decimal(n)| ==> '0' <= Decimal(n)[i] <= '9'
  {
    if n < 10 {
      assert Decimal(n)[..0] == "";
    } else {
      DecimalValue(n / 10);
      assert Decimal(n)[..|Decimal(n)| - 1] == Decimal(n / 10);
    }
  }

  /** The last four digits of a longer number. */
  lemma DecimalSplits(n: nat)
    requires n >= 10000
    ensures Decimal(n) == Decimal(n / 10000) + Pad(n, 4)
  {
    var n1, n2, n3 := n / 10, n / 100, n / 1000;
    assert n1 / 10 == n2 && n2 / 10 == n3 && n3 / 10 == n / 10000;
    assert Pad(n3, 1) == [DigitChar(n3 % 10)];
    assert Pad(n2, 2) == Pad(n3, 1) + [DigitChar(n2 % 10)];
    assert Pad(n1, 3) == Pad(n2, 2) + [DigitChar(n1 % 10)];
    assert Pad(n, 4) == Pad(n1, 3) + [DigitChar(n % 10)];
    assert Decimal(n3) == Decimal(n / 10000) + Pad(n3, 1);
    assert Decimal(n2) == Decimal(n3) + [DigitChar(n2 % 10)];
    assert Decimal(n1) == Decimal(n2) + [DigitChar(n1 % 10)];
    assert Decimal(n) == Decimal(n1) + [DigitChar(n % 10)];
  }

  lemma PadDigit(q: nat, d: nat, width: nat)
    requires d < 10 && width > 0
    ensures Pad(10 * q + d, width) == Pad(q, width - 1) + [DigitChar(d)]
  {
    assert (10 * q + d) / 10 == q && (10 * q + d) % 10 == d;
  }

  /** Only the last four digits count for a four-digit field. */
  lemma PadIsLastFour(n: nat)
    ensures Pad(n, 4) == Pad(n % 10000, 4)
  {
    hide Pad;
    var q, r := n / 10000, n % 10000;
    var r1, r2, r3 := r / 10, r / 10 / 10, r / 10 / 10 / 10;
    assert r3 < 10;
    PadDigit(1000 * q + r1, r % 10, 4);
    PadDigit(100 * q + r2, r1 % 10, 3);
    PadDigit(10 * q + r3, r2 % 10, 2);
    PadDigit(q, r3, 1);
    PadDigit(r1, r % 10, 4);
    PadDigit(r2, r1 % 10, 3);
    PadDigit(r3, r2 % 10, 2);
    PadDigit(0, r3, 1);
    NoDigits(q);
    NoDigits(0);
  }

  lemma NoDigits(n: nat)
    ensures Pad(n, 0) == ""
  {
  }

  lemma LastFourValue(n: nat)
    ensures Value(Pad(n, 4)) == n % 10000
  {
    PadIsLastFour(n);
    Powers();
    PadValue(n % 10000, 4);
  }

  lemma YearTextValue(year: nat)
    ensures YearOf(YearText(year)) == year && |YearText(year)| >= 4
  {
    hide Pad, Decimal, Value;
    if year <= 9999 {
      LastFourValue(year);
    } else {
      DecimalValue(year);
      DecimalSplits(year);
      assert YearText(year)[1..] == Decimal(year);
    }
  }

  lemma ReadAfterYearOfRendered(c: Civil, more: string, year: nat, nanos: nat)
    requires InRange(c)
    ensures ReadAfterYear(year, AfterYear(c) + more, nanos) == c.(year := year, nanos := nanos)
  {
    var s := AfterYear(c) + more;
    assert s[1..3] == Pad(c.month, 2);
    assert s[4..6] == Pad(c.day, 2);
    assert s[7..9] == Pad(c.hour, 2);
    assert s[10..12] == Pad(c.minute, 2);
    assert s[13..15] == Pad(c.second, 2);
    Powers();
    PadValue(c.month, 2);
    PadValue(c.day, 2);
    PadValue(c.hour, 2);
    PadValue(c.minute, 2);
    PadValue(c.second, 2);
  }

  /** A microsecond instant is read back from its microsecond text. */
  lemma ParseMicrosOfRendered(t: Instant)
    requires t % NANOS_PER_MICRO == 0
    ensures ParseMicros(RenderMicros(t)) == Some(t)
  {
    var c := CivilOf(t);
    CivilRoundTrip(t);
    MicrosOfRendered(t, c);
  }

  lemma MicrosOfRendered(t: Instant, c: Civil)
    requires c == CivilOf(t) && InRange(c) && c.nanos % NANOS_PER_MICRO == 0
    ensures ParseMicros(RenderMicros(t)) == Some(InstantOf(c))
  {
    hide CivilOf, AfterYear, InstantOf, ReadAfterYear, Pad, Value, YearText, YearOf;
    var micros := Pad(c.nanos / NANOS_PER_MICRO, 6);
    var more := "." + micros + "Z";
    var s := RenderMicros(t);
    assert s == YearText(c.year) + (AfterYear(c) + more);
    YearTextValue(c.year);
    var k := |s| - 23;
    assert s[..k] == YearText(c.year) && s[k..] == AfterYear(c) + more;
    assert s[k..][16..22] == micros;
    Powers();
    PadValue(c.nanos / NANOS_PER_MICRO, 6);
    ReadAfterYearOfRendered(c, more, c.year, c.nanos);
  }

  lemma FractionInjective(m: nat, n: nat)
    requires m < NANOS_PER_SECOND && n < NANOS_PER_SECOND
    requires Fraction(m) == Fraction(n)
    ensures m == n
  {
    Powers();
    var f := Fraction(m);
    if |f| == 4 {
      assert f[1..] == Pad(m / 1_000_000, 3) == Pad(n / 1_000_000, 3);
      PadValue(m / 1_000_000, 3);
      PadValue(n / 1_000_000, 3);
    } else if |f| == 7 {
      assert f[1..] == Pad(m / 1_000, 6) == Pad(n / 1_000, 6);
      PadValue(m / 1_000, 6);
      PadValue(n / 1_000, 6);
    } else if |f| == 10 {
      assert f[1..] == Pad(m, 9) == Pad(n, 9);
      PadValue(m, 9);
      PadValue(n, 9);
    }
  }

  // ----- Texts that end in an instant -----

  /** The last position of a character, -1 for none. */
  function LastIndex(s: string, c: char): int {
    if s == "" then -1
    else if s[|s| - 1] == c then |s| - 1
    else LastIndex(s[..|s| - 1], c)
  }

  lemma {:induction false} LastIndexAt(a: string, p: string, k: nat, c: char)
    requires k < |p| && p[k] == c && forall i :: k < i < |p| ==> p[i] != c
    ensures LastIndex(a + p, c) == |a| + k
  {
    var n := |p| - 1;
    assert (a + p)[|a + p| - 1] == p[n];
    if k < n {
      assert (a + p)[..|a + p| - 1] == a + p[..n];
      LastIndexAt(a, p[..n], k, c);
    }
  }

  /** Two texts that end in the tails of instants end in the same tail: the last `T` fixes where it
      starts. */
  lemma SameTail(a: string, c: Civil, b: string, d: Civil)
    requires a + Tail(c) == b + Tail(d)
    ensures a == b && Tail(c) == Tail(d)
  {
    hide Tail;
    var p, q := Tail(c), Tail(d);
    LastIndexAt(a, p, 6, 'T');
    LastIndexAt(b, q, 6, 'T');
    Peel(a, p, b, q);
  }

  lemma TailInjective(c: Civil, d: Civil)
    requires InRange(c) && InRange(d) && Tail(c) == Tail(d)
    ensures c.(year := d.year) == d
  {
    var p, q := Fraction(c.nanos) + "+00:00", Fraction(d.nanos) + "+00:00";
    assert Tail(c) == AfterYear(c) + p && Tail(d) == AfterYear(d) + q;
    Peel(AfterYear(c), p, AfterYear(d), q);
    PeelBack(Fraction(c.nanos), "+00:00", Fraction(d.nanos), "+00:00");
    FractionInjective(c.nanos, d.nanos);
    ReadAfterYearOfRendered(c, "", d.year, d.nanos);
    ReadAfterYearOfRendered(d, "", d.year, d.nanos);
  }

  lemma SameLongYear(a: string, m: nat, b: string, n: nat)
    requires a + "+" + Decimal(m) == b + "+" + Decimal(n)
    ensures a == b && m == n
  {
    DecimalValue(m);
    DecimalValue(n);
    hide Decimal, Value;
    var x, y := Decimal(m), Decimal(n);
    Assoc(a, "+", x);
    Assoc(b, "+", y);
    LastIndexAt(a, "+" + x, 0, '+');
    LastIndexAt(b, "+" + y, 0, '+');
    Peel(a + "+", x, b + "+", y);
    PeelBack(a, "+", b, "+");
  }

  /** The year's sign and digits before its last four. */
  function Myriads(year: nat): string {
    if year <= 9999 then "" else "+" + Decimal(year / 10000)
  }

  lemma YearSplits(year: nat)
    ensures YearText(year) == Myriads(year) + Pad(year, 4)
  {
    hide Pad, Decimal;
    if year > 9999 {
      DecimalSplits(year);
      Assoc("+", Decimal(year / 10000), Pad(year, 4));
    }
  }

  lemma SameYear(a: string, m: nat, b: string, n: nat)
    requires a + YearText(m) == b + YearText(n)
    ensures (m <= 9999 <==> n <= 9999) ==> a == b && m == n
    ensures m % 10000 == n % 10000 && a + Myriads(m) == b + Myriads(n)
  {
    hide Decimal, Pad, Value;
    YearSplits(m);
    YearSplits(n);
    Assoc(a, Myriads(m), Pad(m, 4));
    Assoc(b, Myriads(n), Pad(n, 4));
    PeelBack(a + Myriads(m), Pad(m, 4), b + Myriads(n), Pad(n, 4));
    LastFourValue(m);
    LastFourValue(n);
    if m > 9999 && n > 9999 {
      Assoc(a, "+", Decimal(m));
      Assoc(b, "+", Decimal(n));
      SameLongYear(a, m, b, n);
    }
    assert m <= 9999 ==> a + Myriads(m) == a;
    assert n <= 9999 ==> b + Myriads(n) == b;
  }

  /** Instants whose dates and times differ by whole ten thousands of years. */
  predicate MyriadsApart(t: Instant, u: Instant) {
    var c, d := CivilOf(t), CivilOf(u);
    c.year % 10000 == d.year % 10000 && c.(year := d.year) == d
  }

  /** A text that ends in a rendered instant ends in exactly one, as long as the years are all up to
      9999 or all beyond: then no rendered instant is a proper suffix of another. A year beyond 9999
      has one more way to be read, as the year of its last four digits after a sign and digits that
      belong to the text before it. */
  lemma RenderSuffixDecodable(a: string, t: Instant, b: string, u: Instant)
    requires a + Render(t) == b + Render(u)
    ensures (FourDigitYear(t) <==> FourDigitYear(u)) ==> a == b && t == u
    ensures MyriadsApart(t, u) && a + Myriads(CivilOf(t).year) == b + Myriads(CivilOf(u).year)
  {
    var c, d := CivilOf(t), CivilOf(u);
    CivilRoundTrip(t);
    CivilRoundTrip(u);
    hide Tail, YearText, CivilOf, InstantOf, Myriads;
    Assoc(a, YearText(c.year), Tail(c));
    Assoc(b, YearText(d.year), Tail(d));
    SameTail(a + YearText(c.year), c, b + YearText(d.year), d);
    TailInjective(c, d);
    SameYear(a, c.year, b, d.year);
  }

  /** The other reading is real for every pair of instants whole ten thousands of years apart: one
      text ends in both. */
  lemma MyriadsAreAmbiguous(t: Instant, u: Instant)
    requires FourDigitYear(t) && MyriadsApart(t, u)
    ensures Render(u) == Myriads(CivilOf(u).year) + Render(t)
  {
    var c, d := CivilOf(t), CivilOf(u);
    hide CivilOf, Tail, Pad, Myriads, YearText;
    YearSplits(c.year);
    YearSplits(d.year);
    TailIgnoresYear(c, d.year);
    PadIsLastFour(c.year);
    PadIsLastFour(d.year);
    NoMyriads(c.year);
    Assoc(Myriads(d.year), Pad(d.year, 4), Tail(c));
  }

  lemma NoMyriads(year: nat)
    ensures year <= 9999 ==> Myriads(year) + Pad(year, 4) == Pad(year, 4)
  {
  }

  lemma TailIgnoresYear(c: Civil, year: nat)
    ensures Tail(c.(year := year)) == Tail(c)
  {
  }

  /** Different instants render differently. */
  lemma RenderInjective(t: Instant, u: Instant)
    requires Render(t) == Render(u)
    ensures t == u
  {
    hide Render, CivilOf;
    assert "" + Render(t) == "" + Render(u);
    RenderSuffixDecodable("", t, "", u);
    assert "" + Myriads(CivilOf(t).year) == Myriads(CivilOf(t).year);
    assert "" + Myriads(CivilOf(u).year) == Myriads(CivilOf(u).year);
  }

  // ----- The calendar in figures -----

  /** The Gregorian leap years before a year: every fourth, less every hundredth, and every four
      hundredth after all. */
  lemma {:induction false} YearStarts(year: nat)
    ensures DaysBeforeYear(year) == 365 * year + (year + 3) / 4 - (year + 99) / 100 + (year + 399) / 400
  {
    if year > 0 {
      YearStarts(year - 1);
      LeapStep(year - 1);
    }
  }

  lemma LeapStep(year: nat)
    ensures DaysInYear(year) ==
            365 + ((year + 4) / 4 - (year + 3) / 4) - ((year + 100) / 100 - (year + 99) / 100)
            + ((year + 400) / 400 - (year + 399) / 400)
  {
    CountStep(year, 4);
    CountStep(year, 100);
    CountStep(year, 400);
    Multiple(year, 25, 4);
    Multiple(year, 4, 100);
  }

  lemma Multiple(n: nat, a: nat, b: nat)
    requires (a == 25 && b == 4) || (a == 4 && b == 100)
    ensures n % (a * b) == 0 ==> n % b == 0
  {
    if n % (a * b) == 0 {
      var q := n / (a * b);
      assert n == b * (a * q);
    }
  }

  lemma CountStep(year: nat, k: nat)
    requires k in {4, 100, 400}
    ensures (year + k) / k - (year + k - 1) / k == if year % k == 0 then 1 else 0
  {
  }

  lemma MonthStarts(year: nat, month: nat)
    requires 1 <= month <= 12
    ensures DaysBeforeMonth(year, month) ==
            [0, 31, 59, 90, 120, 151, 181, 212, 243, 273, 304, 334][month - 1]
            + (if month > 2 && DaysInYear(year) == 366 then 1 else 0)
  {
    if month > 1 {
      MonthStarts(year, month - 1);
    }
  }

  /** Dates and times of day that exist. */
  predicate Exists(c: Civil) {
    && 1 <= c.month <= 12 && 1 <= c.day <= DaysInMonth(c.year, c.month)
    && c.hour < 24 && c.minute < 60 && c.second < 60 && c.nanos < NANOS_PER_SECOND
  }

  lemma {:induction false} YearAndDayFinds(start: nat, year: nat, day: nat)
    requires start <= year && day < DaysInYear(year)
    ensures DaysBeforeYear(year) >= DaysBeforeYear(start)
    ensures YearAndDay(start, DaysBeforeYear(year) - DaysBeforeYear(start) + day) == (year, day)
    decreases year - start
  {
    if start < year {
      YearAndDayFinds(start + 1, year, day);
    }
  }

  lemma {:induction false} MonthAndDayFinds(year: nat, start: nat, month: nat, day: nat)
    requires 1 <= start <= month <= 12 && day < DaysInMonth(year, month)
    ensures DaysBeforeMonth(year, month) >= DaysBeforeMonth(year, start)
    ensures MonthAndDay(year, start, DaysBeforeMonth(year, month) - DaysBeforeMonth(year, start) + day) == (month, day)
    decreases month - start
  {
    if start < month {
      MonthAndDayFinds(year, start + 1, month, day);
    }
  }

  /** Every date and time that exists is the civil time of its instant. */
  lemma InstantRoundTrip(c: Civil)
    requires Exists(c)
    ensures CivilOf(InstantOf(c)) == c
  {
    hide DaysInYear, DaysInMonth, DaysBeforeYear, DaysBeforeMonth, YearAndDay, MonthAndDay;
    var dayOfYear := DaysBeforeMonth(c.year, c.month) + (c.day - 1);
    var days := DaysBeforeYear(c.year) + dayOfYear;
    DayFitsYear(c);
    YearAndDayFinds(0, c.year, dayOfYear);
    MonthAndDayFinds(c.year, 1, c.month, c.day - 1);
    StartsAtZero(c.year);
    ClockSplits(days, c.hour, c.minute, c.second, c.nanos);
  }

  lemma StartsAtZero(year: nat)
    ensures DaysBeforeYear(0) == 0 && DaysBeforeMonth(year, 1) == 0
  {
  }

  lemma DayFitsYear(c: Civil)
    requires Exists(c)
    ensures DaysBeforeMonth(c.year, c.month) + (c.day - 1) < DaysInYear(c.year)
  {
    MonthStarts(c.year, c.month);
  }

  /** An instant splits into its day and its time of day. */
  lemma ClockSplits(days: nat, hour: nat, minute: nat, second: nat, nanos: nat)
    requires hour < 24 && minute < 60 && second < 60 && nanos < NANOS_PER_SECOND
    ensures var t := (days * SECONDS_PER_DAY + hour * 3600 + minute * 60 + second) * NANOS_PER_SECOND + nanos;
            var s := t / NANOS_PER_SECOND % SECONDS_PER_DAY;
            && t % NANOS_PER_SECOND == nanos && t / NANOS_PER_SECOND / SECONDS_PER_DAY == days
            && s / 3600 == hour && s % 3600 / 60 == minute && s % 60 == second
  {
    var clock := hour * 3600 + minute * 60 + second;
    var seconds := days * SECONDS_PER_DAY + clock;
    var t := seconds * NANOS_PER_SECOND + nanos;
    assert t / NANOS_PER_SECOND == seconds && t % NANOS_PER_SECOND == nanos;
    assert seconds / SECONDS_PER_DAY == days && seconds % SECONDS_PER_DAY == clock;
  }

  /** The Unix epoch is the instant it should be. */
  lemma UnixEpoch()
    ensures InstantOf(Civil(1970, 1, 1, 0, 0, 0, 0)) == 62_167_219_200 * 1_000_000_000
  {
    YearStarts(1970);
  }

  lemma TwoDigits(tens: nat, ones: nat)
    requires tens < 10 && ones < 10
    ensures Pad(10 * tens + ones, 2) == [DigitChar(tens), DigitChar(ones)]
  {
    hide Pad;
    PadDigit(tens, ones, 2);
    PadDigit(0, tens, 1);
    NoDigits(0);
  }

  lemma LeapDayDigits()
    ensures Pad(2024, 4) == "2024" && Pad(2, 2) == "02" && Pad(29, 2) == "29" && Pad(13, 2) == "13"
    ensures Pad(45, 2) == "45" && Pad(6, 2) == "06"
  {
    hide Pad;
    TwoDigits(2, 0);
    PadDigit(20, 2, 3);
    PadDigit(202, 4, 4);
    TwoDigits(0, 2);
    TwoDigits(2, 9);
    TwoDigits(1, 3);
    TwoDigits(4, 5);
    TwoDigits(0, 6);
  }

  lemma LeapDayFractions()
    ensures Pad(7, 3) == "007" && Pad(7000, 6) == "007000"
  {
    hide Pad;
    TwoDigits(0, 0);
    PadDigit(0, 7, 3);
    PadDigit(7, 0, 4);
    PadDigit(70, 0, 5);
    PadDigit(700, 0, 6);
  }

  lemma LeapDayAfterYear(c: Civil)
    requires c.month == 2 && c.day == 29 && c.hour == 13 && c.minute == 45 && c.second == 6
    ensures AfterYear(c) == "-02-29T13:45:06"
  {
    LeapDayDigits();
    hide Pad;
  }

  /** Which digits stand where, on a leap day. */
  lemma LeapDayText(c: Civil)
    requires c == Civil(2024, 2, 29, 13, 45, 6, 7_000_000)
    ensures Render(InstantOf(c)) == "2024-02-29T13:45:06.007+00:00"
    ensures RenderMicros(InstantOf(c)) == "2024-02-29T13:45:06.007000Z"
  {
    hide CivilOf, InstantOf, Pad, AfterYear;
    LeapDayExists(c);
    InstantRoundTrip(c);
    LeapDayDigits();
    LeapDayFractions();
    LeapDayAfterYear(c);
    LeapDayNanos(c.nanos);
    LeapDayPieces("2024", "-02-29T13:45:06");
  }

  lemma LeapDayNanos(nanos: nat)
    requires nanos == 7_000_000
    ensures Fraction(nanos) == ".007" && nanos / NANOS_PER_MICRO == 7000
  {
    LeapDayFractions();
    hide Pad;
    assert nanos % 1_000_000 == 0 && nanos / 1_000_000 == 7;
  }

  lemma LeapDayPieces(year: string, rest: string)
    requires year == "2024" && rest == "-02-29T13:45:06"
    ensures year + (rest + ".007" + "+00:00") == "2024-02-29T13:45:06.007+00:00"
    ensures year + rest + "." + "007000" + "Z" == "2024-02-29T13:45:06.007000Z"
  {
    assert year + rest == "2024-02-29T13:45:06";
    var seconds := "2024-02-29T13:45:06";
    assert seconds + ".007" == "2024-02-29T13:45:06.007";
    Assoc(year, rest + ".007", "+00:00");
    Assoc(year, rest, ".007");
  }

  lemma LeapDayExists(c: Civil)
    requires c == Civil(2024, 2, 29, 13, 45, 6, 7_000_000)
    ensures Exists(c)
  {
    assert IsLeapYear(c.year);
  }
}
