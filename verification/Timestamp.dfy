/**
 The timestamp printers of both managers: `snprintf` with "%04d-%02d-%02d %02d:%02d:%02d.%03d" into a
 caller's buffer, followed by a terminator at the returned length.
 */
module Timestamp {
  import opened Options

  /** The broken-down local time; `year` and `month` are already offset as they are printed. */
  datatype Fields = Fields(year: int, month: int, day: int, hour: int, minute: int, second: int, ms: int)

  /** What the system calls give: `struct tm`, with years from 1900 and months from 0, and the microseconds. */
  datatype Clock = Clock(tmYear: int, tmMon: int, tmMday: int, tmHour: int, tmMin: int, tmSec: int, tvUsec: nat)

  /** The numbers that are printed. */
  function FieldsOf(c: Clock): Fields {
    Fields(c.tmYear + 1900, c.tmMon + 1, c.tmMday, c.tmHour, c.tmMin, c.tmSec, c.tvUsec / 1000)
  }

  /** What the buffer receives when the time is not available. */
  const TEMPLATE: string := "yyyy-MM-dd hh:mm:ss.mil\0"

  // ---------- printf's %0wd ----------

  function Digit(d: nat): char
    requires d < 10
  {
    (48 + d) as char
  }

  function Decimal(v: nat): string {
    if v < 10 then [Digit(v)] else Decimal(v / 10) + [Digit(v % 10)]
  }

  function Zeros(n: nat): string {
    if n == 0 then "" else Zeros(n - 1) + "0"
  }

  function PadLeft(text: string, width: nat): string {
    if |text| < width then Zeros(width - |text|) + text else text
  }

  /** `%0<width>d`: the sign first, then zeros up to the width; wider numbers are printed in full. */
  function Print(v: int, width: nat): string
    requires width > 0
  {
    if v < 0 then "-" + PadLeft(Decimal(-v), width - 1) else PadLeft(Decimal(v), width)
  }

  function Format(f: Fields): string {
    Print(f.year, 4) + ("-" + (Print(f.month, 2) + ("-" + (Print(f.day, 2) + (" " +
    (Print(f.hour, 2) + (":" + (Print(f.minute, 2) + (":" + (Print(f.second, 2) + ("." + Print(f.ms, 3))))))))))))
  }

  // ---------- Fixed width ----------

  function Pow10(k: nat): nat {
    if k == 0 then 1 else 10 * Pow10(k - 1)
  }

  /** The last `width` digits of `v`. */
  function Digits(v: nat, width: nat): (s: string)
    ensures |s| == width
  {
    if width == 0 then "" else Digits(v / 10, width - 1) + [Digit(v % 10)]
  }

  lemma ZerosLength(n: nat)
    ensures |Zeros(n)| == n
  {
  }

  lemma {:induction false} DigitsOfZero(width: nat)
    ensures Digits(0, width) == Zeros(width)
  {
    if width == 0 {
    } else {
      DigitsOfZero(width - 1);
    }
  }

  /** Printing a number that fits is printing its digits. */
  lemma {:induction false} PrintIsDigits(v: nat, width: nat)
    requires width > 0 && v < Pow10(width)
    ensures PadLeft(Decimal(v), width) == Digits(v, width)
  {
    if v < 10 {
      DigitsOfZero(width - 1);
      ZerosLength(width - 1);
    } else {
      assert v / 10 < Pow10(width - 1);
      PrintIsDigits(v / 10, width - 1);
      ZerosLength(if |Decimal(v / 10)| < width - 1 then width - 1 - |Decimal(v / 10)| else 0);
      assert PadLeft(Decimal(v), width) == PadLeft(Decimal(v / 10), width - 1) + [Digit(v % 10)];
    }
  }

  lemma {:induction false} DecimalLength(v: nat, width: nat)
    requires width > 0
    ensures |Decimal(v)| <= width <==> v < Pow10(width)
    decreases width
  {
    if v < 10 {
      Pow10AtLeastTen(width);
    } else if width == 1 {
      assert |Decimal(v / 10)| >= 1 by { DecimalNonempty(v / 10); }
    } else {
      DecimalLength(v / 10, width - 1);
    }
  }

  lemma DecimalNonempty(v: nat)
    ensures |Decimal(v)| >= 1
  {
  }

  lemma Pow10AtLeastTen(k: nat)
    requires k > 0
    ensures Pow10(k) >= 10
  {
    if k > 1 {
      Pow10AtLeastTen(k - 1);
    }
  }

  /** A printed field is never narrower than its width, and exactly as wide when the value allows it. */
  lemma PrintLength(v: int, width: nat)
    requires width > 1
    ensures |Print(v, width)| >= width
    ensures |Print(v, width)| == width <==> 0 < v + Pow10(width - 1) && v < Pow10(width)
  {
    if v < 0 {
      DecimalLength(-v, width - 1);
      ZerosLength(if |Decimal(-v)| < width - 1 then width - 1 - |Decimal(-v)| else 0);
    } else {
      DecimalLength(v, width);
      ZerosLength(if |Decimal(v)| < width then width - |Decimal(v)| else 0);
    }
  }

  /** Every field is printed in its own width, with no sign. */
  predicate FitsAll(f: Fields) {
    && 0 <= f.year < 10000 && 0 <= f.month < 100 && 0 <= f.day < 100
    && 0 <= f.hour < 100 && 0 <= f.minute < 100 && 0 <= f.second < 100 && 0 <= f.ms < 1000
  }

  /** What `localtime_r` and `gettimeofday` deliver for years of four digits. */
  predicate IsClockTime(f: Fields) {
    && 0 <= f.year <= 9999 && 1 <= f.month <= 12 && 1 <= f.day <= 31
    && 0 <= f.hour <= 23 && 0 <= f.minute <= 59 && 0 <= f.second <= 60 && 0 <= f.ms <= 999
  }

  lemma Powers()
    ensures Pow10(1) == 10 && Pow10(2) == 100 && Pow10(3) == 1000 && Pow10(4) == 10000
  {
    assert Pow10(1) == 10 * Pow10(0);
    assert Pow10(2) == 10 * Pow10(1);
    assert Pow10(3) == 10 * Pow10(2);
    assert Pow10(4) == 10 * Pow10(3);
  }

  /** The text has at least 23 characters, and exactly 23 when no field outgrows its width. */
  lemma FormatLength(f: Fields)
    ensures |Format(f)| >= 23
    ensures |Format(f)| == 23 <==>
            && -1000 < f.year < 10000 && -10 < f.month < 100 && -10 < f.day < 100
            && -10 < f.hour < 100 && -10 < f.minute < 100 && -10 < f.second < 100 && -100 < f.ms < 1000
  {
    hide Print, Pow10;
    Powers();
    PrintLength(f.year, 4);
    PrintLength(f.month, 2);
    PrintLength(f.day, 2);
    PrintLength(f.hour, 2);
    PrintLength(f.minute, 2);
    PrintLength(f.second, 2);
    PrintLength(f.ms, 3);
  }

  /** The text of a time whose fields fit, by digits. */
  function Plain(f: Fields): string
    requires FitsAll(f)
  {
    Digits(f.year, 4) + ("-" + (Digits(f.month, 2) + ("-" + (Digits(f.day, 2) + (" " +
    (Digits(f.hour, 2) + (":" + (Digits(f.minute, 2) + (":" + (Digits(f.second, 2) + ("." + Digits(f.ms, 3))))))))))))
  }

  lemma FormatIsPlain(f: Fields)
    requires FitsAll(f)
    ensures Format(f) == Plain(f)
  {
    hide Digits, Pow10, PadLeft, Decimal;
    Powers();
    PrintIsDigits(f.year, 4);
    PrintIsDigits(f.month, 2);
    PrintIsDigits(f.day, 2);
    PrintIsDigits(f.hour, 2);
    PrintIsDigits(f.minute, 2);
    PrintIsDigits(f.second, 2);
    PrintIsDigits(f.ms, 3);
  }

  // ---------- Reading back ----------

  predicate IsDigit(c: char) {
    '0' <= c <= '9'
  }

  function ValueOf(s: string): Option<nat> {
    if s == "" then Some(0)
    else
      var head := ValueOf(s[..|s| - 1]);
      if head.Some? && IsDigit(s[|s| - 1]) then Some(10 * head.value + (s[|s| - 1] as int - 48)) else None
  }

  /** Reads a timestamp; anything but the exact shape is refused. */
  function Parse(s: string): Option<Fields> {
    if |s| == 23 && s[4] == '-' && s[7] == '-' && s[10] == ' ' && s[13] == ':' && s[16] == ':' && s[19] == '.' then
      var (year, month, day) := (ValueOf(s[0..4]), ValueOf(s[5..7]), ValueOf(s[8..10]));
      var (hour, minute) := (ValueOf(s[11..13]), ValueOf(s[14..16]));
      var (second, ms) := (ValueOf(s[17..19]), ValueOf(s[20..23]));
      if year.Some? && month.Some? && day.Some? && hour.Some? && minute.Some? && second.Some? && ms.Some?
      then Some(Fields(year.value, month.value, day.value, hour.value, minute.value, second.value, ms.value))
      else None
    else None
  }

  lemma ValueOfSnoc(s: string, d: nat)
    requires ValueOf(s).Some? && d < 10
    ensures ValueOf(s + [Digit(d)]) == Some(10 * ValueOf(s).value + d)
  {
    assert (s + [Digit(d)])[..|s|] == s;
  }

  lemma TenthFits(v: nat, width: nat)
    requires width > 0 && v < Pow10(width)
    ensures v / 10 < Pow10(width - 1)
  {
  }

  lemma {:induction false} ValueOfDigits(v: nat, width: nat)
    requires v < Pow10(width)
    ensures ValueOf(Digits(v, width)) == Some(v)
  {
    if width == 0 {
    } else {
      hide ValueOf, Pow10, Digit;
      TenthFits(v, width);
      ValueOfDigits(v / 10, width - 1);
      ValueOfSnoc(Digits(v / 10, width - 1), v % 10);
      DivBackTogether(v);
    }
  }

  lemma DivBackTogether(v: nat)
    ensures 10 * (v / 10) + v % 10 == v
  {
  }

  lemma {:induction false} DigitsOfValue(s: string)
    requires ValueOf(s).Some?
    ensures ValueOf(s).value < Pow10(|s|) && Digits(ValueOf(s).value, |s|) == s
    decreases |s|
  {
    if s == "" {
    } else {
      var last := |s| - 1;
      DigitsOfValue(s[..last]);
      assert ValueOf(s).value / 10 == ValueOf(s[..last]).value;
      assert ValueOf(s).value % 10 == s[last] as int - 48;
      assert s == s[..last] + [s[last]];
    }
  }

  /** A text that starts with `a`, cut after it. */
  lemma CutsAt(s: string, a: string, t: string)
    ensures s == a + t <==> |s| >= |a| && s[..|a|] == a && s[|a|..] == t
  {
    if |s| >= |a| && s[..|a|] == a && s[|a|..] == t {
      assert s == s[..|a|] + s[|a|..];
    }
  }

  /** A field and a separator, cut off the front of `s[i..]`. */
  lemma CutsField(s: string, i: nat, field: string, separator: char, t: string)
    requires i + |field| + 1 <= |s|
    ensures s[i..] == field + ([separator] + t) <==>
            s[i..i + |field|] == field && s[i + |field|] == separator && s[i + |field| + 1..] == t
  {
    var u := s[i..];
    CutsAt(u, field, [separator] + t);
    CutsAt(u[|field|..], [separator], t);
    assert u[..|field|] == s[i..i + |field|];
    assert u[|field|..] == s[i + |field|..];
    assert s[i + |field|..][..1] == [s[i + |field|]];
    assert s[i + |field|..][1..] == s[i + |field| + 1..];
  }

  lemma PlainLength(f: Fields)
    requires FitsAll(f)
    ensures |Plain(f)| == 23
  {
  }

  /** The text from the day on. */
  function PlainFromDay(f: Fields): string
    requires FitsAll(f)
  {
    Digits(f.day, 2) + (" " +
    (Digits(f.hour, 2) + (":" + (Digits(f.minute, 2) + (":" + (Digits(f.second, 2) + ("." + Digits(f.ms, 3))))))))
  }

  lemma DayParts(f: Fields, s: string)
    requires FitsAll(f) && |s| == 23
    ensures s[8..] == PlainFromDay(f) <==>
            && s[10] == ' ' && s[13] == ':' && s[16] == ':' && s[19] == '.'
            && s[8..10] == Digits(f.day, 2) && s[11..13] == Digits(f.hour, 2) && s[14..16] == Digits(f.minute, 2)
            && s[17..19] == Digits(f.second, 2) && s[20..23] == Digits(f.ms, 3)
  {
    hide Digits;
    var f6 := Digits(f.ms, 3);
    var f5 := Digits(f.second, 2) + ("." + f6);
    var f4 := Digits(f.minute, 2) + (":" + f5);
    var f3 := Digits(f.hour, 2) + (":" + f4);
    assert s[20..] == s[20..23];
    CutsField(s, 8, Digits(f.day, 2), ' ', f3);
    CutsField(s, 11, Digits(f.hour, 2), ':', f4);
    CutsField(s, 14, Digits(f.minute, 2), ':', f5);
    CutsField(s, 17, Digits(f.second, 2), '.', f6);
  }

  /** The pieces of the text of a time whose fields fit. */
  lemma PlainParts(f: Fields, s: string)
    requires FitsAll(f)
    ensures s == Plain(f) <==>
            && |s| == 23
            && s[4] == '-' && s[7] == '-' && s[10] == ' ' && s[13] == ':' && s[16] == ':' && s[19] == '.'
            && s[0..4] == Digits(f.year, 4) && s[5..7] == Digits(f.month, 2) && s[8..10] == Digits(f.day, 2)
            && s[11..13] == Digits(f.hour, 2) && s[14..16] == Digits(f.minute, 2) && s[17..19] == Digits(f.second, 2)
            && s[20..23] == Digits(f.ms, 3)
  {
    PlainLength(f);
    hide Digits;
    assert Plain(f) == Digits(f.year, 4) + ("-" + (Digits(f.month, 2) + ("-" + PlainFromDay(f))));
    hide Plain, PlainFromDay;
    if |s| == 23 {
      assert s[0..] == s;
      CutsField(s, 0, Digits(f.year, 4), '-', Digits(f.month, 2) + ("-" + PlainFromDay(f)));
      CutsField(s, 5, Digits(f.month, 2), '-', PlainFromDay(f));
      DayParts(f, s);
    }
  }

  /** Printing and parsing are inverse: a time whose fields fit reads back, and only its text reads as it. */
  lemma ParseInvertsFormat(f: Fields, s: string)
    ensures FitsAll(f) ==> Parse(Format(f)) == Some(f)
    ensures Parse(s) == Some(f) ==> FitsAll(f) && Format(f) == s
  {
    hide Print, Digits, ValueOf, Pow10;
    Powers();
    if FitsAll(f) {
      FormatIsPlain(f);
      PlainParts(f, Plain(f));
      FieldsReadBack(f);
    }
    if Parse(s) == Some(f) {
      DigitsOfValue(s[0..4]);
      DigitsOfValue(s[5..7]);
      DigitsOfValue(s[8..10]);
      DigitsOfValue(s[11..13]);
      DigitsOfValue(s[14..16]);
      DigitsOfValue(s[17..19]);
      DigitsOfValue(s[20..23]);
      FormatIsPlain(f);
      PlainParts(f, s);
    }
  }

  lemma FieldsReadBack(f: Fields)
    requires FitsAll(f)
    ensures ValueOf(Digits(f.year, 4)) == Some(f.year) && ValueOf(Digits(f.ms, 3)) == Some(f.ms)
    ensures ValueOf(Digits(f.month, 2)) == Some(f.month) && ValueOf(Digits(f.day, 2)) == Some(f.day)
    ensures ValueOf(Digits(f.hour, 2)) == Some(f.hour) && ValueOf(Digits(f.minute, 2)) == Some(f.minute)
    ensures ValueOf(Digits(f.second, 2)) == Some(f.second)
  {
    hide Digits, ValueOf, Pow10;
    Powers();
    ValueOfDigits(f.year, 4);
    ValueOfDigits(f.month, 2);
    ValueOfDigits(f.day, 2);
    ValueOfDigits(f.hour, 2);
    ValueOfDigits(f.minute, 2);
    ValueOfDigits(f.second, 2);
    ValueOfDigits(f.ms, 3);
  }

  /** The text of a clock in the years 0 to 9999, read back: the calendar year and month, and whole milliseconds. */
  lemma TextOfClock(c: Clock)
    requires -1900 <= c.tmYear <= 8099 && 0 <= c.tmMon <= 11 && 1 <= c.tmMday <= 31
    requires 0 <= c.tmHour <= 23 && 0 <= c.tmMin <= 59 && 0 <= c.tmSec <= 60 && c.tvUsec < 1000000
    ensures var read := Parse(Format(FieldsOf(c)));
            && read.Some?
            && read.value.year == 1900 + c.tmYear && read.value.month == 1 + c.tmMon && read.value.day == c.tmMday
            && read.value.hour == c.tmHour && read.value.minute == c.tmMin && read.value.second == c.tmSec
            && 1000 * read.value.ms <= c.tvUsec < 1000 * read.value.ms + 1000
  {
    hide Format, Parse;
    ParseInvertsFormat(FieldsOf(c), "");
  }

  /** One clock and its text. */
  lemma TextOfOneClock()
    ensures Format(FieldsOf(Clock(124, 1, 29, 23, 4, 59, 7654))) == "2024-02-29 23:04:59.007"
  {
    hide Format, Plain, Digits;
    var f := Fields(2024, 2, 29, 23, 4, 59, 7);
    FormatIsPlain(f);
    DigitsOfOneClock();
    var text := "2024-02-29 23:04:59.007";
    assert text[0..4] == "2024" && text[5..7] == "02" && text[8..10] == "29";
    assert text[11..13] == "23" && text[14..16] == "04" && text[17..19] == "59" && text[20..23] == "007";
    PlainParts(f, text);
  }

  lemma DigitsOfOneClock()
    ensures Digits(2024, 4) == "2024" && Digits(2, 2) == "02" && Digits(29, 2) == "29" && Digits(23, 2) == "23"
    ensures Digits(4, 2) == "04" && Digits(59, 2) == "59" && Digits(7, 3) == "007"
  {
    hide Digits;
    TwoDigits(2, 0);
    DigitsEnd(20, 2, 2);
    DigitsEnd(202, 4, 3);
    TwoDigits(0, 2);
    TwoDigits(2, 9);
    TwoDigits(2, 3);
    TwoDigits(0, 4);
    TwoDigits(5, 9);
    TwoDigits(0, 0);
    DigitsEnd(0, 7, 2);
  }

  lemma DigitsEnd(v: nat, d: nat, width: nat)
    requires d < 10
    ensures Digits(10 * v + d, width + 1) == Digits(v, width) + [Digit(d)]
  {
  }

  lemma TwoDigits(a: nat, b: nat)
    requires a < 10 && b < 10
    ensures Digits(10 * a + b, 2) == [Digit(a), Digit(b)]
  {
    hide Digits;
    OneDigit(a);
    DigitsEnd(a, b, 1);
  }

  lemma OneDigit(a: nat)
    requires a < 10
    ensures Digits(a, 1) == [Digit(a)]
  {
    assert Digits(a / 10, 0) == "";
  }

  // ---------- Order ----------

  /** Lexicographic order of strings, as `strcmp` and `std::string` compare them. */
  predicate Less(a: string, b: string)
    decreases |a|
  {
    if a == [] || b == [] then |a| < |b|
    else a[0] < b[0] || (a[0] == b[0] && Less(a[1..], b[1..]))
  }

  /** Order of times, field by field. */
  predicate Earlier(f: Fields, g: Fields) {
    if f.year != g.year then f.year < g.year
    else if f.month != g.month then f.month < g.month
    else if f.day != g.day then f.day < g.day
    else if f.hour != g.hour then f.hour < g.hour
    else if f.minute != g.minute then f.minute < g.minute
    else if f.second != g.second then f.second < g.second
    else f.ms < g.ms
  }

  lemma {:induction false} LessConcat(a: string, b: string, x: string, y: string)
    requires |a| == |b|
    ensures Less(a + x, b + y) <==> Less(a, b) || (a == b && Less(x, y))
    decreases |a|
  {
    if a == [] {
      assert a + x == x && b + y == y;
    } else {
      assert (a + x)[1..] == a[1..] + x && (b + y)[1..] == b[1..] + y;
      LessConcat(a[1..], b[1..], x, y);
      assert a == [a[0]] + a[1..] && b == [b[0]] + b[1..];
    }
  }

  lemma {:induction false} DigitsOrder(u: nat, v: nat, width: nat)
    requires u < Pow10(width) && v < Pow10(width)
    ensures Less(Digits(u, width), Digits(v, width)) <==> u < v
    ensures Digits(u, width) == Digits(v, width) <==> u == v
  {
    ValueOfDigits(u, width);
    ValueOfDigits(v, width);
    if width == 0 {
    } else {
      DigitsOrder(u / 10, v / 10, width - 1);
      LessConcat(Digits(u / 10, width - 1), Digits(v / 10, width - 1), [Digit(u % 10)], [Digit(v % 10)]);
    }
  }

  /** A field and a separator in front of the rest. */
  lemma FieldOrder(u: nat, v: nat, width: nat, separator: string, x: string, y: string)
    requires u < Pow10(width) && v < Pow10(width)
    ensures Less(Digits(u, width) + (separator + x), Digits(v, width) + (separator + y)) <==>
            u < v || (u == v && Less(x, y))
  {
    DigitsOrder(u, v, width);
    LessConcat(Digits(u, width), Digits(v, width), separator + x, separator + y);
    LessConcat(separator, separator, x, y);
    LessIrreflexive(separator);
  }

  lemma {:induction false} LessIrreflexive(a: string)
    ensures !Less(a, a)
    decreases |a|
  {
    if a == [] {
    } else {
      LessIrreflexive(a[1..]);
    }
  }

  /** Timestamps sort as the times they print. */
  lemma TimestampsSort(f: Fields, g: Fields)
    requires FitsAll(f) && FitsAll(g)
    ensures Less(Format(f), Format(g)) <==> Earlier(f, g)
    ensures Format(f) == Format(g) <==> f == g
  {
    hide Print, Digits, Pow10, Less;
    Powers();
    FormatIsPlain(f);
    FormatIsPlain(g);
    ParseInvertsFormat(f, Format(f));
    ParseInvertsFormat(g, Format(g));
    var (f6, g6) := (Digits(f.ms, 3), Digits(g.ms, 3));
    var (f5, g5) := (Digits(f.second, 2) + ("." + f6), Digits(g.second, 2) + ("." + g6));
    var (f4, g4) := (Digits(f.minute, 2) + (":" + f5), Digits(g.minute, 2) + (":" + g5));
    var (f3, g3) := (Digits(f.hour, 2) + (":" + f4), Digits(g.hour, 2) + (":" + g4));
    var (f2, g2) := (Digits(f.day, 2) + (" " + f3), Digits(g.day, 2) + (" " + g3));
    var (f1, g1) := (Digits(f.month, 2) + ("-" + f2), Digits(g.month, 2) + ("-" + g2));
    DigitsOrder(f.ms, g.ms, 3);
    FieldOrder(f.second, g.second, 2, ".", f6, g6);
    FieldOrder(f.minute, g.minute, 2, ":", f5, g5);
    FieldOrder(f.hour, g.hour, 2, ":", f4, g4);
    FieldOrder(f.day, g.day, 2, " ", f3, g3);
    FieldOrder(f.month, g.month, 2, "-", f2, g2);
    FieldOrder(f.year, g.year, 4, "-", f1, g1);
  }

  // ---------- The buffer ----------

  /** `snprintf(buf, size, ...)`: at most `size - 1` characters and a terminator; returns the full length. */
  method Snprintf(buf: array<char>, size: nat, text: string) returns (rc: nat)
    requires size <= buf.Length
    modifies buf
    ensures rc == |text|
    ensures size > 0 ==>
              var n := if |text| < size then |text| else size - 1;
              buf[..n] == text[..n] && buf[n] == '\0' && buf[n + 1..] == old(buf[n + 1..])
    ensures size == 0 ==> buf[..] == old(buf[..])
  {
    rc := |text|;
    if size > 0 {
      var n := if |text| < size then |text| else size - 1;
      for i := 0 to n
        invariant forall k :: 0 <= k < i ==> buf[k] == text[k]
        invariant forall k :: i <= k < buf.Length ==> buf[k] == old(buf[k])
      {
        buf[i] := text[i];
      }
      buf[n] := '\0';
    }
  }

  /** `snprintf` that fails: what it has written by then, within `size`, is not known. */
  method SnprintfFails(buf: array<char>, size: nat)
    requires size <= buf.Length
    modifies buf
    ensures buf[size..] == old(buf[size..])
  {
    for i := 0 to size
      invariant forall k :: size <= k < buf.Length ==> buf[k] == old(buf[k])
    {
      buf[i] := *;
    }
  }

  /** The template that stands for a time that is not known, cut to the buffer. */
  method FillDefault(buf: array<char>, size: nat)
    requires size <= buf.Length
    modifies buf
    ensures var n := if size < 24 then size else 24;
            buf[..n] == "yyyy-MM-dd hh:mm:ss.mil\0"[..n] && buf[n..] == old(buf[n..])
  {
    var n := if size < 24 then size else 24;
    for i := 0 to n
      invariant forall k :: 0 <= k < i ==> buf[k] == TEMPLATE[k]
      invariant forall k :: i <= k < buf.Length ==> buf[k] == old(buf[k])
    {
      buf[i] := TEMPLATE[i];
    }
  }

  /**
   `lw_timestamp` and `manager::timestamp(char*, size_t)`. `clock` is the time, or `None` when one
   of the system calls fails; `prints` says whether `snprintf` succeeds. `overrun` says that the final
   terminator lies beyond the buffer.
   */
  method WriteTimestamp(buf: array<char>, size: nat, clock: Option<Clock>, prints: bool)
    returns (rc: int, overrun: bool)
    requires size <= buf.Length
    modifies buf
    ensures clock.None? || !prints ==>
              var n := if size < 24 then size else 24;
              rc == -1 && !overrun && buf[..n] == "yyyy-MM-dd hh:mm:ss.mil\0"[..n] && buf[size..] == old(buf[size..])
    ensures clock.None? && size >= 24 ==> buf[24..] == old(buf[24..])
    ensures clock.Some? && prints ==> rc == 0 && (overrun <==> |Format(FieldsOf(clock.value))| >= buf.Length)
    ensures clock.Some? && prints ==>
              var n := |Format(FieldsOf(clock.value))|;
              var kept := if n < size then n else if size > 0 then size - 1 else 0;
              && buf[..kept] == Format(FieldsOf(clock.value))[..kept]
              && (size > 0 ==> buf[kept] == '\0') && (n < buf.Length ==> buf[n] == '\0')
              && forall k :: (if size > 0 then kept + 1 else 0) <= k < buf.Length && k != n ==> buf[k] == old(buf[k])
  {
    hide Format, Print;
    overrun := false;
    if clock.None? {
      FillDefault(buf, size);
      return -1, false;
    }
    if !prints {
      SnprintfFails(buf, size);
      FillDefault(buf, size);
      return -1, false;
    }
    var n := Snprintf(buf, size, Format(FieldsOf(clock.value)));
    if n < buf.Length {
      buf[n] := '\0';
    } else {
      overrun := true;
    }
    return 0, overrun;
  }

  /** For a clock time the terminator is in bounds exactly in a buffer of the 24 bytes that the header recommends. */
  lemma TerminatorInBoundsIff(f: Fields, length: nat)
    requires IsClockTime(f)
    ensures |Format(f)| == 23 && (|Format(f)| < length <==> length >= 24)
  {
    hide Format;
    FormatLength(f);
  }

  /** `manager::timestamp()`: 23 characters out of a buffer of 24. */
  method TimestampString(clock: Option<Clock>, prints: bool) returns (text: string, overrun: bool)
    ensures |text| == 23
    ensures overrun <==> clock.Some? && prints && |Format(FieldsOf(clock.value))| != 23
    ensures !overrun ==>
              text == if clock.Some? && prints then Format(FieldsOf(clock.value)) else "yyyy-MM-dd hh:mm:ss.mil"
  {
    hide Format;
    var buf := new char[24];
    var rc;
    rc, overrun := WriteTimestamp(buf, 24, clock, prints);
    if clock.Some? {
      FormatLength(FieldsOf(clock.value));
    }
    text := buf[..23];
    if clock.None? || !prints {
      assert text == buf[..24][..23];
      assert "yyyy-MM-dd hh:mm:ss.mil\0"[..24][..23] == "yyyy-MM-dd hh:mm:ss.mil";
    }
  }
}
