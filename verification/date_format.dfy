/**
 * The capture-date helpers: reading an item's `createTime`, and the
 * "On this day" headline shown when a photo was taken on today's date in an
 * earlier year.
 *
 * `new Date(text)` and `Intl.DateTimeFormat` are parameters: `parse` gives
 * the local calendar date of the instant a text denotes, or None when the
 * date is invalid; `format` renders a date. `today` is the local calendar
 * date of `new Date()`.
 */
module DateFormat {
  import opened Wrappers
  import opened Strings

  /** `getFullYear()`, `getMonth()` and `getDate()` of an instant. */
  datatype CalendarDate = CalendarDate(year: int, month: int, day: int)

  /** `parseCreateTime`: no date for an absent or empty text, otherwise whatever parsing gives. */
  function ParseCreateTime(createTime: Option<string>, parse: string -> Option<CalendarDate>): (d: Option<CalendarDate>)
    ensures !Truthy(createTime) ==> d.None?
    ensures Truthy(createTime) ==> d == parse(createTime.value)
  {
    if !Truthy(createTime) then None else parse(createTime.value)
  }

  /** `formatCaptureDate`: the formatted date, when there is one. */
  function FormatCaptureDate(createTime: Option<string>, parse: string -> Option<CalendarDate>, format: CalendarDate -> string): (r: Option<string>)
    ensures r.Some? <==> ParseCreateTime(createTime, parse).Some?
    ensures !Truthy(createTime) ==> r.None?
    ensures r.Some? ==> r.value == format(ParseCreateTime(createTime, parse).value)
  {
    var date := ParseCreateTime(createTime, parse);
    if date.None? then None else Some(format(date.value))
  }

  /** How long ago, in words: "one year" for one, the numeral otherwise. */
  function YearsText(years: nat): string
  {
    if years == 1 then "one year" else NatToString(years) + " years"
  }

  /** The headline for a photo taken on `date`, seen on `today`. */
  function Headline(date: CalendarDate, today: CalendarDate): (r: Option<string>)
    ensures r.Some? <==> date.month == today.month && date.day == today.day && today.year - date.year > 0
    ensures r.Some? ==> r.value == "On this day, " + YearsText(today.year - date.year) + " ago"
  {
    var sameMonthDay := date.month == today.month && date.day == today.day;
    var yearDiff := today.year - date.year;
    if sameMonthDay && yearDiff > 0 then Some("On this day, " + YearsText(yearDiff) + " ago") else None
  }

  /** `formatMemoryHeadline`: the headline of the item's capture date, or None. */
  function FormatMemoryHeadline(createTime: Option<string>, parse: string -> Option<CalendarDate>, today: CalendarDate): (r: Option<string>)
    ensures !Truthy(createTime) ==> r.None?
    ensures r.Some? <==> var date := ParseCreateTime(createTime, parse);
                         && date.Some? && date.value.month == today.month && date.value.day == today.day
                         && today.year - date.value.year > 0
  {
    var date := ParseCreateTime(createTime, parse);
    if date.None? then None else Headline(date.value, today)
  }

  /** A photo from this day last year. */
  lemma OneYearAgo(date: CalendarDate, today: CalendarDate)
    requires date.month == today.month && date.day == today.day && today.year == date.year + 1
    ensures Headline(date, today) == Some("On this day, one year ago")
  {
    assert "On this day, " + "one year" + " ago" == "On this day, one year ago";
  }

  /** A photo from this day n > 1 years ago names n in digits. */
  lemma YearsAgo(date: CalendarDate, today: CalendarDate, n: nat)
    requires n > 1
    requires date.month == today.month && date.day == today.day && today.year == date.year + n
    ensures Headline(date, today) == Some("On this day, " + NatToString(n) + " years ago")
  {
    var digits := NatToString(n);
    assert "On this day, " + (digits + " years") + " ago" == "On this day, " + digits + " years ago";
  }

  /** Today's month and day in this year or a later one give no headline. */
  lemma NoHeadlineForThisOrFutureYear(date: CalendarDate, today: CalendarDate)
    requires date.year >= today.year
    ensures Headline(date, today).None?
  {
  }

  /** Only the count one is written in letters; every other count starts with a digit. */
  lemma YearsTextFirst(k: nat)
    requires k > 0
    ensures YearsText(k) != "" && (YearsText(k)[0] == 'o' <==> k == 1)
  {
    if k != 1 {
      var digits := NatToString(k);
      assert YearsText(k)[0] == digits[0];
      assert IsDigit(digits[0]);
    }
  }

  /** The words of the year count are distinct for distinct counts. */
  lemma YearsTextInjective(m: nat, n: nat)
    requires m > 0 && n > 0
    requires YearsText(m) == YearsText(n)
    ensures m == n
  {
    YearsTextFirst(m);
    YearsTextFirst(n);
    if m != 1 && n != 1 {
      var a, b := NatToString(m), NatToString(n);
      assert |a| == |b|;
      assert a == (a + " years")[..|a|];
      assert b == (b + " years")[..|b|];
      NatToStringInjective(m, n);
    }
  }

  /** Two headlines on the same day are equal only for photos from the same year: the headline names how long ago. */
  lemma HeadlineDeterminesYear(d1: CalendarDate, d2: CalendarDate, today: CalendarDate)
    requires Headline(d1, today).Some? && Headline(d1, today) == Headline(d2, today)
    ensures d1.year == d2.year
  {
    var prefix, suffix := "On this day, ", " ago";
    var y1, y2 := YearsText(today.year - d1.year), YearsText(today.year - d2.year);
    var h := Headline(d1, today).value;
    assert h == prefix + y1 + suffix == prefix + y2 + suffix;
    assert |y1| == |y2|;
    assert y1 == h[|prefix|..|prefix| + |y1|];
    assert y2 == h[|prefix|..|prefix| + |y2|];
    YearsTextInjective(today.year - d1.year, today.year - d2.year);
  }
}
