/** Dates as text: the `full-date` form of section 5.6 of RFC 3339
    (Go layout "2006-01-02"), its strict parser, and the long form
    "January 2, 2006". */
module DateText {
  import opened Wrappers
  import opened Decimal
  import opened Calendar

  /** Go's year field (layout "2006"): zero-padded to four digits, with a
      leading '-' for years before 0. */
  function YearText(y: int): string {
    if y < 0 then "-" + Padded(-y, 4) else Padded(y, 4)
  }

  /** Go's `t.Format("2006-01-02")`. */
  function Format(d: Date): string
    requires Valid(d)
  {
    YearText(d.year) + "-" + Padded(d.month, 2) + "-" + Padded(d.day, 2)
  }

  /** The dates that `Format` writes in exactly the `YYYY-MM-DD` shape. */
  predicate FourDigitYear(d: Date) { 0 <= d.year <= 9999 }

  /** For a date with a four-digit year, `Format` is ten characters:
      digits, '-' at 4 and 7, each field zero-padded and denoting its value. */
  lemma FormatShape(d: Date)
    requires Valid(d) && FourDigitYear(d)
    ensures var s := Format(d);
      && |s| == 10 && s[4] == '-' && s[7] == '-'
      && AllDigits(s[..4]) && AllDigits(s[5..7]) && AllDigits(s[8..])
      && s[..4] == Padded(d.year, 4) && s[5..7] == Padded(d.month, 2) && s[8..] == Padded(d.day, 2)
  {
    PaddedLength(d.year, 4);
    PaddedLength(d.month, 2);
    PaddedLength(d.day, 2);
    PaddedDigits(d.year, 4);
    PaddedDigits(d.month, 2);
    PaddedDigits(d.day, 2);
  }

  /** Go's `time.Parse("2006-01-02", s)`: four digits, '-', two digits for a
      month in 1..12, '-', two digits for a day within that month, and
      nothing after. Every other string is an error (`None`). */
  function Parse(s: string): (r: Option<Date>)
    ensures r.Some? ==> Valid(r.value) && FourDigitYear(r.value) && Format(r.value) == s
  {
    if |s| != 10 || s[4] != '-' || s[7] != '-' then None
    else if !AllDigits(s[..4]) || !AllDigits(s[5..7]) || !AllDigits(s[8..]) then None
    else
      var y, m, d := Value(s[..4]), Value(s[5..7]), Value(s[8..]);
      if m < 1 || 12 < m then None
      else if d < 1 || d > DaysIn(y, m) then None
      else
        FieldsFormatBack(s);
        assert Pow10(4) == 10000;
        Some(Date(y, m, d))
  }

  /** A string in the digit shape `Parse` checks is the formatting of the
      numbers its fields denote. */
  lemma FieldsFormatBack(s: string)
    requires |s| == 10 && s[4] == '-' && s[7] == '-'
    requires AllDigits(s[..4]) && AllDigits(s[5..7]) && AllDigits(s[8..])
    ensures YearText(Value(s[..4])) + "-" + Padded(Value(s[5..7]), 2) + "-" + Padded(Value(s[8..]), 2) == s
  {
    PaddedOfValue(s[..4]);
    PaddedOfValue(s[5..7]);
    PaddedOfValue(s[8..]);
    assert s == s[..4] + "-" + s[5..7] + "-" + s[8..];
  }

  /** Parsing what `Format` wrote gives the date back. */
  lemma {:induction false} ParseFormat(d: Date)
    requires Valid(d) && FourDigitYear(d)
    ensures Parse(Format(d)) == Some(d)
  {
    var s := Format(d);
    FormatShape(d);
    ValueOfPadded(d.year, 4);
    ValueOfPadded(d.month, 2);
    ValueOfPadded(d.day, 2);
  }

  /** The strings `Parse` accepts are exactly the formatted valid dates
      with four-digit years, and it accepts each for the date it spells. */
  lemma ParseAcceptsExactly(s: string, d: Date)
    ensures Parse(s) == Some(d) <==> Valid(d) && FourDigitYear(d) && Format(d) == s
  {
    if Valid(d) && FourDigitYear(d) && Format(d) == s {
      ParseFormat(d);
    }
  }

  function MonthName(m: int): string
    requires 1 <= m <= 12
  {
    match m
    case 1 => "January"   case 2 => "February" case 3 => "March"
    case 4 => "April"     case 5 => "May"      case 6 => "June"
    case 7 => "July"      case 8 => "August"   case 9 => "September"
    case 10 => "October"  case 11 => "November" case _ => "December"
  }

  /** Go's `t.Format("January 2, 2006")`: the full month name, the day
      without padding, and the year as in `YearText`. */
  function LongForm(d: Date): string
    requires Valid(d)
  {
    MonthName(d.month) + " " + Padded(d.day, 0) + ", " + YearText(d.year)
  }

  /** What the long form says: the day field is one or two digits with no
      leading zero denoting the day, the year field four digits denoting
      the year. */
  lemma LongFormFields(d: Date)
    requires Valid(d) && FourDigitYear(d)
    ensures exists dayText, yearText ::
      && LongForm(d) == MonthName(d.month) + " " + dayText + ", " + yearText
      && 1 <= |dayText| <= 2 && dayText[0] != '0' && AllDigits(dayText) && Value(dayText) == d.day
      && |yearText| == 4 && AllDigits(yearText) && Value(yearText) == d.year
  {
    var dayText, yearText := Padded(d.day, 0), Padded(d.year, 4);
    UnpaddedHasNoLeadingZero(d.day);
    ValueOfPadded(d.day, 0);
    ValueOfPadded(d.year, 4);
    PaddedLength(d.year, 4);
    if d.day >= 10 {
      PaddedLength(d.day, 2);
      assert Padded(d.day, 0) == Padded(d.day, 2);
    } else {
      PaddedLength(d.day, 1);
      assert Padded(d.day, 0) == Padded(d.day, 1);
    }
    assert LongForm(d) == MonthName(d.month) + " " + dayText + ", " + yearText;
  }
}
