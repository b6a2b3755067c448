/** The Astronomy Picture of the Day client's decision logic: the request
    URL with its default date window, the per-record pretty printer, and
    the loop in `main` that prints what the fetch returned. The clock is
    the parameter `today`; the HTTP request is the parameter `fetched`. */
module Apod {
  import opened Wrappers
  import opened Decimal
  import opened Calendar
  import opened DateText

  /** One record of the API's JSON array (fields `date`, `title`, `url`). */
  datatype NasaAPOD = NasaAPOD(date: string, title: string, url: string)

  /** What `getAPODsForDateRange` hands back: an error, or the decoded records. */
  datatype FetchResult = FetchFailed(message: string) | Fetched(apods: seq<NasaAPOD>)

  /** What `printPrettyFormattedAPOD` does: the text it writes, or its error. */
  datatype PrintResult = Printed(text: string) | DateParseError

  const ApiURL := "https://api.nasa.gov/planetary/apod"

  /** The `%s?api_key=%s&start_date=%s&end_date=%s` template, with no escaping. */
  function QueryURL(apiKey: string, start: string, end: string): string {
    ApiURL + "?api_key=" + apiKey + "&start_date=" + start + "&end_date=" + end
  }

  /** `constructURL`: both bounds verbatim when both are given; otherwise the
      window from seven days before today to today. */
  function ConstructURL(apiKey: string, start: string, end: string, today: Date): string
    requires Valid(today)
  {
    if start == "" || end == "" then
      QueryURL(apiKey, Format(MinusDays(today, 7)), Format(today))
    else
      QueryURL(apiKey, start, end)
  }

  lemma ExplicitRangeVerbatim(apiKey: string, start: string, end: string, today: Date)
    requires Valid(today) && start != "" && end != ""
    ensures ConstructURL(apiKey, start, end, today)
         == "https://api.nasa.gov/planetary/apod?api_key=" + apiKey + "&start_date=" + start + "&end_date=" + end
  {
  }

  /** A partial range is never honoured: the supplied bound is ignored. */
  lemma PartialRangeIgnored(apiKey: string, start: string, end: string, today: Date)
    requires Valid(today) && (start == "" || end == "")
    ensures ConstructURL(apiKey, start, end, today) == ConstructURL(apiKey, "", "", today)
  {
  }

  /** The default window: `end_date` reads back as today, `start_date` as the
      one valid date seven days earlier in the day count, both in the
      ten-character `YYYY-MM-DD` form. */
  lemma DefaultWindow(apiKey: string, start: string, end: string, today: Date)
    requires Valid(today) && (start == "" || end == "")
    requires 1 <= today.year <= 9999
    ensures var first := MinusDays(today, 7);
      && ConstructURL(apiKey, start, end, today) == QueryURL(apiKey, Format(first), Format(today))
      && Parse(Format(first)) == Some(first) && |Format(first)| == 10
      && Parse(Format(today)) == Some(today) && |Format(today)| == 10
      && Ordinal(first) == Ordinal(today) - 7
      && forall x :: Valid(x) ==> (Ordinal(x) == Ordinal(today) - 7 <==> x == first)
  {
    var first := MinusDays(today, 7);
    MinusDaysYearRange(today, 7);
    ParseFormat(first);
    ParseFormat(today);
    FormatShape(first);
    FormatShape(today);
    forall x | Valid(x) ensures Ordinal(x) == Ordinal(today) - 7 <==> x == first {
      MinusDaysIsUnique(today, 7, x);
    }
  }

  lemma DefaultWindowAcrossYearEnd()
    ensures ConstructURL("k", "", "", Date(2023, 1, 3)) == QueryURL("k", "2022-12-27", "2023-01-03")
  {
    assert MinusDays(Date(2023, 1, 3), 7) == Date(2022, 12, 27);
    FormatOf20221227();
    FormatOf20230103();
  }

  lemma FormatOf20221227()
    ensures Format(Date(2022, 12, 27)) == "2022-12-27"
  {
    PaddedStep(2022, 202, 2, 4); PaddedStep(202, 20, 2, 3); PaddedStep(20, 2, 0, 2);
    PaddedStep(12, 1, 2, 2); PaddedStep(27, 2, 7, 2);
  }

  lemma FormatOf20230103()
    ensures Format(Date(2023, 1, 3)) == "2023-01-03"
  {
    PaddedStep(2023, 202, 3, 4); PaddedStep(202, 20, 2, 3); PaddedStep(20, 2, 0, 2);
    PaddedStep(1, 0, 1, 2); PaddedStep(3, 0, 3, 2);
  }

  lemma DefaultWindowAcrossLeapDay()
    ensures ConstructURL("k", "2024-02-01", "", Date(2024, 3, 5)) == QueryURL("k", "2024-02-27", "2024-03-05")
  {
    assert MinusDays(Date(2024, 3, 5), 7) == Date(2024, 2, 27);
    FormatOf20240227();
    FormatOf20240305();
  }

  lemma FormatOf20240227()
    ensures Format(Date(2024, 2, 27)) == "2024-02-27"
  {
    PaddedStep(2024, 202, 4, 4); PaddedStep(202, 20, 2, 3); PaddedStep(20, 2, 0, 2);
    PaddedStep(2, 0, 2, 2); PaddedStep(27, 2, 7, 2);
  }

  lemma FormatOf20240305()
    ensures Format(Date(2024, 3, 5)) == "2024-03-05"
  {
    PaddedStep(2024, 202, 4, 4); PaddedStep(202, 20, 2, 3); PaddedStep(20, 2, 0, 2);
    PaddedStep(3, 0, 3, 2); PaddedStep(5, 0, 5, 2);
  }

  /** `printPrettyFormattedAPOD`: the record's date must parse strictly as
      `YYYY-MM-DD`; then title, long-form date and URL, each on its own
      line, and a blank line. */
  function PrettyPrint(apod: NasaAPOD): PrintResult {
    match Parse(apod.date)
    case None => DateParseError
    case Some(d) => Printed(apod.title + "\n" + LongForm(d) + "\n" + apod.url + "\n\n")
  }

  /** A record dated by a valid calendar date with a four-digit year is
      printed as title, "Month D, YYYY" for that date, URL, blank line. */
  lemma {:induction false} PrintsDatedRecord(apod: NasaAPOD, d: Date)
    requires Valid(d) && FourDigitYear(d) && Format(d) == apod.date
    ensures PrettyPrint(apod) == Printed(apod.title + "\n" + LongForm(d) + "\n" + apod.url + "\n\n")
  {
    ParseFormat(d);
  }

  /** Any other date string is an error and nothing is printed. */
  lemma RejectsUndatedRecord(apod: NasaAPOD)
    requires forall d :: Valid(d) && FourDigitYear(d) ==> Format(d) != apod.date
    ensures PrettyPrint(apod) == DateParseError
  {
  }

  lemma LongFormExample()
    ensures Format(Date(2022, 2, 12)) == "2022-02-12"
    ensures LongForm(Date(2022, 2, 12)) == "February 12, 2022"
  {
    PaddedStep(2022, 202, 2, 4); PaddedStep(202, 20, 2, 3); PaddedStep(20, 2, 0, 2);
    PaddedStep(2, 0, 2, 2); PaddedStep(12, 1, 2, 2); PaddedStep(12, 1, 2, 0);
  }

  lemma PrettyPrintExample()
    ensures PrettyPrint(NasaAPOD("2022-02-12", "Test Title", "https://testurl.com"))
         == Printed("Test Title" + "\n" + "February 12, 2022" + "\n" + "https://testurl.com" + "\n\n")
  {
    LongFormExample();
    PrintsDatedRecord(NasaAPOD("2022-02-12", "Test Title", "https://testurl.com"), Date(2022, 2, 12));
  }

  lemma PrettyPrintRejectsExample()
    ensures PrettyPrint(NasaAPOD("invalid date", "Test Title", "https://testurl.com")) == DateParseError
  {
  }

  /** What one record contributes to standard output: its text, or nothing
      when its date does not parse (the error is discarded). */
  function Shown(apod: NasaAPOD): string {
    match PrettyPrint(apod)
    case Printed(text) => text
    case DateParseError => ""
  }

  /** The records' contributions, in the order the records came. */
  function Transcript(apods: seq<NasaAPOD>): string {
    if apods == [] then "" else Shown(apods[0]) + Transcript(apods[1..])
  }

  lemma {:induction false} TranscriptAppend(a: seq<NasaAPOD>, b: seq<NasaAPOD>)
    ensures Transcript(a + b) == Transcript(a) + Transcript(b)
  {
    if a == [] {
      assert a + b == b;
    } else {
      assert (a + b)[1..] == a[1..] + b;
      TranscriptAppend(a[1..], b);
    }
  }

  /** Printing one more record adds exactly what that record shows. */
  lemma TranscriptStep(apods: seq<NasaAPOD>, i: nat)
    requires i < |apods|
    ensures Transcript(apods[..i + 1]) == Transcript(apods[..i]) + Shown(apods[i])
  {
    assert [apods[i]][1..] == [];
    assert Transcript([apods[i]]) == Shown(apods[i]);
    assert apods[..i + 1] == apods[..i] + [apods[i]];
    TranscriptAppend(apods[..i], [apods[i]]);
  }

  /** Record i's text sits after the texts of the records before it and
      before the texts of the records after it. */
  lemma TranscriptInOrder(apods: seq<NasaAPOD>, i: nat)
    requires i < |apods|
    ensures Transcript(apods) == Transcript(apods[..i]) + Shown(apods[i]) + Transcript(apods[i + 1..])
  {
    var before, after := apods[..i + 1], apods[i + 1..];
    assert apods == before + after;
    TranscriptAppend(before, after);
    TranscriptStep(apods, i);
  }

  /** A record whose date does not parse leaves no trace and does not stop
      the records after it. */
  lemma BadRecordSkipped(before: seq<NasaAPOD>, bad: NasaAPOD, after: seq<NasaAPOD>)
    requires PrettyPrint(bad) == DateParseError
    ensures Transcript(before + [bad] + after) == Transcript(before) + Transcript(after)
  {
    assert Shown(bad) == "";
    assert [bad][1..] == [];
    assert Transcript([bad]) == "";
    TranscriptAppend(before, [bad]);
    assert Transcript(before + [bad]) == Transcript(before);
    TranscriptAppend(before + [bad], after);
  }

  const Banner := "Fetching APODs...\n\n\n"
  const NoneFound := "No APODs found in the given date range\n"

  function ErrorLine(message: string): string {
    "Error retrieving data: " + message + "\n"
  }

  /** Everything `main` writes after resolving the key and the range. */
  function MainOutput(fetched: FetchResult): string {
    Banner + match fetched
      case FetchFailed(message) => ErrorLine(message)
      case Fetched(apods) => if apods == [] then NoneFound else Transcript(apods)
  }

  /** The `for _, apod := range apods` loop of `main`: each record is
      printed in turn; a record's format error is dropped and the loop
      goes on with the next record. */
  method PrintAll(apods: seq<NasaAPOD>) returns (stdout: string)
    ensures stdout == Transcript(apods)
  {
    stdout := "";
    var i := 0;
    while i < |apods|
      invariant 0 <= i <= |apods|
      invariant stdout == Transcript(apods[..i])
    {
      var result := PrettyPrint(apods[i]);
      if result.Printed? {
        stdout := stdout + result.text;
      }
      TranscriptStep(apods, i);
      i := i + 1;
    }
    assert apods[..i] == apods;
  }

  /** The body of `main` from the loading message on: a failed fetch or an
      empty result ends with its message and prints no record; otherwise
      every record goes through `PrintAll`. */
  method Report(fetched: FetchResult) returns (stdout: string)
    ensures stdout == MainOutput(fetched)
  {
    stdout := Banner;
    match fetched
    case FetchFailed(message) =>
      stdout := stdout + ErrorLine(message);
    case Fetched(apods) =>
      if |apods| == 0 {
        stdout := stdout + NoneFound;
      } else {
        var printed := PrintAll(apods);
        stdout := stdout + printed;
      }
  }
}
