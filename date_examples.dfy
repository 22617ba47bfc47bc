/** The two dates the cleaner's own comments use, through `_parse_date`. */
module DateExamples {
  import opened Values
  import opened Dates

  /** `DD/MM/YYYY` printed with the first format. */
  lemma DayFirstText(text: string, date: CalendarDate, dd: string, mm: string, yyyy: string)
    requires Pad2(date.day) == dd && Pad2(date.month) == mm && Pad4(date.year) == yyyy
    requires text == dd + "/" + mm + "/" + yyyy
    ensures text == Render(DateFormats[0], date)
  {
    var fmt := DateFormats[0];
    Unfold5(fmt, date, Fields(0, 0, 0));
    assert RenderDirective(fmt[0], date) == dd && RenderDirective(fmt[2], date) == mm;
    assert RenderDirective(fmt[4], date) == yyyy;
  }

  /** `YYYY-MM-DD` printed with the ISO format. */
  lemma IsoText(date: CalendarDate, dd: string, mm: string, yyyy: string)
    requires Pad2(date.day) == dd && Pad2(date.month) == mm && Pad4(date.year) == yyyy
    ensures Canonical(date) == yyyy + "-" + mm + "-" + dd
  {
    var fmt := IsoFormat;
    Unfold5(fmt, date, Fields(0, 0, 0));
    assert RenderDirective(fmt[0], date) == yyyy && RenderDirective(fmt[2], date) == mm;
    assert RenderDirective(fmt[4], date) == dd;
  }

  lemma AprilText(text: string)
    requires text == "13/04/2024"
    ensures text == Render(DateFormats[0], Date(2024, 4, 13))
    ensures Canonical(Date(2024, 4, 13)) == "2024-04-13"
  {
    assert Pad4(2024) == "2024" && Pad2(4) == "04" && Pad2(13) == "13";
    DayFirstText(text, Date(2024, 4, 13), "13", "04", "2024");
    IsoText(Date(2024, 4, 13), "13", "04", "2024");
  }

  lemma FebruaryText(text: string)
    requires text == "01/02/2024"
    ensures text == Render(DateFormats[0], Date(2024, 2, 1))
    ensures Canonical(Date(2024, 2, 1)) == "2024-02-01"
  {
    assert Pad4(2024) == "2024" && Pad2(2) == "02" && Pad2(1) == "01";
    DayFirstText(text, Date(2024, 2, 1), "01", "02", "2024");
    IsoText(Date(2024, 2, 1), "01", "02", "2024");
  }

  /** Day-first wins: `13/04/2024` is the 13th of April. */
  lemma ParseDateDayFirst(text: string, fallback: string -> Option<CalendarDate>)
    requires text == "13/04/2024"
    ensures ParseDate(Str(text), fallback) == Some("2024-04-13")
  {
    AprilText(text);
    DayFirstWins(Date(2024, 4, 13), text, fallback);
  }

  /** An ambiguous date is read day first: `01/02/2024` is the 1st of February. */
  lemma ParseDateAmbiguous(text: string, fallback: string -> Option<CalendarDate>)
    requires text == "01/02/2024"
    ensures ParseDate(Str(text), fallback) == Some("2024-02-01")
  {
    FebruaryText(text);
    DayFirstWins(Date(2024, 2, 1), text, fallback);
  }
}
