/** ISO 8601 text for dates and clock times, as `date.isoformat()`,
    `time.isoformat()` write it and the `fromisoformat` readers accept it. */
module Iso {
  import opened Wrappers
  import opened Strings
  import opened Calendar
  import opened Records

  /** `date.isoformat()`: "YYYY-MM-DD". */
  function IsoDate(d: CivilDate): string
  {
    FormatInt(d.year, 4) + "-" + FormatInt(d.month, 2) + "-" + FormatInt(d.day, 2)
  }

  /** `time.isoformat()` of a whole-minute time: "HH:MM:00". */
  function IsoTime(t: TimeOfDay): string
  {
    FormatInt(t.hour, 2) + ":" + FormatInt(t.minute, 2) + ":00"
  }

  /** `date.fromisoformat` on the extended "YYYY-MM-DD" form. */
  function ParseIsoDate(s: string): (r: Option<CivilDate>)
    ensures r.Some? ==> |s| == 10 && s[4] == '-' && s[7] == '-'
  {
    if |s| == 10 && s[4] == '-' && s[7] == '-'
       && AllDigits(s[..4]) && AllDigits(s[5..7]) && AllDigits(s[8..])
    then
      var y := DigitsValue(s[..4]);
      var m := DigitsValue(s[5..7]);
      var d := DigitsValue(s[8..]);
      if ValidDate(y, m, d) then Some(Date(y, m, d)) else None
    else None
  }

  /** `time.fromisoformat` on the "HH:MM" and "HH:MM:SS" forms; the model's
      clock has whole minutes, so seconds are read and dropped. */
  function ParseIsoTime(s: string): (r: Option<TimeOfDay>)
    ensures r.Some? ==> |s| == 5 || |s| == 8
  {
    if (|s| == 5 || (|s| == 8 && s[5] == ':' && AllDigits(s[6..8]) && DigitsValue(s[6..8]) < 60))
       && s[2] == ':' && AllDigits(s[..2]) && AllDigits(s[3..5])
    then
      var h := DigitsValue(s[..2]);
      var m := DigitsValue(s[3..5]);
      if h < 24 && m < 60 then Some(Clock(h, m)) else None
    else None
  }

  /** `datetime.fromisoformat(s).time()`: the text must start with a date;
      a time may follow after any one separator character. */
  function ParseIsoDatetimeTime(s: string): (r: Option<TimeOfDay>)
    ensures |s| < 10 ==> r.None?
  {
    if |s| < 10 || ParseIsoDate(s[..10]).None? then None
    else if |s| == 10 then Some(Clock(0, 0))
    else ParseIsoTime(s[11..])
  }

  /** Three zero-padded fields joined by one-character separators. */
  lemma FieldsAt(a: string, b: string, c: string, sep1: char, sep2: char, s: string)
    requires s == a + [sep1] + b + [sep2] + c
    ensures s[..|a|] == a
    ensures s[|a|] == sep1
    ensures s[|a| + 1..|a| + 1 + |b|] == b
    ensures s[|a| + 1 + |b|] == sep2
    ensures s[|a| + 2 + |b|..] == c
  {
  }

  /** Reading a written date gives the date back. */
  lemma IsoDateRoundTrip(d: CivilDate)
    ensures ParseIsoDate(IsoDate(d)) == Some(d)
  {
    assert Pow10(4) == 10000 && Pow10(2) == 100;
    FormatNat(d.year, 4);
    FormatNat(d.month, 2);
    FormatNat(d.day, 2);
    FieldsAt(FormatInt(d.year, 4), FormatInt(d.month, 2), FormatInt(d.day, 2), '-', '-', IsoDate(d));
  }

  /** Reading a written time gives the time back. */
  lemma IsoTimeRoundTrip(t: TimeOfDay)
    ensures ParseIsoTime(IsoTime(t)) == Some(t)
  {
    assert Pow10(2) == 100;
    FormatNat(t.hour, 2);
    FormatNat(t.minute, 2);
    var s := IsoTime(t);
    FieldsAt(FormatInt(t.hour, 2), FormatInt(t.minute, 2), "00", ':', ':', s);
    assert s[6..8] == "00";
    assert DigitsValue("00") == 0 by {
      assert "00"[..1] == "0";
      assert "0"[..0] == "";
    }
  }

  /** `datetime.fromisoformat` cannot read what `time.isoformat()` writes:
      eight characters hold no date. */
  lemma DatetimeReaderRejectsTimes(t: TimeOfDay)
    ensures ParseIsoDatetimeTime(IsoTime(t)).None?
  {
    assert Pow10(2) == 100;
    FormatNat(t.hour, 2);
    FormatNat(t.minute, 2);
  }
}
