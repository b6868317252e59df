/**
 * The dashboard's text formats for availability (src/http/pages/dashboard.ts):
 * windows on one line, date overrides one per line.
 */
module WindowText {
  import opened Common
  import opened Text
  import opened SlotEngine

  // ---- Times of day --------------------------------------------------------------

  predicate IsDigit(c: char) {
    '0' <= c <= '9'
  }

  function DigitValue(c: char): int {
    c as int - '0' as int
  }

  /** `String(n).padStart(2, '0')` */
  function Pad2(n: nat): string {
    if |Decimal(n)| < 2 then "0" + Decimal(n) else Decimal(n)
  }

  function MinutesToTime(minutes: nat): string {
    Pad2(minutes / 60) + ":" + Pad2(minutes % 60)
  }

  /** 24:00 is accepted as the end of the day. */
  function ClockMinutes(h: int, min: int): Option<int> {
    if h > 24 || min > 59 || (h == 24 && min != 0) then None else Some(h * 60 + min)
  }

  /** One or two digits, a colon, two digits; spaces around are ignored. */
  function TimeToMinutes(value: string): Option<int> {
    var t := Trim(value);
    if |t| == 5 && IsDigit(t[0]) && IsDigit(t[1]) && t[2] == ':' && IsDigit(t[3]) && IsDigit(t[4])
    then ClockMinutes(DigitValue(t[0]) * 10 + DigitValue(t[1]), DigitValue(t[3]) * 10 + DigitValue(t[4]))
    else if |t| == 4 && IsDigit(t[0]) && t[1] == ':' && IsDigit(t[2]) && IsDigit(t[3])
    then ClockMinutes(DigitValue(t[0]), DigitValue(t[2]) * 10 + DigitValue(t[3]))
    else None
  }

  function Digit(n: int): char
    requires 0 <= n <= 9
  {
    ('0' as int + n) as char
  }

  lemma Pad2IsTwoDigits(n: nat)
    requires n < 100
    ensures Pad2(n) == [Digit(n / 10), Digit(n % 10)]
  {
    if n < 10 {
      assert Decimal(n) == [Digit(n)];
    } else {
      assert Decimal(n / 10) == [Digit(n / 10)];
      assert Decimal(n) == [Digit(n / 10)] + [Digit(n % 10)];
    }
  }

  lemma TimeText(minutes: nat)
    requires minutes <= 1440
    ensures var h, m := minutes / 60, minutes % 60;
      MinutesToTime(minutes) == [Digit(h / 10), Digit(h % 10), ':', Digit(m / 10), Digit(m % 10)]
  {
    Pad2IsTwoDigits(minutes / 60);
    Pad2IsTwoDigits(minutes % 60);
  }

  lemma DigitsAreNotSpaces(n: int)
    requires 0 <= n <= 9
    ensures !IsSpace(Digit(n)) && IsDigit(Digit(n)) && DigitValue(Digit(n)) == n
    ensures Digit(n) != '-' && Digit(n) != ',' && Digit(n) != '\n'
  {
  }

  lemma TimeIsTrimmed(minutes: nat)
    requires minutes <= 1440
    ensures IsTrimmed(MinutesToTime(minutes)) && MinutesToTime(minutes) != ""
    ensures '-' !in MinutesToTime(minutes) && ',' !in MinutesToTime(minutes) && '\n' !in MinutesToTime(minutes)
  {
    hide MinutesToTime, IsSpace;
    TimeText(minutes);
    var h, m := minutes / 60, minutes % 60;
    DigitsAreNotSpaces(h / 10);
    DigitsAreNotSpaces(h % 10);
    DigitsAreNotSpaces(m / 10);
    DigitsAreNotSpaces(m % 10);
  }

  /** A formatted time of day parses back, with or without a space before it. */
  lemma TimeRoundTrip(minutes: nat)
    requires minutes <= 1440
    ensures TimeToMinutes(MinutesToTime(minutes)) == Some(minutes)
    ensures TimeToMinutes(" " + MinutesToTime(minutes)) == Some(minutes)
  {
    hide MinutesToTime, Trim, IsDigit, DigitValue, Digit;
    var h, m := minutes / 60, minutes % 60;
    TimeText(minutes);
    TimeIsTrimmed(minutes);
    TrimTrimmed(MinutesToTime(minutes));
    TrimOneSpace(MinutesToTime(minutes));
    DigitsAreNotSpaces(h / 10);
    DigitsAreNotSpaces(h % 10);
    DigitsAreNotSpaces(m / 10);
    DigitsAreNotSpaces(m % 10);
  }

  /** The text of a digit's value is that digit. */
  lemma DigitOfValue(c: char)
    requires IsDigit(c)
    ensures 0 <= DigitValue(c) <= 9 && Digit(DigitValue(c)) == c
  {
  }

  /**
   * Which texts are times of day: apart from spaces around them exactly the formatted
   * times up to 24:00, with or without the leading zero of the hour.
   */
  lemma TimeParsesIff(value: string, minutes: int)
    ensures TimeToMinutes(value) == Some(minutes) <==>
              && 0 <= minutes <= 1440
              && (Trim(value) == MinutesToTime(minutes)
                  || (minutes < 600 && Trim(value) == MinutesToTime(minutes)[1..]))
  {
    hide MinutesToTime, Trim, IsSpace;
    var t := Trim(value);
    if 0 <= minutes <= 1440 {
      TimeText(minutes);
      DigitsBack(minutes);
    }
    if TimeToMinutes(value) == Some(minutes) {
      if |t| == 5 {
        FiveAreTime(t);
      } else {
        FourAreTime(t);
      }
    }
  }

  lemma DigitsBack(minutes: nat)
    requires minutes <= 1440
    ensures var h, m := minutes / 60, minutes % 60;
      && IsDigit(Digit(h / 10)) && IsDigit(Digit(h % 10)) && IsDigit(Digit(m / 10)) && IsDigit(Digit(m % 10))
      && DigitValue(Digit(h / 10)) * 10 + DigitValue(Digit(h % 10)) == h
      && DigitValue(Digit(m / 10)) * 10 + DigitValue(Digit(m % 10)) == m
      && (minutes < 600 ==> DigitValue(Digit(h % 10)) == h)
      && ClockMinutes(h, m) == Some(minutes)
  {
  }

  lemma FiveAreTime(t: string)
    requires |t| == 5 && IsDigit(t[0]) && IsDigit(t[1]) && t[2] == ':' && IsDigit(t[3]) && IsDigit(t[4])
    ensures var h, m := DigitValue(t[0]) * 10 + DigitValue(t[1]), DigitValue(t[3]) * 10 + DigitValue(t[4]);
      var clock := ClockMinutes(h, m);
      clock.Some? ==> 0 <= clock.value <= 1440 && t == MinutesToTime(clock.value)
  {
    hide MinutesToTime, IsDigit, DigitValue, Digit;
    var h, m := DigitValue(t[0]) * 10 + DigitValue(t[1]), DigitValue(t[3]) * 10 + DigitValue(t[4]);
    DigitOfValue(t[0]);
    DigitOfValue(t[1]);
    DigitOfValue(t[3]);
    DigitOfValue(t[4]);
    if ClockMinutes(h, m).Some? {
      var minutes := h * 60 + m;
      assert minutes / 60 == h && minutes % 60 == m;
      assert h / 10 == DigitValue(t[0]) && h % 10 == DigitValue(t[1]);
      assert m / 10 == DigitValue(t[3]) && m % 10 == DigitValue(t[4]);
      TimeText(minutes);
    }
  }

  lemma FourAreTime(t: string)
    requires |t| == 4 && IsDigit(t[0]) && t[1] == ':' && IsDigit(t[2]) && IsDigit(t[3])
    ensures var clock := ClockMinutes(DigitValue(t[0]), DigitValue(t[2]) * 10 + DigitValue(t[3]));
      clock.Some? ==> 0 <= clock.value < 600 && t == MinutesToTime(clock.value)[1..]
  {
    hide MinutesToTime, DigitValue, Digit;
    DigitOfValue('0');
    assert DigitValue('0') == 0 by {
      ZeroIsZero();
    }
    DigitOfValue(t[0]);
    FiveAreTime(['0'] + t);
    assert (['0'] + t)[1..] == t;
  }

  lemma ZeroIsZero()
    ensures DigitValue('0') == 0
  {
  }

  // ---- Windows ---------------------------------------------------------------------

  function FormatWindow(w: DayWindow): string
    requires ValidWindow(w)
  {
    MinutesToTime(w.startMinute) + "-" + MinutesToTime(w.endMinute)
  }

  ghost predicate AllValid(ws: seq<DayWindow>) {
    forall i :: 0 <= i < |ws| ==> ValidWindow(ws[i])
  }

  function FormattedParts(ws: seq<DayWindow>): seq<string>
    requires AllValid(ws)
  {
    seq(|ws|, i requires 0 <= i < |ws| => FormatWindow(ws[i]))
  }

  function FormatWindows(ws: seq<DayWindow>): string
    requires AllValid(ws)
  {
    JoinWith(FormattedParts(ws), ", ")
  }

  /** Start up, end down, to the five-minute grid. */
  function SnapInward(start: int, end: int): DayWindow {
    DayWindow((start + 4) / 5 * 5, end / 5 * 5)
  }

  function ParseWindow(part: string): Option<DayWindow> {
    var pieces := Split(part, '-');
    if |pieces| != 2 then None
    else
      match (TimeToMinutes(pieces[0]), TimeToMinutes(pieces[1]))
      case (Some(start), Some(end)) =>
        var w := SnapInward(start, end);
        if end <= start || w.endMinute <= w.startMinute then None else Some(w)
      case _ => None
  }

  function ParseParts(parts: seq<string>): Option<seq<DayWindow>> {
    if parts == [] then Some([])
    else
      var n := |parts| - 1;
      match (ParseParts(parts[..n]), ParseWindow(parts[n]))
      case (Some(ws), Some(w)) => Some(ws + [w])
      case _ => None
  }

  ghost predicate ByStart(ws: seq<DayWindow>) {
    forall i, j :: 0 <= i < j < |ws| ==> ws[i].startMinute <= ws[j].startMinute
  }

  /** Stable insertion: after everything that starts no later. */
  function InsertWindow(ws: seq<DayWindow>, w: DayWindow): seq<DayWindow> {
    if ws == [] || ws[|ws| - 1].startMinute <= w.startMinute then ws + [w]
    else InsertWindow(ws[..|ws| - 1], w) + [ws[|ws| - 1]]
  }

  function SortWindows(ws: seq<DayWindow>): seq<DayWindow> {
    if ws == [] then [] else InsertWindow(SortWindows(ws[..|ws| - 1]), ws[|ws| - 1])
  }

  function WindowsFrom(value: string): Option<seq<DayWindow>> {
    var trimmed := Trim(value);
    if trimmed == "" then Some([])
    else
      match ParseParts(Split(trimmed, ','))
      case Some(ws) => Some(SortWindows(ws))
      case None => None
  }

  method ParseWindows(value: string) returns (r: Option<seq<DayWindow>>)
    ensures r == WindowsFrom(value)
  {
    hide ParseWindow, Trim, Split, SortWindows;
    var trimmed := Trim(value);
    if trimmed == "" {
      return Some([]);
    }
    var parts := Split(trimmed, ',');
    var out: seq<DayWindow> := [];
    for i := 0 to |parts|
      invariant ParseParts(parts[..i]) == Some(out)
    {
      assert parts[..i + 1][..i] == parts[..i];
      var w := ParseWindow(parts[i]);
      if w.None? {
        ParseStaysNone(parts, i + 1);
        return None;
      }
      out := out + [w.value];
    }
    assert parts[..|parts|] == parts;
    return Some(SortWindows(out));
  }

  lemma {:induction false} ParseStaysNone(parts: seq<string>, k: nat)
    requires k <= |parts| && ParseParts(parts[..k]).None?
    ensures ParseParts(parts).None?
    decreases |parts|
  {
    hide ParseWindow;
    if k < |parts| {
      assert parts[..|parts| - 1][..k] == parts[..k];
      ParseStaysNone(parts[..|parts| - 1], k);
    } else {
      assert parts[..k] == parts;
    }
  }

  lemma {:induction false} InsertKeepsOrder(ws: seq<DayWindow>, w: DayWindow)
    requires ByStart(ws) && AllValid(ws) && ValidWindow(w)
    ensures ByStart(InsertWindow(ws, w)) && AllValid(InsertWindow(ws, w))
    ensures forall i :: 0 <= i < |InsertWindow(ws, w)| ==>
              InsertWindow(ws, w)[i].startMinute <= Max(w.startMinute, if ws == [] then 0 else ws[|ws| - 1].startMinute)
  {
    hide ValidWindow;
    if ws != [] && ws[|ws| - 1].startMinute > w.startMinute {
      InsertKeepsOrder(ws[..|ws| - 1], w);
    }
  }

  lemma {:induction false} InsertKeepsMembers(ws: seq<DayWindow>, w: DayWindow)
    ensures multiset(InsertWindow(ws, w)) == multiset(ws) + multiset{w}
  {
    if ws != [] && ws[|ws| - 1].startMinute > w.startMinute {
      InsertKeepsMembers(ws[..|ws| - 1], w);
      assert ws == ws[..|ws| - 1] + [ws[|ws| - 1]];
    }
  }

  /** Sorting keeps every window and puts them in order of start. */
  lemma {:induction false} SortOrders(ws: seq<DayWindow>)
    requires AllValid(ws)
    ensures ByStart(SortWindows(ws)) && AllValid(SortWindows(ws)) && multiset(SortWindows(ws)) == multiset(ws)
  {
    hide ValidWindow;
    if ws != [] {
      SortOrders(ws[..|ws| - 1]);
      InsertKeepsOrder(SortWindows(ws[..|ws| - 1]), ws[|ws| - 1]);
      InsertKeepsMembers(SortWindows(ws[..|ws| - 1]), ws[|ws| - 1]);
      assert ws == ws[..|ws| - 1] + [ws[|ws| - 1]];
    }
  }

  lemma {:induction false} SortedStays(ws: seq<DayWindow>)
    requires ByStart(ws)
    ensures SortWindows(ws) == ws
  {
    if ws != [] {
      SortedStays(ws[..|ws| - 1]);
    }
  }

  /** A parsed time is at most 24:00. */
  lemma TimeIsInDay(value: string)
    ensures TimeToMinutes(value).Some? ==> 0 <= TimeToMinutes(value).value <= 1440
  {
    hide Trim;
  }

  /** Snapping never widens what was typed, and moves each end by less than five minutes. */
  lemma SnapsInward(part: string)
    requires ParseWindow(part).Some?
    ensures ValidWindow(ParseWindow(part).value)
    ensures var w, pieces := ParseWindow(part).value, Split(part, '-');
      && |pieces| == 2 && TimeToMinutes(pieces[0]).Some? && TimeToMinutes(pieces[1]).Some?
      && TimeToMinutes(pieces[0]).value <= w.startMinute < TimeToMinutes(pieces[0]).value + 5
      && TimeToMinutes(pieces[1]).value - 5 < w.endMinute <= TimeToMinutes(pieces[1]).value
  {
    hide TimeToMinutes, Split;
    TimeIsInDay(Split(part, '-')[0]);
    TimeIsInDay(Split(part, '-')[1]);
  }

  lemma {:induction false} PartsAreValid(parts: seq<string>)
    ensures ParseParts(parts).Some? ==> AllValid(ParseParts(parts).value)
  {
    hide ParseWindow, ValidWindow;
    if parts != [] {
      PartsAreValid(parts[..|parts| - 1]);
      if ParseWindow(parts[|parts| - 1]).Some? {
        SnapsInward(parts[|parts| - 1]);
      }
    }
  }

  /** Whatever parses is a list of valid windows in order of start. */
  lemma ParsedWindowsAreNormal(value: string)
    ensures WindowsFrom(value).Some? ==> AllValid(WindowsFrom(value).value) && ByStart(WindowsFrom(value).value)
  {
    hide ParseParts, Split, SortWindows, Trim;
    var parts := Split(Trim(value), ',');
    PartsAreValid(parts);
    if ParseParts(parts).Some? {
      SortOrders(ParseParts(parts).value);
    }
  }

  // ---- Round trip ---------------------------------------------------------------------

  lemma WindowIsPlain(w: DayWindow)
    requires ValidWindow(w)
    ensures IsTrimmed(FormatWindow(w)) && FormatWindow(w) != ""
    ensures ',' !in FormatWindow(w) && '\n' !in FormatWindow(w)
  {
    hide MinutesToTime, IsSpace;
    TimeIsTrimmed(w.startMinute);
    TimeIsTrimmed(w.endMinute);
  }

  lemma ParseFormattedWindow(w: DayWindow)
    requires ValidWindow(w)
    ensures ParseWindow(FormatWindow(w)) == Some(w)
    ensures ParseWindow(" " + FormatWindow(w)) == Some(w)
  {
    hide MinutesToTime, TimeToMinutes, Split;
    var a, b := MinutesToTime(w.startMinute), MinutesToTime(w.endMinute);
    TimeIsTrimmed(w.startMinute);
    TimeIsTrimmed(w.endMinute);
    TimeRoundTrip(w.startMinute);
    TimeRoundTrip(w.endMinute);
    SplitAt(a, '-', b);
    SplitAt(" " + a, '-', b);
    SplitNone(a, '-');
    SplitNone(b, '-');
    SplitNone(" " + a, '-');
    assert FormatWindow(w) == a + ['-'] + b && " " + FormatWindow(w) == (" " + a) + ['-'] + b;
    SnapAligned(w);
  }

  lemma SnapAligned(w: DayWindow)
    requires ValidWindow(w)
    ensures SnapInward(w.startMinute, w.endMinute) == w
  {
  }

  lemma PaddedParts(ws: seq<DayWindow>)
    requires AllValid(ws) && ws != []
    ensures var n, padded := |ws| - 1, Padded(FormattedParts(ws), " ");
      && |padded| == n + 1
      && padded[..n] == Padded(FormattedParts(ws[..n]), " ")
      && padded[n] == if n == 0 then FormatWindow(ws[n]) else " " + FormatWindow(ws[n])
  {
    hide FormatWindow, ValidWindow;
  }

  lemma {:induction false} ParseFormattedParts(ws: seq<DayWindow>)
    requires AllValid(ws)
    ensures ParseParts(Padded(FormattedParts(ws), " ")) == Some(ws)
  {
    hide ParseWindow, FormatWindow, ValidWindow, FormattedParts, Padded;
    if ws == [] {
      NothingPadded();
    } else {
      var n := |ws| - 1;
      ParseFormattedParts(ws[..n]);
      ParseFormattedWindow(ws[n]);
      PaddedParts(ws);
      assert ws == ws[..n] + [ws[n]];
    }
  }

  lemma NothingPadded()
    ensures Padded(FormattedParts([]), " ") == []
  {
  }

  lemma FormatIsTrimmed(ws: seq<DayWindow>)
    requires AllValid(ws)
    ensures IsTrimmed(FormatWindows(ws)) && '\n' !in FormatWindows(ws)
    ensures ws != [] ==> FormatWindows(ws) != ""
  {
    hide FormatWindow, ValidWindow;
    var parts := FormattedParts(ws);
    forall i | 0 <= i < |parts| ensures IsTrimmed(parts[i]) && parts[i] != "" && '\n' !in parts[i] {
      WindowIsPlain(ws[i]);
    }
    JoinLacks(parts, ", ", '\n');
    if ws != [] {
      JoinIsTrimmed(parts, ", ");
    }
  }

  /** Valid windows survive formatting and parsing, put in order of start; a space before does not matter. */
  lemma FormattedWindowsParse(ws: seq<DayWindow>)
    requires AllValid(ws)
    ensures WindowsFrom(FormatWindows(ws)) == Some(SortWindows(ws))
    ensures ws != [] ==> WindowsFrom(" " + FormatWindows(ws)) == Some(SortWindows(ws))
  {
    hide FormatWindow, ValidWindow, ParseParts, Trim, Split, InsertWindow;
    var text := FormatWindows(ws);
    FormatIsTrimmed(ws);
    TrimTrimmed(text);
    if ws != [] {
      var parts := FormattedParts(ws);
      forall i | 0 <= i < |parts| ensures ',' !in parts[i] {
        WindowIsPlain(ws[i]);
      }
      TrimOneSpace(text);
      assert [','] + " " == ", ";
      SplitJoined(parts, ',', " ");
      ParseFormattedParts(ws);
    }
  }

  /** Exactly the windows already in order of start come back as they were. */
  lemma WindowsRoundTripIff(ws: seq<DayWindow>)
    requires AllValid(ws)
    ensures WindowsFrom(FormatWindows(ws)) == Some(ws) <==> ByStart(ws)
    ensures ByStart(ws) && ws != [] ==> WindowsFrom(" " + FormatWindows(ws)) == Some(ws)
  {
    hide FormatWindows, WindowsFrom, SortWindows, AllValid;
    FormattedWindowsParse(ws);
    SortOrders(ws);
    if ByStart(ws) {
      SortedStays(ws);
    }
  }

  // ---- Overrides ------------------------------------------------------------------------

  /** The day off is an override with no windows. */
  datatype Override = Override(date: string, windows: seq<DayWindow>)

  predicate IsDateText(s: string) {
    && |s| == 10 && s[4] == '-' && s[7] == '-'
    && IsDigit(s[0]) && IsDigit(s[1]) && IsDigit(s[2]) && IsDigit(s[3])
    && IsDigit(s[5]) && IsDigit(s[6]) && IsDigit(s[8]) && IsDigit(s[9])
  }

  ghost predicate ValidOverride(o: Override) {
    IsDateText(o.date) && AllValid(o.windows) && ByStart(o.windows)
  }

  ghost predicate AllOverridesValid(os: seq<Override>) {
    forall i :: 0 <= i < |os| ==> ValidOverride(os[i])
  }

  function FormatOverride(o: Override): string
    requires AllValid(o.windows)
  {
    if o.windows == [] then o.date else o.date + " " + FormatWindows(o.windows)
  }

  function OverrideLines(os: seq<Override>): seq<string>
    requires AllOverridesValid(os)
  {
    seq(|os|, i requires 0 <= i < |os| => FormatOverride(os[i]))
  }

  function FormatOverrides(os: seq<Override>): string
    requires AllOverridesValid(os)
  {
    JoinWith(OverrideLines(os), "\n")
  }

  /** One non-empty line. */
  function ParseOverride(line: string): Option<Override> {
    var cut := Min(10, |line|);
    if !IsDateText(line[..cut]) then None
    else
      match WindowsFrom(line[cut..])
      case Some(ws) => Some(Override(line[..cut], ws))
      case None => None
  }

  function OverridesFrom(lines: seq<string>): Option<seq<Override>> {
    if lines == [] then Some([])
    else
      var n := |lines| - 1;
      var line := Trim(lines[n]);
      match OverridesFrom(lines[..n])
      case None => None
      case Some(before) =>
        if line == "" then Some(before)
        else
          match ParseOverride(line)
          case Some(o) => Some(before + [o])
          case None => None
  }

  method ParseOverrides(text: string) returns (r: Option<seq<Override>>)
    ensures r == OverridesFrom(Split(text, '\n'))
  {
    hide WindowsFrom, IsDateText, Trim;
    var lines := Split(text, '\n');
    var out: seq<Override> := [];
    for i := 0 to |lines|
      invariant OverridesFrom(lines[..i]) == Some(out)
    {
      assert lines[..i + 1][..i] == lines[..i];
      var line := Trim(lines[i]);
      if line == "" {
        continue;
      }
      var date := line[..Min(10, |line|)];
      if !IsDateText(date) {
        OverridesStayNone(lines, i + 1);
        return None;
      }
      var windows := ParseWindows(line[Min(10, |line|)..]);
      if windows.None? {
        OverridesStayNone(lines, i + 1);
        return None;
      }
      out := out + [Override(date, windows.value)];
    }
    assert lines[..|lines|] == lines;
    return Some(out);
  }

  lemma {:induction false} OverridesStayNone(lines: seq<string>, k: nat)
    requires k <= |lines| && OverridesFrom(lines[..k]).None?
    ensures OverridesFrom(lines).None?
    decreases |lines|
  {
    hide ParseOverride, Trim;
    if k < |lines| {
      assert lines[..|lines| - 1][..k] == lines[..k];
      OverridesStayNone(lines[..|lines| - 1], k);
    } else {
      assert lines[..k] == lines;
    }
  }

  lemma OverrideText(o: Override)
    requires ValidOverride(o)
    ensures IsTrimmed(FormatOverride(o)) && FormatOverride(o) != "" && '\n' !in FormatOverride(o)
    ensures ParseOverride(FormatOverride(o)) == Some(o)
  {
    hide WindowsFrom, FormatWindows, AllValid, ByStart;
    var line := FormatOverride(o);
    FormatIsTrimmed(o.windows);
    WindowsRoundTripIff(o.windows);
    DateIsPlain(o.date);
    assert line[..10] == o.date;
    if o.windows == [] {
      assert line[10..] == "";
      EmptyWindows();
    } else {
      assert line[10..] == " " + FormatWindows(o.windows);
    }
  }

  lemma EmptyWindows()
    ensures WindowsFrom("") == Some([])
  {
  }

  lemma DateIsPlain(date: string)
    requires IsDateText(date)
    ensures '\n' !in date && !IsSpace(date[0]) && !IsSpace(date[9])
  {
    forall i | 0 <= i < 10 ensures date[i] != '\n' {
      assert IsDigit(date[i]) || date[i] == '-';
    }
  }

  lemma {:induction false} ParseFormattedLines(os: seq<Override>)
    requires AllOverridesValid(os)
    ensures OverridesFrom(OverrideLines(os)) == Some(os)
  {
    hide ParseOverride, FormatOverride, Trim;
    if os != [] {
      var n := |os| - 1;
      ParseFormattedLines(os[..n]);
      assert ValidOverride(os[n]);
      OverrideText(os[n]);
      TrimTrimmed(FormatOverride(os[n]));
      assert OverrideLines(os)[..n] == OverrideLines(os[..n]);
      assert OverrideLines(os)[n] == FormatOverride(os[n]);
      assert |OverrideLines(os)| - 1 == n && os == os[..n] + [os[n]];
    }
  }

  /** Valid overrides survive formatting and parsing. */
  lemma OverridesRoundTrip(os: seq<Override>)
    requires AllOverridesValid(os)
    ensures OverridesFrom(Split(FormatOverrides(os), '\n')) == Some(os)
  {
    hide FormatOverride, ValidOverride, OverridesFrom;
    var lines := OverrideLines(os);
    if os == [] {
      NoOverrides();
    } else {
      forall i | 0 <= i < |lines| ensures '\n' !in lines[i] {
        OverrideText(os[i]);
      }
      assert ['\n'] + "" == "\n";
      SplitJoined(lines, '\n', "");
      assert forall x: string :: "" + x == x;
      assert Padded(lines, "") == lines;
      ParseFormattedLines(os);
    }
  }

  lemma NoOverrides()
    ensures OverridesFrom(Split("", '\n')) == Some([])
  {
    assert Split("", '\n') == [""];
    assert [""][..0] == [];
  }

  lemma ParsedOverrideIsValid(line: string)
    requires ParseOverride(line).Some?
    ensures ValidOverride(ParseOverride(line).value)
  {
    hide WindowsFrom, IsDateText, AllValid, ByStart;
    ParsedWindowsAreNormal(line[Min(10, |line|)..]);
  }

  lemma {:induction false} ParsedOverridesAreValid(lines: seq<string>)
    ensures OverridesFrom(lines).Some? ==> AllOverridesValid(OverridesFrom(lines).value)
  {
    hide ParseOverride, ValidOverride, Trim;
    if lines != [] {
      var n := |lines| - 1;
      ParsedOverridesAreValid(lines[..n]);
      if ParseOverride(Trim(lines[n])).Some? {
        ParsedOverrideIsValid(Trim(lines[n]));
      }
    }
  }

  /** Parsing, writing out and parsing again changes nothing. */
  lemma ReparsedOverridesAreSame(text: string)
    requires OverridesFrom(Split(text, '\n')).Some?
    ensures var os := OverridesFrom(Split(text, '\n')).value;
      AllOverridesValid(os) && OverridesFrom(Split(FormatOverrides(os), '\n')) == Some(os)
  {
    hide OverridesFrom, Split, FormatOverrides;
    ParsedOverridesAreValid(Split(text, '\n'));
    OverridesRoundTrip(OverridesFrom(Split(text, '\n')).value);
  }
}
