/**
 * What the reader of a built calendar document finds in it (buildIcs in src/core/ics.ts;
 * sections 3.1 and 3.8 of RFC 5545, section 3.2 of RFC 5546).
 */
module IcsReader {
  import opened Common
  import opened Text
  import opened IcsText
  import opened IcsDocument

  /** The value of the first content line with this name and no parameters. */
  function ValueFrom(lines: seq<string>, name: string, i: nat): Option<string>
    requires i <= |lines|
    decreases |lines| - i
  {
    if i == |lines| then None
    else if name + ":" <= lines[i] then Some(lines[i][|name| + 1..])
    else ValueFrom(lines, name, i + 1)
  }

  /** A property of the document: unfolded, split into lines, looked up by name. */
  function Property(document: string, name: string): Option<string> {
    ValueFrom(ContentLines(Unfold(document), ""), name, 0)
  }

  /** Decimal digits as a number. */
  function NumberOf(s: string): int {
    if s == "" then 0 else 10 * NumberOf(s[..|s| - 1]) + (s[|s| - 1] as int - '0' as int)
  }

  lemma {:induction false} DecimalReadsBack(n: nat)
    ensures NumberOf(Decimal(n)) == n
  {
    if n >= 10 {
      DecimalReadsBack(n / 10);
      assert Decimal(n)[..|Decimal(n)| - 1] == Decimal(n / 10);
    } else {
      assert Decimal(n)[..0] == "";
    }
  }

  lemma {:induction false} ValueIsAt(lines: seq<string>, name: string, i: nat, j: nat)
    requires j <= i < |lines| && name + ":" <= lines[i]
    requires forall k :: j <= k < i ==> !(name + ":" <= lines[k])
    ensures ValueFrom(lines, name, j) == Some(lines[i][|name| + 1..])
    decreases i - j
  {
    if j < i {
      ValueIsAt(lines, name, i, j + 1);
    }
  }

  lemma NotAPrefix(a: string, b: string, k: nat)
    requires k < |a| && k < |b| && a[k] != b[k]
    ensures !(a <= b)
  {
  }

  /** How the first lines begin. */
  lemma LinesBegin(input: IcsInput)
    ensures var lines := AllLines(input);
      && |lines| > 16
      && "BEGIN:" <= lines[0] && "VERSION:" <= lines[1] && "PRODID:" <= lines[2] && "CALSCALE:" <= lines[3]
      && "BEGIN:" <= lines[5] && "DTSTAMP:" <= lines[8] && "SUMMARY:" <= lines[11] && "DESCRIPTION:" <= lines[12]
      && "LOCATION:" <= lines[13]
      && lines[4] == "METHOD:" + VerbText(input.verb) && lines[6] == "UID:" + EscapeText(input.uid)
      && lines[7] == "SEQUENCE:" + Decimal(Max(0, input.sequence))
      && lines[9] == "DTSTART:" + input.dtstart && lines[10] == "DTEND:" + input.dtend
      && lines[14] == "STATUS:" + StatusText(input)
  {
    hide EscapeText, EscapeParam, Decimal, StatusText, VerbText;
    assert forall i :: 0 <= i < 17 ==> AllLines(input)[i] == HeaderLines(input)[i];
  }

  /** None of the lines before begins with this name. */
  lemma MethodFirst(input: IcsInput)
    ensures ValueFrom(AllLines(input), "METHOD", 0) == Some(VerbText(input.verb))
    ensures ValueFrom(AllLines(input), "UID", 0) == Some(EscapeText(input.uid))
    ensures ValueFrom(AllLines(input), "SEQUENCE", 0) == Some(Decimal(Max(0, input.sequence)))
  {
    hide EscapeText, Decimal, VerbText, AllLines, ValueFrom;
    LinesBegin(input);
    var lines := AllLines(input);
    forall k | 0 <= k < 4 ensures !("METHOD:" <= lines[k]) {
      NotAPrefix("METHOD:", lines[k], 0);
    }
    ValueIsAt(lines, "METHOD", 4, 0);
    forall k | 0 <= k < 6 ensures !("UID:" <= lines[k]) {
      NotAPrefix("UID:", lines[k], 0);
    }
    ValueIsAt(lines, "UID", 6, 0);
    forall k | 0 <= k < 7 ensures !("SEQUENCE:" <= lines[k]) {
      NotAPrefix("SEQUENCE:", lines[k], 0);
    }
    ValueIsAt(lines, "SEQUENCE", 7, 0);
  }

  lemma StartIsRead(input: IcsInput)
    ensures ValueFrom(AllLines(input), "DTSTART", 0) == Some(input.dtstart)
  {
    hide EscapeText, Decimal, VerbText, StatusText, AllLines, ValueFrom;
    LinesBegin(input);
    var lines := AllLines(input);
    forall k | 0 <= k < 9 ensures !("DTSTART:" <= lines[k]) {
      NotAPrefix("DTSTART:", lines[k], if k == 8 then 5 else 0);
    }
    ValueIsAt(lines, "DTSTART", 9, 0);
  }

  lemma EndIsRead(input: IcsInput)
    ensures ValueFrom(AllLines(input), "DTEND", 0) == Some(input.dtend)
  {
    hide EscapeText, Decimal, VerbText, StatusText, AllLines, ValueFrom;
    LinesBegin(input);
    var lines := AllLines(input);
    forall k | 0 <= k < 10 ensures !("DTEND:" <= lines[k]) {
      NotAPrefix("DTEND:", lines[k], if k >= 8 then 2 else 0);
    }
    ValueIsAt(lines, "DTEND", 10, 0);
  }

  lemma StatusIsRead(input: IcsInput)
    ensures ValueFrom(AllLines(input), "STATUS", 0) == Some(StatusText(input))
  {
    hide EscapeText, Decimal, VerbText, StatusText, AllLines, ValueFrom;
    LinesBegin(input);
    var lines := AllLines(input);
    forall k | 0 <= k < 14 ensures !("STATUS:" <= lines[k]) {
      NotAPrefix("STATUS:", lines[k], if k == 7 || k == 11 then 1 else 0);
    }
    ValueIsAt(lines, "STATUS", 14, 0);
  }

  lemma TitleIsRead(input: IcsInput)
    ensures ValueFrom(AllLines(input), "SUMMARY", 0) == Some(EscapeText(input.title))
  {
    hide EscapeText, Decimal, VerbText, StatusText, AllLines, ValueFrom;
    LinesBegin(input);
    MoreLines(input);
    var lines := AllLines(input);
    forall k | 0 <= k < 11 ensures !("SUMMARY:" <= lines[k]) {
      NotAPrefix("SUMMARY:", lines[k], if k == 7 then 1 else 0);
    }
    ValueIsAt(lines, "SUMMARY", 11, 0);
  }

  lemma TransparencyIsRead(input: IcsInput)
    ensures ValueFrom(AllLines(input), "TRANSP", 0)
            == Some(if StatusText(input) == "CANCELLED" then "TRANSPARENT" else "OPAQUE")
  {
    hide EscapeText, Decimal, VerbText, StatusText, AllLines, ValueFrom;
    LinesBegin(input);
    MoreLines(input);
    var lines := AllLines(input);
    forall k | 0 <= k < 15 ensures !("TRANSP:" <= lines[k]) {
      NotAPrefix("TRANSP:", lines[k], 0);
    }
    ValueIsAt(lines, "TRANSP", 15, 0);
  }

  lemma MoreLines(input: IcsInput)
    ensures var lines := AllLines(input);
      && |lines| > 16 && lines[11] == "SUMMARY:" + EscapeText(input.title)
      && lines[15] == "TRANSP:" + if StatusText(input) == "CANCELLED" then "TRANSPARENT" else "OPAQUE"
  {
    hide EscapeText, EscapeParam, Decimal, StatusText, VerbText;
    assert forall i :: 0 <= i < 17 ==> AllLines(input)[i] == HeaderLines(input)[i];
  }

  /**
   * Whoever reads a built document finds what was put in: the verb, the UID, the SEQUENCE
   * as a number, the start, the end and the title, a status that says cancelled exactly
   * for a cancellation unless it was given, and cancelled time that no longer blocks.
   */
  lemma DocumentSays(input: IcsInput, document: string)
    requires PlainValues(input) && IsDocument(document, AllLines(input))
    ensures Property(document, "METHOD") == Some(if input.verb == Cancel then "CANCEL" else "REQUEST")
    ensures Property(document, "UID").Some? && Unescape(Property(document, "UID").value) == Normalised(input.uid)
    ensures Property(document, "SEQUENCE").Some?
            && NumberOf(Property(document, "SEQUENCE").value) == if input.sequence < 0 then 0 else input.sequence
    ensures Property(document, "DTSTART") == Some(input.dtstart)
    ensures Property(document, "DTEND") == Some(input.dtend)
    ensures Property(document, "STATUS") == if input.status.Some? then input.status
                                            else Some(if input.verb == Cancel then "CANCELLED" else "CONFIRMED")
    ensures Property(document, "TRANSP")
            == Some(if Property(document, "STATUS") == Some("CANCELLED") then "TRANSPARENT" else "OPAQUE")
    ensures Property(document, "SUMMARY").Some?
            && Unescape(Property(document, "SUMMARY").value) == Normalised(input.title)
  {
    hide AllLines, IsDocument, EscapeText, Unescape, Normalised, Decimal, ValueFrom, NumberOf, PlainValues;
    BuiltDocumentReadsBack(input, document);
    MethodFirst(input);
    StartIsRead(input);
    EndIsRead(input);
    StatusIsRead(input);
    TitleIsRead(input);
    TransparencyIsRead(input);
    EscapeReadsBack(input.title);
    EscapeReadsBack(input.uid);
    DecimalReadsBack(Max(0, input.sequence));
  }

  /** Two documents that read alike carry the same verb, SEQUENCE, start and end. */
  lemma DocumentsTellApart(a: IcsInput, b: IcsInput, document: string)
    requires PlainValues(a) && PlainValues(b)
    requires IsDocument(document, AllLines(a)) && IsDocument(document, AllLines(b))
    ensures a.verb == b.verb && a.dtstart == b.dtstart && a.dtend == b.dtend && Normalised(a.uid) == Normalised(b.uid)
    ensures Max(0, a.sequence) == Max(0, b.sequence)
  {
    hide AllLines, IsDocument, Unescape, Normalised, NumberOf, PlainValues, Property;
    DocumentSays(a, document);
    DocumentSays(b, document);
  }

  // ---- People, texts and the address ---------------------------------------------------------

  /** The line names this person: a parameter that reads back as the name, and the address at its end. */
  ghost predicate Names(line: string, property: string, p: Person) {
    var start := property + ";CN=";
    && start <= line && |start| <= |line|
    && ParamValue(line[|start|..]) == Trim(DropQuotesAndControls(p.name))
    && EndsWith(line, ":mailto:" + p.email)
  }

  predicate EndsWith(s: string, end: string) {
    |end| <= |s| && s[|s| - |end|..] == end
  }

  lemma NamedBy(property: string, p: Person, middle: string)
    requires middle != "" && middle[0] == ';'
    ensures Names(property + ";CN=" + EscapeParam(p.name) + ":mailto:" + p.email, property, p)
    ensures Names(property + ";CN=" + EscapeParam(p.name) + middle + ":mailto:" + p.email, property, p)
  {
    hide EscapeParam, ParamValue, Trim, DropQuotesAndControls;
    var start, end := property + ";CN=", ":mailto:" + p.email;
    var plain, long := start + EscapeParam(p.name) + end, start + EscapeParam(p.name) + middle + end;
    ParamReadsBack(p.name, end);
    ParamReadsBack(p.name, middle + end);
    assert plain[|start|..] == EscapeParam(p.name) + end;
    assert long[|start|..] == EscapeParam(p.name) + (middle + end);
    assert plain == property + ";CN=" + EscapeParam(p.name) + ":mailto:" + p.email;
    assert long == property + ";CN=" + EscapeParam(p.name) + middle + ":mailto:" + p.email;
  }

  /** The document names its organizer once and then every attendee, one line each, in order. */
  lemma PeopleAreNamed(input: IcsInput, document: string)
    requires PlainValues(input) && IsDocument(document, AllLines(input))
    ensures var lines := ContentLines(Unfold(document), "");
      && |lines| >= 19 + |input.attendees|
      && Names(lines[16], "ORGANIZER", input.organizer)
      && forall i :: 0 <= i < |input.attendees| ==> Names(lines[17 + i], "ATTENDEE", input.attendees[i])
  {
    hide IsDocument, PlainValues, HeaderLines, Names, AttendeeLine, EscapeParam;
    BuiltDocumentReadsBack(input, document);
    OrganizerLine(input);
    forall i | 0 <= i < |input.attendees| ensures Names(AllLines(input)[17 + i], "ATTENDEE", input.attendees[i]) {
      AttendeeIsNamed(input.attendees[i]);
      AttendeeAt(input, i);
    }
  }

  lemma OrganizerLine(input: IcsInput)
    ensures |AllLines(input)| >= 19 + |input.attendees|
    ensures Names(AllLines(input)[16], "ORGANIZER", input.organizer)
  {
    hide EscapeText, EscapeParam, Decimal, StatusText, VerbText, Names;
    NamedBy("ORGANIZER", input.organizer, ";");
    assert AllLines(input)[16] == HeaderLines(input)[16];
    assert "ORGANIZER" + ";CN=" == "ORGANIZER;CN=";
  }

  lemma AttendeeIsNamed(a: Person)
    ensures Names(AttendeeLine(a), "ATTENDEE", a)
  {
    hide EscapeParam, Names;
    var middle := ";ROLE=REQ-PARTICIPANT" + ";PARTSTAT=NEEDS-ACTION" + ";RSVP=TRUE";
    NamedBy("ATTENDEE", a, middle);
    assert AttendeeLine(a) == "ATTENDEE" + ";CN=" + EscapeParam(a.name) + middle + ":mailto:" + a.email;
  }

  lemma AttendeeAt(input: IcsInput, i: nat)
    requires i < |input.attendees|
    ensures 17 + i < |AllLines(input)| && AllLines(input)[17 + i] == AttendeeLine(input.attendees[i])
  {
    hide EscapeText, EscapeParam, Decimal, StatusText, VerbText, AttendeeLine;
    assert |HeaderLines(input)| == 17;
  }

  /** An address is found as it was given. */
  lemma UrlIsRead(input: IcsInput, document: string)
    requires PlainValues(input) && IsDocument(document, AllLines(input)) && input.url.Some? && input.url.value != ""
    ensures Property(document, "URL") == input.url
  {
    hide IsDocument, PlainValues, ValueFrom, HeaderLines, AttendeeLine;
    BuiltDocumentReadsBack(input, document);
    var lines, at := AllLines(input), 17 + |input.attendees|;
    LinesBegin(input);
    UrlAt(input);
    forall k | 0 <= k < at ensures !("URL:" <= lines[k]) {
      NoUrlBefore(input, k);
    }
    ValueIsAt(lines, "URL", at, 0);
  }

  lemma UrlAt(input: IcsInput)
    requires input.url.Some? && input.url.value != ""
    ensures var at := 17 + |input.attendees|;
      at < |AllLines(input)| && AllLines(input)[at] == "URL:" + input.url.value
  {
    hide EscapeText, EscapeParam, Decimal, StatusText, VerbText, AttendeeLine;
    assert |HeaderLines(input)| == 17;
  }

  lemma NoUrlBefore(input: IcsInput, k: nat)
    requires k < 17 + |input.attendees|
    ensures k < |AllLines(input)| && !("URL:" <= AllLines(input)[k])
  {
    hide EscapeText, EscapeParam, Decimal, StatusText, VerbText, AllLines;
    if k >= 17 {
      AttendeeAt(input, k - 17);
      NotAPrefix("URL:", AttendeeLine(input.attendees[k - 17]), 0);
    } else {
      HeaderAt(input, k);
      NotAPrefix("URL:", HeaderLines(input)[k], if k == 6 then 1 else 0);
    }
  }

  lemma HeaderAt(input: IcsInput, k: nat)
    requires k < 17
    ensures k < |AllLines(input)| && |HeaderLines(input)| == 17 && AllLines(input)[k] == HeaderLines(input)[k]
  {
    hide EscapeText, EscapeParam, Decimal, StatusText, VerbText, AttendeeLine;
  }
}
