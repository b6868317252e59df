/** Assembling a VCALENDAR with one VEVENT (buildIcs in src/core/ics.ts). */
module IcsDocument {
  import opened Common
  import opened IcsText
  import opened Text

  datatype Method = Request | Cancel

  datatype Person = Person(name: string, email: string)

  /** Instants arrive formatted; `status` is `None` when derived from the method. */
  datatype IcsInput = IcsInput(
    uid: string,
    sequence: int,
    verb: Method,
    dtstamp: string,
    dtstart: string,
    dtend: string,
    title: string,
    description: string,
    location: string,
    status: Option<string>,
    organizer: Person,
    attendees: seq<Person>,
    url: Option<string>)

  const PRODID := "-//Punctual//Punctual Scheduling Engine//EN"

  function VerbText(verb: Method): string {
    if verb == Cancel then "CANCEL" else "REQUEST"
  }

  function StatusText(input: IcsInput): string {
    match input.status
    case Some(s) => s
    case None => if input.verb == Cancel then "CANCELLED" else "CONFIRMED"
  }

  function AttendeeLine(a: Person): string {
    "ATTENDEE;CN=" + EscapeParam(a.name) + ";ROLE=REQ-PARTICIPANT" + ";PARTSTAT=NEEDS-ACTION"
    + ";RSVP=TRUE:mailto:" + a.email
  }

  function HeaderLines(input: IcsInput): seq<string> {
    [ "BEGIN:VCALENDAR",
      "VERSION:2.0",
      "PRODID:" + EscapeText(PRODID),
      "CALSCALE:GREGORIAN",
      "METHOD:" + VerbText(input.verb),
      "BEGIN:VEVENT",
      "UID:" + EscapeText(input.uid),
      "SEQUENCE:" + Decimal(Max(0, input.sequence)),
      "DTSTAMP:" + input.dtstamp,
      "DTSTART:" + input.dtstart,
      "DTEND:" + input.dtend,
      "SUMMARY:" + EscapeText(input.title),
      "DESCRIPTION:" + EscapeText(input.description),
      "LOCATION:" + EscapeText(input.location),
      "STATUS:" + StatusText(input),
      "TRANSP:" + if StatusText(input) == "CANCELLED" then "TRANSPARENT" else "OPAQUE",
      "ORGANIZER;CN=" + EscapeParam(input.organizer.name) + ":mailto:" + input.organizer.email
    ]
  }

  function AttendeeLines(attendees: seq<Person>): seq<string> {
    seq(|attendees|, i requires 0 <= i < |attendees| => AttendeeLine(attendees[i]))
  }

  /** A URI value is emitted verbatim, and only when there is one. */
  function UrlLines(url: Option<string>): seq<string> {
    if url.Some? && url.value != "" then ["URL:" + url.value] else []
  }

  function AllLines(input: IcsInput): seq<string> {
    HeaderLines(input) + AttendeeLines(input.attendees) + UrlLines(input.url) + ["END:VEVENT", "END:VCALENDAR"]
  }

  method BuildIcs(input: IcsInput) returns (document: string)
    ensures IsDocument(document, AllLines(input))
  {
    hide HeaderLines, IsDocument;
    var lines := HeaderLines(input);
    for i := 0 to |input.attendees|
      invariant lines == HeaderLines(input) + AttendeeLines(input.attendees)[..i]
    {
      lines := lines + [AttendeeLine(input.attendees[i])];
    }
    assert AttendeeLines(input.attendees)[..|input.attendees|] == AttendeeLines(input.attendees);
    if input.url.Some? && input.url.value != "" {
      lines := lines + ["URL:" + input.url.value];
    }
    lines := lines + ["END:VEVENT", "END:VCALENDAR"];
    assert lines == AllLines(input);
    document := FoldAll(lines);
  }

  /** The values emitted verbatim hold no line breaks: formatted instants, addresses, status, URL. */
  ghost predicate PlainValues(input: IcsInput) {
    && NoBreaks(input.dtstamp) && NoBreaks(input.dtstart) && NoBreaks(input.dtend)
    && NoBreaks(StatusText(input))
    && NoBreaks(input.organizer.email)
    && (forall i :: 0 <= i < |input.attendees| ==> NoBreaks(input.attendees[i].email))
    && (input.url.Some? ==> NoBreaks(input.url.value))
  }

  /** Letters first and no break after: a label makes any plain value a content line. */
  lemma Labelled(label_: string, value: string)
    requires IsContentLine(label_) && NoBreaks(value)
    ensures IsContentLine(label_ + value)
  {
    forall i | 0 <= i < |label_ + value| ensures !IsBreak((label_ + value)[i]) {
    }
  }

  lemma {:induction false} DecimalHasNoBreaks(n: nat)
    ensures NoBreaks(Decimal(n))
  {
    if n >= 10 {
      DecimalHasNoBreaks(n / 10);
    }
  }

  lemma AttendeeIsContent(a: Person)
    requires NoBreaks(a.email)
    ensures IsContentLine(AttendeeLine(a))
  {
    hide EscapeParam;
    ParamHasNoBreaks(a.name);
    Labelled("ATTENDEE;CN=", EscapeParam(a.name));
    Labelled("ATTENDEE;CN=" + EscapeParam(a.name), ";ROLE=REQ-PARTICIPANT");
    Labelled("ATTENDEE;CN=" + EscapeParam(a.name) + ";ROLE=REQ-PARTICIPANT", ";PARTSTAT=NEEDS-ACTION");
    Labelled("ATTENDEE;CN=" + EscapeParam(a.name) + ";ROLE=REQ-PARTICIPANT" + ";PARTSTAT=NEEDS-ACTION",
             ";RSVP=TRUE:mailto:");
    Labelled("ATTENDEE;CN=" + EscapeParam(a.name) + ";ROLE=REQ-PARTICIPANT" + ";PARTSTAT=NEEDS-ACTION"
             + ";RSVP=TRUE:mailto:", a.email);
  }

  lemma OrganizerIsContent(p: Person)
    requires NoBreaks(p.email)
    ensures IsContentLine("ORGANIZER;CN=" + EscapeParam(p.name) + ":mailto:" + p.email)
  {
    hide EscapeParam;
    ParamHasNoBreaks(p.name);
    Labelled("ORGANIZER;CN=", EscapeParam(p.name));
    Labelled("ORGANIZER;CN=" + EscapeParam(p.name), ":mailto:");
    Labelled("ORGANIZER;CN=" + EscapeParam(p.name) + ":mailto:", p.email);
  }

  lemma FixedIsContent()
    ensures IsContentLine("BEGIN:VCALENDAR") && IsContentLine("VERSION:2.0")
    ensures IsContentLine("CALSCALE:GREGORIAN") && IsContentLine("BEGIN:VEVENT")
  {
  }

  lemma TextIsContent(input: IcsInput)
    ensures IsContentLine("PRODID:" + EscapeText(PRODID)) && IsContentLine("UID:" + EscapeText(input.uid))
    ensures IsContentLine("SUMMARY:" + EscapeText(input.title))
    ensures IsContentLine("DESCRIPTION:" + EscapeText(input.description))
    ensures IsContentLine("LOCATION:" + EscapeText(input.location))
  {
    hide EscapeText;
    EscapeHasNoBreaks(PRODID);
    EscapeHasNoBreaks(input.uid);
    EscapeHasNoBreaks(input.title);
    EscapeHasNoBreaks(input.description);
    EscapeHasNoBreaks(input.location);
    Labelled("PRODID:", EscapeText(PRODID));
    Labelled("UID:", EscapeText(input.uid));
    Labelled("SUMMARY:", EscapeText(input.title));
    Labelled("DESCRIPTION:", EscapeText(input.description));
    Labelled("LOCATION:", EscapeText(input.location));
  }

  lemma PlainIsContent(input: IcsInput)
    requires PlainValues(input)
    ensures IsContentLine("METHOD:" + VerbText(input.verb))
    ensures IsContentLine("SEQUENCE:" + Decimal(Max(0, input.sequence)))
    ensures IsContentLine("DTSTAMP:" + input.dtstamp)
    ensures IsContentLine("DTSTART:" + input.dtstart)
    ensures IsContentLine("DTEND:" + input.dtend)
    ensures IsContentLine("STATUS:" + StatusText(input))
    ensures IsContentLine("TRANSP:" + if StatusText(input) == "CANCELLED" then "TRANSPARENT" else "OPAQUE")
  {
    hide Decimal, StatusText;
    DecimalHasNoBreaks(Max(0, input.sequence));
    Labelled("METHOD:", VerbText(input.verb));
    Labelled("SEQUENCE:", Decimal(Max(0, input.sequence)));
    Labelled("DTSTAMP:", input.dtstamp);
    Labelled("DTSTART:", input.dtstart);
    Labelled("DTEND:", input.dtend);
    Labelled("STATUS:", StatusText(input));
    Labelled("TRANSP:", if StatusText(input) == "CANCELLED" then "TRANSPARENT" else "OPAQUE");
  }

  lemma HeaderIsContent(input: IcsInput)
    requires PlainValues(input)
    ensures forall i :: 0 <= i < |HeaderLines(input)| ==> IsContentLine(HeaderLines(input)[i])
  {
    hide EscapeText, EscapeParam, Decimal, StatusText, IsContentLine;
    FixedIsContent();
    TextIsContent(input);
    PlainIsContent(input);
    OrganizerIsContent(input.organizer);
  }

  lemma AllLinesAreContent(input: IcsInput)
    requires PlainValues(input)
    ensures forall i :: 0 <= i < |AllLines(input)| ==> IsContentLine(AllLines(input)[i])
  {
    hide HeaderLines, AttendeeLine, IsContentLine;
    HeaderIsContent(input);
    forall i | 0 <= i < |input.attendees| ensures IsContentLine(AttendeeLine(input.attendees[i])) {
      AttendeeIsContent(input.attendees[i]);
    }
    ClosingIsContent();
    if input.url.Some? {
      UrlIsContent(input.url.value);
    }
  }

  lemma ClosingIsContent()
    ensures IsContentLine("END:VEVENT") && IsContentLine("END:VCALENDAR")
  {
  }

  lemma UrlIsContent(url: string)
    requires NoBreaks(url)
    ensures IsContentLine("URL:" + url)
  {
    Labelled("URL:", url);
  }

  /** The built document reads back as exactly the content lines assembled. */
  lemma BuiltDocumentReadsBack(input: IcsInput, document: string)
    requires PlainValues(input) && IsDocument(document, AllLines(input))
    ensures ContentLines(Unfold(document), "") == AllLines(input)
  {
    hide HeaderLines, IsDocument, IsContentLine;
    AllLinesAreContent(input);
    DocumentReadsBack(AllLines(input), document);
  }

  /** Reading a content line's value and unescaping it gives the text that was put in. */
  lemma SummaryReadsBack(input: IcsInput)
    ensures var line := AllLines(input)[11];
      "SUMMARY:" <= line && Unescape(line[8..]) == Normalised(input.title)
  {
    hide EscapeText, Unescape, Normalised;
    EscapeReadsBack(input.title);
    assert AllLines(input)[11] == HeaderLines(input)[11] == "SUMMARY:" + EscapeText(input.title);
    assert ("SUMMARY:" + EscapeText(input.title))[8..] == EscapeText(input.title);
  }
}
