/**
 * Escaping, folding and assembling iCalendar text (src/core/ics.ts), with the
 * reader RFC 5545 describes (sections 3.1 and 3.3.11).
 */
module IcsText {
  import opened Common
  import opened Text

  const CRLF := "\r\n"
  const MAX_OCTETS := 75

  predicate IsBreak(c: char) {
    c == '\r' || c == '\n'
  }

  /** Controls with no representation in a content line; tab, CR and LF are not among them. */
  predicate IsDropped(c: char) {
    var n := c as int;
    n <= 0x08 || n == 0x0B || n == 0x0C || 0x0E <= n <= 0x1F || n == 0x7F
  }

  ghost predicate NoBreaks(s: string) {
    forall i :: 0 <= i < |s| ==> !IsBreak(s[i])
  }

  // ---- escapeText: five passes ------------------------------------------------------

  /** `replace(/c/g, with)` for a single character. */
  function ReplaceChar(s: string, c: char, with: string): string {
    if s == "" then "" else (if s[0] == c then with else [s[0]]) + ReplaceChar(s[1..], c, with)
  }

  /** `replace(/\r\n|\r|\n/g, with)` */
  function ReplaceBreaks(s: string, with: string): string {
    if s == "" then ""
    else if s[0] == '\r' && |s| > 1 && s[1] == '\n' then with + ReplaceBreaks(s[2..], with)
    else (if IsBreak(s[0]) then with else [s[0]]) + ReplaceBreaks(s[1..], with)
  }

  function DropControls(s: string): string {
    if s == "" then "" else (if IsDropped(s[0]) then "" else [s[0]]) + DropControls(s[1..])
  }

  function EscapeText(value: string): string {
    var slashes := ReplaceChar(value, '\\', "\\\\");
    var semicolons := ReplaceChar(slashes, ';', "\\;");
    var commas := ReplaceChar(semicolons, ',', "\\,");
    DropControls(ReplaceBreaks(commas, "\\n"))
  }

  /** What a value means once its line breaks are newlines and other controls are gone. */
  function Normalised(value: string): string {
    DropControls(ReplaceBreaks(value, "\n"))
  }

  /** The TEXT reader of section 3.3.11: backslash, semicolon, comma and newline escapes. */
  function Unescape(s: string): string {
    if s == "" then ""
    else if s[0] == '\\' && |s| > 1 then
      if s[1] == 'n' || s[1] == 'N' then "\n" + Unescape(s[2..])
      else if s[1] == '\\' || s[1] == ';' || s[1] == ',' then [s[1]] + Unescape(s[2..])
      else [s[0]] + Unescape(s[1..])
    else [s[0]] + Unescape(s[1..])
  }

  /** What the first three passes make of one character. */
  function Punctuated(c: char): string {
    if c == '\\' then "\\\\" else if c == ';' then "\\;" else if c == ',' then "\\," else [c]
  }

  function PunctuatedAll(s: string): string {
    if s == "" then "" else Punctuated(s[0]) + PunctuatedAll(s[1..])
  }

  lemma {:induction false} ReplaceOverConcat(a: string, b: string, c: char, with: string)
    ensures ReplaceChar(a + b, c, with) == ReplaceChar(a, c, with) + ReplaceChar(b, c, with)
  {
    if a == "" {
      assert a + b == b;
    } else {
      assert (a + b)[1..] == a[1..] + b;
      ReplaceOverConcat(a[1..], b, c, with);
    }
  }

  lemma ReplaceShort(x: char, y: char, c: char, with: string)
    ensures ReplaceChar([x], c, with) == if x == c then with else [x]
    ensures x != c && y != c ==> ReplaceChar([x, y], c, with) == [x, y]
  {
    assert [x][1..] == "" && [x, y][1..] == [y] && [y][1..] == "";
    assert ReplaceChar("", c, with) == "";
    assert [x] + "" == [x] && with + "" == with;
    assert ReplaceChar([y], c, with) == (if y == c then with else [y]) + "";
    assert [y] + "" == [y];
    assert [x] + [y] == [x, y];
  }

  lemma PassesOnOne(c: char)
    ensures ReplaceChar(ReplaceChar(ReplaceChar([c], '\\', "\\\\"), ';', "\\;"), ',', "\\,") == Punctuated(c)
  {
    ReplaceShort(c, c, '\\', "\\\\");
    ReplaceShort(c, c, ';', "\\;");
    ReplaceShort(c, c, ',', "\\,");
    ReplaceShort('\\', '\\', ';', "\\;");
    ReplaceShort('\\', '\\', ',', "\\,");
    ReplaceShort('\\', ';', ',', "\\,");
  }

  lemma {:induction false} PassesCombine(s: string)
    ensures ReplaceChar(ReplaceChar(ReplaceChar(s, '\\', "\\\\"), ';', "\\;"), ',', "\\,") == PunctuatedAll(s)
  {
    if s != "" {
      var c, rest := [s[0]], s[1..];
      assert s == c + rest;
      PassesCombine(rest);
      PassesOnOne(s[0]);
      ReplaceOverConcat(c, rest, '\\', "\\\\");
      ReplaceOverConcat(ReplaceChar(c, '\\', "\\\\"), ReplaceChar(rest, '\\', "\\\\"), ';', "\\;");
      ReplaceOverConcat(ReplaceChar(ReplaceChar(c, '\\', "\\\\"), ';', "\\;"),
                        ReplaceChar(ReplaceChar(rest, '\\', "\\\\"), ';', "\\;"), ',', "\\,");
    }
  }

  lemma {:induction false} DropOverConcat(a: string, b: string)
    ensures DropControls(a + b) == DropControls(a) + DropControls(b)
  {
    if a == "" {
      assert a + b == b;
    } else {
      assert (a + b)[1..] == a[1..] + b;
      DropOverConcat(a[1..], b);
    }
  }

  /** Text with no carriage return in it is broken up character by character. */
  lemma {:induction false} BreaksOverConcat(a: string, b: string, with: string)
    requires forall i :: 0 <= i < |a| ==> !IsBreak(a[i])
    ensures ReplaceBreaks(a + b, with) == a + ReplaceBreaks(b, with)
  {
    if a == "" {
      assert a + b == b;
    } else {
      assert (a + b)[1..] == a[1..] + b;
      BreaksOverConcat(a[1..], b, with);
    }
  }

  /** The whole escape in one pass. */
  function Escaped(s: string): string {
    if s == "" then ""
    else if s[0] == '\r' && |s| > 1 && s[1] == '\n' then "\\n" + Escaped(s[2..])
    else if IsBreak(s[0]) then "\\n" + Escaped(s[1..])
    else if IsDropped(s[0]) then Escaped(s[1..])
    else Punctuated(s[0]) + Escaped(s[1..])
  }

  lemma DropShort(c: char)
    ensures !IsDropped(c) ==> DropControls(Punctuated(c)) == Punctuated(c)
    ensures IsDropped(c) ==> DropControls(Punctuated(c)) == ""
    ensures DropControls("\\n") == "\\n" && DropControls("\n") == "\n"
    ensures DropControls([c]) == if IsDropped(c) then "" else [c]
  {
    assert forall x: char :: [x][1..] == "";
    assert forall x: char, y: char :: [x, y][1..] == [y];
    assert forall x: char, y: char :: [x] + [y] == [x, y];
    assert DropControls("") == "";
    assert "\\n" == ['\\', 'n'] && "\\n"[1..] == "n";
    assert DropControls("n") == "n";
    assert DropControls(Punctuated(c)[1..]) == if |Punctuated(c)| == 2 then [Punctuated(c)[1]] else "";
  }

  /** CR LF is replaced as one break. */
  lemma BreakPair(s: string)
    requires |s| > 1 && s[0] == '\r' && s[1] == '\n'
    ensures ReplaceBreaks(PunctuatedAll(s), "\\n") == "\\n" + ReplaceBreaks(PunctuatedAll(s[2..]), "\\n")
  {
    hide PunctuatedAll, ReplaceBreaks;
    PunctuatedBreak(s);
    PunctuatedBreak(s[1..]);
    assert s[1..][1..] == s[2..];
    PairReplaced(PunctuatedAll(s[2..]));
  }

  lemma PunctuatedBreak(s: string)
    requires s != "" && IsBreak(s[0])
    ensures PunctuatedAll(s) == [s[0]] + PunctuatedAll(s[1..])
  {
  }

  lemma PairReplaced(rest: string)
    ensures ReplaceBreaks(['\r'] + (['\n'] + rest), "\\n") == "\\n" + ReplaceBreaks(rest, "\\n")
  {
    var s := ['\r'] + (['\n'] + rest);
    assert s[1..] == ['\n'] + rest && s[2..] == rest;
  }

  /** Any other character is escaped on its own. */
  lemma NoBreak(s: string)
    requires s != "" && !IsBreak(s[0])
    ensures ReplaceBreaks(PunctuatedAll(s), "\\n")
            == Punctuated(s[0]) + ReplaceBreaks(PunctuatedAll(s[1..]), "\\n")
  {
    BreaksOverConcat(Punctuated(s[0]), PunctuatedAll(s[1..]), "\\n");
  }

  lemma {:induction false} EscapeIsEscaped(s: string)
    ensures DropControls(ReplaceBreaks(PunctuatedAll(s), "\\n")) == Escaped(s)
  {
    hide PunctuatedAll, ReplaceBreaks, DropControls, Punctuated;
    if s == "" {
      NothingEscaped();
    } else {
      DropShort(s[0]);
      if s[0] == '\r' && |s| > 1 && s[1] == '\n' {
        BreakPair(s);
        DropOverConcat("\\n", ReplaceBreaks(PunctuatedAll(s[2..]), "\\n"));
        EscapeIsEscaped(s[2..]);
      } else if IsBreak(s[0]) {
        BreakAlone(s);
        DropOverConcat("\\n", ReplaceBreaks(PunctuatedAll(s[1..]), "\\n"));
        EscapeIsEscaped(s[1..]);
      } else {
        NoBreak(s);
        DropOverConcat(Punctuated(s[0]), ReplaceBreaks(PunctuatedAll(s[1..]), "\\n"));
        EscapeIsEscaped(s[1..]);
      }
    }
  }

  lemma NothingEscaped()
    ensures DropControls(ReplaceBreaks(PunctuatedAll(""), "\\n")) == ""
  {
  }

  lemma FirstPunctuated(s: string)
    requires s != ""
    ensures PunctuatedAll(s) != "" && (PunctuatedAll(s)[0] == '\n' <==> s[0] == '\n')
  {
  }

  /** A break that is not the start of CR LF is replaced on its own. */
  lemma BreakAlone(s: string)
    requires s != "" && IsBreak(s[0]) && !(s[0] == '\r' && |s| > 1 && s[1] == '\n')
    ensures ReplaceBreaks(PunctuatedAll(s), "\\n") == "\\n" + ReplaceBreaks(PunctuatedAll(s[1..]), "\\n")
  {
    var rest := PunctuatedAll(s[1..]);
    var all := [s[0]] + rest;
    PunctuatedBreak(s);
    assert all[1..] == rest;
    hide PunctuatedAll;
    if |s| > 1 {
      FirstPunctuated(s[1..]);
      assert all[1] == rest[0];
    } else {
      EmptyPunctuated();
    }
  }

  lemma EmptyPunctuated()
    ensures PunctuatedAll("") == ""
  {
  }

  lemma {:induction false} UnescapeEscaped(s: string)
    ensures Unescape(Escaped(s)) == Normalised(s)
  {
    if s != "" {
      DropShort(s[0]);
      if s[0] == '\r' && |s| > 1 && s[1] == '\n' {
        UnescapeEscaped(s[2..]);
        UnescapeUnit("\\n", Escaped(s[2..]), '\n');
        DropOverConcat("\n", ReplaceBreaks(s[2..], "\n"));
      } else if IsBreak(s[0]) {
        UnescapeEscaped(s[1..]);
        UnescapeUnit("\\n", Escaped(s[1..]), '\n');
        DropOverConcat("\n", ReplaceBreaks(s[1..], "\n"));
      } else {
        UnescapeEscaped(s[1..]);
        DropOverConcat([s[0]], ReplaceBreaks(s[1..], "\n"));
        if !IsDropped(s[0]) {
          UnescapeUnit(Punctuated(s[0]), Escaped(s[1..]), s[0]);
        }
      }
    }
  }

  lemma UnescapeUnit(unit: string, rest: string, c: char)
    requires (unit == "\\n" && c == '\n') || unit == Punctuated(c)
    ensures Unescape(unit + rest) == [c] + Unescape(rest)
  {
    if |unit| == 2 {
      assert (unit + rest)[2..] == rest;
    } else {
      assert (unit + rest)[1..] == rest;
    }
  }

  /** Unescaping an escaped value gives the value back, newlines normalised and controls dropped. */
  lemma EscapeReadsBack(value: string)
    ensures Unescape(EscapeText(value)) == Normalised(value)
  {
    PassesCombine(value);
    EscapeIsEscaped(value);
    UnescapeEscaped(value);
  }

  lemma {:induction false} EscapedHasNoBreaks(s: string)
    ensures NoBreaks(Escaped(s))
  {
    if s != "" {
      if s[0] == '\r' && |s| > 1 && s[1] == '\n' {
        EscapedHasNoBreaks(s[2..]);
      } else {
        EscapedHasNoBreaks(s[1..]);
      }
    }
  }

  /** An escaped value fits on one content line. */
  lemma EscapeHasNoBreaks(value: string)
    ensures NoBreaks(EscapeText(value))
  {
    PassesCombine(value);
    EscapeIsEscaped(value);
    EscapedHasNoBreaks(value);
  }

  /** Text without control characters is not changed by normalising, so it reads back as it is. */
  lemma {:induction false} PlainTextStays(s: string)
    requires forall i :: 0 <= i < |s| ==> ' ' <= s[i] && s[i] as int != 0x7F
    ensures Normalised(s) == s
  {
    BreaksOverConcat(s, "", "\n");
    assert s + "" == s;
    NothingDropped(s);
  }

  lemma {:induction false} NothingDropped(s: string)
    requires forall i :: 0 <= i < |s| ==> !IsDropped(s[i])
    ensures DropControls(s) == s
  {
    if s != "" {
      NothingDropped(s[1..]);
    }
  }

  // ---- escapeParam ------------------------------------------------------------------

  function DropQuotesAndControls(s: string): string {
    if s == "" then ""
    else (if s[0] == '\"' || s[0] as int <= 0x1F || s[0] as int == 0x7F then "" else [s[0]])
         + DropQuotesAndControls(s[1..])
  }

  function EscapeParam(value: string): string {
    var clean := Trim(DropQuotesAndControls(value));
    if ':' in clean || ';' in clean || ',' in clean then "\"" + clean + "\"" else clean
  }

  lemma {:induction false} DropsBreaks(s: string)
    ensures NoBreaks(DropQuotesAndControls(s))
  {
    if s != "" {
      DropsBreaks(s[1..]);
    }
  }

  lemma ParamHasNoBreaks(value: string)
    ensures NoBreaks(EscapeParam(value))
  {
    hide Trim;
    var clean := DropQuotesAndControls(value);
    DropsBreaks(value);
    TrimIsTrimmed(clean);
    forall i | 0 <= i < |Trim(clean)| ensures !IsBreak(Trim(clean)[i]) {
      assert Trim(clean)[i] in Trim(clean);
    }
  }

  /** A parameter value as a reader takes it: the text between quotes, or up to the next delimiter. */
  function ParamValue(s: string): string {
    if s != "" && s[0] == '\"' then UpTo(s[1..], "\"") else UpTo(s, ":;,")
  }

  function UpTo(s: string, stops: string): string {
    if s == "" || s[0] in stops then "" else [s[0]] + UpTo(s[1..], stops)
  }

  lemma {:induction false} UpToEnd(s: string, stops: string, rest: string)
    requires forall i :: 0 <= i < |s| ==> s[i] !in stops
    requires rest != "" && rest[0] in stops
    ensures UpTo(s + rest, stops) == s
  {
    if s == "" {
      assert s + rest == rest;
    } else {
      assert (s + rest)[1..] == s[1..] + rest;
      UpToEnd(s[1..], stops, rest);
    }
  }

  lemma {:induction false} NoQuotesLeft(s: string)
    ensures '\"' !in DropQuotesAndControls(s)
  {
    if s != "" {
      NoQuotesLeft(s[1..]);
    }
  }

  /** An escaped parameter followed by a delimiter reads back as its text without quotes, controls and outer space. */
  lemma ParamReadsBack(value: string, rest: string)
    requires rest != "" && (rest[0] == ':' || rest[0] == ';')
    ensures ParamValue(EscapeParam(value) + rest) == Trim(DropQuotesAndControls(value))
  {
    hide Trim, DropQuotesAndControls, UpTo;
    var clean := Trim(DropQuotesAndControls(value));
    NoQuotesLeft(value);
    TrimIsTrimmed(DropQuotesAndControls(value));
    if ':' in clean || ';' in clean || ',' in clean {
      QuotedReadsBack(clean, rest);
    } else {
      UnquotedReadsBack(clean, rest);
    }
  }

  lemma QuotedReadsBack(clean: string, rest: string)
    requires '\"' !in clean
    ensures ParamValue("\"" + clean + "\"" + rest) == clean
  {
    hide UpTo;
    var all, after := "\"" + clean + "\"" + rest, "\"" + rest;
    assert all[1..] == clean + after;
    UpToEnd(clean, "\"", after);
  }

  lemma UnquotedReadsBack(clean: string, rest: string)
    requires '\"' !in clean && ':' !in clean && ';' !in clean && ',' !in clean
    requires rest != "" && (rest[0] == ':' || rest[0] == ';')
    ensures ParamValue(clean + rest) == clean
  {
    hide UpTo;
    assert (clean + rest)[0] != '\"';
    UpToEnd(clean, ":;,", rest);
  }

  /** Which is the text itself when it has none of these. */
  lemma {:induction false} PlainParamStays(value: string)
    requires forall i :: 0 <= i < |value| ==> ' ' <= value[i] && value[i] as int != 0x7F && value[i] != '\"'
    ensures DropQuotesAndControls(value) == value
  {
    if value != "" {
      PlainParamStays(value[1..]);
    }
  }

  // ---- foldLine -----------------------------------------------------------------------

  /** Octets of one code point in UTF-8. */
  function Utf8Length(c: char): (n: nat)
    ensures 1 <= n <= 4
  {
    var cp := c as int;
    if cp < 0x80 then 1 else if cp < 0x800 then 2 else if cp < 0x10000 then 3 else 4
  }

  function Octets(s: string): nat {
    if s == "" then 0 else Octets(s[..|s| - 1]) + Utf8Length(s[|s| - 1])
  }

  function Concat(parts: seq<string>): string {
    if parts == [] then "" else Concat(parts[..|parts| - 1]) + parts[|parts| - 1]
  }

  /** Continuation lines spend one octet on the space that begins them. */
  ghost predicate FitsPhysicalLine(piece: string, i: nat) {
    Octets(piece) + (if i == 0 then 0 else 1) <= 75
  }

  ghost predicate IsFold(pieces: seq<string>, line: string) {
    && pieces != [] && Concat(pieces) == line
    && forall i :: 0 <= i < |pieces| ==> FitsPhysicalLine(pieces[i], i)
  }

  ghost predicate IsFolded(folded: string, line: string) {
    exists pieces :: IsFold(pieces, line) && folded == JoinWith(pieces, "\r\n ")
  }

  lemma OctetsOfSnoc(s: string, c: char)
    ensures Octets(s + [c]) == Octets(s) + Utf8Length(c)
  {
    assert (s + [c])[..|s|] == s;
  }

  lemma ConcatOfSnoc(parts: seq<string>, s: string)
    ensures Concat(parts + [s]) == Concat(parts) + s
  {
    assert (parts + [s])[..|parts|] == parts;
  }

  /** `foldLine`: whole code points, physical lines of at most 75 octets, nothing lost. */
  method FoldLine(line: string) returns (folded: string)
    ensures IsFolded(folded, line)
  {
    hide JoinWith, Concat, Octets;
    var out: seq<string> := [];
    var current := "";
    var octets := 0;
    EmptyFold();
    for i := 0 to |line|
      invariant Concat(out) + current == line[..i]
      invariant octets == Octets(current) + (if |out| == 0 then 0 else 1) && octets <= MAX_OCTETS
      invariant forall k :: 0 <= k < |out| ==> FitsPhysicalLine(out[k], k)
    {
      var width := Utf8Length(line[i]);
      if octets + width > MAX_OCTETS {
        ConcatOfSnoc(out, current);
        out := out + [current];
        current := "";
        octets := 1;
      }
      OctetsOfSnoc(current, line[i]);
      assert Concat(out) + (current + [line[i]]) == (Concat(out) + current) + [line[i]] == line[..i + 1];
      current := current + [line[i]];
      octets := octets + width;
    }
    assert line[..|line|] == line;
    ConcatOfSnoc(out, current);
    out := out + [current];
    assert IsFold(out, line);
    folded := JoinWith(out, "\r\n ");
  }

  lemma EmptyFold()
    ensures Concat([]) == "" && Octets("") == 0
  {
  }

  // ---- Reading folded text back ----------------------------------------------------------

  /** A line break followed by a space or a tab is not there (section 3.1). */
  predicate FoldsAt(s: string) {
    |s| >= 3 && s[0] == '\r' && s[1] == '\n' && (s[2] == ' ' || s[2] == '\t')
  }

  function Unfold(s: string): string {
    if s == "" then "" else if FoldsAt(s) then Unfold(s[3..]) else [s[0]] + Unfold(s[1..])
  }

  lemma {:induction false} UnfoldPlain(s: string, rest: string)
    requires NoBreaks(s)
    ensures Unfold(s + rest) == s + Unfold(rest)
  {
    if s == "" {
      assert s + rest == rest;
    } else {
      assert (s + rest)[1..] == s[1..] + rest && (s + rest)[0] == s[0];
      UnfoldPlain(s[1..], rest);
    }
  }

  lemma UnfoldSeparator(rest: string)
    ensures Unfold("\r\n " + rest) == Unfold(rest)
  {
    assert ("\r\n " + rest)[3..] == rest;
  }

  lemma LastPiece(pieces: seq<string>, rest: string)
    requires |pieces| > 1
    ensures var n := |pieces| - 1;
      && JoinWith(pieces, "\r\n ") + rest == JoinWith(pieces[..n], "\r\n ") + ("\r\n " + (pieces[n] + rest))
      && Concat(pieces) == Concat(pieces[..n]) + pieces[n]
  {
    var n := |pieces| - 1;
    Regroup(JoinWith(pieces[..n], "\r\n "), "\r\n ", pieces[n], rest);
  }

  lemma Regroup(a: string, b: string, c: string, d: string)
    ensures a + b + c + d == a + (b + (c + d))
  {
  }

  /** Pieces joined by fold marks unfold to their concatenation. */
  lemma {:induction false} UnfoldJoined(pieces: seq<string>, rest: string)
    requires forall i :: 0 <= i < |pieces| ==> NoBreaks(pieces[i])
    requires pieces != []
    ensures Unfold(JoinWith(pieces, "\r\n ") + rest) == Concat(pieces) + Unfold(rest)
  {
    var n := |pieces| - 1;
    var last := pieces[n];
    UnfoldPlain(last, rest);
    if n == 0 {
      ConcatOfOne(pieces);
    } else {
      hide Unfold, NoBreaks, JoinWith, Concat;
      LastPiece(pieces, rest);
      UnfoldJoined(pieces[..n], "\r\n " + (last + rest));
      UnfoldSeparator(last + rest);
      assert Concat(pieces[..n]) + (last + Unfold(rest)) == (Concat(pieces[..n]) + last) + Unfold(rest);
    }
  }

  lemma {:induction false} PiecesHaveNoBreaks(pieces: seq<string>)
    requires NoBreaks(Concat(pieces))
    ensures forall i :: 0 <= i < |pieces| ==> NoBreaks(pieces[i])
  {
    if pieces != [] {
      var n := |pieces| - 1;
      var before, last := Concat(pieces[..n]), pieces[n];
      forall i | 0 <= i < |last| ensures !IsBreak(last[i]) {
        assert Concat(pieces)[|before| + i] == last[i];
      }
      forall i | 0 <= i < |before| ensures !IsBreak(before[i]) {
        assert Concat(pieces)[i] == before[i];
      }
      PiecesHaveNoBreaks(pieces[..n]);
    }
  }

  /** A folded line unfolds to itself, whatever follows it. */
  lemma FoldReadsBack(folded: string, line: string, rest: string)
    requires IsFolded(folded, line) && NoBreaks(line)
    ensures Unfold(folded + rest) == line + Unfold(rest)
  {
    var pieces :| IsFold(pieces, line) && folded == JoinWith(pieces, "\r\n ");
    PiecesHaveNoBreaks(pieces);
    UnfoldJoined(pieces, rest);
  }

  // ---- The document ------------------------------------------------------------------------

  /** Every line ended by CR LF. */
  function Terminated(lines: seq<string>): string {
    if lines == [] then "" else Terminated(lines[..|lines| - 1]) + lines[|lines| - 1] + CRLF
  }

  /** The content lines of unfolded text: what precedes each CR LF. */
  function ContentLines(s: string, line: string): seq<string> {
    if s == "" then []
    else if |s| > 1 && s[0] == '\r' && s[1] == '\n' then [line] + ContentLines(s[2..], "")
    else ContentLines(s[1..], line + [s[0]])
  }

  /** A content line: not empty, no line break, not starting like a continuation. */
  predicate StartsContent(line: string) {
    line != "" && line[0] != ' ' && line[0] != '\t'
  }

  ghost predicate IsContentLine(line: string) {
    NoBreaks(line) && StartsContent(line)
  }

  ghost predicate AllFolded(parts: seq<string>, lines: seq<string>) {
    |parts| == |lines| && forall i :: 0 <= i < |parts| ==> IsFolded(parts[i], lines[i])
  }

  /** Each line folded, joined by CR LF and ended by one more. */
  ghost predicate IsDocument(document: string, lines: seq<string>) {
    exists parts :: AllFolded(parts, lines) && document == JoinWith(parts, CRLF) + CRLF
  }

  /** `lines.map(foldLine).join('\r\n') + '\r\n'` */
  method FoldAll(lines: seq<string>) returns (document: string)
    ensures IsDocument(document, lines)
  {
    hide IsFolded, JoinWith;
    var folded: seq<string> := [];
    for i := 0 to |lines|
      invariant |folded| == i && forall k :: 0 <= k < i ==> IsFolded(folded[k], lines[k])
    {
      var one := FoldLine(lines[i]);
      folded := folded + [one];
    }
    assert AllFolded(folded, lines);
    document := JoinWith(folded, "\r\n") + "\r\n";
  }

  lemma {:induction false} JoinIsTerminated(lines: seq<string>)
    requires lines != []
    ensures JoinWith(lines, CRLF) + CRLF == Terminated(lines)
  {
    var n := |lines| - 1;
    if n == 0 {
      assert lines[..0] == [];
      assert "" + lines[0] == lines[0];
    } else {
      JoinIsTerminated(lines[..n]);
    }
  }

  /** Unfolding folded lines gives the content lines, each ended by CR LF. */
  lemma {:induction false} UnfoldTerminated(lines: seq<string>, parts: seq<string>, rest: string)
    requires AllFolded(parts, lines) && forall i :: 0 <= i < |lines| ==> IsContentLine(lines[i])
    requires !FoldsAt(CRLF + rest)
    ensures Unfold(Terminated(parts) + rest) == Terminated(lines) + Unfold(rest)
  {
    hide IsFolded, FoldsAt, JoinWith;
    if lines == [] {
      assert Terminated(parts) + rest == rest;
    } else {
      var n := |lines| - 1;
      var tail := CRLF + rest;
      assert Terminated(parts) + rest == Terminated(parts[..n]) + (parts[n] + tail);
      FoldReadsBack(parts[n], lines[n], tail);
      UnfoldKeepsBreak(rest);
      ContentStartStaysPut(parts[n], lines[n], tail);
      UnfoldTerminated(lines[..n], parts[..n], parts[n] + tail);
    }
  }

  lemma UnfoldKeepsBreak(rest: string)
    requires !FoldsAt(CRLF + rest)
    ensures Unfold(CRLF + rest) == CRLF + Unfold(rest)
  {
    var s := CRLF + rest;
    assert s[1..] == "\n" + rest && s[1..][1..] == rest;
    assert !FoldsAt(s[1..]);
    assert Unfold(s) == ['\r'] + Unfold(s[1..]);
    assert Unfold(s[1..]) == ['\n'] + Unfold(rest);
    assert ['\r'] + (['\n'] + Unfold(rest)) == CRLF + Unfold(rest);
  }

  /** A folded content line never looks like a continuation of the line before. */
  lemma ContentStartStaysPut(folded: string, line: string, tail: string)
    requires IsFolded(folded, line) && IsContentLine(line)
    ensures !FoldsAt(CRLF + (folded + tail))
  {
    var pieces :| IsFold(pieces, line) && folded == JoinWith(pieces, "\r\n ");
    FirstPieceStarts(pieces);
    FirstCharacter(pieces, line);
  }

  lemma {:induction false} FirstPieceStarts(pieces: seq<string>)
    requires pieces != []
    ensures pieces[0] <= JoinWith(pieces, "\r\n ") && pieces[0] <= Concat(pieces)
  {
    var n := |pieces| - 1;
    if n > 0 {
      FirstPieceStarts(pieces[..n]);
    } else {
      assert Concat(pieces[..0]) == "";
    }
  }

  /** What follows a line break is the first character of the line, or a fold mark. */
  lemma FirstCharacter(pieces: seq<string>, line: string)
    requires IsFold(pieces, line) && IsContentLine(line)
    ensures var folded := JoinWith(pieces, "\r\n ");
      folded != "" && folded[0] != ' ' && folded[0] != '\t'
  {
    FirstPieceStarts(pieces);
    if pieces[0] == "" {
      EmptyFirstPiece(pieces);
    }
  }

  lemma ConcatOfOne(pieces: seq<string>)
    requires |pieces| == 1
    ensures Concat(pieces) == pieces[0]
  {
    assert pieces[..0] == [] && "" + pieces[0] == pieces[0];
  }

  lemma EmptyFirstPiece(pieces: seq<string>)
    requires pieces != [] && pieces[0] == "" && Concat(pieces) != ""
    ensures JoinWith(pieces, "\r\n ") != "" && JoinWith(pieces, "\r\n ")[0] == '\r'
  {
    if |pieces| == 1 {
      ConcatOfOne(pieces);
    }
    SecondStarts(pieces);
  }

  lemma {:induction false} SecondStarts(pieces: seq<string>)
    requires |pieces| > 1 && pieces[0] == ""
    ensures JoinWith(pieces, "\r\n ") != "" && JoinWith(pieces, "\r\n ")[0] == '\r'
  {
    var n := |pieces| - 1;
    if n == 1 {
      assert JoinWith(pieces[..1], "\r\n ") == "";
    } else {
      SecondStarts(pieces[..n]);
    }
  }

  lemma {:induction false} ContentLinesOf(line: string, sofar: string, rest: string)
    requires NoBreaks(line)
    ensures ContentLines(line + CRLF + rest, sofar) == [sofar + line] + ContentLines(rest, "")
  {
    var s := line + CRLF + rest;
    if line == "" {
      assert s[2..] == rest && sofar + line == sofar;
    } else {
      assert s[1..] == line[1..] + CRLF + rest && s[0] == line[0];
      ContentLinesOf(line[1..], sofar + [line[0]], rest);
      assert sofar + [line[0]] + line[1..] == sofar + line;
    }
  }

  lemma {:induction false} ContentLinesOfTerminated(lines: seq<string>, rest: string)
    requires forall i :: 0 <= i < |lines| ==> NoBreaks(lines[i])
    ensures ContentLines(Terminated(lines) + rest, "") == lines + ContentLines(rest, "")
  {
    hide ContentLines, NoBreaks;
    if lines == [] {
      assert Terminated(lines) + rest == rest;
    } else {
      var n := |lines| - 1;
      ContentLinesOfTerminated(lines[..n], lines[n] + CRLF + rest);
      ContentLinesOf(lines[n], "", rest);
      assert Terminated(lines) + rest == Terminated(lines[..n]) + (lines[n] + CRLF + rest);
      assert "" + lines[n] == lines[n];
    }
  }

  /** A document unfolds and splits back into exactly the content lines it was built from. */
  lemma DocumentReadsBack(lines: seq<string>, document: string)
    requires lines != [] && IsDocument(document, lines) && forall i :: 0 <= i < |lines| ==> IsContentLine(lines[i])
    ensures ContentLines(Unfold(document), "") == lines
  {
    hide IsFolded, IsContentLine;
    var parts :| AllFolded(parts, lines) && document == JoinWith(parts, CRLF) + CRLF;
    JoinIsTerminated(parts);
    UnfoldTerminated(lines, parts, "");
    ContentsHaveNoBreaks(lines);
    ContentLinesOfTerminated(lines, "");
    assert document + "" == document && Terminated(lines) + "" == Terminated(lines);
    assert lines + [] == lines;
  }

  lemma ContentsHaveNoBreaks(lines: seq<string>)
    requires forall i :: 0 <= i < |lines| ==> IsContentLine(lines[i])
    ensures forall i :: 0 <= i < |lines| ==> NoBreaks(lines[i])
  {
  }
}
