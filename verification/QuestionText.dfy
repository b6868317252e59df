/**
 * The dashboard's text format for booking questions (src/http/pages/dashboard.ts):
 * one question per line, with an id derived from its label (here `caption`).
 */
module QuestionText {
  import opened Common
  import opened Text

  /** Only a question of kind "select" carries options. */
  datatype Question = Question(id: string, caption: string, kind: string, required: bool, options: Option<seq<string>>)

  const MAX_LABEL := 200
  const MAX_SLUG := 60

  predicate IsKind(kind: string) {
    kind == "text" || kind == "textarea" || kind == "select"
  }

  // ---- Slugs -------------------------------------------------------------------------

  /** The two letters outside ASCII whose lower case reaches into ASCII are spelled out. */
  function LowerChar(c: char): string {
    if 'A' <= c <= 'Z' then [(c as int + 32) as char]
    else if c == '\U{212A}' then "k"
    else if c == '\U{0130}' then ['i', '\U{0307}']
    else [c]
  }

  function Lower(s: string): string {
    if s == "" then "" else Lower(s[..|s| - 1]) + LowerChar(s[|s| - 1])
  }

  predicate IsSlugChar(c: char) {
    'a' <= c <= 'z' || '0' <= c <= '9'
  }

  /** Each run of other characters becomes one dash. */
  function Dashed(s: string): string {
    if s == "" then ""
    else
      var before := Dashed(s[..|s| - 1]);
      var c := s[|s| - 1];
      if IsSlugChar(c) then before + [c]
      else if before != "" && before[|before| - 1] == '-' then before
      else before + "-"
  }

  function DropDashesBefore(s: string): string {
    if s != "" && s[0] == '-' then DropDashesBefore(s[1..]) else s
  }

  function DropDashesAfter(s: string): string {
    if s != "" && s[|s| - 1] == '-' then DropDashesAfter(s[..|s| - 1]) else s
  }

  function Slugify(value: string): string {
    var slug := DropDashesAfter(DropDashesBefore(Dashed(Lower(value))));
    slug[..Min(MAX_SLUG, |slug|)]
  }

  ghost predicate IsSlug(s: string) {
    forall c :: c in s ==> IsSlugChar(c) || c == '-'
  }

  lemma {:induction false} DashedIsSlug(s: string)
    ensures IsSlug(Dashed(s))
  {
    if s != "" {
      DashedIsSlug(s[..|s| - 1]);
    }
  }

  lemma {:induction false} DropBeforeKeeps(s: string)
    ensures forall c :: c in DropDashesBefore(s) ==> c in s
    ensures DropDashesBefore(s) == "" || DropDashesBefore(s)[0] != '-'
  {
    if s != "" && s[0] == '-' {
      DropBeforeKeeps(s[1..]);
    }
  }

  lemma {:induction false} DropAfterKeeps(s: string)
    ensures DropDashesAfter(s) <= s
  {
    if s != "" && s[|s| - 1] == '-' {
      DropAfterKeeps(s[..|s| - 1]);
    }
  }

  /** A slug is short, drawn from a-z, 0-9 and the dash, and does not begin with a dash. */
  lemma SlugifyIsSlug(value: string)
    ensures IsSlug(Slugify(value)) && |Slugify(value)| <= 60
    ensures Slugify(value) != "" ==> IsSlugChar(Slugify(value)[0])
  {
    hide Lower, Dashed, IsSlugChar;
    var dashed := Dashed(Lower(value));
    DashedIsSlug(Lower(value));
    DropBeforeKeeps(dashed);
    DropAfterKeeps(DropDashesBefore(dashed));
    var slug := Slugify(value);
    assert slug <= DropDashesBefore(dashed);
    if slug != "" {
      assert slug[0] == DropDashesBefore(dashed)[0] && slug[0] in dashed;
    }
  }

  /** The letters a-z and digits of a text, in order. */
  function Letters(s: string): string {
    if s == "" then "" else Letters(s[..|s| - 1]) + if IsSlugChar(s[|s| - 1]) then [s[|s| - 1]] else ""
  }

  lemma LettersSnoc(s: string, c: char)
    ensures Letters(s + [c]) == Letters(s) + if IsSlugChar(c) then [c] else ""
  {
    assert (s + [c])[..|s|] == s;
  }

  lemma NoLetters()
    ensures Letters("") == ""
  {
  }

  lemma {:induction false} LettersOverConcat(a: string, b: string)
    ensures Letters(a + b) == Letters(a) + Letters(b)
  {
    hide Letters, IsSlugChar;
    if b == "" {
      assert a + b == a;
      NoLetters();
    } else {
      var n := |b| - 1;
      var last := if IsSlugChar(b[n]) then [b[n]] else "";
      LettersOverConcat(a, b[..n]);
      LettersSnoc(a + b[..n], b[n]);
      LettersSnoc(b[..n], b[n]);
      assert a + b == (a + b[..n]) + [b[n]];
      assert b == b[..n] + [b[n]];
      assert Letters(a) + (Letters(b[..n]) + last) == (Letters(a) + Letters(b[..n])) + last;
    }
  }

  /** Dashes come and go, letters stay. */
  lemma {:induction false} DashedKeepsLetters(s: string)
    ensures Letters(Dashed(s)) == Letters(s)
  {
    if s != "" {
      var before, c := Dashed(s[..|s| - 1]), s[|s| - 1];
      DashedKeepsLetters(s[..|s| - 1]);
      LettersSnoc(before, if IsSlugChar(c) then c else '-');
      assert before + "-" == before + ['-'];
    }
  }

  lemma {:induction false} DropBeforeKeepsLetters(s: string)
    ensures Letters(DropDashesBefore(s)) == Letters(s)
  {
    if s != "" && s[0] == '-' {
      DropBeforeKeepsLetters(s[1..]);
      assert s == ['-'] + s[1..];
      LettersOverConcat(['-'], s[1..]);
      assert ['-'] == "" + ['-'];
      LettersSnoc("", '-');
    }
  }

  lemma {:induction false} DropAfterKeepsLetters(s: string)
    ensures Letters(DropDashesAfter(s)) == Letters(s)
  {
    if s != "" && s[|s| - 1] == '-' {
      DropAfterKeepsLetters(s[..|s| - 1]);
      LettersSnoc(s[..|s| - 1], '-');
      assert s == s[..|s| - 1] + ['-'];
    }
  }

  /** No two dashes in a row and none at the ends: what separates letters is one dash. */
  ghost predicate NoDoubleDash(s: string) {
    forall i :: 0 <= i < |s| - 1 ==> !(s[i] == '-' && s[i + 1] == '-')
  }

  lemma {:induction false} DashedHasNoDouble(s: string)
    ensures NoDoubleDash(Dashed(s))
  {
    if s != "" {
      DashedHasNoDouble(s[..|s| - 1]);
    }
  }

  lemma {:induction false} DropBeforeIsSuffix(s: string)
    ensures NoDoubleDash(s) ==> NoDoubleDash(DropDashesBefore(s))
  {
    if s != "" && s[0] == '-' {
      DropBeforeIsSuffix(s[1..]);
    }
  }

  /**
   * A slug is the letters and digits of the lower-cased text, as many as fit in 60
   * characters, nothing between them but single dashes.
   */
  lemma SlugKeepsLetters(value: string)
    ensures Letters(Slugify(value)) <= Letters(Lower(value)) && NoDoubleDash(Slugify(value))
    ensures |Slugify(value)| < 60 ==> Letters(Slugify(value)) == Letters(Lower(value))
  {
    hide Lower, Dashed, DropDashesBefore, DropDashesAfter, Letters;
    var dashed := Dashed(Lower(value));
    var start := DropDashesBefore(dashed);
    var whole := DropDashesAfter(start);
    DashedKeepsLetters(Lower(value));
    DropBeforeKeepsLetters(dashed);
    DropAfterKeepsLetters(start);
    DashedHasNoDouble(Lower(value));
    DropBeforeIsSuffix(dashed);
    DropAfterKeeps(start);
    var n := Min(MAX_SLUG, |whole|);
    LettersOverConcat(whole[..n], whole[n..]);
    assert whole == whole[..n] + whole[n..];
    if |Slugify(value)| < 60 {
      assert whole[..n] == whole;
    }
  }

  /** The same letter up to its case. */
  predicate SameLetter(a: char, b: char) {
    a == b || ('A' <= a <= 'Z' && b as int == a as int + 32) || ('A' <= b <= 'Z' && a as int == b as int + 32)
  }

  /** Upper and lower case of a-z make no difference. */
  lemma {:induction false} CaseMakesNoDifference(a: string, b: string)
    requires |a| == |b| && forall i :: 0 <= i < |a| ==> SameLetter(a[i], b[i])
    ensures Lower(a) == Lower(b)
  {
    hide LowerChar, SameLetter;
    if a != "" {
      var n := |a| - 1;
      CaseMakesNoDifference(a[..n], b[..n]);
      LowerOfSame(a[n], b[n]);
    }
  }

  lemma LowerOfSame(a: char, b: char)
    requires SameLetter(a, b)
    ensures LowerChar(a) == LowerChar(b)
  {
  }

  /** So captions that differ in case alone have one slug. */
  lemma SlugIgnoresCase(a: string, b: string)
    requires |a| == |b| && forall i :: 0 <= i < |a| ==> SameLetter(a[i], b[i])
    ensures Slugify(a) == Slugify(b)
  {
    hide Lower, Dashed, DropDashesBefore, DropDashesAfter, SameLetter;
    CaseMakesNoDifference(a, b);
  }

  // ---- Ids ----------------------------------------------------------------------------

  function Suffixed(base: string, n: nat): string {
    base + "-" + Decimal(n)
  }

  lemma {:induction false} DecimalIsInjective(a: nat, b: nat)
    requires Decimal(a) == Decimal(b)
    ensures a == b
  {
    DecimalLength(a);
    DecimalLength(b);
    var last := |Decimal(a)| - 1;
    assert Decimal(a)[last] as int - '0' as int == a % 10;
    assert Decimal(b)[last] as int - '0' as int == b % 10;
    if a >= 10 {
      assert Decimal(a)[..last] == Decimal(a / 10) && Decimal(b)[..last] == Decimal(b / 10);
      DecimalIsInjective(a / 10, b / 10);
    }
  }

  lemma DecimalLength(n: nat)
    ensures |Decimal(n)| >= 1 && (n < 10 <==> |Decimal(n)| == 1)
  {
  }

  lemma SuffixesDiffer(base: string, a: nat, b: nat)
    requires a != b
    ensures Suffixed(base, a) != Suffixed(base, b)
  {
    hide Decimal;
    if Suffixed(base, a) == Suffixed(base, b) {
      assert Suffixed(base, a)[|base| + 1..] == Decimal(a) && Suffixed(base, b)[|base| + 1..] == Decimal(b);
      DecimalIsInjective(a, b);
    }
  }

  /** The suffixed ids already tried before `n`. */
  ghost function TriedBelow(base: string, n: nat): set<string> {
    if n <= 2 then {} else TriedBelow(base, n - 1) + {Suffixed(base, n - 1)}
  }

  lemma {:induction false} NotTriedYet(base: string, n: nat, k: nat)
    requires n <= k
    ensures Suffixed(base, k) !in TriedBelow(base, n)
  {
    if n > 2 {
      NotTriedYet(base, n - 1, k);
      SuffixesDiffer(base, n - 1, k);
    }
  }

  /** What is left of `seen` to run into: it shrinks with every id found taken. */
  lemma OneFewerToTry(base: string, n: nat, seen: set<string>)
    requires n >= 2 && Suffixed(base, n) in seen
    ensures seen - TriedBelow(base, n + 1) < seen - TriedBelow(base, n)
  {
    hide Suffixed;
    NotTriedYet(base, n, n);
    assert Suffixed(base, n) in seen - TriedBelow(base, n);
    assert Suffixed(base, n) !in seen - TriedBelow(base, n + 1);
  }

  /** The first free suffix from `n` up. */
  function FirstFree(base: string, n: nat, seen: set<string>): (id: string)
    requires n >= 2
    ensures id !in seen
    ensures exists k :: n <= k && id == Suffixed(base, k) && forall j :: n <= j < k ==> Suffixed(base, j) in seen
    decreases seen - TriedBelow(base, n)
  {
    if Suffixed(base, n) !in seen then Suffixed(base, n)
    else
      OneFewerToTry(base, n, seen);
      FirstFree(base, n + 1, seen)
  }

  function FreeId(base: string, seen: set<string>): (id: string)
    ensures id !in seen && base <= id
  {
    if base !in seen then base else FirstFree(base, 2, seen)
  }

  // ---- Parsing --------------------------------------------------------------------------

  /** `string.length` counts UTF-16 code units. */
  function Utf16Length(s: string): nat {
    if s == "" then 0 else Utf16Length(s[..|s| - 1]) + if s[|s| - 1] as int >= 0x10000 then 2 else 1
  }

  function TrimAll(parts: seq<string>): seq<string> {
    seq(|parts|, i requires 0 <= i < |parts| => Trim(parts[i]))
  }

  function NonEmpty(parts: seq<string>): seq<string> {
    if parts == [] then []
    else NonEmpty(parts[..|parts| - 1]) + if parts[|parts| - 1] == "" then [] else [parts[|parts| - 1]]
  }

  function PartOr(parts: seq<string>, k: nat, fallback: string): string {
    if k < |parts| then parts[k] else fallback
  }

  function OptionsFrom(text: string): seq<string> {
    NonEmpty(TrimAll(Split(text, ',')))
  }

  /** One non-empty line, without its id. */
  function ParseLine(line: string): Option<Question> {
    var parts := TrimAll(Split(line, '|'));
    var caption := PartOr(parts, 0, "");
    var kind := PartOr(parts, 1, "text");
    var word := Lower(PartOr(parts, 2, "optional"));
    var options := OptionsFrom(PartOr(parts, 3, ""));
    if caption == "" || Utf16Length(caption) > MAX_LABEL || !IsKind(kind) then None
    else if word != "required" && word != "optional" then None
    else if kind == "select" && options == [] then None
    else if Slugify(caption) == "" then None
    else Some(Question("", caption, kind, word == "required", if kind == "select" then Some(options) else None))
  }

  ghost function IdsOf(qs: seq<Question>): set<string> {
    set i | 0 <= i < |qs| :: qs[i].id
  }

  lemma IdsOfOneMore(qs: seq<Question>, q: Question)
    ensures IdsOf(qs + [q]) == IdsOf(qs) + {q.id}
  {
    var all := qs + [q];
    assert all[|qs|] == q && forall i :: 0 <= i < |qs| ==> all[i] == qs[i];
    forall id | id in IdsOf(qs) + {q.id} ensures id in IdsOf(all) {
      if id == q.id {
        assert all[|qs|].id == id;
      } else {
        var i :| 0 <= i < |qs| && qs[i].id == id;
        assert all[i].id == id;
      }
    }
  }

  ghost function WithId(q: Question, seen: set<string>): Question {
    q.(id := FreeId(Slugify(q.caption), seen))
  }

  ghost function QuestionsFrom(lines: seq<string>): Option<seq<Question>> {
    if lines == [] then Some([])
    else
      var n := |lines| - 1;
      var line := Trim(lines[n]);
      match QuestionsFrom(lines[..n])
      case None => None
      case Some(before) =>
        if line == "" then Some(before)
        else
          match ParseLine(line)
          case Some(q) => Some(before + [WithId(q, IdsOf(before))])
          case None => None
  }

  /** Ids already given out, and the first suffix that is free. */
  method UniqueId(caption: string, seen: set<string>) returns (id: string)
    ensures id == FreeId(Slugify(caption), seen)
  {
    hide Slugify, Suffixed;
    id := Slugify(caption);
    var n := 2;
    while id in seen
      invariant n >= 2
      invariant if n == 2 then id == Slugify(caption) else id == Suffixed(Slugify(caption), n - 1)
      invariant FreeId(Slugify(caption), seen) == if id in seen then FirstFree(Slugify(caption), n, seen) else id
      decreases n == 2, seen - TriedBelow(Slugify(caption), n - 1)
    {
      if n > 2 {
        OneFewerToTry(Slugify(caption), n - 1, seen);
      }
      id := Suffixed(Slugify(caption), n);
      n := n + 1;
    }
  }

  method ParseQuestions(text: string) returns (r: Option<seq<Question>>)
    ensures r == QuestionsFrom(Split(text, '\n'))
  {
    hide Trim, Slugify, Lower, Utf16Length, IsKind, OptionsFrom, TrimAll, Split, FreeId;
    var lines := Split(text, '\n');
    var out: seq<Question> := [];
    var seen: set<string> := {};
    for i := 0 to |lines|
      invariant QuestionsFrom(lines[..i]) == Some(out) && seen == IdsOf(out)
    {
      assert lines[..i + 1][..i] == lines[..i];
      var line := Trim(lines[i]);
      if line == "" {
        continue;
      }
      var parsed := ParseLine(line);
      if parsed.None? {
        QuestionsStayNone(lines, i + 1);
        return None;
      }
      var id := UniqueId(parsed.value.caption, seen);
      IdsOfOneMore(out, parsed.value.(id := id));
      seen := seen + {id};
      out := out + [parsed.value.(id := id)];
    }
    assert lines[..|lines|] == lines;
    return Some(out);
  }

  lemma {:induction false} QuestionsStayNone(lines: seq<string>, k: nat)
    requires k <= |lines| && QuestionsFrom(lines[..k]).None?
    ensures QuestionsFrom(lines).None?
    decreases |lines|
  {
    hide ParseLine, Trim;
    if k < |lines| {
      assert lines[..|lines| - 1][..k] == lines[..k];
      QuestionsStayNone(lines[..|lines| - 1], k);
    } else {
      assert lines[..k] == lines;
    }
  }

  // ---- What parsing yields -----------------------------------------------------------------

  ghost predicate OneLine(s: string) {
    s != "" && IsTrimmed(s) && '\n' !in s
  }

  ghost predicate Plain(s: string) {
    OneLine(s) && '|' !in s
  }

  /** The options of a select question can be listed with commas. */
  ghost predicate PlainOptions(options: seq<string>) {
    options != [] && forall i :: 0 <= i < |options| ==> Plain(options[i]) && ',' !in options[i]
  }

  ghost predicate WellFormed(q: Question) {
    && Plain(q.caption) && Utf16Length(q.caption) <= 200 && Slugify(q.caption) != ""
    && IsKind(q.kind)
    && if q.kind == "select" then q.options.Some? && PlainOptions(q.options.value) else q.options.None?
  }

  /** Every question is well formed and has the id its caption gets after those before it. */
  ghost predicate Canonical(qs: seq<Question>) {
    qs == [] ||
    var n := |qs| - 1;
    && Canonical(qs[..n]) && WellFormed(qs[n])
    && qs[n].id == FreeId(Slugify(qs[n].caption), IdsOf(qs[..n]))
  }

  /** Ids are pairwise distinct, non-empty, and fit for a form field. */
  lemma {:induction false} IdsAreDistinct(qs: seq<Question>)
    requires Canonical(qs)
    ensures forall i, j :: 0 <= i < j < |qs| ==> qs[i].id != qs[j].id
    ensures forall i :: 0 <= i < |qs| ==> Slugify(qs[i].caption) <= qs[i].id && qs[i].id != ""
  {
    hide Slugify, WellFormed, FreeId;
    if qs != [] {
      var n := |qs| - 1;
      IdsAreDistinct(qs[..n]);
      NewIdIsFresh(qs[n], qs[..n]);
      forall i | 0 <= i < n ensures qs[i].id != qs[n].id && qs[i] == qs[..n][i] {
        assert qs[..n][i].id in IdsOf(qs[..n]);
      }
    }
  }

  lemma NewIdIsFresh(q: Question, before: seq<Question>)
    requires WellFormed(q) && q.id == FreeId(Slugify(q.caption), IdsOf(before))
    ensures q.id !in IdsOf(before) && Slugify(q.caption) <= q.id && q.id != ""
  {
    hide Slugify, IdsOf;
  }

  /** Ids depend on nothing but the captions and their order: what follows or changes otherwise keeps them. */
  lemma {:induction false} IdsFollowCaptions(a: seq<Question>, b: seq<Question>)
    requires Canonical(a) && Canonical(b) && |a| <= |b|
    requires forall i :: 0 <= i < |a| ==> a[i].caption == b[i].caption
    ensures forall i :: 0 <= i < |a| ==> a[i].id == b[i].id
    decreases |b|
  {
    hide WellFormed, FreeId, Slugify;
    if |a| < |b| {
      IdsFollowCaptions(a, b[..|b| - 1]);
    } else if a != [] {
      var n := |a| - 1;
      IdsFollowCaptions(a[..n], b[..n]);
      SameIds(a[..n], b[..n]);
    }
  }

  lemma SameIds(a: seq<Question>, b: seq<Question>)
    requires |a| == |b| && forall i :: 0 <= i < |a| ==> a[i].id == b[i].id
    ensures IdsOf(a) == IdsOf(b)
  {
    forall id | id in IdsOf(a) ensures id in IdsOf(b) {
      var i :| 0 <= i < |a| && a[i].id == id;
      assert b[i].id == id;
    }
    forall id | id in IdsOf(b) ensures id in IdsOf(a) {
      var i :| 0 <= i < |b| && b[i].id == id;
      assert a[i].id == id;
    }
  }

  lemma {:induction false} NonEmptyKeeps(parts: seq<string>)
    ensures forall k :: 0 <= k < |NonEmpty(parts)| ==> NonEmpty(parts)[k] in parts && NonEmpty(parts)[k] != ""
    ensures (forall k :: 0 <= k < |parts| ==> parts[k] != "") ==> NonEmpty(parts) == parts
  {
    if parts != [] {
      NonEmptyKeeps(parts[..|parts| - 1]);
      assert parts == parts[..|parts| - 1] + [parts[|parts| - 1]];
    }
  }

  /** Splitting and trimming leaves pieces without the separator. */
  lemma PiecesArePlain(text: string, c: char)
    ensures var parts := TrimAll(Split(text, c));
      forall k :: 0 <= k < |parts| ==> IsTrimmed(parts[k]) && c !in parts[k] && forall x :: x in parts[k] ==> x in text
  {
    hide Split, Trim, IsTrimmed;
    SplitPieces(text, c);
    forall k | 0 <= k < |Split(text, c)|
      ensures IsTrimmed(Trim(Split(text, c)[k])) && forall x :: x in Trim(Split(text, c)[k]) ==> x in Split(text, c)[k]
    {
      TrimIsTrimmed(Split(text, c)[k]);
    }
  }

  lemma OptionsArePlain(text: string)
    requires '|' !in text && '\n' !in text && OptionsFrom(text) != []
    ensures PlainOptions(OptionsFrom(text))
  {
    hide Split, TrimAll, NonEmpty, IsTrimmed;
    var parts := TrimAll(Split(text, ','));
    PiecesArePlain(text, ',');
    NonEmptyKeeps(parts);
  }

  lemma ParsedLineIsWellFormed(line: string)
    requires '\n' !in line && ParseLine(line).Some?
    ensures WellFormed(ParseLine(line).value)
  {
    hide Split, TrimAll, OptionsFrom, Slugify, Utf16Length, Lower, IsTrimmed, IsKind, PlainOptions;
    PiecesArePlain(line, '|');
    var text := PartOr(TrimAll(Split(line, '|')), 3, "");
    if OptionsFrom(text) != [] {
      OptionsArePlain(text);
    }
  }

  lemma {:induction false} ParsedIsCanonical(lines: seq<string>)
    requires forall i :: 0 <= i < |lines| ==> '\n' !in lines[i]
    ensures QuestionsFrom(lines).Some? ==> Canonical(QuestionsFrom(lines).value)
  {
    hide ParseLine, WellFormed, FreeId, Slugify, Trim;
    if lines != [] {
      var n := |lines| - 1;
      var line := Trim(lines[n]);
      ParsedIsCanonical(lines[..n]);
      TrimIsTrimmed(lines[n]);
      if QuestionsFrom(lines).Some? && line != "" {
        var before := QuestionsFrom(lines[..n]).value;
        ParsedLineIsWellFormed(line);
        WithIdIsWellFormed(ParseLine(line).value, IdsOf(before));
        assert QuestionsFrom(lines).value[..|before|] == before;
      }
    }
  }

  lemma WithIdIsWellFormed(q: Question, seen: set<string>)
    requires WellFormed(q)
    ensures WellFormed(WithId(q, seen)) && WithId(q, seen).id == FreeId(Slugify(q.caption), seen)
  {
    hide Slugify, FreeId, Plain, PlainOptions, IsKind, Utf16Length;
  }

  // ---- Formatting and back --------------------------------------------------------------------

  function Word(required: bool): string {
    if required then "required" else "optional"
  }

  function FormatQuestion(q: Question): string {
    var base := q.caption + " | " + q.kind + " | " + Word(q.required);
    if q.kind == "select" && q.options.Some? && q.options.value != []
    then base + " | " + JoinWith(q.options.value, ", ")
    else base
  }

  function QuestionLines(qs: seq<Question>): seq<string> {
    seq(|qs|, i requires 0 <= i < |qs| => FormatQuestion(qs[i]))
  }

  function FormatQuestions(qs: seq<Question>): string {
    JoinWith(QuestionLines(qs), "\n")
  }

  lemma LowerCharKeeps(c: char)
    requires 'a' <= c <= 'z'
    ensures LowerChar(c) == [c]
  {
  }

  lemma {:induction false} LowerKeeps(s: string)
    requires forall i :: 0 <= i < |s| ==> 'a' <= s[i] <= 'z'
    ensures Lower(s) == s
  {
    hide LowerChar;
    if s != "" {
      LowerKeeps(s[..|s| - 1]);
      LowerCharKeeps(s[|s| - 1]);
    }
  }

  lemma WordIsPlain(required: bool)
    ensures Plain(Word(required)) && Lower(Word(required)) == Word(required)
    ensures Word(required) == "required" <==> required
  {
    hide Lower;
    LowerKeeps(Word(required));
  }

  lemma KindIsPlain(kind: string)
    requires IsKind(kind)
    ensures Plain(kind)
  {
  }

  /** Options written with commas are read back. */
  lemma OptionsReadBack(options: seq<string>)
    requires PlainOptions(options)
    ensures Plain(JoinWith(options, ", ")) && OptionsFrom(JoinWith(options, ", ")) == options
  {
    hide Split, JoinWith, Trim, IsTrimmed;
    JoinIsTrimmed(options, ", ");
    JoinLacks(options, ", ", '|');
    JoinLacks(options, ", ", '\n');
    assert [','] + " " == ", ";
    SplitJoined(options, ',', " ");
    var padded := Padded(options, " ");
    forall i | 0 <= i < |options| ensures Trim(padded[i]) == options[i] {
      TrimTrimmed(options[i]);
      TrimOneSpace(options[i]);
    }
    assert TrimAll(padded) == options;
    NonEmptyKeeps(options);
  }

  /** The pieces of a formatted line, without and with options. */
  lemma PiecesReadBack(a: string, b: string, c: string, d: string)
    requires Plain(a) && Plain(b) && Plain(c) && Plain(d)
    ensures TrimAll(Split(a + " | " + b + " | " + c, '|')) == [a, b, c]
    ensures TrimAll(Split(a + " | " + b + " | " + c + " | " + d, '|')) == [a, b, c, d]
  {
    hide Split, Trim, IsTrimmed;
    var bar := ['|'];
    var a1, b1, c1, c2, d1 := a + " ", " " + b + " ", " " + c, " " + c + " ", " " + d;
    SplitNone(a1, '|');
    SplitNone(b1, '|');
    SplitNone(c1, '|');
    SplitNone(c2, '|');
    SplitNone(d1, '|');
    SplitAt(b1, '|', c1);
    SplitAt(a1, '|', b1 + bar + c1);
    SplitAt(c2, '|', d1);
    SplitAt(b1, '|', c2 + bar + d1);
    SplitAt(a1, '|', b1 + bar + (c2 + bar + d1));
    assert a + " | " + b + " | " + c == a1 + bar + (b1 + bar + c1);
    assert a + " | " + b + " | " + c + " | " + d == a1 + bar + (b1 + bar + (c2 + bar + d1));
    TrimOneSpace(a);
    TrimOneSpace(b);
    TrimOneSpace(c);
    TrimOneSpace(d);
  }

  lemma LineReadsBack(q: Question)
    requires WellFormed(q)
    ensures ParseLine(FormatQuestion(q)) == Some(q.(id := ""))
  {
    hide Split, TrimAll, OptionsFrom, Slugify, Utf16Length, Lower, IsKind, JoinWith, IsTrimmed, PlainOptions;
    KindIsPlain(q.kind);
    WordIsPlain(q.required);
    NoOptions();
    if q.kind == "select" {
      SelectHasOptions(q.options.value);
      OptionsReadBack(q.options.value);
      PiecesReadBack(q.caption, q.kind, Word(q.required), JoinWith(q.options.value, ", "));
    } else {
      PiecesReadBack(q.caption, q.kind, Word(q.required), q.caption);
    }
  }

  lemma SelectHasOptions(options: seq<string>)
    requires PlainOptions(options)
    ensures options != []
  {
  }

  lemma NoOptions()
    ensures OptionsFrom("") == []
  {
    assert Split("", ',') == [""];
    assert TrimAll([""]) == [""];
  }

  lemma LineIsOneLine(q: Question)
    requires WellFormed(q)
    ensures OneLine(FormatQuestion(q))
  {
    hide OptionsFrom, Slugify, Utf16Length, JoinWith, IsSpace, Lower, Split, PlainOptions;
    KindIsPlain(q.kind);
    WordIsPlain(q.required);
    if q.kind == "select" {
      OptionsReadBack(q.options.value);
    }
  }

  lemma {:induction false} LinesReadBack(qs: seq<Question>)
    requires Canonical(qs)
    ensures QuestionsFrom(QuestionLines(qs)) == Some(qs)
  {
    hide ParseLine, FormatQuestion, Trim, WellFormed, FreeId, Slugify, IdsOf, OneLine;
    if qs != [] {
      var n := |qs| - 1;
      LinesReadBack(qs[..n]);
      LineReadsBack(qs[n]);
      LineTrims(qs[n]);
      assert QuestionLines(qs)[..n] == QuestionLines(qs[..n]);
      assert QuestionLines(qs)[n] == FormatQuestion(qs[n]);
      assert |QuestionLines(qs)| - 1 == n && qs == qs[..n] + [qs[n]];
    }
  }

  lemma LineTrims(q: Question)
    requires WellFormed(q)
    ensures Trim(FormatQuestion(q)) == FormatQuestion(q) != ""
  {
    hide FormatQuestion, Trim, WellFormed, IsTrimmed;
    LineIsOneLine(q);
    TrimTrimmed(FormatQuestion(q));
  }

  lemma {:induction false} AllWellFormed(qs: seq<Question>)
    requires Canonical(qs)
    ensures forall i :: 0 <= i < |qs| ==> WellFormed(qs[i])
  {
    hide WellFormed, FreeId, Slugify, IdsOf;
    if qs != [] {
      AllWellFormed(qs[..|qs| - 1]);
    }
  }

  lemma LinesSplit(qs: seq<Question>)
    requires qs != [] && Canonical(qs)
    ensures Split(FormatQuestions(qs), '\n') == QuestionLines(qs)
  {
    hide FormatQuestion, WellFormed, Canonical, Split, JoinWith;
    var lines := QuestionLines(qs);
    AllWellFormed(qs);
    forall i | 0 <= i < |lines| ensures '\n' !in lines[i] {
      LineIsOneLine(qs[i]);
    }
    assert ['\n'] + "" == "\n";
    SplitJoined(lines, '\n', "");
    assert forall x: string :: "" + x == x;
    assert Padded(lines, "") == lines;
  }

  lemma NoQuestions()
    ensures QuestionsFrom(Split("", '\n')) == Some([])
  {
    assert Split("", '\n') == [""];
    assert [""][..0] == [];
  }

  ghost function Reparsed(qs: seq<Question>): Option<seq<Question>> {
    QuestionsFrom(Split(FormatQuestions(qs), '\n'))
  }

  /** Exactly the canonical lists survive being written out and parsed again. */
  lemma QuestionsRoundTripIff(qs: seq<Question>)
    ensures Reparsed(qs) == Some(qs) <==> Canonical(qs)
  {
    hide QuestionsFrom, QuestionLines, Split, Canonical;
    var lines := Split(FormatQuestions(qs), '\n');
    SplitPieces(FormatQuestions(qs), '\n');
    ParsedIsCanonical(lines);
    if qs == [] {
      NothingSurvives();
    } else if Canonical(qs) {
      LinesSplit(qs);
      LinesReadBack(qs);
    }
  }

  lemma NothingSurvives()
    ensures Reparsed([]) == Some([]) && Canonical([])
  {
    NoQuestions();
    assert QuestionLines([]) == [];
  }

  /** Parsing, writing out and parsing again changes nothing, ids included. */
  lemma ReparsingIsStable(text: string)
    requires QuestionsFrom(Split(text, '\n')).Some?
    ensures var qs := QuestionsFrom(Split(text, '\n')).value; Reparsed(qs) == Some(qs)
  {
    hide QuestionsFrom, Reparsed, Split, Canonical;
    SplitPieces(text, '\n');
    ParsedIsCanonical(Split(text, '\n'));
    QuestionsRoundTripIff(QuestionsFrom(Split(text, '\n')).value);
  }
}
