/**
 The parser loop of backend/app/importers/vcard.py on the lines the printer writes: what each
 property leaves in the card being read, and what the finished card holds. A line comes apart
 into name, parameter and value, and a structured value into its components, each of them
 trimmed on the way.
 */
module VcardReading {
  import opened Options
  import opened Text
  import opened VcardText
  import opened VcardFold
  import opened VcardSurvival
  import opened VcardCard
  import opened VcardRoundTrip

  // ---- One line ----

  lemma BeginAndEnd(mark: string, line: string)
    requires (mark == "BEGIN" && line == "BEGIN:VCARD") || (mark == "END" && line == "END:VCARD")
    ensures Before(line, ':') == mark
  {
    assert line == mark + [':'] + "VCARD";
    BeforeFirst(mark, "VCARD", ':');
  }

  lemma UpperOfLine(p: Property)
    requires IsPlainProperty(p)
    ensures Before(Upper(p.Line()), ':') == p.Header()
  {
    HeaderIsPlain(p);
    UpperAppend(p.Header() + ":", p.value);
    UpperAppend(p.Header(), ":");
    UpperOfCapitals(":");
    BeforeFirst(p.Header(), Upper(p.value), ':');
  }

  lemma NotAMark(p: Property, mark: string, line: string)
    requires IsPlainProperty(p) && p.name != mark
    requires (mark == "BEGIN" && line == "BEGIN:VCARD") || (mark == "END" && line == "END:VCARD")
    ensures Upper(p.Line()) != line
  {
    assert p.param.Some? ==> p.Header()[|p.name|] == ';';
    if Upper(p.Line()) == line {
      UpperOfLine(p);
      BeginAndEnd(mark, line);
    }
  }

  lemma LineComesApart(p: Property)
    requires IsPlainProperty(p)
    ensures HeaderParts(p.Line()) == [p.name] + Params(p)
    ensures ValueOf(p.Line()) == p.value && ':' in p.Line()
    ensures AfterLast(p.name, '.') == p.name
  {
    HeaderIsPlain(p);
    HeaderSplits(p);
    BeforeFirst(p.Header(), p.value, ':');
    AfterLastAbsent(p.name, '.');
    assert p.Line()[|p.Header()|] == ':';
  }

  lemma TakePlainLine(o: Open, results: seq<Card>, p: Property, decode: Decoder)
    requires IsPlainProperty(p) && p.name != "BEGIN" && p.name != "END"
    ensures TakeLine(Reading(Some(o), results), p.Line(), decode)
         == Reading(Some(TakeProperty(o, p.name, Params(p), p.value, decode)), results)
  {
    NotAMark(p, "BEGIN", "BEGIN:VCARD");
    NotAMark(p, "END", "END:VCARD");
    LineComesApart(p);
  }

  // ---- The lines of one card ----

  /** The card after the given properties, each as the parser sees it. */
  function TakeAll(o: Open, properties: seq<Property>, decode: Decoder): Open
    decreases |properties|
  {
    if properties == [] then o
    else
      var p := Seen(properties[0]);
      TakeAll(TakeProperty(o, p.name, Params(p), p.value, decode), properties[1..], decode)
  }

  lemma {:induction false} TakeAllAppend(o: Open, a: seq<Property>, b: seq<Property>, decode: Decoder)
    ensures TakeAll(o, a + b, decode) == TakeAll(TakeAll(o, a, decode), b, decode)
    decreases |a|
  {
    if a == [] {
      assert a + b == b;
    } else {
      var p := Seen(a[0]);
      assert (a + b)[1..] == a[1..] + b;
      TakeAllAppend(TakeProperty(o, p.name, Params(p), p.value, decode), a[1..], b, decode);
    }
  }

  ghost predicate AreDetails(properties: seq<Property>) {
    forall i | 0 <= i < |properties| ::
      IsPlainProperty(properties[i]) && properties[i].name != "BEGIN" && properties[i].name != "END"
  }

  lemma SeenIsPlain(p: Property)
    requires IsPlainProperty(p)
    ensures IsPlainProperty(Seen(p)) && Params(Seen(p)) == Params(p)
  {
    RStripIs(p.value);
    assert Seen(p).Header() == p.Header();
  }

  lemma {:induction false} TakeDetails(o: Open, results: seq<Card>, properties: seq<Property>, more: seq<string>, decode: Decoder)
    requires AreDetails(properties)
    ensures TakeLines(Reading(Some(o), results), Lines(SeenAll(properties)) + more, decode)
         == TakeLines(Reading(Some(TakeAll(o, properties, decode)), results), more, decode)
    decreases |properties|
  {
    var lines := Lines(SeenAll(properties));
    if properties == [] {
      assert lines + more == more;
    } else {
      var p := Seen(properties[0]);
      SeenIsPlain(properties[0]);
      TakePlainLine(o, results, p, decode);
      assert lines[1..] == Lines(SeenAll(properties[1..]));
      assert (lines + more)[0] == p.Line() && (lines + more)[1..] == lines[1..] + more;
      TakeDetails(TakeProperty(o, p.name, Params(p), p.value, decode), results, properties[1..], more, decode);
    }
  }

  lemma MarkLine(mark: string, line: string)
    requires (mark == "BEGIN" && line == "BEGIN:VCARD") || (mark == "END" && line == "END:VCARD")
    ensures Seen(Property(mark, None, "VCARD")).Line() == line && Upper(line) == line
  {
    MarkIsUpper(line);
  }

  lemma MarkIsUpper(line: string)
    requires line == "BEGIN:VCARD" || line == "END:VCARD"
    ensures Upper(line) == line
  {
    UpperOfCapitals(line);
  }

  lemma LinesOfMarked(middle: seq<Property>, begin: string, end: string, more: seq<string>)
    requires begin == "BEGIN:VCARD" && end == "END:VCARD"
    ensures Lines(SeenAll(Marked(middle))) + more == [begin] + (Lines(SeenAll(middle)) + ([end] + more))
  {
    var first, last := [Property("BEGIN", None, "VCARD")], [Property("END", None, "VCARD")];
    OneMark("BEGIN", begin);
    OneMark("END", end);
    SeenLinesAppend(first + middle, last);
    SeenLinesAppend(first, middle);
    Regroup([begin], Lines(SeenAll(middle)), [end], more);
  }

  lemma OneMark(mark: string, line: string)
    requires (mark == "BEGIN" && line == "BEGIN:VCARD") || (mark == "END" && line == "END:VCARD")
    ensures Lines(SeenAll([Property(mark, None, "VCARD")])) == [line]
  {
    MarkLine(mark, line);
  }

  lemma Regroup(a: seq<string>, b: seq<string>, c: seq<string>, d: seq<string>)
    ensures a + b + c + d == a + (b + (c + d))
  {
  }

  lemma SeenLinesAppend(a: seq<Property>, b: seq<Property>)
    ensures Lines(SeenAll(a + b)) == Lines(SeenAll(a)) + Lines(SeenAll(b))
  {
    assert SeenAll(a + b) == SeenAll(a) + SeenAll(b);
    LinesAppend(SeenAll(a), SeenAll(b));
  }

  lemma TakeBegin(results: seq<Card>, begin: string, more: seq<string>, decode: Decoder)
    requires begin == "BEGIN:VCARD"
    ensures TakeLines(Reading(None, results), [begin] + more, decode) == TakeLines(Reading(Some(FRESH), results), more, decode)
  {
    MarkLine("BEGIN", begin);
    assert ([begin] + more)[1..] == more;
  }

  lemma TakeEnd(o: Open, results: seq<Card>, end: string, more: seq<string>, decode: Decoder)
    requires end == "END:VCARD"
    ensures TakeLines(Reading(Some(o), results), [end] + more, decode)
         == TakeLines(Reading(None, results + [Close(o)]), more, decode)
  {
    MarkLine("END", end);
    assert ([end] + more)[1..] == more;
    assert end[0] == 'E';
  }

  /** Reading a whole card: everything between its marks, then the finished card. */
  lemma TakeCard(results: seq<Card>, middle: seq<Property>, more: seq<string>, decode: Decoder)
    requires AreDetails(middle)
    ensures TakeLines(Reading(None, results), Lines(SeenAll(Marked(middle))) + more, decode)
         == TakeLines(Reading(None, results + [Close(TakeAll(FRESH, middle, decode))]), more, decode)
  {
    LinesOfMarked(middle, "BEGIN:VCARD", "END:VCARD", more);
    TakeBegin(results, "BEGIN:VCARD", Lines(SeenAll(middle)) + (["END:VCARD"] + more), decode);
    TakeDetails(FRESH, results, middle, ["END:VCARD"] + more, decode);
    TakeEnd(TakeAll(FRESH, middle, decode), results, "END:VCARD", more, decode);
  }

  lemma OneCardOfLines(middle: seq<Property>, decode: Decoder)
    requires AreDetails(middle)
    ensures TakeLines(Reading(None, []), Lines(SeenAll(Marked(middle))), decode)
         == Reading(None, [Close(TakeAll(FRESH, middle, decode))])
  {
    TakeCard([], middle, [], decode);
    assert Lines(SeenAll(Marked(middle))) + [] == Lines(SeenAll(Marked(middle)));
  }

  // ---- What each property leaves ----

  lemma PlainCharset(params: seq<string>)
    requires forall i | 0 <= i < |params| :: IsPlain(params[i])
    ensures QpCharset(params) == None
  {
    forall i | 0 <= i < |params| ensures !IsQuotedPrintable(params[i]) {
      PlainIsUpper(params[i]);
    }
  }

  /** The value of a field as the parser reads it; unless it is filled, the field is not written. */
  lemma FieldIsRead(o: Open, name: string, kind: Kind, param: Option<string>, text: Option<string>, decode: Decoder)
    requires KindOf(name) == kind && (param.Some? ==> IsPlain(param.value))
    ensures var p := Property(name, param, "");
            && QpCharset(Params(p)) == None
            && (IsFilled(text) ==>
                 var raw := RStrip(Escape(text.value));
                 && TakeAll(o, Single(name, param, text), decode) == TakeKind(o, kind, Params(p), raw, decode)
                 && TextOf(raw, None, decode) == Strip(Meant(text.value))
                 && PartsOf(raw, ';', None, decode)[0] == Strip(Meant(text.value)))
            && (!IsFilled(text) ==> TakeAll(o, Single(name, param, text), decode) == o && Cleaned(text) == None)
  {
    PlainCharset(Params(Property(name, param, "")));
    if IsFilled(text) {
      TextIsRead(text.value, decode);
    } else {
      assert Meant("") == "" && Strip("") == "";
    }
  }

  lemma TakeOrganization(o: Open, name: string, text: Option<string>, decode: Decoder)
    requires KindOf(name) == Unit && o.card.organization.None?
    ensures TakeAll(o, Single(name, None, text), decode) == o.(card := o.card.(organization := Cleaned(text)))
  {
    FieldIsRead(o, name, Unit, None, text, decode);
  }

  lemma TakeTitle(o: Open, name: string, text: Option<string>, decode: Decoder)
    requires KindOf(name) == Role && o.card.jobTitle.None?
    ensures TakeAll(o, Single(name, None, text), decode) == o.(card := o.card.(jobTitle := Cleaned(text)))
  {
    FieldIsRead(o, name, Role, None, text, decode);
  }

  lemma TakeWebsite(o: Open, name: string, text: Option<string>, decode: Decoder)
    requires KindOf(name) == Url && o.card.website.None?
    ensures TakeAll(o, Single(name, None, text), decode) == o.(card := o.card.(website := Cleaned(text)))
  {
    FieldIsRead(o, name, Url, None, text, decode);
  }

  lemma TakeNotes(o: Open, name: string, text: Option<string>, decode: Decoder)
    requires KindOf(name) == Note && o.card.notes.None?
    ensures TakeAll(o, Single(name, None, text), decode) == o.(card := o.card.(notes := Cleaned(text)))
  {
    FieldIsRead(o, name, Note, None, text, decode);
  }

  lemma MailParameters(preferred: string, plain: string)
    requires preferred == "TYPE=INTERNET,PREF" && plain == "TYPE=INTERNET"
    ensures IsPlain(preferred) && IsPlain(plain)
    ensures IsPreferred([preferred]) && !IsPreferred([plain])
  {
    assert preferred[14..18] == "PREF";
    assert OccursAt("PREF", [preferred][0], 14);
    NotInWord(plain, "PREF", 'R', 1);
  }

  lemma PhoneParameters(preferred: string, cell: string)
    requires preferred == "TYPE=VOICE,PREF" && cell == "TYPE=CELL"
    ensures IsPlain(preferred) && IsPlain(cell)
    ensures IsPreferred([preferred]) && !IsPreferred([cell]) && IsCell([cell])
  {
    assert preferred[11..15] == "PREF";
    assert OccursAt("PREF", [preferred][0], 11);
    assert cell[5..9] == "CELL";
    assert OccursAt("CELL", [cell][0], 5);
    NotInWord(cell, "PREF", 'R', 1);
  }

  /** A word does not occur where no character is its `j`-th one behind its first. */
  lemma NotInWord(s: string, word: string, c: char, j: nat)
    requires 0 < j < |word| && word[j] == c
    requires forall i | 0 <= i && i + j < |s| :: !(s[i] == word[0] && s[i + j] == c)
    ensures !Occurs(word, s)
  {
    forall k | 0 <= k <= |s| ensures !OccursAt(word, s, k) {
      if k + |word| <= |s| {
        assert s[k..k + |word|][0] == s[k] && s[k..k + |word|][j] == s[k + j];
      }
    }
  }

  function MailOf(preferred: bool, text: Option<string>): seq<Mail> {
    if Cleaned(text).Some? then [Mail(preferred, Cleaned(text).value)] else []
  }

  lemma TakeMail(o: Open, name: string, param: string, preferred: bool, text: Option<string>, decode: Decoder)
    requires KindOf(name) == Email && IsPlain(param) && IsPreferred([param]) == preferred
    ensures TakeAll(o, Single(name, Some(param), text), decode) == o.(mails := o.mails + MailOf(preferred, text))
  {
    FieldIsRead(o, name, Email, Some(param), text, decode);
    assert Params(Property(name, Some(param), "")) == [param];
    MailsGrow(o, preferred, text);
  }

  lemma MailsGrow(o: Open, preferred: bool, text: Option<string>)
    ensures Cleaned(text).None? ==> o.mails + MailOf(preferred, text) == o.mails
  {
  }

  function PhoneOf(preferred: bool, cell: bool, text: Option<string>): seq<Phone> {
    if Cleaned(text).Some? then [Phone(preferred, cell, Cleaned(text).value)] else []
  }

  lemma TakePhone(o: Open, name: string, param: string, preferred: bool, cell: bool, text: Option<string>, decode: Decoder)
    requires KindOf(name) == Tel && IsPlain(param) && IsPreferred([param]) == preferred && IsCell([param]) == cell
    ensures TakeAll(o, Single(name, Some(param), text), decode) == o.(phones := o.phones + PhoneOf(preferred, cell, text))
  {
    FieldIsRead(o, name, Tel, Some(param), text, decode);
    assert Params(Property(name, Some(param), "")) == [param];
    PhonesGrow(o, preferred, cell, text);
  }

  lemma PhonesGrow(o: Open, preferred: bool, cell: bool, text: Option<string>)
    ensures Cleaned(text).None? ==> o.phones + PhoneOf(preferred, cell, text) == o.phones
  {
  }

  // ---- Structured values ----

  function MeantAll(texts: seq<string>): (r: seq<string>)
    ensures |r| == |texts| && forall i | 0 <= i < |texts| :: r[i] == Meant(texts[i])
  {
    seq(|texts|, i requires 0 <= i < |texts| => Meant(texts[i]))
  }

  function StripAll(texts: seq<string>): (r: seq<string>)
    ensures |r| == |texts| && forall i | 0 <= i < |texts| :: r[i] == Strip(Meant(texts[i]))
  {
    seq(|texts|, i requires 0 <= i < |texts| => Strip(Meant(texts[i])))
  }

  lemma EscapeTagsIsEscapeAll(texts: seq<string>)
    ensures EscapeTags(texts) == EscapeAll(MeantAll(texts))
  {
    forall i | 0 <= i < |texts| ensures EscapeTags(texts)[i] == EscapeAll(MeantAll(texts))[i] {
      EscapeIsPerCharacter(texts[i]);
    }
  }

  lemma {:induction false} JoinLast(parts: seq<string>, delimiter: string)
    requires parts != []
    ensures Join(parts, delimiter) == Join(parts[..|parts| - 1] + [""], delimiter) + parts[|parts| - 1]
  {
    if |parts| == 1 {
      assert parts[..0] + [""] == [""];
    } else {
      JoinLast(parts[1..], delimiter);
      var blanked := parts[..|parts| - 1] + [""];
      assert blanked[1..] == parts[1..][..|parts| - 2] + [""];
    }
  }

  lemma {:induction false} JoinBlankEnds(parts: seq<string>, delimiter: char)
    requires |parts| > 1 && parts[|parts| - 1] == ""
    ensures var j := Join(parts, [delimiter]); j != "" && j[|j| - 1] == delimiter
  {
    if |parts| > 2 {
      JoinBlankEnds(parts[1..], delimiter);
    } else {
      assert Join(parts[1..], [delimiter]) == "";
    }
  }

  /** Trimming a joined value on the right trims its last component. */
  lemma TrimJoined(parts: seq<string>, delimiter: char)
    requires parts != [] && !IsSpace(delimiter)
    ensures RStrip(Join(parts, [delimiter]))
         == Join(parts[..|parts| - 1] + [RStrip(parts[|parts| - 1])], [delimiter])
  {
    var n := |parts| - 1;
    var trimmed := parts[..n] + [RStrip(parts[n])];
    JoinLast(parts, [delimiter]);
    JoinLast(trimmed, [delimiter]);
    assert trimmed[..n] == parts[..n];
    var front := Join(parts[..n] + [""], [delimiter]);
    if n == 0 {
      assert front == "" && front + parts[n] == parts[n] && front + RStrip(parts[n]) == RStrip(parts[n]);
    } else {
      JoinBlankEnds(parts[..n] + [""], delimiter);
      RStripBehind(front, parts[n]);
    }
  }

  /** What is left of the components once the joined value has lost its trailing blanks. */
  function Kept(texts: seq<string>): (r: seq<string>)
    requires texts != []
    ensures |r| == |texts|
  {
    var meant := MeantAll(texts);
    meant[..|texts| - 1] + [Cut(meant[|texts| - 1])]
  }

  lemma TrimmedValue(texts: seq<string>, delimiter: char)
    requires texts != [] && !IsSpace(delimiter)
    ensures RStrip(Join(EscapeTags(texts), [delimiter])) == Join(EscapeAll(Kept(texts)), [delimiter])
  {
    var n, meant := |texts| - 1, MeantAll(texts);
    EscapeTagsIsEscapeAll(texts);
    TrimJoined(EscapeAll(meant), delimiter);
    TrimEscaped(meant[n]);
    KeptIsEscaped(texts);
  }

  lemma KeptIsEscaped(texts: seq<string>)
    requires texts != []
    ensures var n, meant := |texts| - 1, MeantAll(texts);
            EscapeAll(Kept(texts)) == EscapeAll(meant)[..n] + [EscapeEach(Cut(meant[n]))]
  {
  }

  lemma KeptIsRead(texts: seq<string>, i: nat, decode: Decoder)
    requires i < |texts|
    ensures TextOf(EscapeAll(Kept(texts))[i], None, decode) == Strip(Meant(texts[i]))
  {
    UnescapedEscapeEach(Kept(texts)[i]);
    CutKeepsContent(Meant(texts[i]));
  }

  /** Every component of a structured value is read back trimmed, in order. */
  lemma PartsAreRead(texts: seq<string>, delimiter: char, decode: Decoder)
    requires texts != [] && (delimiter == ';' || delimiter == ',')
    ensures PartsOf(RStrip(Join(EscapeTags(texts), [delimiter])), delimiter, None, decode) == StripAll(texts)
  {
    TrimmedValue(texts, delimiter);
    SplitUndoesJoin(Kept(texts), delimiter);
    forall i | 0 <= i < |texts| ensures TextOf(EscapeAll(Kept(texts))[i], None, decode) == StripAll(texts)[i] {
      KeptIsRead(texts, i, decode);
    }
  }
}
