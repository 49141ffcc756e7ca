/**
 What a lone carriage return lets through (backend/app/importers/vcard.py): the printer does not
 escape it, so what follows it in a text is a line of its own to the parser, and may be a
 property. Here it is a name in the notes, the last thing that is written of a contact: read
 last, it replaces the contact's own name.
 */
module VcardBroken {
  import opened Options
  import opened Text
  import opened VcardText
  import opened VcardFold
  import opened VcardLines
  import opened VcardCard
  import opened VcardReturns
  import opened VcardRoundTrip
  import opened VcardReading
  import opened VcardStream

  lemma {:induction false} WrittenAppend(a: seq<string>, b: seq<string>)
    requires a != [] && b != []
    ensures Written(a + b) == Written(a) + Written(b)
  {
    assert (a + b)[1..] == a[1..] + b;
    WrittenFirst(a + b);
    WrittenFirst(a);
    if |a| == 1 {
      assert a[1..] + b == b;
    } else {
      WrittenAppend(a[1..], b);
    }
  }

  lemma WrittenFirst(lines: seq<string>)
    requires lines != []
    ensures Written(lines) == Join(Folded(lines[0]), "\r\n") + "\r\n" + if |lines| == 1 then "" else Written(lines[1..])
  {
    if |lines| == 1 {
      WrittenOne(lines);
    } else {
      WrittenCons(lines, "");
      assert Written(lines) + "" == Written(lines) && Written(lines[1..]) + "" == Written(lines[1..]);
    }
  }

  lemma WrittenShort(line: string)
    requires OctetLength(line) <= LIMIT
    ensures Written([line]) == line + "\r\n"
  {
    WrittenFirst([line]);
    assert line + "\r\n" + "" == line + "\r\n";
  }

  lemma {:induction false} OctetLengthGrows(s: string, t: string)
    ensures OctetLength(s) <= OctetLength(s + t) && OctetLength(t) <= OctetLength(s + t)
  {
    if t == "" {
      assert s + t == s;
    } else {
      OctetLengthGrows(s, t[..|t| - 1]);
      assert (s + t)[..|s + t| - 1] == s + t[..|t| - 1];
    }
  }

  /** A short line with a carriage return inside is read as two. */
  lemma ReturnSplitsTheLine(before: seq<string>, first: string, second: string, after: seq<string>)
    requires before != [] && after != []
    requires OctetLength(first + "\r" + second) <= LIMIT && (second != "" ==> second[0] != '\n')
    ensures Unfolded(Written(before + [first + "\r" + second] + after)) == Unfolded(Written(before + [first, second] + after))
  {
    var rest := second + "\r\n" + Written(after);
    WrittenAsOne(before, first, second, after);
    WrittenAsTwo(before, first, second, after);
    LoneReturnEndsTheLine(Written(before) + first, rest);
  }

  lemma WrittenAsOne(before: seq<string>, first: string, second: string, after: seq<string>)
    requires before != [] && after != [] && OctetLength(first + "\r" + second) <= LIMIT
    ensures Written(before + [first + "\r" + second] + after)
         == (Written(before) + first) + "\r" + (second + "\r\n" + Written(after))
  {
    WrittenThree(before, [first + "\r" + second], after);
    WrittenShort(first + "\r" + second);
    TextRegroups(Written(before), first, "\r", second, "\r\n", Written(after));
  }

  lemma WrittenAsTwo(before: seq<string>, first: string, second: string, after: seq<string>)
    requires before != [] && after != [] && OctetLength(first + "\r" + second) <= LIMIT
    ensures Written(before + [first, second] + after)
         == (Written(before) + first) + "\r\n" + (second + "\r\n" + Written(after))
  {
    OctetLengthGrows(first + "\r", second);
    OctetLengthGrows(first, "\r");
    WrittenThree(before, [first, second], after);
    WrittenAppend([first], [second]);
    assert [first] + [second] == [first, second];
    WrittenShort(first);
    WrittenShort(second);
    TextRegroups(Written(before), first, "\r\n", second, "\r\n", Written(after));
  }

  lemma TextRegroups(a: string, b: string, c: string, d: string, e: string, f: string)
    ensures a + (b + c + d + e) + f == (a + b) + c + (d + e + f)
    ensures a + ((b + c) + (d + e)) + f == (a + b) + c + (d + e + f)
  {
  }

  lemma WrittenThree(a: seq<string>, b: seq<string>, c: seq<string>)
    requires a != [] && b != [] && c != []
    ensures Written(a + b + c) == Written(a) + Written(b) + Written(c)
  {
    WrittenAppend(a + b, c);
    WrittenAppend(a, b);
  }

  /** The properties before the notes, which come last. */
  function BeforeNotes(c: Card): seq<Property>
    requires IsStorable(c)
  {
    Naming(c) + (Work(c) + Mails(c) + Phones(c) + Location(c) + (Birthday(c.birthday) + Categories(c.tags)))
  }

  lemma NotesAreLast(c: Card, text: string)
    requires IsStorable(c) && text != ""
    ensures var noted := c.(notes := Some(text));
            Naming(noted) + Details(noted) == BeforeNotes(c) + [Property("NOTE", None, Escape(text))]
  {
    var noted := c.(notes := Some(text));
    SameButNotes(c, text);
    LastMovesOut(Naming(c), Work(c) + Mails(c) + Phones(c) + Location(c), Birthday(c.birthday), Categories(c.tags),
                 Single("NOTE", None, noted.notes));
  }

  lemma LastMovesOut(a: seq<Property>, b: seq<Property>, c: seq<Property>, d: seq<Property>, e: seq<Property>)
    ensures a + (b + (c + d + e)) == a + (b + (c + d)) + e
  {
  }

  lemma SameButNotes(c: Card, text: string)
    requires IsStorable(c)
    ensures var noted := c.(notes := Some(text));
            && Naming(noted) == Naming(c) && Work(noted) == Work(c) && Mails(noted) == Mails(c)
            && Phones(noted) == Phones(c) && Location(noted) == Location(c)
  {
  }

  /** The notes `a`, then a carriage return, then what looks like a name. */
  function WithName(a: string, b: string): string { a + "\r" + "FN:" + b }

  lemma EscapedWithName(a: string, b: string)
    requires NoLoneCr(a)
    ensures Escape(WithName(a, b)) == Escape(a) + "\r" + "FN:" + Escape(b)
  {
    EscapeIsPerCharacter(a);
    EscapeIsPerCharacter(b);
    EscapeIsPerCharacter(WithName(a, b));
    MeantAppend(a + "\r" + "FN:", b);
    MeantAppend(a + "\r", "FN:");
    MeantAppend(a, "\r");
    EscapeEachAppend(Meant(a) + "\r" + "FN:", Meant(b));
    EscapeEachAppend(Meant(a) + "\r", "FN:");
    EscapeEachAppend(Meant(a), "\r");
    MarkStays("\r", "FN:");
  }

  lemma MarkStays(cr: string, mark: string)
    requires cr == "\r" && mark == "FN:"
    ensures EscapeEach(cr) == cr && EscapeEach(mark) == mark && Meant(cr) == cr && Meant(mark) == mark
  {
    NothingToEscape(cr);
    NothingToEscape(mark);
    MeantLength(cr);
    MeantLength(mark);
    assert !OccursAt("\r\n", mark, 0) by { assert mark[0..2][0] == mark[0]; }
    assert !OccursAt("\r\n", mark, 1) by { assert mark[1..3][0] == mark[1]; }
  }

  lemma {:induction false} NothingToEscape(s: string)
    requires forall i | 0 <= i < |s| :: EscapeChar(s[i]) == [s[i]]
    ensures EscapeEach(s) == s
  {
    if s != "" {
      NothingToEscape(s[1..]);
    }
  }

  /**
   A contact whose notes hold a carriage return, "FN:" and a text comes back under that text as
   its name. So it is for every contact with such notes, as long as the line is not folded.
   */
  lemma NotesRename(c: Card, a: string, b: string, decode: Decoder)
    requires IsPrintable(c) && c.notes == Some(a) && a != ""
    requires NoLoneCr(b) && Strip(Meant(b)) != ""
    requires OctetLength("NOTE:" + Escape(WithName(a, b))) <= LIMIT
    ensures Parsed(PrintedAll([c.(notes := Some(WithName(a, b)))]), decode)
         == [ReadBackCard(c).(name := Strip(Meant(b)))]
  {
    var middle := Naming(c) + Details(c) + [Property("FN", None, Escape(b))];
    NotesUnfold(c, a, b);
    NotesAreDetails(c, a, b);
    OneCardOfLines(middle, decode);
    NamedLast(c, b, decode);
  }

  lemma NotesAreDetails(c: Card, a: string, b: string)
    requires IsPrintable(c) && NoLoneCr(b)
    ensures AreDetails(Naming(c) + Details(c) + [Property("FN", None, Escape(b))])
  {
    CardIsDetail(c);
    EscapeKeepsOut(b, '\r');
    EscapeKeepsOut(b, '\n');
    NameIsDetail(Property("FN", None, Escape(b)));
    DetailsAppend(Naming(c) + Details(c), [Property("FN", None, Escape(b))]);
  }

  lemma NameIsDetail(p: Property)
    requires p.name == "FN" && p.param.None? && NoBreaks(p.value)
    ensures AreDetails([p])
  {
  }

  lemma NotesUnfold(c: Card, a: string, b: string)
    requires IsPrintable(c) && c.notes == Some(a) && a != "" && NoLoneCr(b)
    requires OctetLength("NOTE:" + Escape(WithName(a, b))) <= LIMIT
    ensures Unfolded(PrintedAll([c.(notes := Some(WithName(a, b)))]))
         == Lines(SeenAll(Marked(Naming(c) + Details(c) + [Property("FN", None, Escape(b))])))
  {
    var noted := c.(notes := Some(WithName(a, b)));
    var middle := Naming(c) + Details(c) + [Property("FN", None, Escape(b))];
    PrintedOne(noted);
    NotedText(c, a, b);
    NotesAreDetails(c, a, b);
    MarkedIsPlain(middle, Property("BEGIN", None, "VCARD"), Property("END", None, "VCARD"));
    PropertiesUnfold(Marked(middle));
  }

  lemma PrintedOne(c: Card)
    requires IsStorable(c)
    ensures PrintedAll([c]) == Written(Lines(Properties(c)))
  {
    assert [c][1..] == [] && Printed(c) + "" == Printed(c);
  }

  lemma NotedText(c: Card, a: string, b: string)
    requires IsPrintable(c) && c.notes == Some(a) && a != "" && NoLoneCr(b)
    requires OctetLength("NOTE:" + Escape(WithName(a, b))) <= LIMIT
    ensures Unfolded(Written(Lines(Properties(c.(notes := Some(WithName(a, b)))))))
         == Unfolded(Written(Lines(Marked(Naming(c) + Details(c) + [Property("FN", None, Escape(b))]))))
  {
    var begin, end := Property("BEGIN", None, "VCARD"), Property("END", None, "VCARD");
    var note, name := Property("NOTE", None, Escape(a)), Property("FN", None, Escape(b));
    EscapedWithName(a, b);
    LinesWithNotes(c, WithName(a, b), begin, end);
    LinesWithName(c, note, begin, end, name);
    SplitNote(Lines([begin] + BeforeNotes(c)), Escape(a), Escape(b), Escape(WithName(a, b)), Lines([end]));
  }

  lemma SplitNote(before: seq<string>, a: string, b: string, all: string, after: seq<string>)
    requires before != [] && after != [] && all == a + "\r" + "FN:" + b && OctetLength("NOTE:" + all) <= LIMIT
    ensures Unfolded(Written(before + ["NOTE:" + all] + after)) == Unfolded(Written(before + ["NOTE:" + a, "FN:" + b] + after))
  {
    assert "NOTE:" + all == "NOTE:" + a + "\r" + ("FN:" + b) && ("FN:" + b)[0] == 'F';
    ReturnSplitsTheLine(before, "NOTE:" + a, "FN:" + b, after);
  }

  lemma MarkedIsPlain(middle: seq<Property>, begin: Property, end: Property)
    requires AreDetails(middle) && begin == Property("BEGIN", None, "VCARD") && end == Property("END", None, "VCARD")
    ensures ArePlain(Marked(middle))
  {
    MarksArePlain(begin, end);
  }

  lemma LinesWithNotes(c: Card, text: string, begin: Property, end: Property)
    requires IsStorable(c) && text != ""
    requires begin == Property("BEGIN", None, "VCARD") && end == Property("END", None, "VCARD")
    ensures Lines(Properties(c.(notes := Some(text))))
         == Lines([begin] + BeforeNotes(c)) + ["NOTE:" + Escape(text)] + Lines([end])
  {
    NotesAreLast(c, text);
    LinesOfMarked3(begin, BeforeNotes(c), [Property("NOTE", None, Escape(text))], end);
    LineOfOne(Property("NOTE", None, Escape(text)));
  }

  lemma LineOfOne(p: Property)
    ensures Lines([p]) == [p.Line()] && (p.name == "NOTE" && p.param.None? ==> p.Line() == "NOTE:" + p.value)
    ensures p.name == "FN" && p.param.None? ==> p.Line() == "FN:" + p.value
  {
  }

  lemma LinesWithName(c: Card, note: Property, begin: Property, end: Property, name: Property)
    requires IsStorable(c) && c.notes.Some? && c.notes.value != "" && note == Property("NOTE", None, Escape(c.notes.value))
    requires begin == Property("BEGIN", None, "VCARD") && end == Property("END", None, "VCARD")
    requires name.name == "FN" && name.param.None?
    ensures Lines(Marked(Naming(c) + Details(c) + [name]))
         == Lines([begin] + BeforeNotes(c)) + ["NOTE:" + note.value, "FN:" + name.value] + Lines([end])
  {
    NotesAreLast(c, c.notes.value);
    assert c.(notes := Some(c.notes.value)) == c;
    TwoMoveOut(BeforeNotes(c), note, name);
    LinesOfMarked3(begin, BeforeNotes(c), [note, name], end);
    LinesOfTwo(note, name);
  }

  lemma LinesOfTwo(note: Property, name: Property)
    requires note.name == "NOTE" && note.param.None? && name.name == "FN" && name.param.None?
    ensures Lines([note, name]) == ["NOTE:" + note.value, "FN:" + name.value]
  {
    LineOfOne(note);
    LineOfOne(name);
    LinesAppend([note], [name]);
    assert [note] + [name] == [note, name];
  }

  lemma TwoMoveOut(a: seq<Property>, p: Property, q: Property)
    ensures a + [p] + [q] == a + [p, q]
  {
  }

  lemma LinesOfMarked3(begin: Property, a: seq<Property>, b: seq<Property>, end: Property)
    ensures Lines([begin] + (a + b) + [end]) == Lines([begin] + a) + Lines(b) + Lines([end])
  {
    assert [begin] + (a + b) + [end] == [begin] + a + b + [end];
    LinesOfThree([begin] + a, b, [end]);
  }

  lemma LinesOfThree(a: seq<Property>, b: seq<Property>, c: seq<Property>)
    ensures Lines(a + b + c) == Lines(a) + Lines(b) + Lines(c)
  {
    LinesAppend(a + b, c);
    LinesAppend(a, b);
  }

  lemma NamedLast(c: Card, b: string, decode: Decoder)
    requires IsPrintable(c) && Strip(Meant(b)) != ""
    ensures Close(TakeAll(FRESH, Naming(c) + Details(c) + [Property("FN", None, Escape(b))], decode))
         == ReadBackCard(c).(name := Strip(Meant(b)))
  {
    var name := Property("FN", None, Escape(b));
    TakeAllAppend(FRESH, Naming(c) + Details(c), [name], decode);
    var o := TakeAll(FRESH, Naming(c) + Details(c), decode);
    CardIsTaken(c, decode);
    TextIsRead(b, decode);
    FullNameProperty(o, name, decode);
    CloseRenamed(o, Strip(Meant(b)));
  }

  lemma CloseRenamed(o: Open, name: string)
    requires name != ""
    ensures Close(o.(card := o.card.(name := name))) == Close(o).(name := name)
  {
  }
}
