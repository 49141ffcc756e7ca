/**
 Contacts with harmless carriage returns (backend/app/importers/vcard.py): the parser drops what
 came loose, and the card that is read has the name and the addresses of the contact. Nothing
 else is said of it: the other values may have lost what follows the carriage return, or have
 taken up a line that begins with a blank.
 */
module VcardHarmless {
  import opened Options
  import opened Text
  import opened VcardFold
  import opened VcardSurvival
  import opened VcardCard
  import opened VcardRoundTrip
  import opened VcardReading
  import opened VcardStream
  import opened VcardTame

  // ---- What the parser makes of them ----

  lemma {:induction false} TrimmedAppend(a: seq<string>, b: seq<string>)
    ensures Trimmed(a + b) == Trimmed(a) + Trimmed(b)
  {
    if a == [] {
      assert a + b == b;
    } else {
      assert (a + b)[1..] == a[1..] + b;
      TrimmedAppend(a[1..], b);
    }
  }

  lemma {:induction false} TakeLinesAppend(r: Reading, a: seq<string>, b: seq<string>, decode: Decoder)
    ensures TakeLines(r, a + b, decode) == TakeLines(TakeLines(r, a, decode), b, decode)
    decreases |a|
  {
    if a == [] {
      assert a + b == b;
    } else {
      assert (a + b)[1..] == a[1..] + b;
      TakeLinesAppend(TakeLine(r, a[0], decode), a[1..], b, decode);
    }
  }

  lemma {:induction false} UpperHoldsNoColon(s: string)
    requires ':' !in s
    ensures ':' !in Upper(s)
  {
    if s != "" {
      UpperHoldsNoColon(s[1..]);
      OneUpper(s[0]);
    }
  }

  lemma OneUpper(c: char)
    requires c != ':'
    ensures ':' !in UpperChar(c)
  {
  }

  lemma NoColonNoMark(line: string, begin: string, end: string)
    requires ':' !in line && begin == "BEGIN:VCARD" && end == "END:VCARD"
    ensures Upper(line) != begin && Upper(line) != end
  {
    UpperHoldsNoColon(line);
    assert begin[5] == ':' && end[3] == ':';
  }

  lemma DroppedLine(r: Reading, line: string, decode: Decoder)
    requires ':' !in line
    ensures TakeLine(r, line, decode) == r
  {
    NoColonNoMark(line, "BEGIN:VCARD", "END:VCARD");
  }

  lemma {:induction false} JunkIsDropped(r: Reading, junk: seq<string>, decode: Decoder)
    requires AreJunk(junk)
    ensures TakeLines(r, Trimmed(junk), decode) == r
    decreases |junk|
  {
    if junk != [] {
      assert junk[0] in junk && forall l | l in junk[1..] :: l in junk;
      JunkIsDropped(r, junk[1..], decode);
      var line, rest := Strip(junk[0]), Trimmed(junk[1..]);
      LStripIs(junk[0]);
      RStripIs(LStrip(junk[0]));
      DroppedLine(r, line, decode);
      assert ([line] + rest)[1..] == rest && [] + rest == rest;
    }
  }

  /** The properties with the values that are read of them. */
  function Revalued(properties: seq<Property>, got: seq<Read>): (r: seq<Property>)
    requires |got| == |properties|
    ensures |r| == |properties|
    ensures forall i | 0 <= i < |properties| :: r[i] == properties[i].(value := got[i].value)
  {
    seq(|properties|, i requires 0 <= i < |properties| => properties[i].(value := got[i].value))
  }

  ghost predicate AreTameDetails(properties: seq<Property>) {
    forall i | 0 <= i < |properties| ::
      IsTame(properties[i]) && properties[i].name != "BEGIN" && properties[i].name != "END"
  }

  lemma TakeRead(o: Open, results: seq<Card>, p: Property, r: Read, decode: Decoder)
    requires IsTame(p) && p.name != "BEGIN" && p.name != "END" && IsRead(p, r)
    ensures TakeLines(Reading(Some(o), results), Trimmed([p.(value := r.value).Line()] + r.junk), decode)
         == Reading(Some(TakeProperty(o, p.name, Params(p), RStrip(r.value), decode)), results)
  {
    var q := p.(value := r.value);
    assert q.Header() == p.(value := "").Header();
    TrimmedLine(q);
    SeenIsPlain(q);
    TakePlainLine(o, results, Seen(q), decode);
    var line := Strip(q.Line());
    TrimmedAppend([q.Line()], r.junk);
    TrimmedOne(q.Line());
    assert Trimmed([q.Line()] + r.junk) == [line] + Trimmed(r.junk);
    var taken := Reading(Some(TakeProperty(o, p.name, Params(p), RStrip(r.value), decode)), results);
    assert ([line] + Trimmed(r.junk))[1..] == Trimmed(r.junk);
    JunkIsDropped(taken, r.junk, decode);
  }

  lemma TakeFirstRead(o: Open, results: seq<Card>, properties: seq<Property>, got: seq<Read>, decode: Decoder)
    requires properties != [] && AreTameDetails(properties) && AreRead(properties, got)
    ensures TakeLines(Reading(Some(o), results), Trimmed(ReadLines(properties, got)), decode)
         == TakeLines(Reading(Some(TakeProperty(o, properties[0].name, Params(properties[0]), RStrip(got[0].value), decode)), results),
                      Trimmed(ReadLines(properties[1..], got[1..])), decode)
  {
    var p, r := properties[0], got[0];
    var mine, others := [p.(value := r.value).Line()] + r.junk, ReadLines(properties[1..], got[1..]);
    TrimmedAppend(mine, others);
    TakeLinesAppend(Reading(Some(o), results), Trimmed(mine), Trimmed(others), decode);
    TakeRead(o, results, p, r, decode);
  }

  lemma TakeFirstRevalued(o: Open, properties: seq<Property>, got: seq<Read>, decode: Decoder)
    requires properties != [] && |got| == |properties|
    ensures TakeAll(o, Revalued(properties, got), decode)
         == TakeAll(TakeProperty(o, properties[0].name, Params(properties[0]), RStrip(got[0].value), decode),
                    Revalued(properties[1..], got[1..]), decode)
  {
    assert Revalued(properties, got)[1..] == Revalued(properties[1..], got[1..]);
  }

  lemma TailsAreRead(properties: seq<Property>, got: seq<Read>)
    requires properties != [] && AreTameDetails(properties) && AreRead(properties, got)
    ensures AreTameDetails(properties[1..]) && AreRead(properties[1..], got[1..])
  {
    forall i | 0 <= i < |properties| - 1 ensures IsRead(properties[1..][i], got[1..][i]) {
      assert IsRead(properties[i + 1], got[i + 1]);
    }
  }

  lemma NothingToRead(o: Open, results: seq<Card>, properties: seq<Property>, got: seq<Read>, decode: Decoder)
    requires properties == [] && got == []
    ensures TakeLines(Reading(Some(o), results), Trimmed(ReadLines(properties, got)), decode)
         == Reading(Some(TakeAll(o, Revalued(properties, got), decode)), results)
  {
  }

  lemma {:induction false} TakeReads(o: Open, results: seq<Card>, properties: seq<Property>, got: seq<Read>, decode: Decoder)
    requires AreTameDetails(properties) && AreRead(properties, got)
    ensures TakeLines(Reading(Some(o), results), Trimmed(ReadLines(properties, got)), decode)
         == Reading(Some(TakeAll(o, Revalued(properties, got), decode)), results)
    decreases |properties|
  {
    if properties == [] {
      NothingToRead(o, results, properties, got, decode);
    } else {
      var p, r := properties[0], got[0];
      TailsAreRead(properties, got);
      TakeFirstRead(o, results, properties, got, decode);
      TakeFirstRevalued(o, properties, got, decode);
      TakeReads(TakeProperty(o, p.name, Params(p), RStrip(r.value), decode), results, properties[1..], got[1..], decode);
    }
  }

  // ---- What a contact is recognised by ----

  /** The same name, fallback and addresses: all that a contact is recognised by. */
  predicate SameNaming(a: Open, b: Open) {
    a.card.name == b.card.name && a.fallback == b.fallback && a.mails == b.mails
  }

  predicate IsNaming(kind: Kind) { kind.FullName? || kind.NameOfParts? || kind.Email? }

  lemma TakeSame(a: Open, b: Open, kind: Kind, params: seq<string>, v: string, w: string, decode: Decoder)
    requires SameNaming(a, b) && (IsNaming(kind) ==> v == w)
    ensures SameNaming(TakeKind(a, kind, params, v, decode), TakeKind(b, kind, params, w, decode))
  {
    match kind
    case Adr => AddressLeavesNaming(a, b, params, v, w, decode);
    case _ =>
  }

  lemma AddressLeavesNaming(a: Open, b: Open, params: seq<string>, v: string, w: string, decode: Decoder)
    requires SameNaming(a, b)
    ensures SameNaming(TakeKind(a, Adr, params, v, decode), TakeKind(b, Adr, params, w, decode))
  {
    var seven := ["", "", "", "", "", "", ""];
    var charset := QpCharset(params);
    AddressKeepsNaming(a, PartsOf(v, ';', charset, decode) + seven, IsPreferred(params));
    AddressKeepsNaming(b, PartsOf(w, ';', charset, decode) + seven, IsPreferred(params));
  }

  lemma AddressKeepsNaming(o: Open, parts: seq<string>, preferred: bool)
    requires |parts| >= 7
    ensures SameNaming(TakeAddress(o, parts, preferred), o)
  {
  }

  ghost predicate AgreeOnNaming(ps: seq<Property>, qs: seq<Property>) {
    |ps| == |qs| && forall i | 0 <= i < |ps| :: ps[i] == qs[i].(value := ps[i].value) && (IsNaming(KindOf(qs[i].name)) ==> ps[i] == qs[i])
  }

  lemma {:induction false} TakeAllSame(a: Open, b: Open, ps: seq<Property>, qs: seq<Property>, decode: Decoder)
    requires SameNaming(a, b) && AgreeOnNaming(ps, qs)
    ensures SameNaming(TakeAll(a, ps, decode), TakeAll(b, qs, decode))
    decreases |ps|
  {
    if ps != [] {
      var p, q := Seen(ps[0]), Seen(qs[0]);
      TakeSame(a, b, KindOf(q.name), Params(q), p.value, q.value, decode);
      TakeAllSame(TakeProperty(a, p.name, Params(p), p.value, decode), TakeProperty(b, q.name, Params(q), q.value, decode),
                  ps[1..], qs[1..], decode);
    }
  }

  /** Two cards that are recognised by the same. */
  predicate SameIdentity(a: Card, b: Card) { a.name == b.name && a.email == b.email && a.emailSecondary == b.emailSecondary }

  lemma CloseSame(a: Open, b: Open)
    requires SameNaming(a, b)
    ensures SameIdentity(Close(a), Close(b))
  {
  }

  // ---- Contacts ----

  /**
   A stored contact whose name and addresses hold no lone carriage return, and whose other
   values hold only harmless ones.
   */
  predicate IsImportable(c: Card) {
    && IsNamed(c) && NoLoneCr(c.name) && IsClean(c.email) && IsClean(c.emailSecondary)
    && forall i | 0 <= i < |Details(c)| :: IsHarmless(Details(c)[i].value)
  }

  ghost predicate AreImportable(cards: seq<Card>) {
    forall c | c in cards :: IsImportable(c)
  }

  ghost predicate NamingKeepsOutCr(properties: seq<Property>) {
    forall i | 0 <= i < |properties| && IsNaming(KindOf(properties[i].name)) :: '\r' !in properties[i].value
  }

  lemma OtherKind(properties: seq<Property>, kind: Kind)
    requires !IsNaming(kind) && forall i | 0 <= i < |properties| :: KindOf(properties[i].name) == kind
    ensures NamingKeepsOutCr(properties)
  {
  }

  lemma NoNamingInWork(c: Card)
    ensures NamingKeepsOutCr(Work(c)) && NamingKeepsOutCr(Phones(c))
  {
    OtherKind(Single("ORG", None, c.organization), Unit);
    OtherKind(Single("TITLE", None, c.jobTitle), Role);
    NamingAppend(Single("ORG", None, c.organization), Single("TITLE", None, c.jobTitle));
    OtherKind(Phones(c), Tel);
  }

  lemma NoNamingInLocation(c: Card)
    ensures NamingKeepsOutCr(Location(c))
  {
    OtherKind(Single("URL", None, c.website), Url);
    OtherKind(Address(c), Adr);
    NamingAppend(Single("URL", None, c.website), Address(c));
  }

  lemma NoNamingInRest(c: Card)
    requires IsStorable(c)
    ensures NamingKeepsOutCr(Rest(c))
  {
    OtherKind(Birthday(c.birthday), Born);
    OtherKind(Categories(c.tags), Tagged);
    OtherKind(Single("NOTE", None, c.notes), Note);
    NamingAppend(Birthday(c.birthday), Categories(c.tags));
    NamingAppend(Birthday(c.birthday) + Categories(c.tags), Single("NOTE", None, c.notes));
  }

  lemma NamingAppend(a: seq<Property>, b: seq<Property>)
    requires NamingKeepsOutCr(a) && NamingKeepsOutCr(b)
    ensures NamingKeepsOutCr(a + b)
  {
  }

  lemma NamesAreClean(c: Card)
    requires IsImportable(c)
    ensures NamingKeepsOutCr(Naming(c) + Details(c))
  {
    NamingKeepsOut(c, '\r');
    MailsKeepOut(c, '\r');
    NoNamingInWork(c);
    NoNamingInLocation(c);
    NoNamingInRest(c);
    NamingAppend(Work(c), Mails(c));
    NamingAppend(Work(c) + Mails(c), Phones(c));
    NamingAppend(Work(c) + Mails(c) + Phones(c), Location(c));
    NamingAppend(Work(c) + Mails(c) + Phones(c) + Location(c), Rest(c));
    NamingAppend(Naming(c), Details(c));
  }

  lemma CardIsTame(c: Card)
    requires IsImportable(c)
    ensures AreTameDetails(Naming(c) + Details(c))
  {
    var all := Naming(c) + Details(c);
    CardHeaders(c);
    CardKeepsOut(c, '\n');
    NamingKeepsOut(c, '\r');
    forall i | 0 <= i < |all| ensures IsTame(all[i]) && all[i].name != "BEGIN" && all[i].name != "END" {
      assert HasPlainHeader(all[i]);
      if i < |Naming(c)| {
        assert all[i] == Naming(c)[i];
      } else {
        assert all[i] == Details(c)[i - |Naming(c)|];
      }
    }
  }

  lemma RevaluedAgree(properties: seq<Property>, got: seq<Read>)
    requires AreRead(properties, got) && NamingKeepsOutCr(properties)
    ensures AgreeOnNaming(Revalued(properties, got), properties)
  {
    forall i | 0 <= i < |properties| && IsNaming(KindOf(properties[i].name)) ensures Revalued(properties, got)[i] == properties[i] {
      assert IsRead(properties[i], got[i]);
    }
  }

  /** Whatever came loose, the card that is read is recognised by what the contact is recognised by. */
  lemma CardIsRecognised(c: Card, got: seq<Read>, decode: Decoder)
    requires IsImportable(c) && AreRead(Naming(c) + Details(c), got)
    ensures SameIdentity(Close(TakeAll(FRESH, Revalued(Naming(c) + Details(c), got), decode)), ReadBackCard(c))
  {
    var all := Naming(c) + Details(c);
    NamesAreClean(c);
    RevaluedAgree(all, got);
    TakeAllSame(FRESH, FRESH, Revalued(all, got), all, decode);
    CloseSame(TakeAll(FRESH, Revalued(all, got), decode), TakeAll(FRESH, all, decode));
    CardIsTaken(c, decode);
  }

  // ---- The whole stream ----

  lemma {:induction false} ReadLinesAppend(a: seq<Property>, b: seq<Property>, m: seq<Read>, n: seq<Read>)
    requires |m| == |a| && |n| == |b|
    ensures ReadLines(a + b, m + n) == ReadLines(a, m) + ReadLines(b, n)
    decreases |a|
  {
    if a == [] {
      assert a + b == b && m + n == n;
    } else {
      assert (a + b)[1..] == a[1..] + b && (m + n)[1..] == m[1..] + n;
      ReadLinesAppend(a[1..], b, m[1..], n);
      SeqsRegroup([a[0].(value := m[0].value).Line()] + m[0].junk, ReadLines(a[1..], m[1..]), ReadLines(b, n));
    }
  }

  lemma AreReadParts(a: seq<Property>, b: seq<Property>, got: seq<Read>)
    requires AreRead(a + b, got)
    ensures AreRead(a, got[..|a|]) && AreRead(b, got[|a|..]) && got[..|a|] + got[|a|..] == got
  {
    forall i | 0 <= i < |a| ensures IsRead(a[i], got[..|a|][i]) { assert IsRead((a + b)[i], got[i]); }
    forall i | 0 <= i < |b| ensures IsRead(b[i], got[|a|..][i]) { assert IsRead((a + b)[|a| + i], got[|a| + i]); }
  }

  lemma MarkIsRead(mark: string, line: string, got: seq<Read>)
    requires (mark == "BEGIN" && line == "BEGIN:VCARD") || (mark == "END" && line == "END:VCARD")
    requires AreRead([Property(mark, None, "VCARD")], got)
    ensures Trimmed(ReadLines([Property(mark, None, "VCARD")], got)) == [line]
  {
    var p := Property(mark, None, "VCARD");
    assert IsRead([p][0], got[0]) && got[0] == Read("VCARD", []);
    assert got[0].junk == [] && p.(value := got[0].value) == p && p.Line() == line;
    assert ReadLines([p][1..], got[1..]) == [];
    assert ReadLines([p], got) == [line] + [] + [] == [line];
    StripKeepsFirst(line);
    RStripUnique(line, line);
    TrimmedOne(line);
  }

  lemma MarksAreRead(middle: seq<Property>, got: seq<Read>, begin: string, end: string) returns (mine: seq<Read>)
    requires begin == "BEGIN:VCARD" && end == "END:VCARD" && AreRead(Marked(middle), got)
    ensures AreRead(middle, mine)
    ensures Trimmed(ReadLines(Marked(middle), got)) == [begin] + (Trimmed(ReadLines(middle, mine)) + [end])
  {
    var first, last := [Property("BEGIN", None, "VCARD")], [Property("END", None, "VCARD")];
    AreReadParts(first + middle, last, got);
    var front, back := got[..|middle| + 1], got[|middle| + 1..];
    AreReadParts(first, middle, front);
    mine := front[1..];
    ReadLinesAppend(first + middle, last, front, back);
    ReadLinesAppend(first, middle, front[..1], mine);
    MarkIsRead("BEGIN", begin, front[..1]);
    MarkIsRead("END", end, back);
    TrimmedThree(ReadLines(first, front[..1]), ReadLines(middle, mine), ReadLines(last, back));
  }

  lemma TrimmedThree(a: seq<string>, b: seq<string>, c: seq<string>)
    ensures Trimmed(a + b + c) == Trimmed(a) + (Trimmed(b) + Trimmed(c))
  {
    TrimmedAppend(a + b, c);
    TrimmedAppend(a, b);
    SeqsRegroup(Trimmed(a), Trimmed(b), Trimmed(c));
  }

  lemma OneCardIsRecognised(results: seq<Card>, c: Card, got: seq<Read>, decode: Decoder) returns (item: Card)
    requires IsImportable(c) && AreRead(Properties(c), got)
    ensures TakeLines(Reading(None, results), Trimmed(ReadLines(Properties(c), got)), decode) == Reading(None, results + [item])
    ensures SameIdentity(item, ReadBackCard(c))
  {
    var middle := Naming(c) + Details(c);
    var mine := MarksAreRead(middle, got, "BEGIN:VCARD", "END:VCARD");
    var lines := Trimmed(ReadLines(middle, mine));
    item := Close(TakeAll(FRESH, Revalued(middle, mine), decode));
    TakeBegin(results, "BEGIN:VCARD", lines + ["END:VCARD"], decode);
    CardIsTame(c);
    TakeLinesAppend(Reading(Some(FRESH), results), lines, ["END:VCARD"], decode);
    TakeReads(FRESH, results, middle, mine, decode);
    TakeEnd(TakeAll(FRESH, Revalued(middle, mine), decode), results, "END:VCARD", [], decode);
    assert ["END:VCARD"] + [] == ["END:VCARD"];
    CardIsRecognised(c, mine, decode);
  }

  ghost predicate AreRecognised(items: seq<Card>, cards: seq<Card>) {
    |items| == |cards| && forall i | 0 <= i < |cards| :: SameIdentity(items[i], ReadBackCard(cards[i]))
  }

  lemma {:induction false} CardsAreRecognised(results: seq<Card>, cards: seq<Card>, got: seq<Read>, decode: Decoder)
      returns (items: seq<Card>)
    requires AreImportable(cards) && AreRead(AllProperties(cards), got)
    ensures TakeLines(Reading(None, results), Trimmed(ReadLines(AllProperties(cards), got)), decode) == Reading(None, results + items)
    ensures AreRecognised(items, cards)
    decreases |cards|
  {
    if cards == [] {
      items := [];
      NoCardToRead(results, cards, got, decode);
    } else {
      ImportableParts(cards);
      var item, others := FirstIsRecognised(results, cards, got, decode);
      var rest := CardsAreRecognised(results + [item], cards[1..], others, decode);
      items := [item] + rest;
      OneMoreRecognised(results, item, rest, cards);
    }
  }

  lemma NoCardToRead(results: seq<Card>, cards: seq<Card>, got: seq<Read>, decode: Decoder)
    requires cards == [] && got == []
    ensures TakeLines(Reading(None, results), Trimmed(ReadLines(AllProperties(cards), got)), decode) == Reading(None, results + [])
  {
    assert results + [] == results;
  }

  lemma OneMoreRecognised(results: seq<Card>, item: Card, rest: seq<Card>, cards: seq<Card>)
    requires cards != [] && SameIdentity(item, ReadBackCard(cards[0])) && AreRecognised(rest, cards[1..])
    ensures results + [item] + rest == results + ([item] + rest)
    ensures AreRecognised([item] + rest, cards)
  {
    var items := [item] + rest;
    forall i | 0 <= i < |cards| ensures SameIdentity(items[i], ReadBackCard(cards[i])) {
      if i > 0 {
        assert items[i] == rest[i - 1] && cards[i] == cards[1..][i - 1];
      }
    }
  }

  lemma FirstIsRecognised(results: seq<Card>, cards: seq<Card>, got: seq<Read>, decode: Decoder)
      returns (item: Card, others: seq<Read>)
    requires cards != [] && AreImportable(cards) && AreImportable(cards[1..]) && AreRead(AllProperties(cards), got)
    ensures AreRead(AllProperties(cards[1..]), others) && SameIdentity(item, ReadBackCard(cards[0]))
    ensures TakeLines(Reading(None, results), Trimmed(ReadLines(AllProperties(cards), got)), decode)
         == TakeLines(Reading(None, results + [item]), Trimmed(ReadLines(AllProperties(cards[1..]), others)), decode)
  {
    ImportableParts(cards);
    var mine := Properties(cards[0]);
    AreReadParts(mine, AllProperties(cards[1..]), got);
    others := got[|mine|..];
    item := NextIsRecognised(results, cards[0], AllProperties(cards[1..]), got[..|mine|], others, decode);
  }

  lemma ImportableParts(cards: seq<Card>)
    requires cards != [] && AreImportable(cards)
    ensures IsImportable(cards[0]) && AreImportable(cards[1..])
  {
    assert cards[0] in cards && forall c | c in cards[1..] :: c in cards;
  }

  lemma NextIsRecognised(
      results: seq<Card>, c: Card, others: seq<Property>, m: seq<Read>, n: seq<Read>, decode: Decoder) returns (item: Card)
    requires IsImportable(c) && AreRead(Properties(c), m) && |n| == |others|
    ensures TakeLines(Reading(None, results), Trimmed(ReadLines(Properties(c) + others, m + n)), decode)
         == TakeLines(Reading(None, results + [item]), Trimmed(ReadLines(others, n)), decode)
    ensures SameIdentity(item, ReadBackCard(c))
  {
    ReadLinesAppend(Properties(c), others, m, n);
    TrimmedAppend(ReadLines(Properties(c), m), ReadLines(others, n));
    TakeLinesAppend(Reading(None, results), Trimmed(ReadLines(Properties(c), m)), Trimmed(ReadLines(others, n)), decode);
    item := OneCardIsRecognised(results, c, m, decode);
  }

  lemma MarkedIsTame(middle: seq<Property>, begin: Property, end: Property)
    requires AreTameDetails(middle) && begin == Property("BEGIN", None, "VCARD") && end == Property("END", None, "VCARD")
    ensures AreAllTame(Marked(middle))
  {
    MarksArePlain(begin, end);
  }

  lemma PropertiesAreTame(c: Card)
    requires IsImportable(c)
    ensures AreAllTame(Properties(c))
  {
    CardIsTame(c);
    MarkedIsTame(Naming(c) + Details(c), Property("BEGIN", None, "VCARD"), Property("END", None, "VCARD"));
  }

  lemma OneMoreBreaks(c: Card, others: seq<Property>, text: string)
    requires IsImportable(c) && PhysicalLines(text) == BrokenAll(others) + [""]
    ensures PhysicalLines(Printed(c) + text) == BrokenAll(Properties(c) + others) + [""]
  {
    PropertiesAreTame(c);
    PhysicalOfProperties(Properties(c), text);
    BrokenAllAppend(Properties(c), others);
    SeqsRegroup(BrokenAll(Properties(c)), BrokenAll(others), [""]);
  }

  lemma {:induction false} StreamBreaks(cards: seq<Card>)
    requires AreImportable(cards)
    ensures PhysicalLines(PrintedAll(cards)) == BrokenAll(AllProperties(cards)) + [""]
  {
    if cards == [] {
      EmptyTextIsOneLine();
    } else {
      ImportableParts(cards);
      StreamBreaks(cards[1..]);
      OneMoreBreaks(cards[0], AllProperties(cards[1..]), PrintedAll(cards[1..]));
    }
  }

  lemma {:induction false} StreamIsTame(cards: seq<Card>)
    requires AreImportable(cards)
    ensures AreAllTame(AllProperties(cards))
  {
    if cards != [] {
      ImportableParts(cards);
      PropertiesAreTame(cards[0]);
      StreamIsTame(cards[1..]);
    }
  }

  lemma {:induction false} BrokenAllAppend(a: seq<Property>, b: seq<Property>)
    ensures BrokenAll(a + b) == BrokenAll(a) + BrokenAll(b)
  {
    if a == [] {
      assert a + b == b;
    } else {
      assert (a + b)[1..] == a[1..] + b;
      BrokenAllAppend(a[1..], b);
      SeqsRegroup(Broken(Folded(a[0].Line())), BrokenAll(a[1..]), BrokenAll(b));
    }
  }

  /**
   Reading the export of contacts whose lone carriage returns are harmless gives one card per
   contact, in order, with the name and the addresses that it has without them.
   */
  lemma HarmlessStreamIsRecognised(cards: seq<Card>, decode: Decoder)
    requires AreImportable(cards)
    ensures AreRecognised(Parsed(PrintedAll(cards), decode), cards)
  {
    var got := StreamIsRead(cards);
    var items := CardsAreRecognised([], cards, got, decode);
    ParsedLines(PrintedAll(cards), Trimmed(ReadLines(AllProperties(cards), got)), items, decode);
  }

  lemma ParsedLines(text: string, lines: seq<string>, items: seq<Card>, decode: Decoder)
    requires Unfolded(text) == lines && TakeLines(Reading(None, []), lines, decode) == Reading(None, [] + items)
    ensures Parsed(text, decode) == items
  {
    assert [] + items == items;
  }

  lemma StreamIsRead(cards: seq<Card>) returns (got: seq<Read>)
    requires AreImportable(cards)
    ensures AreRead(AllProperties(cards), got)
    ensures Unfolded(PrintedAll(cards)) == Trimmed(ReadLines(AllProperties(cards), got))
  {
    var all := AllProperties(cards);
    StreamIsTame(cards);
    StreamBreaks(cards);
    got := ReadAll([], all, [""]);
    assert [] + ReadLines(all, got) == ReadLines(all, got);
    LastLineIsBlank(ReadLines(all, got));
  }

  lemma LastLineIsBlank(lines: seq<string>)
    ensures UnfoldFrom(lines, false, [""]) == lines
  {
    assert [""][1..] == [];
  }

  lemma BehindIsHarmless(a: seq<Property>, b: seq<Property>)
    requires KeepOut(a + b, '\r')
    ensures forall i | 0 <= i < |b| :: IsHarmless(b[i].value)
  {
    forall i | 0 <= i < |b| ensures IsHarmless(b[i].value) {
      assert (a + b)[|a| + i] == b[i];
    }
  }

  /** Contacts without a lone carriage return are among them. */
  lemma PrintableIsImportable(c: Card)
    requires IsPrintable(c)
    ensures IsImportable(c)
  {
    CardKeepsOut(c, '\r');
    BehindIsHarmless(Naming(c), Details(c));
  }
}
