/**
 Cards that other programs write (backend/app/importers/vcard.py, `parse_vcards`): properties in
 any order and number, with the rules that decide between them. Every card here is one that the
 printer of this program need not have written itself.
 */
module VcardForeign {
  import opened Options
  import opened Text
  import opened Calendar
  import opened VcardText
  import opened VcardFold
  import opened VcardSurvival
  import opened VcardLines
  import opened VcardCard
  import opened VcardRoundTrip
  import opened VcardReading
  import opened VcardStream

  /** A file of one card with these properties. */
  function FileOf(properties: seq<Property>): string { Written(Lines(Marked(properties))) }

  lemma MarkedIsPlain(middle: seq<Property>, begin: Property, end: Property)
    requires AreDetails(middle) && begin == Property("BEGIN", None, "VCARD") && end == Property("END", None, "VCARD")
    ensures ArePlain(Marked(middle))
  {
    assert IsPlainProperty(begin) && IsPlainProperty(end);
  }

  /** Such a file is one card, what its properties leave one after the other. */
  lemma FileIsRead(properties: seq<Property>, decode: Decoder)
    requires AreDetails(properties)
    ensures Parsed(FileOf(properties), decode) == [Close(TakeAll(FRESH, properties, decode))]
  {
    MarkedIsPlain(properties, Property("BEGIN", None, "VCARD"), Property("END", None, "VCARD"));
    PropertiesUnfold(Marked(properties));
    OneCardOfLines(properties, decode);
  }

  // ---- The name ----

  /** What is read of a property that stands for one text. */
  function TextRead(p: Property, decode: Decoder): string { TextOf(RStrip(p.value), QpCharset(Params(p)), decode) }

  /** No property gives a full name, or only a blank one. */
  ghost predicate LeavesUnnamed(properties: seq<Property>, decode: Decoder) {
    forall i | 0 <= i < |properties| && properties[i].name == "FN" :: TextRead(properties[i], decode) == ""
  }

  ghost predicate Lacks(properties: seq<Property>, name: string) {
    forall i | 0 <= i < |properties| :: properties[i].name != name
  }

  lemma FullNameKind(name: string)
    ensures KindOf(name) == FullName <==> name == "FN"
    ensures KindOf(name) == NameOfParts <==> name == "N"
  {
  }

  lemma OtherLeavesName(o: Open, kind: Kind, params: seq<string>, value: string, decode: Decoder)
    ensures kind != FullName ==> TakeKind(o, kind, params, value, decode).card.name == o.card.name
    ensures kind != NameOfParts ==> TakeKind(o, kind, params, value, decode).fallback == o.fallback
  {
  }

  lemma {:induction false} StaysUnnamed(o: Open, properties: seq<Property>, decode: Decoder)
    requires o.card.name == "" && LeavesUnnamed(properties, decode)
    ensures TakeAll(o, properties, decode).card.name == ""
    decreases |properties|
  {
    if properties != [] {
      var p := Seen(properties[0]);
      FullNameKind(p.name);
      OtherLeavesName(o, KindOf(p.name), Params(p), p.value, decode);
      assert Params(p) == Params(properties[0]);
      StaysUnnamed(TakeProperty(o, p.name, Params(p), p.value, decode), properties[1..], decode);
    }
  }

  lemma {:induction false} NameStays(o: Open, properties: seq<Property>, decode: Decoder)
    requires Lacks(properties, "FN")
    ensures TakeAll(o, properties, decode).card.name == o.card.name
    decreases |properties|
  {
    if properties != [] {
      var p := Seen(properties[0]);
      FullNameKind(p.name);
      OtherLeavesName(o, KindOf(p.name), Params(p), p.value, decode);
      NameStays(TakeProperty(o, p.name, Params(p), p.value, decode), properties[1..], decode);
    }
  }

  lemma {:induction false} FallbackStays(o: Open, properties: seq<Property>, decode: Decoder)
    requires Lacks(properties, "N")
    ensures TakeAll(o, properties, decode).fallback == o.fallback
    decreases |properties|
  {
    if properties != [] {
      var p := Seen(properties[0]);
      FullNameKind(p.name);
      OtherLeavesName(o, KindOf(p.name), Params(p), p.value, decode);
      FallbackStays(TakeProperty(o, p.name, Params(p), p.value, decode), properties[1..], decode);
    }
  }

  /** A name in parts: the family name, then the given one. */
  function PartsProperty(family: string, given: string): Property {
    Property("N", None, Escape(family) + ";" + Escape(given) + ";;;")
  }

  /** Given and family name with a blank between them, or the one that there is. */
  function Spoken(given: string, family: string): string {
    if given != "" && family != "" then given + " " + family else given + family
  }

  lemma SpokenIsTrimmed(given: string, family: string)
    requires Strip(given) == given && Strip(family) == family
    ensures Strip(given + " " + family) == Spoken(given, family)
  {
    StripEnds(given);
    StripEnds(family);
    if given == "" && family == "" {
      assert given + " " + family == " ";
      assert " "[1..] == "";
    } else if given == "" {
      assert (given + " " + family)[1..] == family && (given + " " + family)[0] == ' ';
      assert LStrip(family) == family && given + family == family;
      RStripUnique(family, family);
    } else if family == "" {
      assert given + " " + family == given + " " && LStrip(given + " ") == given + " ";
      RStripUnique(given + " ", given);
      assert given + family == given;
    } else {
      var all := given + " " + family;
      assert all[0] == given[0] && all[|all| - 1] == family[|family| - 1];
      RStripUnique(all, all);
    }
  }

  lemma StripEnds(s: string)
    requires Strip(s) == s
    ensures s != "" ==> !IsSpace(s[0]) && !IsSpace(s[|s| - 1])
  {
    var l := LStrip(s);
    LStripIs(s);
    RStripIs(l);
    EndsOf(s, l, RStrip(l));
  }

  lemma EndsOf(s: string, l: string, r: string)
    requires |l| <= |s| && l == s[|s| - |l|..] && (l != [] ==> !IsSpace(l[0]))
    requires r <= l && r == s && (r != [] ==> !IsSpace(r[|r| - 1]))
    ensures s != "" ==> !IsSpace(s[0]) && !IsSpace(s[|s| - 1])
  {
    assert |l| == |s|;
  }

  /** The value of a name in parts is five components joined. */
  lemma PartsAreJoined(family: string, given: string)
    ensures PartsProperty(family, given).value == Join(EscapeTags([family, given, "", "", ""]), ";")
  {
    EscapeIsPerCharacter("");
    var texts := [Escape(family), Escape(given), "", "", ""];
    assert EscapeTags([family, given, "", "", ""]) == texts;
    JoinFive(Escape(family), Escape(given), ";");
  }

  lemma JoinFive(a: string, b: string, d: string)
    ensures Join([a, b, "", "", ""], d) == a + d + b + (d + d + d)
  {
    assert [a, b, "", "", ""][1..] == [b, "", "", ""] && [b, "", "", ""][1..] == ["", "", ""];
    assert ["", "", ""][1..] == ["", ""] && ["", ""][1..] == [""];
    assert Join(["", ""], d) == "" + d + "";
    assert Join(["", "", ""], d) == "" + d + Join(["", ""], d);
    assert Join([b, "", "", ""], d) == b + d + Join(["", "", ""], d);
    assert b + d + (d + d) == b + (d + d + d);
  }

  lemma PartsAreTaken(o: Open, family: string, given: string, decode: Decoder)
    requires '\r' !in family && '\r' !in given && Spoken(Strip(given), Strip(family)) != ""
    ensures TakeAll(o, [PartsProperty(family, given)], decode) == o.(fallback := Some(Spoken(Strip(given), Strip(family))))
  {
    NamesAreRead(family, given, decode);
    OneOfParts(o, PartsProperty(family, given), decode);
    StripTwice(family);
    StripTwice(given);
    SpokenIsTrimmed(Strip(given), Strip(family));
  }

  lemma NamesAreRead(family: string, given: string, decode: Decoder)
    requires '\r' !in family && '\r' !in given
    ensures var parts := PartsOf(RStrip(PartsProperty(family, given).value), ';', None, decode);
            |parts| == 5 && parts[0] == Strip(family) && parts[1] == Strip(given)
  {
    var texts := [family, given, "", "", ""];
    PartsAreJoined(family, given);
    PartsAreRead(texts, ';', decode);
    NoReturnIsMeant(family);
    NoReturnIsMeant(given);
    assert StripAll(texts)[0] == Strip(Meant(texts[0])) && StripAll(texts)[1] == Strip(Meant(texts[1]));
  }

  lemma OneOfParts(o: Open, p: Property, decode: Decoder)
    requires p.name == "N" && p.param.None?
    ensures var full := NameOf(PartsOf(RStrip(p.value), ';', None, decode));
            TakeAll(o, [p], decode) == if full != "" then o.(fallback := Some(full)) else o
  {
    PlainCharset([]);
  }

  /**
   A card whose full name is missing or blank is named by its parts, the given name first,
   wherever they stand among the other properties.
   */
  lemma NamedByItsParts(before: seq<Property>, after: seq<Property>, family: string, given: string, decode: Decoder)
    requires AreDetails(before + [PartsProperty(family, given)] + after)
    requires LeavesUnnamed(before, decode) && LeavesUnnamed(after, decode) && Lacks(after, "N")
    requires '\r' !in family && '\r' !in given
    requires Strip(family) != "" || Strip(given) != ""
    ensures var cards := Parsed(FileOf(before + [PartsProperty(family, given)] + after), decode);
            |cards| == 1 && cards[0].name
              == if Strip(given) == "" then Strip(family)
                 else if Strip(family) == "" then Strip(given)
                 else Strip(given) + " " + Strip(family)
  {
    FileIsRead(before + [PartsProperty(family, given)] + after, decode);
    PartsStay(before, after, family, given, decode);
    NamedByFallback(TakeAll(FRESH, before + [PartsProperty(family, given)] + after, decode), Spoken(Strip(given), Strip(family)));
    assert Strip(given) + "" == Strip(given) && "" + Strip(family) == Strip(family);
  }

  lemma PartsStay(before: seq<Property>, after: seq<Property>, family: string, given: string, decode: Decoder)
    requires LeavesUnnamed(before, decode) && LeavesUnnamed(after, decode) && Lacks(after, "N")
    requires '\r' !in family && '\r' !in given && Spoken(Strip(given), Strip(family)) != ""
    ensures var o := TakeAll(FRESH, before + [PartsProperty(family, given)] + after, decode);
            o.card.name == "" && o.fallback == Some(Spoken(Strip(given), Strip(family)))
  {
    var n := PartsProperty(family, given);
    TakenAround(before, n, after, decode);
    var o := TakeAll(FRESH, before, decode);
    StaysUnnamed(FRESH, before, decode);
    PartsAreTaken(o, family, given, decode);
    var named := TakeAll(o, [n], decode);
    StaysUnnamed(named, after, decode);
    FallbackStays(named, after, decode);
  }

  lemma TakenAround(before: seq<Property>, p: Property, after: seq<Property>, decode: Decoder)
    ensures TakeAll(FRESH, before + [p] + after, decode)
         == TakeAll(TakeAll(TakeAll(FRESH, before, decode), [p], decode), after, decode)
  {
    TakeAllAppend(FRESH, before + [p], after, decode);
    TakeAllAppend(FRESH, before, [p], decode);
  }

  lemma {:induction false} WordEndIs(s: string)
    ensures forall i | 0 <= i < WordEnd(s) :: !IsSpace(s[i])
    ensures WordEnd(s) < |s| ==> IsSpace(s[WordEnd(s)])
  {
    if s != "" && !IsSpace(s[0]) {
      WordEndIs(s[1..]);
      forall i | 0 <= i < WordEnd(s) ensures !IsSpace(s[i]) {
        assert i > 0 ==> s[i] == s[1..][i - 1];
      }
    }
  }

  /** A name is one word, a gap and the rest, or one word alone. */
  ghost predicate IsOfParts(name: string, given: string, gap: string, family: string) {
    && name == given + gap + family && family != "" && gap != "" && !IsSpace(family[0])
    && (forall i | 0 <= i < |given| :: !IsSpace(given[i])) && forall i | 0 <= i < |gap| :: IsSpace(gap[i])
  }

  lemma GapIsBetween(words: string, n: nat, family: string) returns (gap: string)
    requires n < |words| && IsSpace(words[n]) && family == LStrip(words[n..]) && !IsSpace(words[|words| - 1])
    ensures family != "" && gap != "" && !IsSpace(family[0]) && words[n..] == gap + family
    ensures forall i | 0 <= i < |gap| :: IsSpace(gap[i])
  {
    var rest := words[n..];
    LStripIs(rest);
    RestOfName(words, n, family);
    gap := rest[..|rest| - |family|];
  }

  lemma SingleWord(words: string)
    requires WordEnd(words) == |words|
    ensures LStrip(words[WordEnd(words)..]) == "" && !exists i :: 0 <= i < |words| && IsSpace(words[i])
  {
    WordEndIs(words);
  }

  lemma SeveralWords(words: string) returns (gap: string)
    requires WordEnd(words) < |words| && !IsSpace(words[|words| - 1])
    ensures IsOfParts(words, words[..WordEnd(words)], gap, LStrip(words[WordEnd(words)..]))
    ensures exists i :: 0 <= i < |words| && IsSpace(words[i])
  {
    var n := WordEnd(words);
    WordEndIs(words);
    assert IsSpace(words[n]);
    gap := GapIsBetween(words, n, LStrip(words[n..]));
    Joined(words, n, gap, LStrip(words[n..]));
  }

  lemma Joined(words: string, n: nat, gap: string, family: string)
    requires n <= |words| && words[n..] == gap + family
    ensures words == words[..n] + gap + family
  {
    assert words == words[..n] + words[n..];
  }

  lemma WordsSplit(words: string) returns (given: string, gap: string, family: string)
    requires words != "" ==> !IsSpace(words[|words| - 1])
    ensures given == words[..WordEnd(words)] && family == LStrip(words[WordEnd(words)..])
    ensures if exists i :: 0 <= i < |words| && IsSpace(words[i]) then IsOfParts(words, given, gap, family) else family == ""
  {
    given, gap, family := words[..WordEnd(words)], "", LStrip(words[WordEnd(words)..]);
    if WordEnd(words) < |words| {
      gap := SeveralWords(words);
    } else {
      SingleWord(words);
    }
  }

  /** In print the first word of a name is the given name and the rest of it the family name; a single word is the family name. */
  lemma PrintedNameIsSplit(name: string) returns (given: string, gap: string, family: string)
    ensures if exists i :: 0 <= i < |Strip(name)| && IsSpace(Strip(name)[i])
            then IsOfParts(Strip(name), given, gap, family) && NameParts(name) == PartsProperty(family, given).value
            else NameParts(name) == Escape(name) + ";;;;"
  {
    StripTwice(name);
    StripEnds(Strip(name));
    given, gap, family := WordsSplit(Strip(name));
    NamePartsAre(name, given, family);
  }

  lemma RestOfName(words: string, n: nat, family: string)
    requires n < |words| && IsSpace(words[n]) && family == LStrip(words[n..]) && !IsSpace(words[|words| - 1])
    ensures family != "" && |family| < |words| - n && !IsSpace(family[0])
  {
    var rest := words[n..];
    LStripIs(rest);
    assert rest[|rest| - 1] == words[|words| - 1];
  }

  lemma NamePartsAre(name: string, given: string, family: string)
    requires var words := Strip(name); given == words[..WordEnd(words)] && family == LStrip(words[WordEnd(words)..])
    ensures NameParts(name) == if family != "" then PartsProperty(family, given).value else Escape(name) + ";;;;"
  {
  }

  lemma NamedByFallback(o: Open, name: string)
    requires o.card.name == "" && o.fallback == Some(name)
    ensures Close(o).name == name
  {
  }

  /** The last full name is the name, if it is filled, whatever parts stand before or behind it. */
  lemma FullNameWins(before: seq<Property>, after: seq<Property>, name: string, decode: Decoder)
    requires AreDetails(before + [Property("FN", None, Escape(name))] + after) && Lacks(after, "FN")
    requires '\r' !in name && Strip(name) != ""
    ensures var cards := Parsed(FileOf(before + [Property("FN", None, Escape(name))] + after), decode);
            |cards| == 1 && cards[0].name == Strip(name)
  {
    var fn := Property("FN", None, Escape(name));
    FileIsRead(before + [fn] + after, decode);
    TakenAround(before, fn, after, decode);
    var o := TakeAll(FRESH, before, decode);
    NoReturnIsMeant(name);
    TextIsRead(name, decode);
    PlainCharset([]);
    FullNameKind("FN");
    NameStays(TakeAll(o, [fn], decode), after, decode);
  }

  // ---- The same property again ----

  /** What one kind of property decides is the same. */
  predicate SameField(kind: Kind, a: Open, b: Open) {
    match kind
    case FullName => a.card.name == b.card.name
    case NameOfParts => a.fallback == b.fallback
    case Unit => a.card.organization == b.card.organization
    case Role => a.card.jobTitle == b.card.jobTitle
    case Email => a.mails == b.mails
    case Tel => a.phones == b.phones
    case Url => a.card.website == b.card.website
    case Adr =>
      && a.card.street == b.card.street && a.card.city == b.card.city && a.card.postalCode == b.card.postalCode
      && a.card.country == b.card.country && a.addressPreferred == b.addressPreferred
    case Born => a.card.birthday == b.card.birthday
    case Note => a.card.notes == b.card.notes
    case Tagged => a.card.tags == b.card.tags
    case Other => true
  }

  lemma OtherKindLeaves(o: Open, kind: Kind, other: Kind, params: seq<string>, value: string, decode: Decoder)
    requires kind != other
    ensures SameField(kind, TakeKind(o, other, params, value, decode), o)
  {
  }

  ghost predicate LacksKind(properties: seq<Property>, kind: Kind) {
    forall i | 0 <= i < |properties| :: KindOf(properties[i].name) != kind
  }

  /** A property touches nothing but its own field. */
  lemma {:induction false} FieldStays(o: Open, properties: seq<Property>, kind: Kind, decode: Decoder)
    requires LacksKind(properties, kind)
    ensures SameField(kind, TakeAll(o, properties, decode), o)
    decreases |properties|
  {
    if properties != [] {
      var p := Seen(properties[0]);
      OtherKindLeaves(o, kind, KindOf(p.name), Params(p), p.value, decode);
      FieldStays(TakeProperty(o, p.name, Params(p), p.value, decode), properties[1..], kind, decode);
    }
  }

  /** The first component that is read of a property. */
  function FirstRead(p: Property, decode: Decoder): string { PartsOf(RStrip(p.value), ';', QpCharset(Params(p)), decode)[0] }

  /**
   Of several properties of one kind the last decides: of titles and websites even if it is
   blank, of notes, organizations and birthdays if it says something.
   */
  lemma LastOneDecides(before: seq<Property>, p: Property, after: seq<Property>, decode: Decoder)
    requires AreDetails(before + [p] + after) && LacksKind(after, KindOf(p.name))
    ensures var cards := Parsed(FileOf(before + [p] + after), decode);
            var kind, text := KindOf(p.name), TextRead(p, decode);
            && |cards| == 1
            && (kind == Role ==> cards[0].jobTitle == if text == "" then None else Some(text))
            && (kind == Url ==> cards[0].website == if text == "" then None else Some(text))
            && (kind == Note && text != "" ==> cards[0].notes == Some(text))
            && (kind == Unit && FirstRead(p, decode) != "" ==> cards[0].organization == Some(FirstRead(p, decode)))
            && (kind == Born && ParseDate(text).Some? ==> cards[0].birthday == ParseDate(text))
  {
    FileIsRead(before + [p] + after, decode);
    TakenAround(before, p, after, decode);
    var o := TakeAll(TakeAll(FRESH, before, decode), [p], decode);
    OneIsTaken(TakeAll(FRESH, before, decode), p, decode);
    FieldStays(o, after, KindOf(p.name), decode);
  }

  lemma OneIsTaken(o: Open, p: Property, decode: Decoder)
    ensures TakeAll(o, [p], decode) == TakeKind(o, KindOf(p.name), Params(p), RStrip(p.value), decode)
  {
    assert Params(Seen(p)) == Params(p);
  }

  /** A blank note, organization, address or number, or a birthday that is no date, changes nothing. */
  lemma BlankChangesNothing(before: seq<Property>, p: Property, after: seq<Property>, decode: Decoder)
    requires AreDetails(before + [p] + after) && AreDetails(before + after)
    requires match KindOf(p.name)
             case Note => TextRead(p, decode) == ""
             case Email => TextRead(p, decode) == ""
             case Tel => TextRead(p, decode) == ""
             case Unit => FirstRead(p, decode) == ""
             case Born => ParseDate(TextRead(p, decode)).None?
             case kind => kind == Other
    ensures Parsed(FileOf(before + [p] + after), decode) == Parsed(FileOf(before + after), decode)
  {
    FileIsRead(before + [p] + after, decode);
    FileIsRead(before + after, decode);
    TakenAround(before, p, after, decode);
    TakeAllAppend(FRESH, before, after, decode);
    OneIsTaken(TakeAll(FRESH, before, decode), p, decode);
  }

  function CategoriesProperty(tags: seq<string>): Property { Property("CATEGORIES", None, Join(EscapeTags(tags), ",")) }

  /** Tags of several properties are gathered, in order, without the blank ones. */
  lemma TagsAreGathered(a: seq<string>, b: seq<string>, decode: Decoder)
    requires a != [] && b != [] && AreDetails([CategoriesProperty(a)] + [CategoriesProperty(b)])
    ensures var cards := Parsed(FileOf([CategoriesProperty(a)] + [CategoriesProperty(b)]), decode);
            |cards| == 1 && cards[0].tags == NonEmpty(StripAll(a)) + NonEmpty(StripAll(b))
  {
    FileIsRead([CategoriesProperty(a)] + [CategoriesProperty(b)], decode);
    TakeAllAppend(FRESH, [CategoriesProperty(a)], [CategoriesProperty(b)], decode);
    OneMoreTags(FRESH, a, decode);
    OneMoreTags(TakeAll(FRESH, [CategoriesProperty(a)], decode), b, decode);
    assert [] + NonEmpty(StripAll(a)) == NonEmpty(StripAll(a));
  }

  lemma OneMoreTags(o: Open, tags: seq<string>, decode: Decoder)
    requires tags != []
    ensures TakeAll(o, [CategoriesProperty(tags)], decode).card.tags == o.card.tags + NonEmpty(StripAll(tags))
  {
    PartsAreRead(tags, ',', decode);
    CategoriesKind("CATEGORIES");
    TagsTaken(o, CategoriesProperty(tags), Join(EscapeTags(tags), ","), decode);
  }

  lemma CategoriesKind(name: string)
    requires name == "CATEGORIES"
    ensures KindOf(name) == Tagged
  {
  }

  lemma TagsTaken(o: Open, p: Property, value: string, decode: Decoder)
    requires KindOf(p.name) == Tagged && p.param.None? && p.value == value
    ensures TakeAll(o, [p], decode).card.tags == o.card.tags + NonEmpty(PartsOf(RStrip(value), ',', None, decode))
  {
    OneIsTaken(o, p, decode);
    PlainCharset([]);
  }

  // ---- Which of several addresses and numbers ----

  /** The first mail of its preference whose address is not taken. */
  predicate IsFirstMail(mails: seq<Mail>, i: nat, preferred: bool, taken: set<string>) {
    && i < |mails| && mails[i].preferred == preferred && mails[i].address !in taken
    && forall j | 0 <= j < i && mails[j].preferred == preferred :: mails[j].address in taken
  }

  /** The next address: of the preferred mails the first that is not taken, else of the others. */
  ghost predicate IsNextMail(mails: seq<Mail>, taken: set<string>, address: Option<string>) {
    match address
    case None => forall i | 0 <= i < |mails| :: mails[i].address in taken
    case Some(a) =>
      exists i: nat ::
        && (IsFirstMail(mails, i, true, taken)
            || (IsFirstMail(mails, i, false, taken) && forall j | 0 <= j < |mails| && mails[j].preferred :: mails[j].address in taken))
        && mails[i].address == a
  }

  /** The first of the addresses of one preference that is not taken. */
  lemma {:induction false} FirstAddress(mails: seq<Mail>, preferred: bool, taken: set<string>, k: nat) returns (i: nat)
    requires var a := Addresses(mails, preferred);
             k < |a| && a[k] !in taken && forall l | 0 <= l < k :: a[l] in taken
    ensures IsFirstMail(mails, i, preferred, taken) && mails[i].address == Addresses(mails, preferred)[k]
  {
    if mails[0].preferred == preferred {
      var rest := Addresses(mails[1..], preferred);
      assert Addresses(mails, preferred) == [mails[0].address] + rest;
      if k == 0 {
        i := 0;
      } else {
        forall l | 0 <= l < k - 1 ensures rest[l] in taken { assert Addresses(mails, preferred)[l + 1] == rest[l]; }
        i := FirstAddress(mails[1..], preferred, taken, k - 1);
        i := i + 1;
        assert Addresses(mails, preferred)[0] in taken;
      }
    } else {
      assert Addresses(mails, preferred) == Addresses(mails[1..], preferred);
      i := FirstAddress(mails[1..], preferred, taken, k);
      i := i + 1;
    }
  }

  lemma {:induction false} AllAddresses(mails: seq<Mail>, preferred: bool, taken: set<string>)
    requires forall a | a in Addresses(mails, preferred) :: a in taken
    ensures forall i | 0 <= i < |mails| && mails[i].preferred == preferred :: mails[i].address in taken
  {
    if mails != [] {
      var rest := Addresses(mails[1..], preferred);
      assert forall a | a in rest :: a in Addresses(mails, preferred);
      AllAddresses(mails[1..], preferred, taken);
      forall i | 0 <= i < |mails| && mails[i].preferred == preferred ensures mails[i].address in taken {
        if i == 0 {
          assert mails[0].address in Addresses(mails, preferred);
        } else {
          assert mails[i] == mails[1..][i - 1];
        }
      }
    }
  }

  /** What is first among the preferred and then the others. */
  lemma NextMail(mails: seq<Mail>, taken: set<string>, k: nat)
    requires var ordered := Addresses(mails, true) + Addresses(mails, false);
             k <= |ordered| && (forall l | 0 <= l < k :: ordered[l] in taken) && (k < |ordered| ==> ordered[k] !in taken)
    ensures var ordered := Addresses(mails, true) + Addresses(mails, false);
            IsNextMail(mails, taken, if k < |ordered| then Some(ordered[k]) else None)
  {
    var a, b := Addresses(mails, true), Addresses(mails, false);
    var ordered := a + b;
    if k < |a| {
      forall l | 0 <= l < k ensures a[l] in taken { assert ordered[l] == a[l]; }
      var i := FirstAddress(mails, true, taken, k);
    } else {
      forall x | x in a ensures x in taken {
        var l :| 0 <= l < |a| && a[l] == x;
        assert ordered[l] == x;
      }
      AllAddresses(mails, true, taken);
      forall l | 0 <= l < k - |a| ensures b[l] in taken { assert ordered[|a| + l] == b[l]; }
      if k < |ordered| {
        var i := FirstAddress(mails, false, taken, k - |a|);
      } else {
        AllAddresses(mails, false, taken);
      }
    }
  }

  /** The second distinct element is the first that differs from the first. */
  lemma {:induction false} DistinctStarts(s: seq<string>) returns (k: nat)
    requires s != []
    ensures Distinct(s) != [] && Distinct(s)[0] == s[0]
    ensures 1 <= k <= |s| && (forall l | 0 <= l < k :: s[l] == s[0])
    ensures if k < |s| then s[k] != s[0] && |Distinct(s)| > 1 && Distinct(s)[1] == s[k] else |Distinct(s)| == 1
  {
    var n := |s| - 1;
    if n == 0 {
      k := 1;
      assert s[..0] == [];
    } else {
      k := DistinctStarts(s[..n]);
      if k == n && s[n] == s[0] {
        k := n + 1;
        assert Distinct(s[..n]) == [s[0]];
      }
    }
  }

  /** The first address is the next one, and the second is the next one after that. */
  lemma MailsArePickedInOrder(mails: seq<Mail>)
    ensures var (first, second) := PickEmails(mails);
            && IsNextMail(mails, {}, first)
            && (if first.Some? then IsNextMail(mails, {first.value}, second) else second == None)
  {
    var ordered := Addresses(mails, true) + Addresses(mails, false);
    NextMail(mails, {}, 0);
    if ordered != [] {
      var k := DistinctStarts(ordered);
      NextMail(mails, {ordered[0]}, k);
    }
  }

  predicate IsFirstPhone(phones: seq<Phone>, i: nat, wanted: Phone -> bool) {
    i < |phones| && wanted(phones[i]) && forall j | 0 <= j < i :: !wanted(phones[j])
  }

  lemma {:induction false} FirstIndexIs(phones: seq<Phone>, wanted: Phone -> bool)
    ensures match FirstIndex(phones, wanted)
            case Some(i) => IsFirstPhone(phones, i, wanted)
            case None => forall i | 0 <= i < |phones| :: !wanted(phones[i])
  {
    if phones != [] {
      FirstIndexIs(phones[1..], wanted);
    }
  }

  /** The number of the first phone, or of the second where the first is the one at `i`. */
  function NumberBeside(phones: seq<Phone>, i: nat): Option<string> {
    if i == 0 then if |phones| > 1 then Some(phones[1].number) else None
    else if |phones| > 0 then Some(phones[0].number) else None
  }

  /**
   The primary number is the first preferred one, else the first that is no mobile, and the first
   other one is the secondary. If there are only mobiles, the first is the secondary number.
   */
  lemma PhonesArePickedInOrder(phones: seq<Phone>)
    ensures var (first, second) := PickPhones(phones);
            || (exists i: nat ::
                  && (IsFirstPhone(phones, i, (p: Phone) => p.preferred)
                      || (IsFirstPhone(phones, i, (p: Phone) => !p.cell) && forall j | 0 <= j < |phones| :: !phones[j].preferred))
                  && first == Some(phones[i].number) && second == NumberBeside(phones, i))
            || ((forall j | 0 <= j < |phones| :: !phones[j].preferred && phones[j].cell)
                  && second == (if |phones| > 0 then Some(phones[0].number) else None)
                  && first == (if |phones| > 1 then Some(phones[1].number) else None))
  {
    FirstIndexIs(phones, (p: Phone) => p.preferred);
    FirstIndexIs(phones, (p: Phone) => !p.cell);
  }

  /** A parameter of the property holds this word. */
  predicate IsMarked(p: Property, mark: string) { p.param.Some? && Occurs(mark, p.param.value) }

  /** The address that a property gives, with whether it is marked as preferred. */
  function MailOfOne(p: Property, decode: Decoder): seq<Mail> {
    if p.name == "EMAIL" && TextRead(p, decode) != "" then [Mail(IsMarked(p, "PREF"), TextRead(p, decode))] else []
  }

  /** The number that a property gives, with whether it is marked as preferred or as a mobile's. */
  function PhoneOfOne(p: Property, decode: Decoder): seq<Phone> {
    if p.name == "TEL" && TextRead(p, decode) != "" then [Phone(IsMarked(p, "PREF"), IsMarked(p, "CELL"), TextRead(p, decode))] else []
  }

  /** All of them in file order. */
  function MailsOf(properties: seq<Property>, decode: Decoder): seq<Mail> {
    if properties == [] then [] else MailOfOne(properties[0], decode) + MailsOf(properties[1..], decode)
  }

  function PhonesOf(properties: seq<Property>, decode: Decoder): seq<Phone> {
    if properties == [] then [] else PhoneOfOne(properties[0], decode) + PhonesOf(properties[1..], decode)
  }

  lemma MarksAre(p: Property, preferred: string, cell: string)
    requires preferred == "PREF" && cell == "CELL"
    ensures IsPreferred(Params(p)) <==> IsMarked(p, preferred)
    ensures IsCell(Params(p)) <==> IsMarked(p, cell)
  {
    if p.param.Some? {
      assert Params(p)[0] == p.param.value;
    }
  }

  lemma MailKind(name: string)
    ensures KindOf(name) == Email <==> name == "EMAIL"
    ensures KindOf(name) == Tel <==> name == "TEL"
  {
  }

  lemma OneIsGathered(o: Open, p: Property, decode: Decoder)
    ensures TakeProperty(o, p.name, Params(p), RStrip(p.value), decode).mails == o.mails + MailOfOne(p, decode)
    ensures TakeProperty(o, p.name, Params(p), RStrip(p.value), decode).phones == o.phones + PhoneOfOne(p, decode)
  {
    MailKind(p.name);
    MarksAre(p, "PREF", "CELL");
    assert o.mails + [] == o.mails && o.phones + [] == o.phones;
  }

  lemma OneStep(o: Open, properties: seq<Property>, decode: Decoder) returns (after: Open)
    requires properties != []
    ensures TakeAll(o, properties, decode) == TakeAll(after, properties[1..], decode)
    ensures after.mails == o.mails + MailOfOne(properties[0], decode)
    ensures after.phones == o.phones + PhoneOfOne(properties[0], decode)
  {
    var p := properties[0];
    after := TakeProperty(o, p.name, Params(p), RStrip(p.value), decode);
    OneIsGathered(o, p, decode);
    OneIsFirst(o, properties, decode);
  }

  lemma OneIsFirst(o: Open, properties: seq<Property>, decode: Decoder)
    requires properties != []
    ensures var p := properties[0];
            TakeAll(o, properties, decode) == TakeAll(TakeProperty(o, p.name, Params(p), RStrip(p.value), decode), properties[1..], decode)
  {
    assert Params(Seen(properties[0])) == Params(properties[0]);
  }

  lemma Moves<T>(before: seq<T>, one: seq<T>, more: seq<T>)
    ensures (before + one) + more == before + (one + more)
  {
  }

  /** One property more: what it brings moves from the list over to what was gathered. */
  lemma OneMoves(o: Open, properties: seq<Property>, decode: Decoder) returns (after: Open)
    requires properties != []
    ensures TakeAll(o, properties, decode) == TakeAll(after, properties[1..], decode)
    ensures after.mails + MailsOf(properties[1..], decode) == o.mails + MailsOf(properties, decode)
    ensures after.phones + PhonesOf(properties[1..], decode) == o.phones + PhonesOf(properties, decode)
  {
    after := OneStep(o, properties, decode);
    Moves(o.mails, MailOfOne(properties[0], decode), MailsOf(properties[1..], decode));
    Moves(o.phones, PhoneOfOne(properties[0], decode), PhonesOf(properties[1..], decode));
  }

  lemma {:induction false} AllAreGathered(o: Open, properties: seq<Property>, decode: Decoder)
    ensures TakeAll(o, properties, decode).mails == o.mails + MailsOf(properties, decode)
    ensures TakeAll(o, properties, decode).phones == o.phones + PhonesOf(properties, decode)
    decreases |properties|
  {
    if properties != [] {
      var after := OneMoves(o, properties, decode);
      AllAreGathered(after, properties[1..], decode);
    }
  }

  lemma CloseFromFresh(o: Open, mails: seq<Mail>, phones: seq<Phone>)
    requires o.mails == FRESH.mails + mails && o.phones == FRESH.phones + phones
    ensures (Close(o).email, Close(o).emailSecondary) == PickEmails(mails)
    ensures (Close(o).phone, Close(o).phoneSecondary) == PickPhones(phones)
  {
    assert o.mails == mails && o.phones == phones;
  }

  /** The addresses and numbers of a card are picked from all that are given in it, preferred and mobile ones as they are marked. */
  lemma AddressesAndNumbersAreGathered(properties: seq<Property>, decode: Decoder)
    requires AreDetails(properties)
    ensures var cards := Parsed(FileOf(properties), decode);
            && |cards| == 1
            && (cards[0].email, cards[0].emailSecondary) == PickEmails(MailsOf(properties, decode))
            && (cards[0].phone, cards[0].phoneSecondary) == PickPhones(PhonesOf(properties, decode))
  {
    FileIsRead(properties, decode);
    AllAreGathered(FRESH, properties, decode);
    CloseFromFresh(TakeAll(FRESH, properties, decode), MailsOf(properties, decode), PhonesOf(properties, decode));
  }

  // ---- Which of several postal addresses ----

  /** The components that are read of an address, seven at least. */
  function AddressRead(p: Property, decode: Decoder): (parts: seq<string>)
    ensures |parts| >= 7
  {
    PartsOf(RStrip(p.value), ';', QpCharset(Params(p)), decode) + ["", "", "", "", "", "", ""]
  }

  predicate IsPostal(p: Property, decode: Decoder) {
    var parts := AddressRead(p, decode);
    KindOf(p.name) == Adr && (parts[2] != "" || parts[3] != "" || parts[5] != "" || parts[6] != "")
  }

  predicate IsPreferredPostal(p: Property, decode: Decoder) { IsPostal(p, decode) && IsPreferred(Params(p)) }

  /** The first preferred one, else the first. */
  ghost predicate IsChosen(properties: seq<Property>, i: nat, decode: Decoder) {
    && i < |properties| && IsPostal(properties[i], decode)
    && (if IsPreferred(Params(properties[i]))
        then forall j | 0 <= j < i :: !IsPreferredPostal(properties[j], decode)
        else (forall j | 0 <= j < i :: !IsPostal(properties[j], decode))
             && forall j | 0 <= j < |properties| :: !IsPreferredPostal(properties[j], decode))
  }

  /** The four fields of a card are those of one address; a country without a code is kept on the city line. */
  ghost predicate HasAddress(c: Card, parts: seq<string>)
    requires |parts| >= 7
  {
    var country := NormalizeCountry(parts[6]);
    && c.street == (if parts[2] == "" then None else Some(parts[2]))
    && c.postalCode == (if parts[5] == "" then None else Some(parts[5]))
    && c.country == country
    && c.city == (if parts[6] != "" && country.None? then Some(if parts[3] != "" then parts[3] + ", " + parts[6] else parts[6])
                  else if parts[3] == "" then None else Some(parts[3]))
  }

  lemma AddressTaken(o: Open, p: Property, decode: Decoder)
    ensures var after := TakeAll(o, [p], decode); var preferred := IsPreferred(Params(p));
            if IsPostal(p, decode) && (o.addressPreferred.None? || (preferred && !o.addressPreferred.value))
            then HasAddress(after.card, AddressRead(p, decode)) && after.addressPreferred == Some(preferred)
            else SameField(Adr, after, o)
  {
    OneIsTaken(o, p, decode);
    if KindOf(p.name) != Adr {
      OtherKindLeaves(o, Adr, KindOf(p.name), Params(p), RStrip(p.value), decode);
    }
  }

  lemma AddressOneMore(init: seq<Property>, p: Property, decode: Decoder)
    ensures var o, after := TakeAll(FRESH, init, decode), TakeAll(FRESH, init + [p], decode); var preferred := IsPreferred(Params(p));
            if IsPostal(p, decode) && (o.addressPreferred.None? || (preferred && !o.addressPreferred.value))
            then HasAddress(after.card, AddressRead(p, decode)) && after.addressPreferred == Some(preferred)
            else SameField(Adr, after, o)
  {
    TakeAllAppend(FRESH, init, [p], decode);
    AddressTaken(TakeAll(FRESH, init, decode), p, decode);
  }

  /** What was read of some properties has the address of the one that is chosen among them. */
  ghost predicate IsAddressOf(o: Open, properties: seq<Property>, i: Option<nat>, decode: Decoder) {
    match i
    case None => SameField(Adr, o, FRESH) && forall j | 0 <= j < |properties| :: !IsPostal(properties[j], decode)
    case Some(k) =>
      && IsChosen(properties, k, decode) && o.addressPreferred == Some(IsPreferred(Params(properties[k])))
      && HasAddress(o.card, AddressRead(properties[k], decode))
  }

  lemma AddressIsChosenOn(init: seq<Property>, p: Property, i: Option<nat>, decode: Decoder) returns (next: Option<nat>)
    requires IsAddressOf(TakeAll(FRESH, init, decode), init, i, decode)
    ensures IsAddressOf(TakeAll(FRESH, init + [p], decode), init + [p], next, decode)
  {
    AddressOneMore(init, p, decode);
    var o := TakeAll(FRESH, init, decode);
    next := i;
    if IsPostal(p, decode) && (o.addressPreferred.None? || (IsPreferred(Params(p)) && !o.addressPreferred.value)) {
      next := Some(|init|);
    }
    ChosenOneMore(init, p, next, decode);
  }

  lemma {:induction false} AddressChosen(properties: seq<Property>, decode: Decoder) returns (i: Option<nat>)
    ensures IsAddressOf(TakeAll(FRESH, properties, decode), properties, i, decode)
    decreases |properties|
  {
    if properties == [] {
      i := None;
    } else {
      var init, p := properties[..|properties| - 1], properties[|properties| - 1];
      i := AddressChosen(init, decode);
      i := AddressIsChosenOn(init, p, i, decode);
      assert properties == init + [p];
    }
  }

  /** One more property: the choice stays, or it is the new one. */
  lemma ChosenOneMore(init: seq<Property>, p: Property, i: Option<nat>, decode: Decoder)
    requires match i
             case None => !IsPostal(p, decode) && forall j | 0 <= j < |init| :: !IsPostal(init[j], decode)
             case Some(k) =>
               if k == |init| then
                 && IsPostal(p, decode)
                 && (forall j | 0 <= j < |init| :: !IsPreferredPostal(init[j], decode))
                 && (IsPreferredPostal(p, decode) || forall j | 0 <= j < |init| :: !IsPostal(init[j], decode))
               else IsChosen(init, k, decode) && (IsPreferredPostal(p, decode) ==> IsPreferred(Params(init[k])))
    ensures match i
            case None => forall j | 0 <= j < |init + [p]| :: !IsPostal((init + [p])[j], decode)
            case Some(k) => IsChosen(init + [p], k, decode)
  {
  }

  /** The address is that of one property, the first preferred one that says something or else the first that does. */
  ghost predicate HasOneAddress(c: Card, properties: seq<Property>, decode: Decoder) {
    if exists i :: 0 <= i < |properties| && IsPostal(properties[i], decode)
    then exists i: nat :: IsChosen(properties, i, decode) && HasAddress(c, AddressRead(properties[i], decode))
    else c.street == c.city == c.postalCode == c.country == None
  }

  lemma AddressIsOne(o: Open, properties: seq<Property>, i: Option<nat>, decode: Decoder)
    requires IsAddressOf(o, properties, i, decode)
    ensures HasOneAddress(Close(o), properties, decode)
  {
    match i
    case None => CloseKeepsAddress(o, ["", "", "", "", "", "", ""]);
    case Some(k) => CloseKeepsAddress(o, AddressRead(properties[k], decode));
  }

  /** The address of a card is that of one property, taken whole: the first preferred one that says something, else the first. */
  lemma OneAddressIsTaken(properties: seq<Property>, decode: Decoder)
    requires AreDetails(properties)
    ensures var cards := Parsed(FileOf(properties), decode);
            |cards| == 1 && HasOneAddress(cards[0], properties, decode)
  {
    FileIsRead(properties, decode);
    var i := AddressChosen(properties, decode);
    AddressIsOne(TakeAll(FRESH, properties, decode), properties, i, decode);
  }

  lemma CloseKeepsAddress(o: Open, parts: seq<string>)
    requires |parts| >= 7
    ensures HasAddress(Close(o), parts) <==> HasAddress(o.card, parts)
    ensures Close(o).street == o.card.street && Close(o).city == o.card.city
    ensures Close(o).postalCode == o.card.postalCode && Close(o).country == o.card.country
  {
  }

  // ---- Countries ----

  lemma FurtherCodesAreCapitals(lowered: string)
    ensures FurtherCode(lowered).Some? ==> IsCountryCode(FurtherCode(lowered).value)
  {
  }

  lemma CodesAreCapitals(lowered: string)
    ensures CountryCode(lowered).Some? ==> IsCountryCode(CountryCode(lowered).value)
  {
    FurtherCodesAreCapitals(lowered);
  }

  lemma UpperLetter(c: char)
    requires IsLetter(c)
    ensures |UpperChar(c)| == 1 && 'A' <= UpperChar(c)[0] <= 'Z'
    ensures |LowerChar(c)| == 1 && UpperChar(LowerChar(c)[0]) == UpperChar(c)
  {
  }

  lemma UpperOfTwo(s: string)
    requires |s| == 2 && IsLetter(s[0]) && IsLetter(s[1])
    ensures IsCountryCode(Upper(s))
  {
    UpperLetter(s[0]);
    UpperLetter(s[1]);
    assert s[1..] == [s[1]] && s[1..][1..] == "";
    assert Upper(s[1..]) == UpperChar(s[1]) + "";
    assert Upper(s) == UpperChar(s[0]) + UpperChar(s[1]);
  }

  /** A country is stored as a code of two capitals or not at all, whatever the card says. */
  lemma CountriesAreCodes(raw: string)
    ensures NormalizeCountry(raw).Some? ==> IsCountryCode(NormalizeCountry(raw).value)
  {
    var cleaned := Strip(raw);
    CodesAreCapitals(Lower(cleaned));
    if |cleaned| == 2 && IsLetter(cleaned[0]) && IsLetter(cleaned[1]) {
      UpperOfTwo(cleaned);
    }
  }

  // ---- Headers in other spellings ----

  /** Upper and lower case make no difference in a header, nor in the marks of a card. */
  lemma CaseMakesNoDifference(r: Reading, h: string, g: string, v: string, decode: Decoder)
    requires ':' !in h && ':' !in g && Upper(h) == Upper(g)
    ensures TakeLine(r, h + ":" + v, decode) == TakeLine(r, g + ":" + v, decode)
  {
    LineParts(h, v);
    LineParts(g, v);
    UpperLine(h, v);
    UpperLine(g, v);
    SameLine(r, h + ":" + v, g + ":" + v, decode);
  }

  lemma SameLine(r: Reading, a: string, b: string, decode: Decoder)
    requires Upper(a) == Upper(b) && ':' in a && ':' in b && HeaderParts(a) == HeaderParts(b) && ValueOf(a) == ValueOf(b)
    ensures TakeLine(r, a, decode) == TakeLine(r, b, decode)
  {
  }

  lemma UpperLine(h: string, v: string)
    ensures Upper(h + ":" + v) == Upper(h) + Upper(":") + Upper(v)
  {
    UpperAppend(h + ":", v);
    UpperAppend(h, ":");
  }

  lemma LineParts(h: string, v: string)
    requires ':' !in h
    ensures Before(h + ":" + v, ':') == h && ValueOf(h + ":" + v) == v && ':' in h + ":" + v
  {
    BeforeFirst(h, v, ':');
    assert h + ":" + v == h + [':'] + v;
    assert (h + ":" + v)[|h|] == ':';
  }

  lemma {:induction false} AfterLastOf(g: string, c: char, n: string)
    requires c !in n
    ensures AfterLast(g + [c] + n, c) == n
  {
    var all := g + [c] + n;
    if n == "" {
      assert all[|all| - 1] == c;
    } else {
      assert all[..|all| - 1] == g + [c] + n[..|n| - 1];
      AfterLastOf(g, c, n[..|n| - 1]);
    }
  }

  /** A group in front of a name, as in "item1.EMAIL", makes no difference. */
  lemma GroupMakesNoDifference(o: Open, results: seq<Card>, group: string, p: Property, decode: Decoder)
    requires IsPlainProperty(p) && p.name != "BEGIN" && p.name != "END"
    requires forall i | 0 <= i < |group| :: IsDigit(group[i]) || 'A' <= group[i] <= 'Z'
    ensures TakeLine(Reading(Some(o), results), group + "." + p.Line(), decode)
         == TakeLine(Reading(Some(o), results), p.Line(), decode)
  {
    var h := group + "." + p.Header();
    assert group + "." + p.Line() == h + ":" + p.value;
    GroupedLine(group, p, h);
    AfterLastOf(group, '.', p.name);
    assert group + "." + p.name == group + ['.'] + p.name;
    TakeLineOf(o, results, h + ":" + p.value, [group + "." + p.name] + Params(p), p.value, decode);
    TakePlainLine(o, results, p, decode);
  }

  lemma GroupedLine(group: string, p: Property, h: string)
    requires IsPlainProperty(p) && h == group + "." + p.Header()
    requires forall i | 0 <= i < |group| :: IsDigit(group[i]) || 'A' <= group[i] <= 'Z'
    ensures var line := h + ":" + p.value;
            && Upper(line) != "BEGIN:VCARD" && Upper(line) != "END:VCARD" && ':' in line
            && HeaderParts(line) == [group + "." + p.name] + Params(p) && ValueOf(line) == p.value
  {
    GroupedIsPlain(group, p, h);
    LineParts(h, p.value);
    GroupedHeader(group, p);
    GroupIsNoMark(h, p.value, "BEGIN:VCARD", "END:VCARD");
  }

  lemma GroupedIsPlain(group: string, p: Property, h: string)
    requires IsPlainProperty(p) && h == group + "." + p.Header()
    requires forall i | 0 <= i < |group| :: IsDigit(group[i]) || 'A' <= group[i] <= 'Z'
    ensures ':' !in h && '.' in h && ';' !in group && Upper(h) == h
  {
    HeaderIsPlain(p);
    assert h[|group|] == '.';
    UpperAppend(group + ".", p.Header());
    UpperAppend(group, ".");
    UpperOfCapitals(group);
    UpperOfCapitals(".");
  }

  lemma TakeLineOf(o: Open, results: seq<Card>, line: string, parts: seq<string>, value: string, decode: Decoder)
    requires Upper(line) != "BEGIN:VCARD" && Upper(line) != "END:VCARD" && ':' in line
    requires HeaderParts(line) == parts && ValueOf(line) == value
    ensures TakeLine(Reading(Some(o), results), line, decode)
         == Reading(Some(TakeProperty(o, AfterLast(parts[0], '.'), parts[1..], value, decode)), results)
  {
  }

  lemma GroupedHeader(group: string, p: Property)
    requires IsPlainProperty(p) && ';' !in group
    ensures SplitOn(group + "." + p.Header(), ';') == [group + "." + p.name] + Params(p)
  {
    HeaderSplits(p);
    SplitFront(group + ".", p.Header(), ';');
  }

  lemma GroupIsNoMark(h: string, v: string, begin: string, end: string)
    requires '.' in h && ':' !in h && Upper(h) == h && begin == "BEGIN:VCARD" && end == "END:VCARD"
    ensures Upper(h + ":" + v) != begin && Upper(h + ":" + v) != end
  {
    UpperAppend(h + ":", v);
    UpperAppend(h, ":");
    UpperOfCapitals(":");
    BeforeFirst(h, Upper(v), ':');
    BeginAndEnd("BEGIN", begin);
    BeginAndEnd("END", end);
  }

  // ---- Encoded values and dates ----

  /** A value is decoded exactly if a parameter is marked quoted-printable, by the first charset that is named, or as UTF-8. */
  lemma {:induction false} CharsetExactly(params: seq<string>)
    ensures QpCharset(params).Some? <==> exists i :: 0 <= i < |params| && IsQuotedPrintable(params[i])
    ensures (NamedCharset(params) == "UTF-8" && forall i | 0 <= i < |params| :: !("CHARSET=" <= params[i]))
         || (exists i :: 0 <= i < |params| && "CHARSET=" <= params[i] && NamedCharset(params) == params[i][8..]
                         && forall j | 0 <= j < i :: !("CHARSET=" <= params[j]))
  {
    if params != [] && !("CHARSET=" <= params[0]) {
      CharsetExactly(params[1..]);
      if i :| 0 <= i < |params| - 1 && "CHARSET=" <= params[1..][i] && NamedCharset(params[1..]) == params[1..][i][8..]
              && forall j | 0 <= j < i :: !("CHARSET=" <= params[1..][j]) {
        assert params[i + 1] == params[1..][i];
        forall j | 0 <= j < i + 1 ensures !("CHARSET=" <= params[j]) {
          assert j > 0 ==> params[j] == params[1..][j - 1];
        }
      } else {
        forall i | 0 <= i < |params| ensures !("CHARSET=" <= params[i]) {
          assert i > 0 ==> params[i] == params[1..][i - 1];
        }
      }
    }
  }

  lemma TwoDigitsOf(s: string)
    requires |s| == 2 && IsDigit(s[0]) && IsDigit(s[1])
    ensures 0 <= Number(s) <= 99 && s == TwoDigits(Number(s))
  {
    assert s[..1] == [s[0]] && s[..1][..0] == "";
    assert Number(s[..1]) == 10 * Number("") + (s[0] as int - '0' as int);
    assert Number(s) == 10 * Number(s[..1]) + (s[1] as int - '0' as int);
  }

  lemma FourDigitsOf(s: string)
    requires |s| == 4 && forall i | 0 <= i < 4 :: IsDigit(s[i])
    ensures 0 <= Number(s) <= 9999 && s == TwoDigits(Number(s) / 100) + TwoDigits(Number(s) % 100)
  {
    var a, b := s[..2], s[2..];
    assert s == a + b;
    TwoDigitsOf(a);
    TwoDigitsOf(b);
    TwoAndTwo(a, b);
    Hundreds(Number(a), Number(b));
  }

  lemma Hundreds(a: int, b: int)
    requires 0 <= b <= 99
    ensures (100 * a + b) / 100 == a && (100 * a + b) % 100 == b
  {
  }

  lemma TwoAndTwo(a: string, b: string)
    requires |a| == |b| == 2 && IsDigit(a[0]) && IsDigit(a[1]) && IsDigit(b[0]) && IsDigit(b[1])
    ensures forall i | 0 <= i < 4 :: IsDigit((a + b)[i])
    ensures Number(a + b) == 100 * Number(a) + Number(b)
  {
    NumberAppend(a, b);
    NumberAppend("", b);
    assert "" + b == b;
  }

  /** A birthday is read exactly if the eight digits of a date are left once the dashes are gone, in this order: year, month, day. */
  lemma ParseDateExactly(text: string, d: Date)
    ensures ParseDate(text) == Some(d) <==> IsDate(d) && ReplaceChar(text, '-', "") == Digits(d)
  {
    var clean := ReplaceChar(text, '-', "");
    if ParseDate(text) == Some(d) {
      FourDigitsOf(clean[..4]);
      TwoDigitsOf(clean[4..6]);
      TwoDigitsOf(clean[6..]);
      assert clean == clean[..4] + clean[4..6] + clean[6..];
    }
    if IsDate(d) && clean == Digits(d) {
      DateIsRead(d);
      DashesGo(d);
      SameDate(text, IsoDate(d));
    }
  }

  lemma SameDate(a: string, b: string)
    requires ReplaceChar(a, '-', "") == ReplaceChar(b, '-', "")
    ensures ParseDate(a) == ParseDate(b)
  {
  }
}
