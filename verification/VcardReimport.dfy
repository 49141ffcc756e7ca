/**
 Importing what was exported (backend/app/importers/vcard.py): it adds nothing, except where a
 CR LF pair breaks a name or an address, or a lone carriage return lets a property through.
 */
module VcardReimport {
  import opened Options
  import opened Text
  import opened VcardText
  import opened VcardFold
  import opened VcardSurvival
  import opened VcardCard
  import opened VcardReturns
  import opened VcardRoundTrip
  import opened VcardStream
  import opened VcardHarmless
  import opened VcardBroken
  import opened VcardImport

  // ---- Importing what was exported ----

  /** A text whose trimmed form is read back as it is stored. */
  predicate ReadsAsStored(text: string) { Strip(Meant(text)) == Strip(text) }

  predicate MailReadsAsStored(email: Option<string>) { email.Some? ==> ReadsAsStored(email.value) }

  /** That is so exactly if no CR LF pair is left once the text is trimmed. */
  lemma ReadsAsStoredExactly(text: string)
    ensures ReadsAsStored(text) <==> !Occurs("\r\n", Strip(text))
  {
    StripMeant(text);
    MeantLength(Strip(text));
  }

  lemma NoCarriageReturnReadsAsStored(text: string)
    requires '\r' !in text
    ensures ReadsAsStored(text) && NoLoneCr(text)
  {
    NoReturnIsMeant(text);
  }

  lemma KeptMailsHaveTheSameKeys(first: Option<string>, second: Option<string>, names: Names)
    requires MailReadsAsStored(first) && MailReadsAsStored(second)
    ensures var kept := KeptMails(Cleaned(first), Cleaned(second));
            AddressKeys(kept.0, kept.1, names) == AddressKeys(first, second, names)
  {
    if first.Some? { StripTwice(first.value); }
    if second.Some? { StripTwice(second.value); }
  }

  lemma ReadBackIsRecognised(c: Card, names: Names)
    requires ReadsAsStored(c.name) && MailReadsAsStored(c.email) && MailReadsAsStored(c.emailSecondary)
    ensures Identities(ReadBackCard(c), names) == Identities(c, names)
  {
    StripTwice(c.name);
    KeptMailsHaveTheSameKeys(c.email, c.emailSecondary, names);
  }

  /** What an import of an export does, contact by contact. */
  function Reimported(
      contacts: seq<Contact>, organizations: seq<Organization>, nextId: int, exported: seq<Card>, decode: Decoder, names: Names): State
    requires forall c | c in exported :: IsStorable(c)
  {
    ImportCards(Start(contacts, organizations, nextId, names), Parsed(PrintedAll(exported), decode), names)
  }

  /**
   Importing an export adds no contact exactly if each contact, as it is read back, is known
   from the stored ones; then it changes nothing at all.
   */
  lemma ExportThenImportExactly(
      contacts: seq<Contact>, organizations: seq<Organization>, nextId: int, exported: seq<Card>, decode: Decoder, names: Names)
    requires AreImportable(exported)
    ensures var r := Reimported(contacts, organizations, nextId, exported, decode, names);
            && r.summary.imported <= |exported|
            && (r.summary.imported == 0 <==>
                 forall i | 0 <= i < |exported| :: IsKnown(ReadBackCard(exported[i]), KnownOf(contacts, names), names))
            && (r.summary.imported == 0 ==>
                 && r.contacts == contacts && r.organizations == organizations
                 && r.summary == Summary(|exported|, 0, 0, |exported|, []))
  {
    var items := Parsed(PrintedAll(exported), decode);
    HarmlessStreamIsRecognised(exported, decode);
    AreNamed(items, exported);
    KnownAlike(items, exported, KnownOf(contacts, names), names);
    NamedAreCounted(Start(contacts, organizations, nextId, names), items, names);
  }

  lemma AreNamed(items: seq<Card>, exported: seq<Card>)
    requires AreImportable(exported) && AreRecognised(items, exported)
    ensures forall i | 0 <= i < |items| :: items[i].name != ""
  {
    forall i | 0 <= i < |items| ensures items[i].name != "" {
      assert exported[i] in exported && SameIdentity(items[i], ReadBackCard(exported[i]));
    }
  }

  lemma KnownAlike(items: seq<Card>, exported: seq<Card>, known: set<Identity>, names: Names)
    requires AreRecognised(items, exported)
    ensures (forall i | 0 <= i < |items| :: IsKnown(items[i], known, names)) <==>
            (forall i | 0 <= i < |exported| :: IsKnown(ReadBackCard(exported[i]), known, names))
  {
    forall i | 0 <= i < |exported| ensures IsKnown(items[i], known, names) <==> IsKnown(ReadBackCard(exported[i]), known, names) {
      assert SameIdentity(items[i], ReadBackCard(exported[i]));
    }
  }

  /** Of named cards none is imported exactly if all are known, and then nothing changes. */
  lemma NamedAreCounted(start: State, items: seq<Card>, names: Names)
    requires start.summary == Summary(0, 0, 0, 0, []) && forall i | 0 <= i < |items| :: items[i].name != ""
    ensures var r := ImportCards(start, items, names);
            && r.summary.imported <= |items|
            && (r.summary.imported == 0 <==> forall i | 0 <= i < |items| :: IsKnown(items[i], start.known, names))
            && (r.summary.imported == 0 ==>
                 && r.contacts == start.contacts && r.organizations == start.organizations
                 && r.summary == Summary(|items|, 0, 0, |items|, []))
  {
    ImportsNothingExactly(start, items, names);
    NamedAreNotNameless(start, items, names);
    CardsAddUp(start, items, names);
    if ImportCards(start, items, names).summary.imported == 0 {
      KnownCardsAreSkipped(start, items, names);
    }
  }

  lemma IsKnownStored(contacts: seq<Contact>, c: Card, item: Card, names: Names)
    requires exists k :: 0 <= k < |contacts| && contacts[k].card == c
    requires Identities(item, names) == Identities(c, names)
    ensures IsKnown(item, KnownOf(contacts, names), names)
  {
    var k :| 0 <= k < |contacts| && contacts[k].card == c;
    KnownIsUnion(contacts, k, names);
    var id :| id in Identities(c, names);
    assert id in Identities(item, names) * KnownOf(contacts, names);
  }

  /**
   So importing the export of any stored contacts imports none of them, whatever else is stored,
   if their names and addresses hold no CR LF pair but at an end.
   */
  lemma ExportThenImportAddsNothing(
      contacts: seq<Contact>, organizations: seq<Organization>, nextId: int, exported: seq<Card>, decode: Decoder, names: Names)
    requires AreImportable(exported)
    requires forall c | c in exported :: ReadsAsStored(c.name) && MailReadsAsStored(c.email) && MailReadsAsStored(c.emailSecondary)
    requires forall c | c in exported :: exists k :: 0 <= k < |contacts| && contacts[k].card == c
    ensures var r := Reimported(contacts, organizations, nextId, exported, decode, names);
            && r.contacts == contacts && r.organizations == organizations
            && r.summary == Summary(|exported|, 0, 0, |exported|, [])
  {
    forall i | 0 <= i < |exported| ensures IsKnown(ReadBackCard(exported[i]), KnownOf(contacts, names), names) {
      var c := exported[i];
      assert c in exported;
      ReadBackIsRecognised(c, names);
      IsKnownStored(contacts, c, ReadBackCard(c), names);
    }
    ExportThenImportExactly(contacts, organizations, nextId, exported, decode, names);
  }

  /** A contact whose name and addresses hold no carriage return. */
  predicate IsRecognisable(c: Card) { '\r' !in c.name && NoCr(c.email) && NoCr(c.emailSecondary) }

  /** In particular if names and addresses hold no carriage return at all. */
  lemma PlainExportAddsNothing(
      contacts: seq<Contact>, organizations: seq<Organization>, nextId: int, exported: seq<Card>, decode: Decoder, names: Names)
    requires AreImportable(exported)
    requires forall c | c in exported :: IsRecognisable(c)
    requires forall c | c in exported :: exists k :: 0 <= k < |contacts| && contacts[k].card == c
    ensures var r := Reimported(contacts, organizations, nextId, exported, decode, names);
            && r.contacts == contacts && r.organizations == organizations
            && r.summary == Summary(|exported|, 0, 0, |exported|, [])
  {
    forall c | c in exported
      ensures ReadsAsStored(c.name) && MailReadsAsStored(c.email) && MailReadsAsStored(c.emailSecondary)
    {
      NoCarriageReturnReadsAsStored(c.name);
      if c.email.Some? { NoCarriageReturnReadsAsStored(c.email.value); }
      if c.emailSecondary.Some? { NoCarriageReturnReadsAsStored(c.emailSecondary.value); }
    }
    ExportThenImportAddsNothing(contacts, organizations, nextId, exported, decode, names);
  }

  lemma {:induction false} NamedAreNotNameless(s: State, items: seq<Card>, names: Names)
    requires forall i | 0 <= i < |items| :: items[i].name != ""
    ensures ImportCards(s, items, names).summary.nameless == s.summary.nameless
  {
    if items != [] {
      var n := |items| - 1;
      forall i | 0 <= i < n ensures items[..n][i].name != "" { assert items[..n][i] == items[i]; }
      NamedAreNotNameless(s, items[..n], names);
    }
  }

  // ---- Where the promise fails: a CR LF pair inside a name or an address ----

  /** Case folding never makes or removes a carriage return. */
  ghost predicate KeepsReturns(names: Names) {
    forall a, b :: names.casefold(a) == names.casefold(b) ==> ('\r' in a <==> '\r' in b)
  }

  /** The text, trimmed, holds a carriage return. */
  predicate IsBroken(text: string) { '\r' in Strip(text) }

  lemma BrokenExactly(text: string)
    requires NoLoneCr(text)
    ensures IsBroken(text) <==> !ReadsAsStored(text)
    ensures '\r' !in Strip(Meant(text))
  {
    LoneCrRemains(text);
    LStripIs(Meant(text));
    RStripIs(LStrip(Meant(text)));
    if !IsBroken(text) {
      NoCarriageReturnReadsAsStored(Strip(text));
      StripMeant(text);
      StripTwice(text);
      MeantLength(Strip(text));
    }
  }

  /** An address that no CR LF pair breaks, or no address at all. */
  predicate HasWholeAddress(c: Card) {
    || (IsAddress(c.email) && !IsBroken(c.email.value))
    || (IsAddress(c.emailSecondary) && !IsBroken(c.emailSecondary.value))
    || (!IsAddress(c.email) && !IsAddress(c.emailSecondary))
  }

  function KeysOf(c: Card, names: Names): set<string> { AddressKeys(c.email, c.emailSecondary, names) }

  lemma IdentitiesMeetExactly(c: Card, d: Card, names: Names)
    requires KeysOf(c, names) == {} <==> KeysOf(d, names) == {}
    ensures Identities(c, names) * Identities(d, names) != {} <==>
              && names.casefold(Strip(c.name)) == names.casefold(Strip(d.name))
              && (KeysOf(c, names) == {} || KeysOf(c, names) * KeysOf(d, names) != {})
  {
    var key := names.casefold(Strip(c.name));
    if KeysOf(c, names) != {} {
      if a :| a in KeysOf(c, names) * KeysOf(d, names) {
        assert (key, a) in Identities(c, names);
        assert key == names.casefold(Strip(d.name)) ==> (key, a) in Identities(c, names) * Identities(d, names);
      } else {
        assert KeysOf(c, names) * KeysOf(d, names) == {};
      }
      if id :| id in Identities(c, names) * Identities(d, names) {
        assert id.0 == key && id.1 in KeysOf(c, names) * KeysOf(d, names);
      }
    } else if key == names.casefold(Strip(d.name)) {
      assert (key, "") in Identities(c, names) * Identities(d, names);
    }
  }

  lemma StillAnAddress(email: Option<string>)
    ensures IsAddress(Cleaned(email)) <==> IsAddress(email)
    ensures IsAddress(email) ==> Strip(Cleaned(email).value) == Strip(Meant(email.value))
  {
    if email.Some? {
      StripMeant(email.value);
      StripTwice(Meant(email.value));
    }
  }

  /** The address keys of a contact that was read back. */
  function KeysBack(c: Card, names: Names): set<string> {
    (if IsAddress(c.email) then {names.casefold(Strip(Meant(c.email.value)))} else {})
    + (if IsAddress(c.emailSecondary) then {names.casefold(Strip(Meant(c.emailSecondary.value)))} else {})
  }

  lemma KeysAreKept(c: Card, names: Names)
    ensures KeysOf(ReadBackCard(c), names) == KeysBack(c, names)
  {
    StillAnAddress(c.email);
    StillAnAddress(c.emailSecondary);
  }

  lemma KeysMeetExactly(c: Card, names: Names)
    requires IsClean(c.email) && IsClean(c.emailSecondary) && KeepsReturns(names) && KeysOf(c, names) != {}
    ensures KeysBack(c, names) * KeysOf(c, names) != {} <==> HasWholeAddress(c)
  {
    forall email | email in {c.email, c.emailSecondary} && IsAddress(email)
      ensures IsBroken(email.value) <==> Strip(Meant(email.value)) != Strip(email.value)
      ensures '\r' !in Strip(Meant(email.value))
    {
      BrokenExactly(email.value);
    }
    if IsAddress(c.email) && !IsBroken(c.email.value) {
      assert names.casefold(Strip(c.email.value)) in KeysBack(c, names) * KeysOf(c, names);
    }
    if IsAddress(c.emailSecondary) && !IsBroken(c.emailSecondary.value) {
      assert names.casefold(Strip(c.emailSecondary.value)) in KeysBack(c, names) * KeysOf(c, names);
    }
  }

  lemma ReadBackIsKnownExactly(c: Card, names: Names)
    requires NoLoneCr(c.name) && IsClean(c.email) && IsClean(c.emailSecondary) && KeepsReturns(names)
    ensures Identities(ReadBackCard(c), names) * Identities(c, names) != {} <==> !IsBroken(c.name) && HasWholeAddress(c)
  {
    BrokenExactly(c.name);
    StripTwice(Meant(c.name));
    KeysAreKept(c, names);
    IdentitiesMeetExactly(ReadBackCard(c), c, names);
    if KeysOf(c, names) != {} {
      KeysMeetExactly(c, names);
    }
  }

  lemma KnownOfOne(contact: Contact, names: Names)
    ensures KnownOf([contact], names) == Identities(contact.card, names)
  {
    KnownAfterAppend([], contact, names);
    assert [] + [contact] == [contact];
  }

  /**
   A contact that is stored alone is imported a second time exactly if a CR LF pair stands
   inside its name, or inside each of its addresses.
   */
  lemma ImportedAgainExactly(
      contact: Contact, organizations: seq<Organization>, nextId: int, decode: Decoder, names: Names)
    requires IsImportable(contact.card) && KeepsReturns(names)
    ensures var r := Reimported([contact], organizations, nextId, [contact.card], decode, names);
            r.summary.imported == if IsBroken(contact.card.name) || !HasWholeAddress(contact.card) then 1 else 0
  {
    var c := contact.card;
    OneIsReimported([contact], organizations, nextId, c, decode, names);
    KnownOfOne(contact, names);
    ReadBackIsKnownExactly(c, names);
  }

  lemma OneIsReimported(
      contacts: seq<Contact>, organizations: seq<Organization>, nextId: int, c: Card, decode: Decoder, names: Names)
    requires IsImportable(c)
    ensures Reimported(contacts, organizations, nextId, [c], decode, names).summary.imported
         == if IsKnown(ReadBackCard(c), KnownOf(contacts, names), names) then 0 else 1
  {
    ExportThenImportExactly(contacts, organizations, nextId, [c], decode, names);
    assert [c][0] == c;
  }

  lemma OneIsImported(contacts: seq<Contact>, organizations: seq<Organization>, nextId: int, item: Card, names: Names)
    requires item.name != ""
    ensures ImportCards(Start(contacts, organizations, nextId, names), [item], names).summary.imported
         == if IsKnown(item, KnownOf(contacts, names), names) then 0 else 1
  {
    var start := Start(contacts, organizations, nextId, names);
    ImportedGrows(start, [item], names);
    assert [item][..0] == [];
  }

  // ---- Where the promise fails: a lone carriage return that lets a property through ----

  /**
   Notes that hold a carriage return and then "FN:" put a name into the file: the contact is
   imported under that name exactly if nobody is known by it and the contact's addresses.
   */
  lemma NotesAddAContactExactly(
      contacts: seq<Contact>, organizations: seq<Organization>, nextId: int, c: Card, a: string, b: string,
      decode: Decoder, names: Names)
    requires IsPrintable(c) && c.notes == Some(a) && a != ""
    requires NoLoneCr(b) && Strip(Meant(b)) != ""
    requires OctetLength("NOTE:" + Escape(WithName(a, b))) <= LIMIT
    ensures var noted := c.(notes := Some(WithName(a, b)));
            var r := Reimported(contacts, organizations, nextId, [noted], decode, names);
            r.summary.imported
              == if IsKnown(ReadBackCard(c).(name := Strip(Meant(b))), KnownOf(contacts, names), names) then 0 else 1
  {
    NotesRename(c, a, b, decode);
    OneIsImported(contacts, organizations, nextId, ReadBackCard(c).(name := Strip(Meant(b))), names);
  }

  /** So a contact with such notes, stored alone, is imported again as somebody else. */
  lemma NotesAddAStranger(
      contact: Contact, organizations: seq<Organization>, nextId: int, a: string, b: string, decode: Decoder, names: Names)
    requires var c := contact.card.(notes := Some(a));
             IsPrintable(c) && contact.card == c.(notes := Some(WithName(a, b))) && a != ""
    requires NoLoneCr(b) && Strip(Meant(b)) != ""
    requires OctetLength("NOTE:" + Escape(WithName(a, b))) <= LIMIT
    requires names.casefold(Strip(Meant(b))) != names.casefold(Strip(contact.card.name))
    ensures Reimported([contact], organizations, nextId, [contact.card], decode, names).summary.imported == 1
  {
    var c := contact.card.(notes := Some(a));
    NotesAddAContactExactly([contact], organizations, nextId, c, a, b, decode, names);
    KnownOfOne(contact, names);
    StripTwice(Meant(b));
    OtherNamesAreDisjoint(ReadBackCard(c).(name := Strip(Meant(b))), contact.card, names);
  }

  lemma OtherNamesAreDisjoint(c: Card, d: Card, names: Names)
    requires names.casefold(Strip(c.name)) != names.casefold(Strip(d.name))
    ensures Identities(c, names) * Identities(d, names) == {}
  {
  }

  predicate IsWord(s: string) { s != "" && forall i | 0 <= i < |s| :: IsLetter(s[i]) }

  /** For instance, with plain words: a name, and notes such as "hi", a carriage return, "FN:Eve". */
  lemma WordsAddAStranger(name: string, a: string, b: string, decode: Decoder)
    requires IsWord(name) && IsWord(a) && IsWord(b) && name != b && |a| + |b| <= 60
    ensures var c := EMPTY_CARD.(name := name, notes := Some(a + "\r" + "FN:" + b));
            Reimported([Contact(c, None, false)], [], 0, [c], decode, Names(s => s, s => s)).summary.imported == 1
  {
    var c := EMPTY_CARD.(name := name, notes := Some(WithName(a, b)));
    WordStays(name);
    WordStays(b);
    WordsFit(a, b);
    WordsArePrintable(name, a);
    NotesAddAStranger(Contact(c, None, false), [], 0, a, b, decode, Names(s => s, s => s));
  }

  lemma WordsFit(a: string, b: string)
    requires IsWord(a) && IsWord(b) && |a| + |b| <= 60
    ensures OctetLength("NOTE:" + Escape(WithName(a, b))) <= LIMIT
  {
    WordStays(a);
    WordStays(b);
    EscapedWithName(a, b);
    AsciiLength(a);
    AsciiLength(b);
    NoteLength("NOTE:", a, "\r", "FN:", b);
  }

  lemma NoteLength(note: string, a: string, cr: string, mark: string, b: string)
    requires note == "NOTE:" && cr == "\r" && mark == "FN:"
    ensures OctetLength(note + (a + cr + mark + b)) == OctetLength(a) + OctetLength(b) + 9
  {
    OctetLengthAppend(note, a + cr + mark + b);
    OctetLengthAppend(a + cr + mark, b);
    OctetLengthAppend(a + cr, mark);
    OctetLengthAppend(a, cr);
    AsciiLength(note);
    AsciiLength(cr);
    AsciiLength(mark);
  }

  lemma WordsArePrintable(name: string, a: string)
    requires IsWord(name) && IsWord(a)
    ensures IsPrintable(EMPTY_CARD.(name := name, notes := Some(a)))
  {
    WordStays(name);
    WordStays(a);
  }

  lemma WordStays(s: string)
    requires IsWord(s)
    ensures Escape(s) == s && Strip(Meant(s)) == s && Strip(s) == s && NoLoneCr(s)
  {
    NoReturnIsMeant(s);
    WordIsEscaped(s);
  }

  lemma WordIsEscaped(s: string)
    requires IsWord(s)
    ensures Escape(s) == s && Strip(s) == s
  {
    RStripUnique(s, s);
    EscapeIsPerCharacter(s);
    NoReturnIsMeant(s);
    NothingToEscape(s);
  }
}
