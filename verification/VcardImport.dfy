/**
 Importing a vCard file (backend/app/importers/vcard.py, `import_vcards`): a card whose name and
 address already belong to a contact is skipped, so that the same file twice changes nothing.
 */
module VcardImport {
  import opened Options
  import opened Text
  import opened VcardCard

  /** `str.casefold()` and `str.lower()` of the Unicode tables. */
  datatype Names = Names(casefold: string -> string, lower: string -> string)

  /** What a contact is recognised by: its name with one of its addresses, or with none. */
  type Identity = (string, string)

  /** A stored contact; `card.organization` is the name of the organization it is filed under. */
  datatype Contact = Contact(card: Card, organizationId: Option<int>, archived: bool)

  datatype Organization = Organization(id: int, name: string, archived: bool)

  datatype Summary = Summary(total: nat, imported: nat, createdOrganizations: nat, skipped: nat, nameless: seq<nat>)

  predicate IsAddress(email: Option<string>) { email.Some? && Strip(email.value) != "" }

  function AddressKeys(email: Option<string>, emailSecondary: Option<string>, names: Names): set<string> {
    (if IsAddress(email) then {names.casefold(Strip(email.value))} else {})
    + (if IsAddress(emailSecondary) then {names.casefold(Strip(emailSecondary.value))} else {})
  }

  /** `_identities` */
  function Identities(card: Card, names: Names): (ids: set<Identity>)
    ensures ids != {}
  {
    var key := names.casefold(Strip(card.name));
    var addresses := AddressKeys(card.email, card.emailSecondary, names);
    if addresses == {} then {(key, "")}
    else
      var ids := set a | a in addresses :: (key, a);
      assert exists a :: a in addresses && (key, a) in ids;
      ids
  }

  /** The identities of all stored contacts. */
  function KnownOf(contacts: seq<Contact>, names: Names): set<Identity> {
    if contacts == [] then {}
    else KnownOf(contacts[..|contacts| - 1], names) + Identities(contacts[|contacts| - 1].card, names)
  }

  /** `{org.name.lower(): org for org in live organizations}` */
  function ByName(organizations: seq<Organization>, names: Names): map<string, int> {
    if organizations == [] then map[]
    else
      var n := |organizations| - 1;
      var before := ByName(organizations[..n], names);
      if organizations[n].archived then before
      else before[names.lower(organizations[n].name) := organizations[n].id]
  }

  /** The stored rows and what the import keeps beside them. */
  datatype State = State(
    contacts: seq<Contact>, organizations: seq<Organization>, nextId: int,
    byName: map<string, int>, known: set<Identity>, summary: Summary)

  /** The organization a card is filed under, created if nobody has heard of it. */
  function FileUnder(s: State, organization: Option<string>, names: Names): (State, Option<int>) {
    if !IsFilled(organization) then (s, None)
    else
      var key := names.lower(Strip(organization.value));
      if key in s.byName then (s, Some(s.byName[key]))
      else
        (s.(organizations := s.organizations + [Organization(s.nextId, Strip(organization.value), false)],
            nextId := s.nextId + 1,
            byName := s.byName[key := s.nextId],
            summary := s.summary.(createdOrganizations := s.summary.createdOrganizations + 1)),
         Some(s.nextId))
  }

  function ImportCard(s: State, item: Card, names: Names): State {
    var t := s.(summary := s.summary.(total := s.summary.total + 1));
    if item.name == "" then t.(summary := t.summary.(nameless := t.summary.nameless + [t.summary.total]))
    else if Identities(item, names) * t.known != {} then t.(summary := t.summary.(skipped := t.summary.skipped + 1))
    else
      var (u, id) := FileUnder(t.(known := t.known + Identities(item, names)), item.organization, names);
      u.(contacts := u.contacts + [Contact(item.(tags := Distinct(item.tags)), id, false)],
         summary := u.summary.(imported := u.summary.imported + 1))
  }

  function ImportCards(s: State, items: seq<Card>, names: Names): State {
    if items == [] then s
    else ImportCard(ImportCards(s, items[..|items| - 1], names), items[|items| - 1], names)
  }

  function Start(contacts: seq<Contact>, organizations: seq<Organization>, nextId: int, names: Names): State {
    State(contacts, organizations, nextId, ByName(organizations, names), KnownOf(contacts, names),
          Summary(0, 0, 0, 0, []))
  }

  /** The contacts and organizations of one user, and what an import keeps beside them. */
  class Crm {
    var contacts: seq<Contact>
    var organizations: seq<Organization>
    var nextId: int
    var byName: map<string, int>
    var known: set<Identity>
    var summary: Summary

    ghost function Value(): State
      reads this
    {
      State(contacts, organizations, nextId, byName, known, summary)
    }

    method KnownIdentities(names: Names) returns (known: set<Identity>)
      ensures known == KnownOf(contacts, names)
    {
      known := {};
      var i := 0;
      while i < |contacts|
        invariant 0 <= i <= |contacts| && known == KnownOf(contacts[..i], names)
      {
        KnownOneMore(contacts, i, names);
        known := known + Identities(contacts[i].card, names);
        i := i + 1;
      }
      assert contacts[..i] == contacts;
    }

    /** The organization of that name, created if nobody has heard of it. */
    method FindOrCreate(organization: Option<string>, names: Names) returns (id: Option<int>)
      modifies this
      ensures (Value(), id) == FileUnder(old(Value()), organization, names)
    {
      id := None;
      if IsFilled(organization) {
        var key := names.lower(Strip(organization.value));
        if key in byName {
          id := Some(byName[key]);
        } else {
          organizations := organizations + [Organization(nextId, Strip(organization.value), false)];
          byName := byName[key := nextId];
          id := Some(nextId);
          nextId := nextId + 1;
          summary := summary.(createdOrganizations := summary.createdOrganizations + 1);
        }
      }
    }

    /** The body of the loop. */
    method ImportOne(item: Card, names: Names)
      modifies this
      ensures Value() == ImportCard(old(Value()), item, names)
    {
      summary := summary.(total := summary.total + 1);
      if item.name == "" {
        summary := summary.(nameless := summary.nameless + [summary.total]);
        return;
      }
      var identities := Identities(item, names);
      if identities * known != {} {
        summary := summary.(skipped := summary.skipped + 1);
        return;
      }
      known := known + identities;
      ghost var counted := old(summary).(total := old(summary).total + 1);
      assert Value() == old(Value()).(summary := counted, known := known);
      var id := FindOrCreate(item.organization, names);
      contacts := contacts + [Contact(item.(tags := Distinct(item.tags)), id, false)];
      summary := summary.(imported := summary.imported + 1);
    }

    method ImportVcards(text: string, decode: Decoder, names: Names)
      modifies this
      ensures Value() == ImportCards(Start(old(contacts), old(organizations), old(nextId), names), Parsed(text, decode), names)
    {
      var parsed := ParseVcards(text, decode);
      byName := ByName(organizations, names);
      known := KnownIdentities(names);
      summary := Summary(0, 0, 0, 0, []);
      ghost var start := Value();
      for i := 0 to |parsed|
        invariant Value() == ImportCards(start, parsed[..i], names)
      {
        ImportOneMore(start, parsed, i, names);
        ImportOne(parsed[i], names);
      }
      assert parsed[..|parsed|] == parsed;
    }
  }

  lemma KnownOneMore(contacts: seq<Contact>, i: nat, names: Names)
    requires i < |contacts|
    ensures KnownOf(contacts[..i + 1], names) == KnownOf(contacts[..i], names) + Identities(contacts[i].card, names)
  {
    assert contacts[..i + 1][..i] == contacts[..i];
  }

  lemma ImportOneMore(s: State, items: seq<Card>, i: nat, names: Names)
    requires i < |items|
    ensures ImportCards(s, items[..i + 1], names) == ImportCard(ImportCards(s, items[..i], names), items[i], names)
  {
    assert items[..i + 1][..i] == items[..i];
  }

  // ---- Every card is accounted for ----

  lemma {:induction false} CardsAddUp(s: State, items: seq<Card>, names: Names)
    requires s.summary == Summary(0, 0, 0, 0, [])
    ensures var r := ImportCards(s, items, names);
            && r.summary.total == |items| == r.summary.imported + r.summary.skipped + |r.summary.nameless|
            && |r.contacts| == |s.contacts| + r.summary.imported && s.contacts <= r.contacts
            && |r.organizations| == |s.organizations| + r.summary.createdOrganizations
            && s.organizations <= r.organizations
  {
    if items != [] {
      CardsAddUp(s, items[..|items| - 1], names);
    }
  }

  // ---- What is known ----

  ghost predicate KnowsItsContacts(s: State, names: Names) {
    s.known == KnownOf(s.contacts, names)
  }

  lemma KnownAfterAppend(contacts: seq<Contact>, c: Contact, names: Names)
    ensures KnownOf(contacts + [c], names) == KnownOf(contacts, names) + Identities(c.card, names)
  {
    assert (contacts + [c])[..|contacts|] == contacts;
  }

  lemma ImportCardKnows(s: State, item: Card, names: Names)
    requires KnowsItsContacts(s, names)
    ensures KnowsItsContacts(ImportCard(s, item, names), names)
    ensures s.known <= ImportCard(s, item, names).known
    ensures item.name != "" ==> Identities(item, names) * ImportCard(s, item, names).known != {}
  {
    if item.name != "" && Identities(item, names) * s.known == {} {
      var c := ImportCard(s, item, names).contacts[|s.contacts|];
      assert Identities(c.card, names) == Identities(item, names);
      KnownAfterAppend(s.contacts, c, names);
    }
  }

  lemma {:induction false} ImportCardsKnow(s: State, items: seq<Card>, names: Names)
    requires KnowsItsContacts(s, names)
    ensures var r := ImportCards(s, items, names); KnowsItsContacts(r, names) && s.known <= r.known
  {
    if items != [] {
      var n := |items| - 1;
      ImportCardsKnow(s, items[..n], names);
      ImportCardKnows(ImportCards(s, items[..n], names), items[n], names);
    }
  }

  lemma {:induction false} KnownGrows(s: State, items: seq<Card>, k: nat, names: Names)
    requires KnowsItsContacts(s, names) && k <= |items|
    ensures ImportCards(s, items[..k], names).known <= ImportCards(s, items, names).known
    decreases |items|
  {
    if k == |items| {
      assert items[..k] == items;
    } else {
      var init := items[..|items| - 1];
      assert init[..k] == items[..k];
      KnownGrows(s, init, k, names);
    }
  }

  /** After an import every named card of the file is known. */
  lemma ImportedCardIsKnown(s: State, items: seq<Card>, i: nat, names: Names)
    requires KnowsItsContacts(s, names) && i < |items| && items[i].name != ""
    ensures IsKnown(items[i], ImportCards(s, items, names).known, names)
  {
    var before := ImportCards(s, items[..i], names);
    ImportOneMore(s, items, i, names);
    ImportCardsKnow(s, items[..i], names);
    ImportCardKnows(before, items[i], names);
    KnownGrows(s, items, i + 1, names);
    KnownInMore(items[i], ImportCard(before, items[i], names).known, ImportCards(s, items, names).known, names);
  }

  lemma KnownInMore(item: Card, known: set<Identity>, more: set<Identity>, names: Names)
    requires IsKnown(item, known, names) && known <= more
    ensures IsKnown(item, more, names)
  {
    var id :| id in Identities(item, names) * known;
    assert id in Identities(item, names) * more;
  }

  predicate IsKnown(item: Card, known: set<Identity>, names: Names) { Identities(item, names) * known != {} }

  /** A file whose named cards are all known changes nothing. */
  lemma {:induction false} KnownCardsAreSkipped(s: State, items: seq<Card>, names: Names)
    requires forall i | 0 <= i < |items| && items[i].name != "" :: IsKnown(items[i], s.known, names)
    ensures var r := ImportCards(s, items, names);
            r == s.(summary := r.summary) && r.summary.imported == s.summary.imported
            && r.summary.createdOrganizations == s.summary.createdOrganizations
  {
    if items != [] {
      var n := |items| - 1;
      forall i | 0 <= i < n && items[..n][i].name != "" ensures IsKnown(items[..n][i], s.known, names) {
        assert items[..n][i] == items[i];
      }
      KnownCardsAreSkipped(s, items[..n], names);
    }
  }

  lemma ImportedGrows(s: State, items: seq<Card>, names: Names)
    requires items != []
    ensures var n, before := |items| - 1, ImportCards(s, items[..|items| - 1], names);
            ImportCards(s, items, names).summary.imported
              == before.summary.imported + if items[n].name != "" && !IsKnown(items[n], before.known, names) then 1 else 0
  {
  }

  predicate IsNew(items: seq<Card>, i: nat, known: set<Identity>, names: Names) {
    i < |items| && items[i].name != "" && !IsKnown(items[i], known, names)
  }

  lemma NewInFront(items: seq<Card>, i: nat, known: set<Identity>, names: Names)
    requires IsNew(items, i, known, names) && i < |items| - 1
    ensures IsNew(items[..|items| - 1], i, known, names)
  {
  }

  /** A named card that nobody knows of makes the number of imported contacts grow. */
  lemma {:induction false} NewIsImported(s: State, items: seq<Card>, i: nat, names: Names)
    requires IsNew(items, i, s.known, names)
    ensures s.summary.imported < ImportCards(s, items, names).summary.imported
  {
    var init := items[..|items| - 1];
    ImportedGrows(s, items, names);
    if i < |init| {
      NewInFront(items, i, s.known, names);
      NewIsImported(s, init, i, names);
    } else if j: nat :| IsNew(init, j, s.known, names) {
      NewIsImported(s, init, j, names);
    } else {
      NothingNewIsSkipped(s, init, names);
    }
  }

  lemma NothingNewIsSkipped(s: State, items: seq<Card>, names: Names)
    requires forall i: nat :: !IsNew(items, i, s.known, names)
    ensures ImportCards(s, items, names).known == s.known
    ensures ImportCards(s, items, names).summary.imported == s.summary.imported
  {
    forall i | 0 <= i < |items| && items[i].name != "" ensures IsKnown(items[i], s.known, names) {
      assert !IsNew(items, i, s.known, names);
    }
    KnownCardsAreSkipped(s, items, names);
  }

  /** An import adds a contact exactly if the file holds a named card that is not known. */
  lemma ImportsNothingExactly(s: State, items: seq<Card>, names: Names)
    ensures ImportCards(s, items, names).summary.imported == s.summary.imported <==>
            forall i | 0 <= i < |items| && items[i].name != "" :: IsKnown(items[i], s.known, names)
  {
    if i: nat :| IsNew(items, i, s.known, names) {
      NewIsImported(s, items, i, names);
    } else {
      NothingNewIsSkipped(s, items, names);
      assert forall i: nat | i < |items| && items[i].name != "" :: !IsNew(items, i, s.known, names);
    }
  }

  /**
   Sending the same file twice: whatever the file holds, the second import adds no contact and
   no organization.
   */
  lemma SecondImportAddsNothing(
      contacts: seq<Contact>, organizations: seq<Organization>, nextId: int, text: string, decode: Decoder, names: Names)
    ensures var items := Parsed(text, decode);
            var first := ImportCards(Start(contacts, organizations, nextId, names), items, names);
            var second := ImportCards(Start(first.contacts, first.organizations, first.nextId, names), items, names);
            && second.contacts == first.contacts && second.organizations == first.organizations
            && second.summary.imported == 0 && second.summary.createdOrganizations == 0
            && second.summary.skipped + |second.summary.nameless| == |items|
  {
    var items := Parsed(text, decode);
    var start := Start(contacts, organizations, nextId, names);
    ImportCardsKnow(start, items, names);
    var first := ImportCards(start, items, names);
    var again := Start(first.contacts, first.organizations, first.nextId, names);
    forall i | 0 <= i < |items| && items[i].name != "" ensures IsKnown(items[i], again.known, names) {
      ImportedCardIsKnown(start, items, i, names);
    }
    KnownCardsAreSkipped(again, items, names);
    CardsAddUp(again, items, names);
  }

  lemma {:induction false} KnownIsUnion(contacts: seq<Contact>, i: nat, names: Names)
    requires i < |contacts|
    ensures Identities(contacts[i].card, names) <= KnownOf(contacts, names)
  {
    var n := |contacts| - 1;
    if i < n {
      assert contacts[..n][i] == contacts[i];
      KnownIsUnion(contacts[..n], i, names);
    }
  }

  /** Two contacts with no identity in common. */
  predicate AreDistinct(a: Contact, b: Contact, names: Names) { Identities(a.card, names) !! Identities(b.card, names) }

  /** No imported contact shares an identity with any other contact, old or new. */
  lemma {:induction false} ImportedAreDistinct(s: State, items: seq<Card>, names: Names, i: nat, j: nat)
    requires KnowsItsContacts(s, names)
    requires i < j < |ImportCards(s, items, names).contacts| && |s.contacts| <= j
    ensures AreDistinct(ImportCards(s, items, names).contacts[i], ImportCards(s, items, names).contacts[j], names)
  {
    if items != [] {
      var before := ImportCards(s, items[..|items| - 1], names);
      ImportCardsKnow(s, items[..|items| - 1], names);
      NewestIsDistinct(before, items[|items| - 1], names, i);
      if j < |before.contacts| {
        ImportedAreDistinct(s, items[..|items| - 1], names, i, j);
      }
    }
  }

  /** A card leaves the contacts as they are, or adds one that shares nothing with them. */
  lemma NewestIsDistinct(s: State, item: Card, names: Names, i: nat)
    requires KnowsItsContacts(s, names)
    ensures var r := ImportCard(s, item, names); var n := |s.contacts|;
            && s.contacts <= r.contacts && n <= |r.contacts| <= n + 1
            && (i < n < |r.contacts| ==> AreDistinct(s.contacts[i], r.contacts[n], names))
  {
    if item.name != "" && Identities(item, names) * s.known == {} {
      var c := ImportCard(s, item, names).contacts[|s.contacts|];
      assert Identities(c.card, names) == Identities(item, names);
      assert ImportCard(s, item, names).contacts == s.contacts + [c];
      if i < |s.contacts| {
        KnownIsUnion(s.contacts, i, names);
        assert Identities(s.contacts[i].card, names) <= s.known;
      }
    }
  }
}
