/**
 What an import of vCards leaves behind (backend/app/importers/vcard.py, `import_vcards`), said
 of the stored rows alone: who is taken for whom, which cards are taken and under which
 organization each of them is filed.
 */
module VcardFiling {
  import opened Options
  import opened Text
  import opened VcardCard
  import opened VcardImport

  // ---- Who is taken for whom ----

  /** One of the two addresses of a card, without regard to case. */
  predicate HasMail(c: Card, address: string, names: Names) {
    || (c.email.Some? && Strip(c.email.value) != "" && address == names.casefold(Strip(c.email.value)))
    || (c.emailSecondary.Some? && Strip(c.emailSecondary.value) != ""
        && address == names.casefold(Strip(c.emailSecondary.value)))
  }

  predicate HasNoMail(c: Card) {
    && (c.email.None? || Strip(c.email.value) == "")
    && (c.emailSecondary.None? || Strip(c.emailSecondary.value) == "")
  }

  /** An address, or that there is none. */
  predicate IsReachedBy(c: Card, address: string, names: Names) {
    HasMail(c, address, names) || (HasNoMail(c) && address == "")
  }

  /** The same name, and an address in common or none on either side. */
  ghost predicate SamePerson(a: Card, b: Card, names: Names) {
    && names.casefold(Strip(a.name)) == names.casefold(Strip(b.name))
    && exists address :: IsReachedBy(a, address, names) && IsReachedBy(b, address, names)
  }

  lemma IdentitiesAre(c: Card, names: Names, id: Identity)
    ensures id in Identities(c, names) <==> id.0 == names.casefold(Strip(c.name)) && IsReachedBy(c, id.1, names)
  {
    var addresses := AddressKeys(c.email, c.emailSecondary, names);
    assert addresses == {} <==> HasNoMail(c) by {
      if IsAddress(c.email) {
        assert names.casefold(Strip(c.email.value)) in addresses;
      }
      if IsAddress(c.emailSecondary) {
        assert names.casefold(Strip(c.emailSecondary.value)) in addresses;
      }
    }
    assert id.1 in addresses <==> HasMail(c, id.1, names);
  }

  /** Two cards are taken for the same contact exactly if they are the same person. */
  lemma RecognisedExactly(a: Card, b: Card, names: Names)
    ensures Identities(a, names) * Identities(b, names) != {} <==> SamePerson(a, b, names)
  {
    if id :| id in Identities(a, names) * Identities(b, names) {
      IdentitiesAre(a, names, id);
      IdentitiesAre(b, names, id);
    }
    if address :| SamePerson(a, b, names) && IsReachedBy(a, address, names) && IsReachedBy(b, address, names) {
      var id := (names.casefold(Strip(a.name)), address);
      IdentitiesAre(a, names, id);
      IdentitiesAre(b, names, id);
      assert id in Identities(a, names) * Identities(b, names);
    }
  }

  /** A stored contact is the same person. */
  ghost predicate IsAmong(item: Card, contacts: seq<Contact>, names: Names) {
    exists k :: 0 <= k < |contacts| && SamePerson(contacts[k].card, item, names)
  }

  lemma AmongOneMore(item: Card, contacts: seq<Contact>, c: Contact, names: Names)
    ensures IsAmong(item, contacts + [c], names) <==> IsAmong(item, contacts, names) || SamePerson(c.card, item, names)
  {
    var all := contacts + [c];
    assert all[|contacts|] == c;
    if k :| 0 <= k < |contacts| && SamePerson(contacts[k].card, item, names) {
      assert all[k] == contacts[k];
    }
  }

  lemma KnownIsEither(item: Card, known: set<Identity>, ids: set<Identity>, names: Names)
    ensures IsKnown(item, known + ids, names) <==> IsKnown(item, known, names) || Identities(item, names) * ids != {}
  {
    var own := Identities(item, names);
    assert own * (known + ids) == own * known + own * ids;
  }

  /** A card is known exactly if a stored contact is the same person. */
  lemma {:induction false} KnownExactly(item: Card, contacts: seq<Contact>, names: Names)
    ensures IsKnown(item, KnownOf(contacts, names), names) <==> IsAmong(item, contacts, names)
  {
    if contacts != [] {
      var n := |contacts| - 1;
      KnownExactly(item, contacts[..n], names);
      RecognisedExactly(item, contacts[n].card, names);
      SamePersonIsSymmetric(item, contacts[n].card, names);
      KnownIsEither(item, KnownOf(contacts[..n], names), Identities(contacts[n].card, names), names);
      AmongOneMore(item, contacts[..n], contacts[n], names);
      assert contacts == contacts[..n] + [contacts[n]];
    }
  }

  lemma SamePersonIsSymmetric(a: Card, b: Card, names: Names)
    ensures SamePerson(a, b, names) <==> SamePerson(b, a, names)
  {
  }

  // ---- Under which organization ----

  /** The last live organization that is called so, without regard to case. */
  ghost predicate IsLastNamed(organizations: seq<Organization>, j: int, key: string, names: Names) {
    && 0 <= j < |organizations| && !organizations[j].archived && names.lower(organizations[j].name) == key
    && forall k | j < k < |organizations| && !organizations[k].archived :: names.lower(organizations[k].name) != key
  }

  ghost predicate IsNamed(organizations: seq<Organization>, key: string, names: Names) {
    exists j :: 0 <= j < |organizations| && !organizations[j].archived && names.lower(organizations[j].name) == key
  }

  lemma {:induction false} ByNameExactly(organizations: seq<Organization>, key: string, names: Names) returns (j: int)
    ensures key in ByName(organizations, names) <==> IsNamed(organizations, key, names)
    ensures key in ByName(organizations, names) ==>
              IsLastNamed(organizations, j, key, names) && ByName(organizations, names)[key] == organizations[j].id
  {
    j := -1;
    if organizations != [] {
      var n := |organizations| - 1;
      j := ByNameExactly(organizations[..n], key, names);
      assert forall k | 0 <= k < n :: organizations[..n][k] == organizations[k];
      if !organizations[n].archived && names.lower(organizations[n].name) == key {
        j := n;
      }
    }
  }

  /**
   A contact of an organization is filed under the last live one of its name, and one without
   any is filed under none.
   */
  ghost predicate IsFiled(c: Contact, organizations: seq<Organization>, names: Names) {
    match c.card.organization
    case None => c.organizationId == None
    case Some(text) =>
      if text == "" then c.organizationId == None
      else exists j :: IsLastNamed(organizations, j, names.lower(Strip(text)), names) && c.organizationId == Some(organizations[j].id)
  }

  /** The card as it was read, with every tag once. */
  ghost predicate IsStored(c: Contact, item: Card, organizations: seq<Organization>, names: Names) {
    c.card == item.(tags := Distinct(item.tags)) && !c.archived && IsFiled(c, organizations, names)
  }

  ghost predicate IsIndexed(s: State, names: Names) { s.byName == ByName(s.organizations, names) }

  lemma ByNameAppend(organizations: seq<Organization>, o: Organization, names: Names)
    requires !o.archived
    ensures ByName(organizations + [o], names) == ByName(organizations, names)[names.lower(o.name) := o.id]
  {
    assert (organizations + [o])[..|organizations|] == organizations;
  }

  /** An organization of a new name changes nothing for those that are filed. */
  lemma FiledStays(c: Contact, organizations: seq<Organization>, o: Organization, names: Names)
    requires IsFiled(c, organizations, names) && !IsNamed(organizations, names.lower(o.name), names)
    ensures IsFiled(c, organizations + [o], names)
  {
    if c.card.organization.Some? && c.card.organization.value != "" {
      var key := names.lower(Strip(c.card.organization.value));
      var j :| IsLastNamed(organizations, j, key, names) && c.organizationId == Some(organizations[j].id);
      assert IsLastNamed(organizations + [o], j, key, names);
    }
  }

  /** One card: nothing happens, or it is stored and filed, and its organization is made if there is none of its name. */
  ghost predicate OneIsImported(s: State, t: State, item: Card, names: Names) {
    && |t.contacts| == |s.contacts| + 1 && s.contacts <= t.contacts
    && IsStored(t.contacts[|s.contacts|], item, t.organizations, names)
    && (t.organizations == s.organizations
        || (item.organization.Some? && item.organization.value != ""
            && !IsNamed(s.organizations, names.lower(Strip(item.organization.value)), names)
            && t.organizations == s.organizations + [Organization(s.nextId, Strip(item.organization.value), false)]))
  }

  lemma CardIsImported(s: State, item: Card, names: Names)
    requires IsIndexed(s, names)
    ensures var t := ImportCard(s, item, names);
            && IsIndexed(t, names)
            && t.nextId - s.nextId == |t.organizations| - |s.organizations|
            && (if item.name != "" && !IsKnown(item, s.known, names) then OneIsImported(s, t, item, names)
                else t.contacts == s.contacts && t.organizations == s.organizations)
  {
    if item.name != "" && !IsKnown(item, s.known, names) && IsFilled(item.organization) {
      var key := names.lower(Strip(item.organization.value));
      var j := ByNameExactly(s.organizations, key, names);
      if key !in s.byName {
        ByNameAppend(s.organizations, Organization(s.nextId, Strip(item.organization.value), false), names);
        var i := ByNameExactly(ImportCard(s, item, names).organizations, key, names);
      }
    }
  }

  // ---- Which cards are taken ----

  ghost predicate AreIn(taken: seq<nat>, items: seq<Card>) {
    (forall k | 0 <= k < |taken| :: taken[k] < |items|) && forall k, l | 0 <= k < l < |taken| :: taken[k] < taken[l]
  }

  /** A card with a name that is neither a stored contact nor an earlier card that was taken. */
  ghost predicate IsWanted(contacts: seq<Contact>, items: seq<Card>, taken: seq<nat>, i: nat, names: Names)
    requires AreIn(taken, items) && i < |items|
  {
    && items[i].name != ""
    && (forall k | 0 <= k < |contacts| :: !SamePerson(contacts[k].card, items[i], names))
    && (forall k | 0 <= k < |taken| && taken[k] < i :: !SamePerson(items[taken[k]], items[i], names))
  }

  /** The cards that an import takes: every one that is wanted, in order. */
  ghost predicate AreTaken(contacts: seq<Contact>, items: seq<Card>, taken: seq<nat>, names: Names) {
    && AreIn(taken, items)
    && forall i: nat | i < |items| :: i in taken <==> IsWanted(contacts, items, taken, i, names)
  }

  /** A contact for each card that was taken, in order, behind those that were there. */
  ghost predicate AreStored(
      contacts: seq<Contact>, before: nat, items: seq<Card>, taken: seq<nat>, organizations: seq<Organization>, names: Names) {
    && |contacts| == before + |taken|
    && forall k | 0 <= k < |taken| ::
         taken[k] < |items| && IsStored(contacts[before + k], items[taken[k]], organizations, names)
  }

  lemma SamePersonStored(c: Contact, item: Card, other: Card, organizations: seq<Organization>, names: Names)
    requires IsStored(c, item, organizations, names)
    ensures SamePerson(c.card, other, names) <==> SamePerson(item, other, names)
  {
    assert forall address :: IsReachedBy(c.card, address, names) <==> IsReachedBy(item, address, names);
  }

  /** A card is known exactly if it is a stored contact or a card that was taken. */
  lemma KnownIsNotWanted(before: seq<Contact>, contacts: seq<Contact>, items: seq<Card>, taken: seq<nat>,
                         item: Card, organizations: seq<Organization>, names: Names)
    requires before <= contacts && AreIn(taken, items) && AreStored(contacts, |before|, items, taken, organizations, names)
    ensures item.name != "" && !IsKnown(item, KnownOf(contacts, names), names)
       <==> IsWanted(before, items + [item], taken, |items|, names)
  {
    KnownExactly(item, contacts, names);
    forall k | 0 <= k < |taken|
      ensures SamePerson(contacts[|before| + k].card, item, names) <==> SamePerson(items[taken[k]], item, names)
    {
      SamePersonStored(contacts[|before| + k], items[taken[k]], item, organizations, names);
    }
    forall k | 0 <= k < |taken| ensures (items + [item])[taken[k]] == items[taken[k]] && taken[k] < |items| {
    }
    if k :| 0 <= k < |contacts| && SamePerson(contacts[k].card, item, names) {
      if k >= |before| {
        assert SamePerson(items[taken[k - |before|]], item, names);
      } else {
        assert before[k] == contacts[k];
      }
    }
  }

  /** One card more: who was wanted before still is, and it is decided whether it is. */
  lemma TakenOneMore(contacts: seq<Contact>, items: seq<Card>, item: Card, taken: seq<nat>, names: Names)
    requires AreTaken(contacts, items, taken, names)
    ensures AreTaken(contacts, items + [item], TakenWith(contacts, items, item, taken, names), names)
  {
    var all := items + [item];
    var more := TakenWith(contacts, items, item, taken, names);
    assert AreIn(more, all);
    forall i: nat | i < |all| ensures i in more <==> IsWanted(contacts, all, more, i, names) {
      WantedAlike(contacts, items, item, taken, more, i, names);
    }
  }

  lemma WantedAlike(contacts: seq<Contact>, items: seq<Card>, item: Card, taken: seq<nat>, more: seq<nat>, i: nat, names: Names)
    requires AreIn(taken, items) && AreIn(more, items + [item]) && i <= |items|
    requires more == taken || more == taken + [|items|]
    ensures i < |items| ==> (i in more <==> i in taken)
    ensures i < |items| ==> (IsWanted(contacts, items + [item], more, i, names) <==> IsWanted(contacts, items, taken, i, names))
    ensures i == |items| ==> i !in taken
    ensures i == |items| ==>
              (IsWanted(contacts, items + [item], more, i, names) <==> IsWanted(contacts, items + [item], taken, i, names))
  {
    var all := items + [item];
    assert forall k | 0 <= k < |items| :: all[k] == items[k];
    assert forall k | 0 <= k < |taken| :: more[k] == taken[k];
  }

  ghost predicate IsImported(s: State, r: State, items: seq<Card>, taken: seq<nat>, names: Names) {
    && s.contacts <= r.contacts && IsIndexed(r, names) && KnowsItsContacts(r, names)
    && AreTaken(s.contacts, items, taken, names)
    && AreStored(r.contacts, |s.contacts|, items, taken, r.organizations, names)
  }

  lemma StoredStay(contacts: seq<Contact>, before: nat, items: seq<Card>, taken: seq<nat>,
                   organizations: seq<Organization>, o: Organization, names: Names)
    requires AreStored(contacts, before, items, taken, organizations, names)
    requires !IsNamed(organizations, names.lower(o.name), names)
    ensures AreStored(contacts, before, items, taken, organizations + [o], names)
  {
    forall k | 0 <= k < |taken| ensures IsStored(contacts[before + k], items[taken[k]], organizations + [o], names) {
      FiledStays(contacts[before + k], organizations, o, names);
    }
  }

  lemma StoredInMore(contacts: seq<Contact>, before: nat, items: seq<Card>, item: Card, taken: seq<nat>,
                     organizations: seq<Organization>, names: Names)
    requires AreStored(contacts, before, items, taken, organizations, names)
    ensures AreStored(contacts, before, items + [item], taken, organizations, names)
  {
    forall k | 0 <= k < |taken|
      ensures taken[k] < |items + [item]| && IsStored(contacts[before + k], (items + [item])[taken[k]], organizations, names)
    {
      assert (items + [item])[taken[k]] == items[taken[k]];
    }
  }

  /** One card more that is taken. */
  lemma StoredOneMore(contacts: seq<Contact>, before: nat, items: seq<Card>, item: Card, taken: seq<nat>,
                      organizations: seq<Organization>, c: Contact, names: Names)
    requires AreStored(contacts, before, items, taken, organizations, names) && IsStored(c, item, organizations, names)
    ensures AreStored(contacts + [c], before, items + [item], taken + [|items|], organizations, names)
  {
    StoredInMore(contacts, before, items, item, taken, organizations, names);
    var all, more := contacts + [c], taken + [|items|];
    forall k | 0 <= k < |more|
      ensures more[k] < |items + [item]| && IsStored(all[before + k], (items + [item])[more[k]], organizations, names)
    {
      if k < |taken| {
        assert all[before + k] == contacts[before + k] && more[k] == taken[k];
      }
    }
  }

  /** What one card does to what is stored. */
  lemma StoredAfter(r: State, before: nat, items: seq<Card>, item: Card, taken: seq<nat>, names: Names)
    requires IsIndexed(r, names) && AreStored(r.contacts, before, items, taken, r.organizations, names)
    ensures var t := ImportCard(r, item, names);
            var more := if item.name != "" && !IsKnown(item, r.known, names) then taken + [|items|] else taken;
            r.contacts <= t.contacts && AreStored(t.contacts, before, items + [item], more, t.organizations, names)
  {
    var t := ImportCard(r, item, names);
    CardIsImported(r, item, names);
    if t.organizations != r.organizations {
      StoredStay(r.contacts, before, items, taken, r.organizations, t.organizations[|r.organizations|], names);
    }
    if item.name != "" && !IsKnown(item, r.known, names) {
      assert t.contacts == r.contacts + [t.contacts[|r.contacts|]];
      StoredOneMore(r.contacts, before, items, item, taken, t.organizations, t.contacts[|r.contacts|], names);
    } else {
      StoredInMore(r.contacts, before, items, item, taken, t.organizations, names);
    }
  }

  /** The cards that are taken if one more is read. */
  ghost function TakenWith(contacts: seq<Contact>, items: seq<Card>, item: Card, taken: seq<nat>, names: Names): seq<nat>
    requires AreIn(taken, items)
  {
    if IsWanted(contacts, items + [item], taken, |items|, names) then taken + [|items|] else taken
  }

  lemma ImportedOneMore(s: State, r: State, items: seq<Card>, item: Card, taken: seq<nat>, names: Names)
    requires IsImported(s, r, items, taken, names)
    ensures IsImported(s, ImportCard(r, item, names), items + [item], TakenWith(s.contacts, items, item, taken, names), names)
  {
    CardIsImported(r, item, names);
    ImportCardKnows(r, item, names);
    KnownIsNotWanted(s.contacts, r.contacts, items, taken, item, r.organizations, names);
    TakenOneMore(s.contacts, items, item, taken, names);
    StoredAfter(r, |s.contacts|, items, item, taken, names);
  }

  lemma NothingIsImported(s: State, names: Names)
    requires IsIndexed(s, names) && KnowsItsContacts(s, names)
    ensures IsImported(s, ImportCards(s, [], names), [], [], names)
  {
  }

  lemma AllOneMore(s: State, items: seq<Card>, item: Card, taken: seq<nat>, names: Names) returns (more: seq<nat>)
    requires IsImported(s, ImportCards(s, items, names), items, taken, names)
    ensures IsImported(s, ImportCards(s, items + [item], names), items + [item], more, names)
  {
    more := TakenWith(s.contacts, items, item, taken, names);
    ImportedOneMore(s, ImportCards(s, items, names), items, item, taken, names);
    CardsOneMore(s, items, item, names);
  }

  lemma {:induction false} CardsAreImported(s: State, items: seq<Card>, names: Names) returns (taken: seq<nat>)
    requires IsIndexed(s, names) && KnowsItsContacts(s, names)
    ensures IsImported(s, ImportCards(s, items, names), items, taken, names)
  {
    if items == [] {
      taken := [];
      NothingIsImported(s, names);
    } else {
      var init, item := items[..|items| - 1], items[|items| - 1];
      taken := CardsAreImported(s, init, names);
      taken := AllOneMore(s, init, item, taken, names);
      assert items == init + [item];
    }
  }

  /**
   After an import the contacts are those from before and, in the order of the file, one for each
   card that has a name and is not the same person as a contact or an earlier card; each is filed
   under the last live organization of its name.
   */
  lemma ImportedExactly(
      contacts: seq<Contact>, organizations: seq<Organization>, nextId: int, items: seq<Card>, names: Names)
    ensures var r := ImportCards(Start(contacts, organizations, nextId, names), items, names);
            && contacts <= r.contacts
            && exists taken: seq<nat> ::
                 && AreTaken(contacts, items, taken, names)
                 && AreStored(r.contacts, |contacts|, items, taken, r.organizations, names)
  {
    var taken := CardsAreImported(Start(contacts, organizations, nextId, names), items, names);
  }

  // ---- Which organizations are made ----

  /** One that no live organization before it is called like, for a contact that is filed under it. */
  ghost predicate IsMade(organizations: seq<Organization>, first: nat, firstId: int, j: nat, contacts: seq<Contact>, names: Names) {
    && first <= j < |organizations| && organizations[j].id == firstId + j - first && !organizations[j].archived
    && !IsNamed(organizations[..j], names.lower(organizations[j].name), names)
    && exists k :: 0 <= k < |contacts| && IsNamesake(contacts[k], organizations[j])
  }

  predicate IsNamesake(c: Contact, o: Organization) {
    c.organizationId == Some(o.id) && c.card.organization.Some? && c.card.organization.value != ""
    && o.name == Strip(c.card.organization.value)
  }

  lemma MadeStays(organizations: seq<Organization>, more: seq<Organization>, first: nat, firstId: int, j: nat,
                  contacts: seq<Contact>, others: seq<Contact>, names: Names)
    requires IsMade(organizations, first, firstId, j, contacts, names) && organizations <= more && contacts <= others
    ensures IsMade(more, first, firstId, j, others, names)
  {
    assert more[..j] == organizations[..j];
    var k :| 0 <= k < |contacts| && IsNamesake(contacts[k], organizations[j]);
    assert others[k] == contacts[k];
  }

  lemma OneIsMade(s: State, item: Card, names: Names)
    requires IsIndexed(s, names)
    ensures var t := ImportCard(s, item, names);
            && s.organizations <= t.organizations && s.contacts <= t.contacts
            && (t.organizations != s.organizations ==>
                  |t.organizations| == |s.organizations| + 1
                  && IsMade(t.organizations, |s.organizations|, s.nextId, |s.organizations|, t.contacts, names))
  {
    var t := ImportCard(s, item, names);
    CardIsImported(s, item, names);
    if t.organizations != s.organizations {
      assert t.organizations[..|s.organizations|] == s.organizations;
      assert IsNamesake(t.contacts[|s.contacts|], t.organizations[|s.organizations|]);
    }
  }

  lemma {:induction false} AllAreMade(s: State, items: seq<Card>, j: nat, names: Names)
    requires IsIndexed(s, names)
    ensures var r := ImportCards(s, items, names);
            && IsIndexed(r, names) && s.organizations <= r.organizations
            && r.nextId - s.nextId == |r.organizations| - |s.organizations|
            && (|s.organizations| <= j < |r.organizations| ==>
                  IsMade(r.organizations, |s.organizations|, s.nextId, j, r.contacts, names))
  {
    if items != [] {
      var n := |items| - 1;
      var before := ImportCards(s, items[..n], names);
      AllAreMade(s, items[..n], j, names);
      CardIsImported(before, items[n], names);
      OneIsMade(before, items[n], names);
      if |s.organizations| <= j < |before.organizations| {
        var r := ImportCard(before, items[n], names);
        MadeStays(before.organizations, r.organizations, |s.organizations|, s.nextId, j, before.contacts, r.contacts, names);
      }
    }
  }

  /** No organization is lost or changed, and each new one is of a new name and has its contact. */
  lemma MadeOnlyWhenNeeded(
      contacts: seq<Contact>, organizations: seq<Organization>, nextId: int, items: seq<Card>, names: Names)
    ensures var r := ImportCards(Start(contacts, organizations, nextId, names), items, names);
            && organizations <= r.organizations
            && forall j: nat | |organizations| <= j < |r.organizations| ::
                 IsMade(r.organizations, |organizations|, nextId, j, r.contacts, names)
  {
    var s := Start(contacts, organizations, nextId, names);
    var r := ImportCards(s, items, names);
    AllAreMade(s, items, 0, names);
    forall j: nat | |organizations| <= j < |r.organizations|
      ensures IsMade(r.organizations, |organizations|, nextId, j, r.contacts, names)
    {
      AllAreMade(s, items, j, names);
    }
  }

  // ---- What is said of the others ----

  /** The numbers of the cards without a name, from one on. */
  ghost predicate AreNameless(numbers: seq<nat>, items: seq<Card>) {
    && (forall k, l | 0 <= k < l < |numbers| :: numbers[k] < numbers[l])
    && forall number: nat :: number in numbers <==> 1 <= number <= |items| && items[number - 1].name == ""
  }

  lemma OneMoreNameless(numbers: seq<nat>, items: seq<Card>, item: Card)
    requires AreNameless(numbers, items)
    ensures AreNameless(if item.name == "" then numbers + [|items| + 1] else numbers, items + [item])
  {
    var all := items + [item];
    var more := if item.name == "" then numbers + [|items| + 1] else numbers;
    forall k | 0 <= k < |numbers| ensures numbers[k] <= |items| {
      assert numbers[k] in numbers;
    }
    forall number: nat ensures number in more <==> 1 <= number <= |all| && all[number - 1].name == "" {
      assert number in more <==> number in numbers || (item.name == "" && number == |items| + 1);
    }
  }

  lemma CardIsCounted(s: State, item: Card, names: Names)
    ensures var t := ImportCard(s, item, names).summary;
            && t.total == s.summary.total + 1
            && t.nameless == if item.name == "" then s.summary.nameless + [s.summary.total + 1] else s.summary.nameless
  {
  }

  lemma NamelessOneMore(s: State, items: seq<Card>, item: Card, names: Names)
    requires ImportCards(s, items, names).summary.total == |items|
    requires AreNameless(ImportCards(s, items, names).summary.nameless, items)
    ensures ImportCards(s, items + [item], names).summary.total == |items + [item]|
    ensures AreNameless(ImportCards(s, items + [item], names).summary.nameless, items + [item])
  {
    var before := ImportCards(s, items, names);
    CardIsCounted(before, item, names);
    OneMoreNameless(before.summary.nameless, items, item);
    CardsOneMore(s, items, item, names);
  }

  lemma CardsOneMore(s: State, items: seq<Card>, item: Card, names: Names)
    ensures ImportCards(s, items + [item], names) == ImportCard(ImportCards(s, items, names), item, names)
  {
    assert (items + [item])[..|items|] == items;
  }

  lemma {:induction false} NamelessAreListed(s: State, items: seq<Card>, names: Names)
    requires s.summary == Summary(0, 0, 0, 0, [])
    ensures ImportCards(s, items, names).summary.total == |items|
    ensures AreNameless(ImportCards(s, items, names).summary.nameless, items)
  {
    if items != [] {
      var init, item := items[..|items| - 1], items[|items| - 1];
      NamelessAreListed(s, init, names);
      NamelessOneMore(s, init, item, names);
      assert items == init + [item];
    }
  }

  // ---- Tags ----

  /** Where each of some elements occurs first. */
  ghost predicate AreFirst(s: seq<string>, once: seq<string>, places: seq<nat>) {
    && |places| == |once|
    && (forall k | 0 <= k < |places| :: places[k] < |s| && s[places[k]] == once[k])
    && (forall k, l | 0 <= k < l < |places| :: places[k] < places[l])
    && forall i: nat | i < |s| :: i in places <==> s[i] !in s[..i]
  }

  lemma OneMoreFirst(s: seq<string>, x: string, once: seq<string>, places: seq<nat>)
    requires AreFirst(s, once, places) && forall y :: y in once <==> y in s
    ensures x in s ==> AreFirst(s + [x], once, places)
    ensures x !in s ==> AreFirst(s + [x], once + [x], places + [|s|])
  {
    var all := s + [x];
    forall i: nat | i < |all| ensures all[..i] == s[..i] && (i < |s| ==> all[i] == s[i]) {
    }
    assert all[..|s|] == s;
  }

  /** Nothing is lost. */
  ghost predicate SameElements(s: seq<string>, once: seq<string>) { forall x :: x in once <==> x in s }

  lemma DistinctOneMore(s: seq<string>, x: string, places: seq<nat>) returns (more: seq<nat>)
    requires AreFirst(s, Distinct(s), places) && SameElements(s, Distinct(s))
    ensures AreFirst(s + [x], Distinct(s + [x]), more) && SameElements(s + [x], Distinct(s + [x]))
  {
    OneMoreFirst(s, x, Distinct(s), places);
    assert (s + [x])[..|s|] == s;
    more := if x in s then places else places + [|s|];
  }

  /** Each tag once, where it stood first. */
  lemma {:induction false} DistinctExactly(s: seq<string>) returns (places: seq<nat>)
    ensures AreFirst(s, Distinct(s), places) && SameElements(s, Distinct(s))
  {
    if s == [] {
      places := [];
    } else {
      var init, last := s[..|s| - 1], s[|s| - 1];
      places := DistinctExactly(init);
      places := DistinctOneMore(init, last, places);
      assert s == init + [last];
    }
  }
}
