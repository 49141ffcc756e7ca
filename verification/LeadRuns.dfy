/**
 What a run of the lead importer leaves behind (backend/app/importers/lead_generation.py): which
 organization each row is for, what the organizations are called afterwards and what domain they
 have, and which rows change nothing.
 */
module LeadRuns {
  import opened Options
  import opened LeadImport

  // ---- What is found before the first row ----

  /** The name, or the domain if there is one, in lower case. */
  predicate IsCalled(lower: string -> string, column: Column, o: Org, key: string) {
    match column
    case Name => lower(o.name) == key
    case Domain => o.domain.Some? && o.domain.value != "" && lower(o.domain.value) == key
  }

  predicate IsCalledAt(lower: string -> string, column: Column, s: Store, key: string, i: nat) {
    i < |s.order| && s.order[i] in s.orgs && IsCalled(lower, column, s.orgs[s.order[i]], key)
  }

  /** The last live organization of that name or domain, or the last archived one if none is live. */
  ghost predicate IsTheOne(lower: string -> string, column: Column, s: Store, key: string, i: nat) {
    && IsCalledAt(lower, column, s, key, i)
    && forall j: nat | IsCalledAt(lower, column, s, key, j) && j != i ::
         if s.orgs[s.order[i]].archived then j < i && s.orgs[s.order[j]].archived else j < i || s.orgs[s.order[j]].archived
  }

  lemma IsCalledIsKey(lower: string -> string, column: Column, o: Org, key: string)
    ensures IsCalled(lower, column, o, key) <==> Key(lower, column, o) == Some(key)
  {
  }

  /** A key is found exactly if some organization has it, and it leads to the last live one. */
  lemma IndexExactly(lower: string -> string, column: Column, s: Store, key: string) returns (i: nat)
    requires IsStore(s)
    ensures var keys := if column.Name? then Start(lower, s).byName else Start(lower, s).byDomain;
            && (key in keys <==> exists id :: id in s.orgs && IsCalled(lower, column, s.orgs[id], key))
            && (key in keys ==> IsTheOne(lower, column, s, key, i) && keys[key] == s.order[i])
  {
    i := 0;
    var keys := Index(lower, column, s.orgs, s.order);
    if id :| id in s.orgs && IsCalled(lower, column, s.orgs[id], key) {
      IsCalledIsKey(lower, column, s.orgs[id], key);
      MatchIsIndexed(lower, column, s.orgs, s.order, s.orgs[id].archived, key, id);
    }
    if key in keys {
      IndexFinds(lower, column, s.orgs, s.order, key);
      IsCalledIsKey(lower, column, s.orgs[keys[key]], key);
      i := IsIndexed(lower, column, s, key, s.orgs[keys[key]].archived);
    }
  }

  lemma IsIndexed(lower: string -> string, column: Column, s: Store, key: string, archived: bool) returns (i: nat)
    requires IsStore(s) && key in Keyed(lower, column, s.orgs, s.order, archived)
    requires archived ==> key !in Keyed(lower, column, s.orgs, s.order, false)
    ensures IsTheOne(lower, column, s, key, i) && Keyed(lower, column, s.orgs, s.order, archived)[key] == s.order[i]
    ensures s.orgs[s.order[i]].archived == archived
  {
    i := KeyedIsLast(lower, column, s.orgs, s.order, archived, key);
    IsCalledIsKey(lower, column, s.orgs[s.order[i]], key);
    forall j: nat | IsCalledAt(lower, column, s, key, j) && j != i
      ensures if archived then j < i && s.orgs[s.order[j]].archived else j < i || s.orgs[s.order[j]].archived
    {
      IsCalledIsKey(lower, column, s.orgs[s.order[j]], key);
      if archived && !s.orgs[s.order[j]].archived {
        MatchIsKeyed(lower, column, s.orgs, s.order, false, key, s.order[j]);
      }
    }
  }

  // ---- Which organization a row is for ----

  /** Where a run has come to before row `i`. */
  ghost function Before(lower: string -> string, s: Store, rows: seq<Row>, i: nat): Progress
    requires i <= |rows|
  {
    Imported(lower, Start(lower, s), rows[..i])
  }

  /** The name comes first; a domain is only looked at if nobody is called so. */
  predicate LeadsTo(lower: string -> string, p: Progress, r: Row, id: nat) {
    && IsNamed(r)
    && (if lower(CompanyOf(r)) in p.byName then p.byName[lower(CompanyOf(r))] == id
        else DomainOf(r) != "" && lower(DomainOf(r)) in p.byDomain && p.byDomain[lower(DomainOf(r))] == id)
  }

  /** A named row for a company that nobody has heard of. */
  ghost predicate LeadsNowhere(lower: string -> string, p: Progress, r: Row) {
    IsNamed(r) && forall id :: !LeadsTo(lower, p, r, id)
  }

  /** A row for a company that was put away. */
  ghost predicate IsTurnedAway(lower: string -> string, p: Progress, r: Row) {
    exists id :: LeadsTo(lower, p, r, id) && id in p.orgs && p.orgs[id].archived
  }

  /** The organization as the row names it. */
  function AsRead(r: Row): Org
    requires r.Cells?
  {
    var domain := if r.domain != "" then r.domain else r.website;
    Org(if r.company != "" then r.company else r.companyName, if domain != "" then Some(domain) else None, false)
  }

  lemma LeadsIsResolved(lower: string -> string, p: Progress, r: Row, id: nat)
    requires IsNamed(r)
    ensures LeadsTo(lower, p, r, id) <==> Resolved(lower, p, CompanyOf(r), DomainOf(r)) == Some(id)
  {
  }

  lemma NowhereIsUnresolved(lower: string -> string, p: Progress, r: Row)
    requires IsNamed(r)
    ensures LeadsNowhere(lower, p, r) <==> Resolved(lower, p, CompanyOf(r), DomainOf(r)) == None
  {
    var found := Resolved(lower, p, CompanyOf(r), DomainOf(r));
    if found.Some? {
      LeadsIsResolved(lower, p, r, found.value);
    }
  }

  lemma RunIsAt(lower: string -> string, s: Store, rows: seq<Row>, i: nat)
    requires IsStore(s) && i <= |rows|
    ensures Valid(Before(lower, s, rows, i))
    ensures i < |rows| ==> Before(lower, s, rows, i + 1) == Step(lower, Before(lower, s, rows, i), rows[i])
  {
    StartIsValid(lower, s);
    RunIsValid(lower, Start(lower, s), rows[..i]);
    if i < |rows| {
      OneMoreRow(lower, Start(lower, s), rows, i);
    }
  }

  lemma NothingIsTakenBack(lower: string -> string, s: Store, rows: seq<Row>, i: nat, j: nat)
    requires IsStore(s) && i <= j <= |rows|
    ensures Later(Before(lower, s, rows, i), Before(lower, s, rows, j))
  {
    StartIsValid(lower, s);
    RunIsLater(lower, Start(lower, s), rows[..j], i);
    assert rows[..j][..i] == rows[..i];
  }

  // ---- Organizations that are created ----

  /** What a row for an unknown company leaves. */
  lemma UnknownIsCreated(lower: string -> string, p: Progress, r: Row)
    requires Valid(p) && LeadsNowhere(lower, p, r)
    ensures var q := Step(lower, p, r);
            && q.orgs == p.orgs[p.nextId := AsRead(r)] && q.created == p.created + 1 && q.nextId == p.nextId + 1
            && lower(CompanyOf(r)) in q.byName && q.byName[lower(CompanyOf(r))] == p.nextId
            && (DomainOf(r) != "" ==> lower(DomainOf(r)) in q.byDomain && q.byDomain[lower(DomainOf(r))] == p.nextId)
            && p.nextId in q.withDeal
  {
    NowhereIsUnresolved(lower, p, r);
    HandledFields(lower, p, CompanyOf(r), DomainOf(r));
    assert Handled(lower, p, CompanyOf(r), DomainOf(r)).created == p.created + 1;
  }

  /** What a row leaves of the organizations that are there. */
  lemma KnownAfterRow(lower: string -> string, p: Progress, r: Row, id: nat)
    requires Valid(p) && id in p.orgs
    ensures var q := Step(lower, p, r);
            && id in q.orgs
            && q.orgs[id] == if LeadsTo(lower, p, r, id) && !p.orgs[id].archived && !HasDomain(p.orgs[id]) && AsRead(r).domain.Some?
                             then p.orgs[id].(domain := AsRead(r).domain) else p.orgs[id]
  {
    if IsNamed(r) {
      var found := Resolved(lower, p, CompanyOf(r), DomainOf(r));
      LeadsIsResolved(lower, p, r, id);
      if found.None? || !IsPutAway(p.orgs, found.value) {
        HandledFields(lower, p, CompanyOf(r), DomainOf(r));
      }
    }
  }

  lemma OnlyUnknownIsCreated(lower: string -> string, p: Progress, r: Row)
    requires Valid(p) && !LeadsNowhere(lower, p, r)
    ensures var q := Step(lower, p, r); q.orgs.Keys == p.orgs.Keys && q.created == p.created && q.nextId == p.nextId
  {
    if IsNamed(r) {
      NowhereIsUnresolved(lower, p, r);
      var found := Resolved(lower, p, CompanyOf(r), DomainOf(r));
      if !IsPutAway(p.orgs, found.value) {
        HandledFields(lower, p, CompanyOf(r), DomainOf(r));
        assert Handled(lower, p, CompanyOf(r), DomainOf(r)).created == p.created;
      }
    }
  }

  /** Row `i` is for a company that nobody has heard of, and makes this organization out of it. */
  ghost predicate IsMaker(lower: string -> string, s: Store, rows: seq<Row>, i: nat, id: nat) {
    && i < |rows| && LeadsNowhere(lower, Before(lower, s, rows, i), rows[i])
    && id == Before(lower, s, rows, i).nextId && id in Before(lower, s, rows, i + 1).orgs
    && Before(lower, s, rows, i + 1).orgs[id] == AsRead(rows[i])
  }

  lemma {:induction false} SomeRowMadeIt(lower: string -> string, s: Store, rows: seq<Row>, m: nat, id: nat) returns (i: nat)
    requires IsStore(s) && m <= |rows| && id in Before(lower, s, rows, m).orgs && id !in s.orgs
    ensures i < m && IsMaker(lower, s, rows, i, id)
  {
    assert Before(lower, s, rows, 0).orgs == s.orgs by { assert rows[..0] == []; }
    if m > 0 {
      var p := Before(lower, s, rows, m - 1);
      RunIsAt(lower, s, rows, m - 1);
      if id in p.orgs {
        i := SomeRowMadeIt(lower, s, rows, m - 1, id);
      } else {
        i := m - 1;
        if LeadsNowhere(lower, p, rows[i]) {
          UnknownIsCreated(lower, p, rows[i]);
        } else {
          OnlyUnknownIsCreated(lower, p, rows[i]);
        }
      }
    }
  }

  /**
   Every organization that was not there before is the work of one row: it has that row's name,
   the row's domain if it has one, is live, and has a deal.
   */
  lemma CreatedAsRead(lower: string -> string, s: Store, rows: seq<Row>, id: nat)
    requires IsStore(s) && id in Imported(lower, Start(lower, s), rows).orgs && id !in s.orgs
    ensures var q := Imported(lower, Start(lower, s), rows);
            exists i: nat ::
              && IsMaker(lower, s, rows, i, id)
              && q.orgs[id].name == AsRead(rows[i]).name && !q.orgs[id].archived && id in q.deals
              && (AsRead(rows[i]).domain.Some? ==> q.orgs[id].domain == AsRead(rows[i]).domain)
  {
    assert rows[..|rows|] == rows;
    var i := SomeRowMadeIt(lower, s, rows, |rows|, id);
    NothingIsTakenBack(lower, s, rows, i + 1, |rows|);
    PrefixIsRun(lower, s, rows);
    StartIsValid(lower, s);
    RunGivesOneDealEach(lower, Start(lower, s), rows);
  }

  // ---- Domains that are filled in ----

  /** Row `k` leads to the organization and brings a domain. */
  ghost predicate BringsDomain(lower: string -> string, s: Store, rows: seq<Row>, k: nat, id: nat) {
    k < |rows| && LeadsTo(lower, Before(lower, s, rows, k), rows[k], id) && AsRead(rows[k]).domain.Some?
  }

  /** The first row from `i` on, before `m`, that does. */
  ghost predicate IsFirstToBring(lower: string -> string, s: Store, rows: seq<Row>, i: nat, m: nat, k: nat, id: nat) {
    i <= k < m && BringsDomain(lower, s, rows, k, id) && forall j | i <= j < k :: !BringsDomain(lower, s, rows, j, id)
  }

  lemma {:induction false} UntilItIsBrought(lower: string -> string, s: Store, rows: seq<Row>, i: nat, m: nat, id: nat)
    requires IsStore(s) && i <= m <= |rows| && id in Before(lower, s, rows, i).orgs
    requires forall k: nat | i <= k < m :: !BringsDomain(lower, s, rows, k, id)
    ensures id in Before(lower, s, rows, m).orgs && Before(lower, s, rows, m).orgs[id] == Before(lower, s, rows, i).orgs[id]
  {
    if i < m {
      UntilItIsBrought(lower, s, rows, i, m - 1, id);
      RunIsAt(lower, s, rows, m - 1);
      KnownAfterRow(lower, Before(lower, s, rows, m - 1), rows[m - 1], id);
      assert !BringsDomain(lower, s, rows, m - 1, id);
    }
  }

  lemma FromWhenItIsBrought(lower: string -> string, s: Store, rows: seq<Row>, i: nat, k: nat, id: nat)
    requires IsStore(s) && i <= |rows|
    requires var p := Before(lower, s, rows, i); id in p.orgs && !p.orgs[id].archived && !HasDomain(p.orgs[id])
    requires IsFirstToBring(lower, s, rows, i, |rows|, k, id)
    ensures var q := Before(lower, s, rows, |rows|);
            id in q.orgs && q.orgs[id] == Before(lower, s, rows, i).orgs[id].(domain := AsRead(rows[k]).domain)
  {
    UntilItIsBrought(lower, s, rows, i, k, id);
    RunIsAt(lower, s, rows, k);
    KnownAfterRow(lower, Before(lower, s, rows, k), rows[k], id);
    NothingIsTakenBack(lower, s, rows, k + 1, |rows|);
  }

  /**
   A live organization without a domain gets that of the first row for it that has one, and is
   otherwise left as it is.
   */
  lemma FirstDomainIsKept(lower: string -> string, s: Store, rows: seq<Row>, i: nat, id: nat)
    requires IsStore(s) && i <= |rows|
    requires var p := Before(lower, s, rows, i); id in p.orgs && !p.orgs[id].archived && !HasDomain(p.orgs[id])
    ensures var o, q := Before(lower, s, rows, i).orgs[id], Imported(lower, Start(lower, s), rows);
            && id in q.orgs
            && ((forall k: nat | i <= k < |rows| :: !BringsDomain(lower, s, rows, k, id)) ==> q.orgs[id] == o)
            && forall k: nat | IsFirstToBring(lower, s, rows, i, |rows|, k, id) ::
                 q.orgs[id] == o.(domain := AsRead(rows[k]).domain)
  {
    assert rows[..|rows|] == rows;
    NothingIsTakenBack(lower, s, rows, i, |rows|);
    if forall k: nat | i <= k < |rows| :: !BringsDomain(lower, s, rows, k, id) {
      UntilItIsBrought(lower, s, rows, i, |rows|, id);
    }
    forall k: nat | IsFirstToBring(lower, s, rows, i, |rows|, k, id)
      ensures Imported(lower, Start(lower, s), rows).orgs[id] == Before(lower, s, rows, i).orgs[id].(domain := AsRead(rows[k]).domain)
    {
      FromWhenItIsBrought(lower, s, rows, i, k, id);
    }
  }

  /** An organization with a domain, or an archived one, is left as it is. */
  lemma {:induction false} OthersAreUntouched(lower: string -> string, s: Store, rows: seq<Row>, m: nat, id: nat)
    requires IsStore(s) && m <= |rows| && id in s.orgs && (s.orgs[id].archived || HasDomain(s.orgs[id]))
    ensures var q := Before(lower, s, rows, m); id in q.orgs && q.orgs[id] == s.orgs[id]
  {
    if m == 0 {
      assert rows[..0] == [];
    } else {
      OthersAreUntouched(lower, s, rows, m - 1, id);
      RunIsAt(lower, s, rows, m - 1);
      KnownAfterRow(lower, Before(lower, s, rows, m - 1), rows[m - 1], id);
    }
  }

  // ---- One company, one deal ----

  /** A row that leads somewhere: a deal exactly for a live organization that has none. */
  lemma RowGivesDeal(lower: string -> string, p: Progress, r: Row, id: nat)
    requires Valid(p) && LeadsTo(lower, p, r, id)
    ensures id in p.orgs
    ensures var q := Step(lower, p, r);
            && q.orgs.Keys == p.orgs.Keys && q.created == p.created
            && (if p.orgs[id].archived || id in p.withDeal then q.deals == p.deals && q.skipped == p.skipped + 1
                else q.deals == p.deals + [id] && q.skipped == p.skipped)
  {
    LeadsIsResolved(lower, p, r, id);
    if !p.orgs[id].archived {
      HandledFields(lower, p, CompanyOf(r), DomainOf(r));
    }
  }

  /** A row that is not turned away makes its company's name known, as one that has a deal. */
  lemma NameIsKnownAfter(lower: string -> string, p: Progress, r: Row)
    requires Valid(p) && IsNamed(r) && !IsTurnedAway(lower, p, r)
    ensures var q := Step(lower, p, r); var key := lower(CompanyOf(r));
            key in q.byName && q.byName[key] in q.withDeal
  {
    var found := Resolved(lower, p, CompanyOf(r), DomainOf(r));
    if found.Some? {
      LeadsIsResolved(lower, p, r, found.value);
    }
    HandledFields(lower, p, CompanyOf(r), DomainOf(r));
  }

  /** What a row changes of orgs, deals and counters if it is skipped. */
  ghost predicate IsSkipped(p: Progress, q: Progress) {
    && q.orgs.Keys == p.orgs.Keys && q.deals == p.deals && q.created == p.created && q.imported == p.imported
    && q.total == p.total + 1 && q.skipped == p.skipped + 1
  }

  lemma DealtIsSkipped(lower: string -> string, p: Progress, r: Row, id: nat)
    requires Valid(p) && LeadsTo(lower, p, r, id) && id in p.withDeal
    ensures IsSkipped(p, Step(lower, p, r))
  {
    RowGivesDeal(lower, p, r, id);
    StepAddsUp(lower, p, r);
  }

  /** However its name is spelt, a company that a row was let in for is skipped from then on. */
  lemma SameNameIsSkipped(lower: string -> string, s: Store, rows: seq<Row>, i: nat, j: nat)
    requires IsStore(s) && i < j < |rows| && IsNamed(rows[i]) && IsNamed(rows[j])
    requires lower(CompanyOf(rows[i])) == lower(CompanyOf(rows[j]))
    requires !IsTurnedAway(lower, Before(lower, s, rows, i), rows[i])
    ensures IsSkipped(Before(lower, s, rows, j), Before(lower, s, rows, j + 1))
  {
    RunIsAt(lower, s, rows, i);
    NameIsKnownAfter(lower, Before(lower, s, rows, i), rows[i]);
    NothingIsTakenBack(lower, s, rows, i + 1, j);
    RunIsAt(lower, s, rows, j);
    var id := Before(lower, s, rows, j).byName[lower(CompanyOf(rows[j]))];
    DealtIsSkipped(lower, Before(lower, s, rows, j), rows[j], id);
  }

  lemma DomainOrName(lower: string -> string, p: Progress, r: Row, id: nat)
    requires Valid(p) && IsNamed(r) && DomainOf(r) != "" && id in p.withDeal
    requires lower(DomainOf(r)) in p.byDomain && p.byDomain[lower(DomainOf(r))] == id
    ensures var q := Step(lower, p, r);
            && q.orgs.Keys == p.orgs.Keys && q.created == p.created
            && (IsSkipped(p, q)
                || (exists other :: other != id && lower(CompanyOf(r)) in p.byName
                                    && p.byName[lower(CompanyOf(r))] == other && q.deals == p.deals + [other]))
  {
    var key := lower(CompanyOf(r));
    var found := if key in p.byName then p.byName[key] else id;
    RowGivesDeal(lower, p, r, found);
    StepAddsUp(lower, p, r);
  }

  /**
   Once a row has created its organization with a domain, a later row with that domain is skipped,
   whatever it calls the company, unless its name is that of another organization; it never
   creates a second one.
   */
  lemma SameDomainIsSkipped(lower: string -> string, s: Store, rows: seq<Row>, i: nat, j: nat)
    requires IsStore(s) && i < j < |rows| && IsNamed(rows[i]) && IsNamed(rows[j])
    requires LeadsNowhere(lower, Before(lower, s, rows, i), rows[i])
    requires AsRead(rows[i]).domain.Some? && AsRead(rows[j]).domain.Some?
    requires lower(AsRead(rows[i]).domain.value) == lower(AsRead(rows[j]).domain.value)
    ensures var id, p, q := Before(lower, s, rows, i).nextId, Before(lower, s, rows, j), Before(lower, s, rows, j + 1);
            && q.orgs.Keys == p.orgs.Keys && q.created == p.created
            && (IsSkipped(p, q)
                || (exists other :: other != id && lower(CompanyOf(rows[j])) in p.byName
                                    && p.byName[lower(CompanyOf(rows[j]))] == other && q.deals == p.deals + [other]))
  {
    RunIsAt(lower, s, rows, i);
    UnknownIsCreated(lower, Before(lower, s, rows, i), rows[i]);
    NothingIsTakenBack(lower, s, rows, i + 1, j);
    RunIsAt(lower, s, rows, j);
    DomainOrName(lower, Before(lower, s, rows, j), rows[j], Before(lower, s, rows, i).nextId);
  }

  // ---- The counters ----

  /** A row that has cells but no company. */
  predicate IsNameless(r: Row) { r.Cells? && r.company == "" && r.companyName == "" }

  function NamelessRows(rows: seq<Row>): nat {
    if rows == [] then 0 else NamelessRows(rows[..|rows| - 1]) + if IsNameless(rows[|rows| - 1]) then 1 else 0
  }

  lemma OneMoreKey(orgs: Orgs, id: nat, o: Org)
    requires id !in orgs
    ensures |orgs[id := o]| == |orgs| + 1
  {
    assert orgs[id := o].Keys == orgs.Keys + {id};
    assert |orgs[id := o].Keys| == |orgs.Keys| + 1;
  }

  lemma SameKeys(a: Orgs, b: Orgs)
    requires a.Keys == b.Keys
    ensures |a| == |b|
  {
    assert |a| == |a.Keys| && |b| == |b.Keys|;
  }

  lemma RowCounts(lower: string -> string, p: Progress, r: Row)
    requires Valid(p)
    ensures var q := Step(lower, p, r);
            && q.errors == p.errors + (if IsNameless(r) then 1 else 0)
            && |q.orgs| - |p.orgs| == q.created - p.created
  {
    if LeadsNowhere(lower, p, r) {
      UnknownIsCreated(lower, p, r);
      OneMoreKey(p.orgs, p.nextId, AsRead(r));
    } else {
      OnlyUnknownIsCreated(lower, p, r);
      SameKeys(p.orgs, Step(lower, p, r).orgs);
    }
  }

  /** One error for each row without a company, and the organizations that were created are those that there are more. */
  lemma {:induction false} CountersAreExact(lower: string -> string, p: Progress, rows: seq<Row>)
    requires Valid(p) && p.errors == p.created == 0
    ensures var q := Imported(lower, p, rows);
            q.errors == NamelessRows(rows) && |q.orgs| == |p.orgs| + q.created
  {
    if rows != [] {
      CountersAreExact(lower, p, rows[..|rows| - 1]);
      RunIsValid(lower, p, rows[..|rows| - 1]);
      RowCounts(lower, Imported(lower, p, rows[..|rows| - 1]), rows[|rows| - 1]);
    }
  }
}
