/**
 The lead importer (backend/app/importers/lead_generation.py): one loop over the rows of a file
 that finds companies by name or domain, creates what it does not find, and gives each company
 one deal. Running it again must do nothing, whatever it has left behind.
 */
module LeadImport {
  import opened Options

  datatype Org = Org(name: string, domain: Option<string>, archived: bool)

  /** A row with its cells stripped; a blank row has none. */
  datatype Row = Blank | Cells(company: string, companyName: string, domain: string, website: string)

  /** What is stored: the organizations, the order they are read in, the organization of every deal, a fresh id. */
  datatype Store = Store(orgs: map<nat, Org>, order: seq<nat>, deals: seq<nat>, nextId: nat)

  datatype Column = Name | Domain

  datatype Progress = Progress(orgs: map<nat, Org>, nextId: nat, byName: map<string, nat>, byDomain: map<string, nat>,
                               withDeal: set<nat>, deals: seq<nat>,
                               total: nat, imported: nat, created: nat, skipped: nat, errors: nat)

  function CompanyOf(r: Row): string
    requires r.Cells?
  {
    if r.company != "" then r.company else r.companyName
  }

  function DomainOf(r: Row): string
    requires r.Cells?
  {
    if r.domain != "" then r.domain else r.website
  }

  predicate IsNamed(r: Row) { r.Cells? && CompanyOf(r) != "" }

  predicate HasDomain(o: Org) { o.domain.GetOr("") != "" }

  function Key(lower: string -> string, column: Column, o: Org): Option<string> {
    if column.Name? then Some(lower(o.name)) else if HasDomain(o) then Some(lower(o.domain.value)) else None
  }

  // ---- The two maps ----

  /** Every organization is read once. */
  ghost predicate ListsOnce(order: seq<nat>, orgs: map<nat, Org>) {
    && (forall i | 0 <= i < |order| :: order[i] in orgs)
    && (forall i, j | 0 <= i < j < |order| :: order[i] != order[j])
    && (forall id | id in orgs :: id in order)
  }

  predicate Matches(lower: string -> string, column: Column, orgs: map<nat, Org>, archived: bool, key: string, id: nat) {
    id in orgs && orgs[id].archived == archived && Key(lower, column, orgs[id]) == Some(key)
  }

  /** A dictionary over one half of the organizations: of those with the same key, the last wins. */
  function Keyed(lower: string -> string, column: Column, orgs: map<nat, Org>, order: seq<nat>, archived: bool): map<string, nat> {
    if order == [] then map[]
    else
      var m := Keyed(lower, column, orgs, order[..|order| - 1], archived);
      var id := order[|order| - 1];
      if id in orgs && orgs[id].archived == archived && Key(lower, column, orgs[id]).Some?
      then m[Key(lower, column, orgs[id]).value := id] else m
  }

  /** Archived first, so that the live one wins. */
  function Index(lower: string -> string, column: Column, orgs: map<nat, Org>, order: seq<nat>): map<string, nat> {
    Keyed(lower, column, orgs, order, true) + Keyed(lower, column, orgs, order, false)
  }

  // ---- One row ----

  type Orgs = map<nat, Org>

  type Keys = map<string, nat>

  ghost predicate AreBelow(orgs: Orgs, nextId: nat) { forall id | id in orgs :: id < nextId }

  ghost predicate PointInto(keys: Keys, orgs: Orgs) { forall k | k in keys :: keys[k] in orgs }

  ghost predicate Valid(p: Progress) {
    AreBelow(p.orgs, p.nextId) && PointInto(p.byName, p.orgs) && PointInto(p.byDomain, p.orgs)
  }

  function Start(lower: string -> string, s: Store): Progress {
    Progress(s.orgs, s.nextId, Index(lower, Name, s.orgs, s.order), Index(lower, Domain, s.orgs, s.order),
             set i | 0 <= i < |s.deals| :: s.deals[i], s.deals, 0, 0, 0, 0, 0)
  }

  /** By name, and only then by domain. */
  function Resolved(lower: string -> string, p: Progress, company: string, domain: string): Option<nat> {
    if lower(company) in p.byName then Some(p.byName[lower(company)])
    else if domain != "" && lower(domain) in p.byDomain then Some(p.byDomain[lower(domain)])
    else None
  }

  function SetDefault(m: map<string, nat>, key: string, id: nat): map<string, nat> { if key in m then m else m[key := id] }

  predicate IsPutAway(orgs: Orgs, id: nat) { id in orgs && orgs[id].archived }

  /** The organization's domain, in lower case, if it has one. */
  function OwnDomain(lower: string -> string, orgs: Orgs, id: nat): Option<string> {
    if id in orgs then Key(lower, Domain, orgs[id]) else None
  }

  /** The rest of a row once its organization is there: both keys, and one deal per company. */
  function Settled(lower: string -> string, p: Progress, company: string, id: nat): Progress {
    var own := OwnDomain(lower, p.orgs, id);
    var q := p.(byName := SetDefault(p.byName, lower(company), id),
                byDomain := if own.Some? then SetDefault(p.byDomain, own.value, id) else p.byDomain);
    if id in p.withDeal then q.(skipped := p.skipped + 1)
    else q.(withDeal := p.withDeal + {id}, deals := p.deals + [id], imported := p.imported + 1)
  }

  /** The organizations with the one that was not found, or with its missing domain filled in. */
  function Provided(orgs: Orgs, found: Option<nat>, nextId: nat, company: string, domain: string): Orgs {
    match found
    case None => orgs[nextId := Org(company, if domain == "" then None else Some(domain), false)]
    case Some(id) => if id in orgs && domain != "" && !HasDomain(orgs[id]) then orgs[id := orgs[id].(domain := Some(domain))] else orgs
  }

  function Prepared(p: Progress, found: Option<nat>, company: string, domain: string): Progress {
    var isNew := if found.None? then 1 else 0;
    p.(orgs := Provided(p.orgs, found, p.nextId, company, domain), nextId := p.nextId + isNew,
       total := p.total + 1, created := p.created + isNew)
  }

  /** A named row. */
  function Handled(lower: string -> string, p: Progress, company: string, domain: string): Progress {
    var found := Resolved(lower, p, company, domain);
    if found.Some? && IsPutAway(p.orgs, found.value) then p.(total := p.total + 1, skipped := p.skipped + 1)
    else Settled(lower, Prepared(p, found, company, domain), company, found.GetOr(p.nextId))
  }

  function Step(lower: string -> string, p: Progress, r: Row): Progress {
    if r.Blank? then p
    else if CompanyOf(r) == "" then p.(errors := p.errors + 1)
    else Handled(lower, p, CompanyOf(r), DomainOf(r))
  }

  function Imported(lower: string -> string, p: Progress, rows: seq<Row>): Progress {
    if rows == [] then p else Step(lower, Imported(lower, p, rows[..|rows| - 1]), rows[|rows| - 1])
  }

  function NamedRows(rows: seq<Row>): nat {
    if rows == [] then 0 else NamedRows(rows[..|rows| - 1]) + if IsNamed(rows[|rows| - 1]) then 1 else 0
  }

  // ---- Every run ----

  lemma SettledAddsUp(lower: string -> string, p: Progress, company: string, id: nat)
    ensures var q := Settled(lower, p, company, id);
            q.total == p.total && q.imported + q.skipped == p.imported + p.skipped + 1 && |q.deals| + p.imported == |p.deals| + q.imported
  {
  }

  lemma HandledAddsUp(lower: string -> string, p: Progress, company: string, domain: string)
    ensures var q := Handled(lower, p, company, domain);
            && q.total == p.total + 1 && q.imported + q.skipped == p.imported + p.skipped + 1
            && |q.deals| + p.imported == |p.deals| + q.imported
  {
    var found := Resolved(lower, p, company, domain);
    SettledAddsUp(lower, Prepared(p, found, company, domain), company, found.GetOr(p.nextId));
  }

  lemma StepAddsUp(lower: string -> string, p: Progress, r: Row)
    ensures var q := Step(lower, p, r);
            && q.total == p.total + (if IsNamed(r) then 1 else 0)
            && q.imported + q.skipped == p.imported + p.skipped + (if IsNamed(r) then 1 else 0)
            && |q.deals| + p.imported == |p.deals| + q.imported
  {
    if IsNamed(r) {
      HandledAddsUp(lower, p, CompanyOf(r), DomainOf(r));
    }
  }

  /** Every named row is imported or skipped. */
  lemma {:induction false} RowsAddUp(lower: string -> string, p: Progress, rows: seq<Row>)
    requires p.total == p.imported == p.skipped == 0
    ensures var q := Imported(lower, p, rows);
            q.total == NamedRows(rows) == q.imported + q.skipped && |q.deals| == |p.deals| + q.imported
  {
    if rows != [] {
      RowsAddUp(lower, p, rows[..|rows| - 1]);
      StepAddsUp(lower, Imported(lower, p, rows[..|rows| - 1]), rows[|rows| - 1]);
    }
  }

  ghost predicate OrgsStay(before: Orgs, after: Orgs) {
    forall id | id in before :: id in after && StaysAsIs(before[id], after[id])
  }

  predicate StaysAsIs(a: Org, b: Org) { b.name == a.name && b.archived == a.archived && (HasDomain(a) ==> b.domain == a.domain) }

  ghost predicate KeysStay(before: Keys, after: Keys) { forall k | k in before :: k in after && after[k] == before[k] }

  /** What a run never takes back: an organization, its keys and its deal; nor does it archive or rename. */
  ghost predicate Later(p: Progress, q: Progress) {
    && OrgsStay(p.orgs, q.orgs) && KeysStay(p.byName, q.byName) && KeysStay(p.byDomain, q.byDomain)
    && p.withDeal <= q.withDeal && p.deals <= q.deals && p.nextId <= q.nextId
  }

  lemma PreparedIsLater(p: Progress, found: Option<nat>, company: string, domain: string)
    requires Valid(p) && (found.Some? ==> found.value in p.orgs)
    ensures Later(p, Prepared(p, found, company, domain)) && Valid(Prepared(p, found, company, domain))
    ensures found.GetOr(p.nextId) in Prepared(p, found, company, domain).orgs
  {
  }

  lemma SettledIsLater(lower: string -> string, p: Progress, company: string, id: nat)
    requires Valid(p) && id in p.orgs
    ensures Later(p, Settled(lower, p, company, id)) && Valid(Settled(lower, p, company, id))
  {
  }

  lemma LaterStill(p: Progress, q: Progress, r: Progress)
    requires Later(p, q) && Later(q, r)
    ensures Later(p, r)
  {
  }

  lemma HandledIsLater(lower: string -> string, p: Progress, company: string, domain: string)
    requires Valid(p)
    ensures Later(p, Handled(lower, p, company, domain)) && Valid(Handled(lower, p, company, domain))
  {
    var found := Resolved(lower, p, company, domain);
    if found.None? || !IsPutAway(p.orgs, found.value) {
      var q := Prepared(p, found, company, domain);
      PreparedIsLater(p, found, company, domain);
      SettledIsLater(lower, q, company, found.GetOr(p.nextId));
      LaterStill(p, q, Settled(lower, q, company, found.GetOr(p.nextId)));
    }
  }

  lemma StepIsLater(lower: string -> string, p: Progress, r: Row)
    requires Valid(p)
    ensures Later(p, Step(lower, p, r)) && Valid(Step(lower, p, r))
  {
    if IsNamed(r) {
      HandledIsLater(lower, p, CompanyOf(r), DomainOf(r));
    }
  }

  lemma {:induction false} RunIsValid(lower: string -> string, p: Progress, rows: seq<Row>)
    requires Valid(p)
    ensures Valid(Imported(lower, p, rows))
  {
    if rows != [] {
      RunIsValid(lower, p, rows[..|rows| - 1]);
      StepIsLater(lower, Imported(lower, p, rows[..|rows| - 1]), rows[|rows| - 1]);
    }
  }

  lemma {:induction false} RunIsLater(lower: string -> string, p: Progress, rows: seq<Row>, i: nat)
    requires Valid(p) && i <= |rows|
    ensures Later(Imported(lower, p, rows[..i]), Imported(lower, p, rows))
    decreases |rows|
  {
    if i == |rows| {
      assert rows[..i] == rows;
    } else {
      var init := rows[..|rows| - 1];
      assert init[..i] == rows[..i];
      RunIsLater(lower, p, init, i);
      RunIsValid(lower, p, init);
      StepIsLater(lower, Imported(lower, p, init), rows[|rows| - 1]);
      LaterStill(Imported(lower, p, rows[..i]), Imported(lower, p, init), Imported(lower, p, rows));
    }
  }

  /** Put away, or with a deal: a row for it is skipped. */
  predicate IsDone(p: Progress, id: nat) { IsPutAway(p.orgs, id) || (id in p.orgs && id in p.withDeal) }

  /** Created organizations are live, have a deal, and a name that no stored one had. */
  ghost predicate CreatedAreDone(lower: string -> string, before: Orgs, names: Keys, after: Orgs, withDeal: set<nat>) {
    forall id | id in after && id !in before ::
      && !after[id].archived && id in withDeal && lower(after[id].name) !in names
  }

  /** An organization whose domain was filled in is live and has a deal. */
  ghost predicate FilledAreDone(before: Orgs, after: Orgs, withDeal: set<nat>) {
    forall id | id in after && id in before && after[id].domain != before[id].domain :: !after[id].archived && id in withDeal
  }

  /** A key that was added leads to an organization with a deal. */
  ghost predicate AddedAreDone(before: Keys, after: Keys, withDeal: set<nat>) {
    forall k | k in after && k !in before :: after[k] in withDeal
  }

  /** What is found by a domain has it. */
  ghost predicate AreOwn(lower: string -> string, byDomain: Keys, orgs: Orgs) {
    forall d | d in byDomain :: byDomain[d] in orgs && Key(lower, Domain, orgs[byDomain[d]]) == Some(d)
  }

  ghost predicate OnlyDone(lower: string -> string, p: Progress, q: Progress) {
    && CreatedAreDone(lower, p.orgs, p.byName, q.orgs, q.withDeal)
    && FilledAreDone(p.orgs, q.orgs, q.withDeal)
    && AddedAreDone(p.byName, q.byName, q.withDeal)
    && AreOwn(lower, q.byDomain, q.orgs)
  }

  /** What a row that goes through leaves in each field. */
  lemma HandledFields(lower: string -> string, q: Progress, company: string, domain: string)
    requires var found := Resolved(lower, q, company, domain); found.None? || !IsPutAway(q.orgs, found.value)
    ensures var found := Resolved(lower, q, company, domain); var id := found.GetOr(q.nextId);
            var next := Handled(lower, q, company, domain);
            && next.orgs == Provided(q.orgs, found, q.nextId, company, domain)
            && next.byName == SetDefault(q.byName, lower(company), id)
            && next.withDeal == q.withDeal + {id}
            && next.byDomain == (match OwnDomain(lower, next.orgs, id) case None => q.byDomain case Some(own) => SetDefault(q.byDomain, own, id))
            && next.nextId == q.nextId + (if found.None? then 1 else 0)
  {
    var found := Resolved(lower, q, company, domain);
    var id := found.GetOr(q.nextId);
    assert id in q.withDeal ==> q.withDeal + {id} == q.withDeal;
  }

  lemma ProvidingKeepsFilled(before: Orgs, orgs: Orgs, withDeal: set<nat>, found: Option<nat>, nextId: nat, company: string, domain: string)
    requires FilledAreDone(before, orgs, withDeal) && AreBelow(orgs, nextId) && OrgsStay(before, orgs)
    requires found.Some? ==> found.value in orgs && !IsPutAway(orgs, found.value)
    ensures FilledAreDone(before, Provided(orgs, found, nextId, company, domain), withDeal + {found.GetOr(nextId)})
  {
  }

  lemma ProvidingKeepsOwn(lower: string -> string, byDomain: Keys, orgs: Orgs, found: Option<nat>, nextId: nat, company: string, domain: string)
    requires AreOwn(lower, byDomain, orgs) && AreBelow(orgs, nextId)
    ensures AreOwn(lower, byDomain, Provided(orgs, found, nextId, company, domain))
  {
  }

  lemma HandlingKeepsOnlyDone(lower: string -> string, p: Progress, q: Progress, company: string, domain: string)
    requires Valid(q) && Later(p, q) && OnlyDone(lower, p, q)
    ensures OnlyDone(lower, p, Handled(lower, q, company, domain))
  {
    var found := Resolved(lower, q, company, domain);
    if found.None? || !IsPutAway(q.orgs, found.value) {
      HandledFields(lower, q, company, domain);
      ProvidingKeepsFilled(p.orgs, q.orgs, q.withDeal, found, q.nextId, company, domain);
      ProvidingKeepsOwn(lower, q.byDomain, q.orgs, found, q.nextId, company, domain);
    }
  }

  lemma {:induction false} RunAddsOnlyDone(lower: string -> string, p: Progress, rows: seq<Row>)
    requires Valid(p) && AreOwn(lower, p.byDomain, p.orgs)
    ensures OnlyDone(lower, p, Imported(lower, p, rows))
  {
    if rows != [] {
      var q := Imported(lower, p, rows[..|rows| - 1]);
      RunAddsOnlyDone(lower, p, rows[..|rows| - 1]);
      RunIsValid(lower, p, rows[..|rows| - 1]);
      assert rows[..0] == [];
      assert rows[..|rows| - 1][..0] == [];
      RunIsLater(lower, p, rows[..|rows| - 1], 0);
      if IsNamed(rows[|rows| - 1]) {
        HandlingKeepsOnlyDone(lower, p, q, CompanyOf(rows[|rows| - 1]), DomainOf(rows[|rows| - 1]));
      }
    }
  }

  // ---- Which organization a key finds ----

  predicate IsLastMatch(lower: string -> string, column: Column, orgs: Orgs, order: seq<nat>, archived: bool, key: string, i: nat) {
    && i < |order| && Matches(lower, column, orgs, archived, key, order[i])
    && forall j | i < j < |order| :: !Matches(lower, column, orgs, archived, key, order[j])
  }

  lemma {:induction false} KeyedIsLast(lower: string -> string, column: Column, orgs: Orgs, order: seq<nat>, archived: bool, key: string)
    returns (i: nat)
    requires key in Keyed(lower, column, orgs, order, archived)
    ensures IsLastMatch(lower, column, orgs, order, archived, key, i) && Keyed(lower, column, orgs, order, archived)[key] == order[i]
  {
    var n := |order| - 1;
    if Matches(lower, column, orgs, archived, key, order[n]) {
      i := n;
    } else {
      i := KeyedIsLast(lower, column, orgs, order[..n], archived, key);
      assert order[..n][i] == order[i];
      forall j | i < j < |order| ensures !Matches(lower, column, orgs, archived, key, order[j]) {
        assert j < n ==> order[..n][j] == order[j];
      }
    }
  }

  lemma {:induction false} MatchIsKeyed(lower: string -> string, column: Column, orgs: Orgs, order: seq<nat>, archived: bool, key: string, id: nat)
    requires id in order && Matches(lower, column, orgs, archived, key, id)
    ensures key in Keyed(lower, column, orgs, order, archived)
  {
    if id != order[|order| - 1] {
      MatchIsKeyed(lower, column, orgs, order[..|order| - 1], archived, key, id);
    }
  }

  /** What the map says is an organization with that key, and a live one if there is any. */
  lemma IndexFinds(lower: string -> string, column: Column, orgs: Orgs, order: seq<nat>, key: string)
    requires key in Index(lower, column, orgs, order)
    ensures var id := Index(lower, column, orgs, order)[key];
            && Matches(lower, column, orgs, IsPutAway(orgs, id), key, id)
            && key in Keyed(lower, column, orgs, order, IsPutAway(orgs, id))
            && Keyed(lower, column, orgs, order, IsPutAway(orgs, id))[key] == id
            && (IsPutAway(orgs, id) <==> key !in Keyed(lower, column, orgs, order, false))
  {
    if key in Keyed(lower, column, orgs, order, false) {
      var i := KeyedIsLast(lower, column, orgs, order, false, key);
    } else {
      var i := KeyedIsLast(lower, column, orgs, order, true, key);
    }
  }

  lemma MatchIsIndexed(lower: string -> string, column: Column, orgs: Orgs, order: seq<nat>, archived: bool, key: string, id: nat)
    requires ListsOnce(order, orgs) && Matches(lower, column, orgs, archived, key, id)
    ensures key in Index(lower, column, orgs, order)
    ensures !archived ==> !IsPutAway(orgs, Index(lower, column, orgs, order)[key])
  {
    MatchIsKeyed(lower, column, orgs, order, archived, key, id);
    IndexFinds(lower, column, orgs, order, key);
  }

  /** The organizations that were there are read in the same order as before. */
  ghost predicate SameOrder(before: seq<nat>, after: seq<nat>) {
    forall a, b, i, j :: StaysBehind(before, after, a, b, i, j)
  }

  /** If places `a` and `b` before hold what places `i` and `j` hold after, they are in the same order. */
  predicate StaysBehind(before: seq<nat>, after: seq<nat>, a: int, b: int, i: int, j: int) {
    0 <= a < b < |before| && 0 <= i < |after| && 0 <= j < |after| && before[a] == after[i] && before[b] == after[j] ==> i < j
  }

  /** If what a key finds later was there before, with that key, the key found it before. */
  lemma FoundBefore(lower: string -> string, column: Column, orgs: Orgs, order: seq<nat>, later: Orgs, laterOrder: seq<nat>,
        archived: bool, key: string)
    requires ListsOnce(order, orgs) && ListsOnce(laterOrder, later) && SameOrder(order, laterOrder)
    requires key in Keyed(lower, column, later, laterOrder, archived)
    requires Matches(lower, column, orgs, archived, key, Keyed(lower, column, later, laterOrder, archived)[key])
    requires forall id | Matches(lower, column, orgs, archived, key, id) :: Matches(lower, column, later, archived, key, id)
    ensures key in Keyed(lower, column, orgs, order, archived)
    ensures Keyed(lower, column, orgs, order, archived)[key] == Keyed(lower, column, later, laterOrder, archived)[key]
  {
    var p := Keyed(lower, column, later, laterOrder, archived)[key];
    var i := KeyedIsLast(lower, column, later, laterOrder, archived, key);
    MatchIsKeyed(lower, column, orgs, order, archived, key, p);
    var last := KeyedIsLast(lower, column, orgs, order, archived, key);
    assert Matches(lower, column, later, archived, key, order[last]);
    NoOvertaking(order, laterOrder, last, i);
  }

  lemma KeyStays(lower: string -> string, column: Column, orgs: Orgs, order: seq<nat>, later: Orgs, laterOrder: seq<nat>,
        archived: bool, key: string)
    requires ListsOnce(order, orgs) && ListsOnce(laterOrder, later)
    requires forall id | Matches(lower, column, orgs, archived, key, id) :: Matches(lower, column, later, archived, key, id)
    ensures key in Keyed(lower, column, orgs, order, archived) ==> key in Keyed(lower, column, later, laterOrder, archived)
  {
    if key in Keyed(lower, column, orgs, order, archived) {
      var i := KeyedIsLast(lower, column, orgs, order, archived, key);
      MatchIsKeyed(lower, column, later, laterOrder, archived, key, order[i]);
    }
  }

  lemma NoOvertaking(before: seq<nat>, after: seq<nat>, last: nat, i: nat)
    requires SameOrder(before, after) && last < |before| && i < |after|
    requires after[i] in before[..last + 1] && before[last] in after[..i + 1]
    ensures before[last] == after[i]
  {
    var a :| 0 <= a <= last && before[a] == after[i];
    var j :| 0 <= j <= i && after[j] == before[last];
    assert StaysBehind(before, after, a, last, i, j);
  }

  ghost predicate IsStore(s: Store) { ListsOnce(s.order, s.orgs) && AreBelow(s.orgs, s.nextId) }

  lemma StartIsValid(lower: string -> string, s: Store)
    requires IsStore(s)
    ensures Valid(Start(lower, s)) && AreOwn(lower, Start(lower, s).byDomain, s.orgs)
  {
    forall k | k in Start(lower, s).byName ensures Start(lower, s).byName[k] in s.orgs {
      IndexFinds(lower, Name, s.orgs, s.order, k);
    }
    forall d | d in Start(lower, s).byDomain
      ensures Start(lower, s).byDomain[d] in s.orgs && Key(lower, Domain, s.orgs[Start(lower, s).byDomain[d]]) == Some(d)
    {
      IndexFinds(lower, Domain, s.orgs, s.order, d);
    }
  }

  // ---- The same file again ----

  /** What the next run reads: everything that was stored, the old organizations in their old order. */
  ghost predicate IsReadAgain(s: Store, q: Progress, s2: Store) {
    && IsStore(s2) && s2.orgs == q.orgs && s2.deals == q.deals && SameOrder(s.order, s2.order)
  }

  /** What one run from `s` leaves behind, as far as the next one depends on it. */
  ghost predicate IsRunOf(lower: string -> string, s: Store, q: Progress) {
    && IsStore(s) && Valid(q) && Later(Start(lower, s), q) && OnlyDone(lower, Start(lower, s), q)
  }

  lemma MatchesStay(lower: string -> string, column: Column, before: Orgs, after: Orgs, archived: bool, key: string)
    requires OrgsStay(before, after)
    ensures forall id | Matches(lower, column, before, archived, key, id) :: Matches(lower, column, after, archived, key, id)
  {
  }

  lemma NameStillFinds(lower: string -> string, s: Store, q: Progress, s2: Store, k: string)
    requires IsStore(s) && OrgsStay(s.orgs, q.orgs) && CreatedAreDone(lower, s.orgs, Start(lower, s).byName, q.orgs, q.withDeal)
    requires IsReadAgain(s, q, s2) && k in Start(lower, s).byName
    ensures k in Start(lower, s2).byName && Start(lower, s2).byName[k] == Start(lower, s).byName[k]
  {
    IndexFinds(lower, Name, s.orgs, s.order, k);
    var id := Start(lower, s).byName[k];
    MatchIsIndexed(lower, Name, q.orgs, s2.order, IsPutAway(s.orgs, id), k, id);
    IndexFinds(lower, Name, q.orgs, s2.order, k);
    var found := Start(lower, s2).byName[k];
    assert found in s.orgs;
    var archived := IsPutAway(q.orgs, found);
    MatchesStay(lower, Name, s.orgs, q.orgs, archived, k);
    MatchesStay(lower, Name, s.orgs, q.orgs, false, k);
    FoundBefore(lower, Name, s.orgs, s.order, q.orgs, s2.order, archived, k);
    KeyStays(lower, Name, s.orgs, s.order, q.orgs, s2.order, false, k);
  }

  /** A name that was not stored before the first run belongs to what it created. */
  lemma NewNameIsDone(lower: string -> string, s: Store, q: Progress, s2: Store, k: string)
    requires IsStore(s) && OrgsStay(s.orgs, q.orgs) && CreatedAreDone(lower, s.orgs, Start(lower, s).byName, q.orgs, q.withDeal)
    requires IsReadAgain(s, q, s2) && k in Start(lower, s2).byName && k !in Start(lower, s).byName
    ensures IsDone(q, Start(lower, s2).byName[k])
  {
    IndexFinds(lower, Name, q.orgs, s2.order, k);
    var id := Start(lower, s2).byName[k];
    if id in s.orgs {
      MatchIsIndexed(lower, Name, s.orgs, s.order, s.orgs[id].archived, k, id);
      assert false;
    }
  }

  lemma CreatedNameIsFound(lower: string -> string, s: Store, q: Progress, s2: Store, id: nat)
    requires IsReadAgain(s, q, s2) && id in q.orgs
    ensures lower(q.orgs[id].name) in Start(lower, s2).byName
  {
    MatchIsIndexed(lower, Name, q.orgs, s2.order, q.orgs[id].archived, lower(q.orgs[id].name), id);
  }

  /**
   A domain that led a row to an organization, which is done by the end of the run, leads to one
   that is done in the next run too, and to a live one if that was live.
   */
  lemma DomainStillFinds(lower: string -> string, s: Store, q: Progress, s2: Store, d: string, id: nat)
    requires IsStore(s) && OrgsStay(s.orgs, q.orgs) && IsReadAgain(s, q, s2)
    requires CreatedAreDone(lower, s.orgs, Start(lower, s).byName, q.orgs, q.withDeal) && FilledAreDone(s.orgs, q.orgs, q.withDeal)
    requires id in q.orgs && Key(lower, Domain, q.orgs[id]) == Some(d) && IsDone(q, id)
    requires d in Start(lower, s).byDomain ==> Start(lower, s).byDomain[d] == id
    ensures d in Start(lower, s2).byDomain && IsDone(q, Start(lower, s2).byDomain[d])
    ensures !IsPutAway(q.orgs, id) ==> !IsPutAway(q.orgs, Start(lower, s2).byDomain[d])
  {
    MatchIsIndexed(lower, Domain, q.orgs, s2.order, IsPutAway(q.orgs, id), d, id);
    IndexFinds(lower, Domain, q.orgs, s2.order, d);
    var found := Start(lower, s2).byDomain[d];
    if !IsPutAway(q.orgs, found) && found in s.orgs && s.orgs[found].domain == q.orgs[found].domain {
      LiveDomainFoundBefore(lower, s, q, s2, d);
    }
  }

  /** A live organization that the next run finds by a domain it always had is the one that the first run found. */
  lemma LiveDomainFoundBefore(lower: string -> string, s: Store, q: Progress, s2: Store, d: string)
    requires IsStore(s) && OrgsStay(s.orgs, q.orgs) && IsReadAgain(s, q, s2) && d in Start(lower, s2).byDomain
    requires var found := Start(lower, s2).byDomain[d];
             !IsPutAway(q.orgs, found) && found in s.orgs && found in q.orgs && s.orgs[found].domain == q.orgs[found].domain
    ensures d in Start(lower, s).byDomain && Start(lower, s).byDomain[d] == Start(lower, s2).byDomain[d]
  {
    IndexFinds(lower, Domain, q.orgs, s2.order, d);
    MatchesStay(lower, Domain, s.orgs, q.orgs, false, d);
    FoundBefore(lower, Domain, s.orgs, s.order, q.orgs, s2.order, false, d);
  }

  lemma NamesGrowByOne(lower: string -> string, p: Progress, company: string, domain: string)
    ensures Handled(lower, p, company, domain).byName.Keys <= p.byName.Keys + {lower(company)}
  {
    var found := Resolved(lower, p, company, domain);
    if found.None? || !IsPutAway(p.orgs, found.value) {
      HandledFields(lower, p, company, domain);
    }
  }

  /** What the next run can count on when it comes to a row that the first handled in `st`. */
  ghost predicate IsFindable(lower: string -> string, q: Progress, again: Progress, st: Progress, company: string, domain: string) {
    var k := lower(company);
    && (k in again.byName ==> IsDone(q, again.byName[k]))
    && (k !in again.byName && k !in st.byName ==>
          && domain != "" && lower(domain) in again.byDomain && IsDone(q, again.byDomain[lower(domain)])
          && (k in Handled(lower, st, company, domain).byName ==> !IsPutAway(q.orgs, again.byDomain[lower(domain)])))
  }

  lemma NameIsDone(lower: string -> string, s: Store, q: Progress, s2: Store, k: string)
    requires IsStore(s) && OrgsStay(s.orgs, q.orgs) && CreatedAreDone(lower, s.orgs, Start(lower, s).byName, q.orgs, q.withDeal)
    requires IsReadAgain(s, q, s2) && k in Start(lower, s2).byName
    requires k in Start(lower, s).byName ==> IsDone(q, Start(lower, s).byName[k])
    ensures IsDone(q, Start(lower, s2).byName[k])
  {
    if k in Start(lower, s).byName {
      NameStillFinds(lower, s, q, s2, k);
    } else {
      NewNameIsDone(lower, s, q, s2, k);
    }
  }

  /** By the end of the run a row's organization is done, or there under the row's name. */
  lemma RowIsDone(lower: string -> string, st: Progress, q: Progress, company: string, domain: string)
    requires Valid(st) && Later(Handled(lower, st, company, domain), q)
    ensures match Resolved(lower, st, company, domain)
            case Some(id) =>
              && IsDone(q, id)
              && (lower(company) in Handled(lower, st, company, domain).byName && lower(company) !in st.byName ==> !IsPutAway(q.orgs, id))
            case None => st.nextId in q.orgs && q.orgs[st.nextId].name == company
  {
  }

  lemma UnknownNameHasDomain(lower: string -> string, s: Store, st: Progress, q: Progress, s2: Store, company: string, domain: string)
    requires IsReadAgain(s, q, s2) && lower(company) !in Start(lower, s2).byName && lower(company) !in st.byName
    requires Resolved(lower, st, company, domain).None? ==> st.nextId in q.orgs && q.orgs[st.nextId].name == company
    ensures domain != "" && lower(domain) in st.byDomain
  {
    if Resolved(lower, st, company, domain).None? {
      CreatedNameIsFound(lower, s, q, s2, st.nextId);
    }
  }

  lemma RowIsFindable(lower: string -> string, s: Store, st: Progress, q: Progress, s2: Store, company: string, domain: string)
    requires IsStore(s) && OrgsStay(s.orgs, q.orgs) && IsReadAgain(s, q, s2)
    requires CreatedAreDone(lower, s.orgs, Start(lower, s).byName, q.orgs, q.withDeal) && FilledAreDone(s.orgs, q.orgs, q.withDeal)
    requires Valid(st) && KeysStay(Start(lower, s).byName, st.byName) && KeysStay(Start(lower, s).byDomain, st.byDomain)
    requires AreOwn(lower, st.byDomain, st.orgs) && OrgsStay(st.orgs, q.orgs) && Later(Handled(lower, st, company, domain), q)
    ensures IsFindable(lower, q, Start(lower, s2), st, company, domain)
  {
    RowIsDone(lower, st, q, company, domain);
    if lower(company) in Start(lower, s2).byName {
      NameIsDone(lower, s, q, s2, lower(company));
    } else if lower(company) !in st.byName {
      UnknownNameHasDomain(lower, s, st, q, s2, company, domain);
      DomainStillFinds(lower, s, q, s2, lower(domain), st.byDomain[lower(domain)]);
    }
  }

  /**
   The two runs side by side: `q` is what the first left behind, `again` where the second started,
   `st` and `t` where they have come to. The second has only skipped, and knows every name that
   the first knew at this row.
   */
  ghost predicate KeepsUp(q: Progress, again: Progress, st: Progress, t: Progress) {
    && t.created == 0 && t.imported == 0 && t.deals == q.deals && t.withDeal == q.withDeal
    && OrgsStay(q.orgs, t.orgs) && t.orgs.Keys == q.orgs.Keys
    && KeysStay(again.byName, t.byName) && KeysStay(again.byDomain, t.byDomain)
    && st.byName.Keys <= t.byName.Keys
    && (forall k | k in t.byName && k !in again.byName :: IsDone(q, t.byName[k]))
  }

  /** A row that finds an organization that is done is skipped, and at most adds its name as an alias. */
  lemma DoneIsSkipped(lower: string -> string, q: Progress, again: Progress, t: Progress, company: string, domain: string, id: nat)
    requires t.deals == q.deals && t.withDeal == q.withDeal && OrgsStay(q.orgs, t.orgs) && t.orgs.Keys == q.orgs.Keys
    requires KeysStay(again.byDomain, t.byDomain)
    requires Resolved(lower, t, company, domain) == Some(id) && IsDone(q, id)
    ensures var next := Handled(lower, t, company, domain);
            && next.created == t.created && next.imported == t.imported && next.skipped == t.skipped + 1
            && next.deals == t.deals && next.withDeal == t.withDeal
            && OrgsStay(q.orgs, next.orgs) && next.orgs.Keys == q.orgs.Keys
            && KeysStay(again.byDomain, next.byDomain)
            && next.byName == if IsPutAway(q.orgs, id) then t.byName else SetDefault(t.byName, lower(company), id)
  {
    if !IsPutAway(t.orgs, id) {
      HandledFields(lower, t, company, domain);
      var provided := Provided(t.orgs, Some(id), t.nextId, company, domain);
      assert OrgsStay(t.orgs, provided) && provided.Keys == t.orgs.Keys;
    }
  }

  lemma KeepsUpWithRow(lower: string -> string, q: Progress, again: Progress, st: Progress, t: Progress, company: string, domain: string)
    requires KeepsUp(q, again, st, t) && IsFindable(lower, q, again, st, company, domain)
    ensures KeepsUp(q, again, Handled(lower, st, company, domain), Handled(lower, t, company, domain))
    ensures Handled(lower, t, company, domain).skipped == t.skipped + 1
  {
    var k := lower(company);
    var id := if k in t.byName then t.byName[k] else again.byDomain[lower(domain)];
    assert IsDone(q, id);
    assert Resolved(lower, t, company, domain) == Some(id);
    DoneIsSkipped(lower, q, again, t, company, domain, id);
    NamesGrowByOne(lower, st, company, domain);
    SetDefaultKeeps(again.byName, t.byName, k, id);
  }

  lemma SetDefaultKeeps(before: Keys, m: Keys, key: string, id: nat)
    requires KeysStay(before, m)
    ensures KeysStay(before, SetDefault(m, key, id)) && m.Keys <= SetDefault(m, key, id).Keys && key in SetDefault(m, key, id)
  {
  }

  lemma PrefixIsRun(lower: string -> string, s: Store, rows: seq<Row>)
    requires IsStore(s)
    ensures IsRunOf(lower, s, Imported(lower, Start(lower, s), rows))
  {
    var start := Start(lower, s);
    StartIsValid(lower, s);
    RunIsValid(lower, start, rows);
    RunAddsOnlyDone(lower, start, rows);
    assert rows[..0] == [];
    RunIsLater(lower, start, rows, 0);
  }

  lemma OneMoreRow(lower: string -> string, p: Progress, rows: seq<Row>, i: nat)
    requires i < |rows|
    ensures Imported(lower, p, rows[..i + 1]) == Step(lower, Imported(lower, p, rows[..i]), rows[i])
    ensures NamedRows(rows[..i + 1]) == NamedRows(rows[..i]) + if IsNamed(rows[i]) then 1 else 0
  {
    assert rows[..i + 1][..i] == rows[..i] && rows[..i + 1][i] == rows[i];
  }

  lemma KeepsUpAtStart(lower: string -> string, s: Store, q: Progress, s2: Store)
    requires IsStore(s) && OrgsStay(s.orgs, q.orgs) && CreatedAreDone(lower, s.orgs, Start(lower, s).byName, q.orgs, q.withDeal)
    requires IsReadAgain(s, q, s2) && q.withDeal == Start(lower, s2).withDeal
    ensures KeepsUp(q, Start(lower, s2), Start(lower, s), Start(lower, s2))
  {
    NamesAreKnown(lower, s, q, s2);
  }

  lemma KeepsUpWithStep(lower: string -> string, s: Store, rows: seq<Row>, s2: Store, i: nat, t: Progress)
    requires IsStore(s) && i < |rows| && IsReadAgain(s, Imported(lower, Start(lower, s), rows), s2)
    requires KeepsUp(Imported(lower, Start(lower, s), rows), Start(lower, s2), Imported(lower, Start(lower, s), rows[..i]), t)
    ensures KeepsUp(Imported(lower, Start(lower, s), rows), Start(lower, s2), Imported(lower, Start(lower, s), rows[..i + 1]),
                    Step(lower, t, rows[i]))
    ensures Step(lower, t, rows[i]).skipped == t.skipped + if IsNamed(rows[i]) then 1 else 0
  {
    var q := Imported(lower, Start(lower, s), rows);
    var st := Imported(lower, Start(lower, s), rows[..i]);
    var r := rows[i];
    OneMoreRow(lower, Start(lower, s), rows, i);
    if IsNamed(r) {
      NamedRowIsFindable(lower, s, rows, s2, i);
      KeepsUpWithRow(lower, q, Start(lower, s2), st, t, CompanyOf(r), DomainOf(r));
    }
  }

  lemma NamedRowIsFindable(lower: string -> string, s: Store, rows: seq<Row>, s2: Store, i: nat)
    requires IsStore(s) && i < |rows| && IsNamed(rows[i]) && IsReadAgain(s, Imported(lower, Start(lower, s), rows), s2)
    ensures IsFindable(lower, Imported(lower, Start(lower, s), rows), Start(lower, s2), Imported(lower, Start(lower, s), rows[..i]),
                       CompanyOf(rows[i]), DomainOf(rows[i]))
  {
    PrefixIsRun(lower, s, rows);
    PrefixIsRun(lower, s, rows[..i]);
    StartIsValid(lower, s);
    RunIsLater(lower, Start(lower, s), rows, i);
    RunIsLater(lower, Start(lower, s), rows, i + 1);
    OneMoreRow(lower, Start(lower, s), rows, i);
    RowIsFindable(lower, s, Imported(lower, Start(lower, s), rows[..i]), Imported(lower, Start(lower, s), rows), s2,
                  CompanyOf(rows[i]), DomainOf(rows[i]));
  }

  lemma {:induction false} SecondRunKeepsUp(lower: string -> string, s: Store, rows: seq<Row>, s2: Store, i: nat)
    requires IsStore(s) && i <= |rows| && IsReadAgain(s, Imported(lower, Start(lower, s), rows), s2)
    requires Imported(lower, Start(lower, s), rows).withDeal == Start(lower, s2).withDeal
    ensures var t := Imported(lower, Start(lower, s2), rows[..i]);
            && KeepsUp(Imported(lower, Start(lower, s), rows), Start(lower, s2), Imported(lower, Start(lower, s), rows[..i]), t)
            && t.skipped == NamedRows(rows[..i])
  {
    if i == 0 {
      assert rows[..0] == [];
      PrefixIsRun(lower, s, rows);
      KeepsUpAtStart(lower, s, Imported(lower, Start(lower, s), rows), s2);
    } else {
      SecondRunKeepsUp(lower, s, rows, s2, i - 1);
      KeepsUpWithStep(lower, s, rows, s2, i - 1, Imported(lower, Start(lower, s2), rows[..i - 1]));
      OneMoreRow(lower, Start(lower, s2), rows, i - 1);
    }
  }

  lemma NamesAreKnown(lower: string -> string, s: Store, q: Progress, s2: Store)
    requires IsStore(s) && OrgsStay(s.orgs, q.orgs) && CreatedAreDone(lower, s.orgs, Start(lower, s).byName, q.orgs, q.withDeal)
    requires IsReadAgain(s, q, s2)
    ensures Start(lower, s).byName.Keys <= Start(lower, s2).byName.Keys
  {
    forall k | k in Start(lower, s).byName ensures k in Start(lower, s2).byName {
      NameStillFinds(lower, s, q, s2, k);
    }
  }

  // ---- One deal per company ----

  /** The deals that were added are for live organizations that had none, one for each. */
  ghost predicate OneDealEach(p: Progress, q: Progress) {
    && p.deals <= q.deals
    && (forall id :: id in q.withDeal <==> id in q.deals)
    && (forall i | |p.deals| <= i < |q.deals| :: q.deals[i] in q.orgs && !q.orgs[q.deals[i]].archived && q.deals[i] !in q.deals[..i])
  }

  lemma SettlingKeepsOneDealEach(lower: string -> string, p: Progress, q: Progress, company: string, id: nat)
    requires OneDealEach(p, q) && id in q.orgs && !q.orgs[id].archived
    ensures OneDealEach(p, Settled(lower, q, company, id))
  {
    var next := Settled(lower, q, company, id);
    if id !in q.withDeal {
      assert next.deals == q.deals + [id];
      forall i | |p.deals| <= i < |next.deals|
        ensures next.deals[i] in next.orgs && !next.orgs[next.deals[i]].archived && next.deals[i] !in next.deals[..i]
      {
        if i < |q.deals| {
          assert next.deals[..i] == q.deals[..i];
        } else {
          assert next.deals[..i] == q.deals;
        }
      }
    }
  }

  lemma PreparingKeepsOneDealEach(p: Progress, q: Progress, found: Option<nat>, company: string, domain: string)
    requires OneDealEach(p, q) && AreBelow(q.orgs, q.nextId)
    ensures OneDealEach(p, Prepared(q, found, company, domain))
  {
  }

  lemma {:induction false} RunGivesOneDealEach(lower: string -> string, p: Progress, rows: seq<Row>)
    requires Valid(p) && forall id :: id in p.withDeal <==> id in p.deals
    ensures OneDealEach(p, Imported(lower, p, rows))
  {
    if rows != [] {
      var q := Imported(lower, p, rows[..|rows| - 1]);
      var r := rows[|rows| - 1];
      RunGivesOneDealEach(lower, p, rows[..|rows| - 1]);
      RunIsValid(lower, p, rows[..|rows| - 1]);
      if IsNamed(r) {
        var found := Resolved(lower, q, CompanyOf(r), DomainOf(r));
        if found.None? || !IsPutAway(q.orgs, found.value) {
          PreparedIsLater(q, found, CompanyOf(r), DomainOf(r));
          PreparingKeepsOneDealEach(p, q, found, CompanyOf(r), DomainOf(r));
          SettlingKeepsOneDealEach(lower, p, Prepared(q, found, CompanyOf(r), DomainOf(r)), CompanyOf(r), found.GetOr(q.nextId));
        }
      }
    }
  }

  // ---- What the importer promises ----

  /**
   The same file again, with the old organizations read in the same order and the new ones
   anywhere among them, creates nothing, adds no deal, and skips every named row. (It may still
   fill in a missing domain.)
   */
  lemma SecondImportAddsNothing(lower: string -> string, s: Store, rows: seq<Row>, s2: Store)
    requires IsStore(s) && IsReadAgain(s, Imported(lower, Start(lower, s), rows), s2)
    ensures var q := Imported(lower, Start(lower, s2), rows);
            && q.created == 0 && q.imported == 0 && q.skipped == NamedRows(rows)
            && q.deals == s2.deals && q.orgs.Keys == s2.orgs.Keys && OrgsStay(s2.orgs, q.orgs)
  {
    StartIsValid(lower, s);
    RunGivesOneDealEach(lower, Start(lower, s), rows);
    assert Imported(lower, Start(lower, s), rows).withDeal == Start(lower, s2).withDeal;
    SecondRunKeepsUp(lower, s, rows, s2, |rows|);
    assert rows[..|rows|] == rows;
  }

  /** A new deal goes to a live organization that had none, and no organization gets two. */
  lemma NewDealsAreDeserved(lower: string -> string, s: Store, rows: seq<Row>, i: nat)
    requires IsStore(s) && |s.deals| <= i < |Imported(lower, Start(lower, s), rows).deals|
    ensures var q := Imported(lower, Start(lower, s), rows); var id := q.deals[i];
            && s.deals <= q.deals && id in q.orgs && !q.orgs[id].archived && id !in s.deals
            && forall j | |s.deals| <= j < |q.deals| && j != i :: q.deals[j] != id
  {
    StartIsValid(lower, s);
    RunGivesOneDealEach(lower, Start(lower, s), rows);
    var q := Imported(lower, Start(lower, s), rows);
    forall id | id in s.deals ensures id in q.deals[..i] {
      assert q.deals[..i][..|s.deals|] == s.deals;
    }
    forall j | |s.deals| <= j < |q.deals| && j != i ensures q.deals[j] != q.deals[i] {
      if j < i {
        assert q.deals[..i][j] == q.deals[j];
      } else {
        assert q.deals[..j][i] == q.deals[i];
      }
    }
  }

  // ---- The loop itself ----

  lemma KeyedOneMore(lower: string -> string, column: Column, orgs: Orgs, order: seq<nat>, i: nat, archived: bool)
    requires i < |order| && order[i] in orgs
    ensures var key := Key(lower, column, orgs[order[i]]); var m := Keyed(lower, column, orgs, order[..i], archived);
            Keyed(lower, column, orgs, order[..i + 1], archived)
            == if orgs[order[i]].archived == archived && key.Some? then m[key.value := order[i]] else m
  {
    assert order[..i + 1][..i] == order[..i];
  }

  class LeadImporter {
    const lower: string -> string
    var orgs: Orgs
    var nextId: nat
    var deals: seq<nat>
    var byName: Keys
    var byDomain: Keys
    var withDeal: set<nat>
    var total: nat
    var imported: nat
    var created: nat
    var skipped: nat
    var errors: nat

    ghost function Value(): Progress
      reads this
    {
      Progress(orgs, nextId, byName, byDomain, withDeal, deals, total, imported, created, skipped, errors)
    }

    constructor (lower: string -> string, s: Store)
      ensures this.lower == lower && orgs == s.orgs && nextId == s.nextId && deals == s.deals
    {
      this.lower, orgs, nextId, deals := lower, s.orgs, s.nextId, s.deals;
      byName, byDomain, withDeal := map[], map[], {};
      total, imported, created, skipped, errors := 0, 0, 0, 0, 0;
    }

    /** A dictionary over the organizations, archived first. */
    method BuildIndex(column: Column, order: seq<nat>) returns (keys: Keys)
      requires forall i | 0 <= i < |order| :: order[i] in orgs
      ensures keys == Index(lower, column, orgs, order)
    {
      keys := map[];
      for i := 0 to |order|
        invariant keys == Keyed(lower, column, orgs, order[..i], true)
      {
        KeyedOneMore(lower, column, orgs, order, i, true);
        var key := Key(lower, column, orgs[order[i]]);
        if orgs[order[i]].archived && key.Some? {
          keys := keys[key.value := order[i]];
        }
      }
      assert order[..|order|] == order;
      for i := 0 to |order|
        invariant keys == Keyed(lower, column, orgs, order, true) + Keyed(lower, column, orgs, order[..i], false)
      {
        KeyedOneMore(lower, column, orgs, order, i, false);
        var key := Key(lower, column, orgs[order[i]]);
        if !orgs[order[i]].archived && key.Some? {
          keys := keys[key.value := order[i]];
        }
      }
    }

    /** The body of the loop, for a row with a company. */
    method ImportRow(company: string, domain: string)
      requires Valid(Value())
      modifies this
      ensures Value() == Handled(lower, old(Value()), company, domain)
    {
      var found: Option<nat> := None;
      if lower(company) in byName {
        found := Some(byName[lower(company)]);
      } else if domain != "" && lower(domain) in byDomain {
        found := Some(byDomain[lower(domain)]);
      }
      assert found == Resolved(lower, Value(), company, domain);
      if found.Some? && orgs[found.value].archived {
        total := total + 1;
        skipped := skipped + 1;
        return;
      }
      var id := ProvideOrg(found, company, domain);
      SettleRow(company, id);
    }

    method ProvideOrg(found: Option<nat>, company: string, domain: string) returns (id: nat)
      requires found.Some? ==> found.value in orgs
      modifies this
      ensures Value() == Prepared(old(Value()), found, company, domain)
      ensures id == found.GetOr(old(nextId)) && id in orgs
    {
      total := total + 1;
      id := found.GetOr(nextId);
      if found.None? {
        orgs := orgs[id := Org(company, if domain == "" then None else Some(domain), false)];
        nextId := nextId + 1;
        created := created + 1;
      } else if domain != "" && !HasDomain(orgs[id]) {
        orgs := orgs[id := orgs[id].(domain := Some(domain))];
      }
    }

    method SettleRow(company: string, id: nat)
      requires id in orgs
      modifies this
      ensures Value() == Settled(lower, old(Value()), company, id)
    {
      byName := SetDefault(byName, lower(company), id);
      if HasDomain(orgs[id]) {
        byDomain := SetDefault(byDomain, lower(orgs[id].domain.value), id);
      }
      if id in withDeal {
        skipped := skipped + 1;
        return;
      }
      deals := deals + [id];
      withDeal := withDeal + {id};
      imported := imported + 1;
    }

    /** The maps and the counters, before the first row. */
    method Prepare(order: seq<nat>)
      requires IsStore(Store(orgs, order, deals, nextId))
      modifies this
      ensures Value() == Start(lower, Store(old(orgs), order, old(deals), old(nextId)))
    {
      byName := BuildIndex(Name, order);
      byDomain := BuildIndex(Domain, order);
      withDeal := set i | 0 <= i < |deals| :: deals[i];
      total, imported, created, skipped, errors := 0, 0, 0, 0, 0;
    }

    method ImportRows(rows: seq<Row>)
      requires Valid(Value())
      modifies this
      ensures Value() == Imported(lower, old(Value()), rows)
    {
      for i := 0 to |rows|
        invariant Valid(Value()) && Value() == Imported(lower, old(Value()), rows[..i])
      {
        OneMoreRow(lower, old(Value()), rows, i);
        StepIsLater(lower, Value(), rows[i]);
        if rows[i].Blank? {
          continue;
        }
        if CompanyOf(rows[i]) == "" {
          errors := errors + 1;
          continue;
        }
        ImportRow(CompanyOf(rows[i]), DomainOf(rows[i]));
      }
      assert rows[..|rows|] == rows;
    }

    /** `import_lead_generation_deals`, on rows that are followed by a broken one or not: all or nothing. */
    method ImportLeads(order: seq<nat>, rows: seq<Row>, isBroken: bool)
      requires IsStore(Store(orgs, order, deals, nextId))
      modifies this
      ensures var q := Imported(lower, Start(lower, Store(old(orgs), order, old(deals), old(nextId))), rows);
              if isBroken
              then orgs == old(orgs) && deals == old(deals) && total == q.total && imported == created == skipped == 0 && errors == q.errors + 1
              else Value() == q
    {
      var savedOrgs, savedDeals, savedNextId := orgs, deals, nextId;
      StartIsValid(lower, Store(orgs, order, deals, nextId));
      Prepare(order);
      ImportRows(rows);
      if isBroken {
        orgs, deals, nextId := savedOrgs, savedDeals, savedNextId;
        imported, created, skipped, errors := 0, 0, 0, errors + 1;
      }
    }
  }
}
