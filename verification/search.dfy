/**
 `GET /applications/search`: a conjunctive filter built from the optional query
 parameters, a page window cut out of the matches by skip/take, and the pagination
 summary (total matches, page, page size, number of pages).
 */
module Search {
  import opened Wrappers
  import opened Text
  import opened Store
  import opened Http

  const DefaultPage := 1
  const DefaultLimit := 10

  /** The employee sub-filter: `contains` conditions on the related employee's names. */
  datatype NameFilter = NameFilter(firstNameContains: Option<string>, lastNameContains: Option<string>)

  /** The where-clause: each part is present only when its parameter was. */
  datatype Where = Where(employeeId: Option<int>, employee: Option<NameFilter>)

  function PageOf(q: SearchQuery): int {
    match q.page
    case Some(p) => p
    case None => DefaultPage
  }

  function LimitOf(q: SearchQuery): int {
    match q.limit
    case Some(l) => l
    case None => DefaultLimit
  }

  /**
   A name parameter contributes its lower-cased text when it is truthy: a
   non-empty needle of the same length with no upper-case letter.
   */
  function NameParameter(o: Option<string>): (r: Option<string>)
    ensures r.Some? ==> o.Some? && |r.value| == |o.value| > 0 && IsLowerCase(r.value)
  {
    if TruthyText(o) then Some(Lower(o.value)) else None
  }

  /** The where-clause of the query; an employeeId whose number is falsy adds no part. */
  function BuildWhere(q: SearchQuery): (w: Where)
    ensures w.employeeId.Some? <==> TruthyNumber(q.employeeId)
    ensures w.employeeId.Some? ==> w.employeeId.value == q.employeeId.value
    ensures w.employee.Some? <==> TruthyText(q.firstName) || TruthyText(q.lastName)
    ensures w.employee.Some? ==> w.employee.value == NameFilter(NameParameter(q.firstName), NameParameter(q.lastName))
  {
    var id := if TruthyNumber(q.employeeId) then q.employeeId else None;
    var first := NameParameter(q.firstName);
    var last := NameParameter(q.lastName);
    Where(id, if first.Some? || last.Some? then Some(NameFilter(first, last)) else None)
  }

  predicate NameMatches(f: NameFilter, e: Employee) {
    && (f.firstNameContains.Some? ==> Contains(e.firstName, f.firstNameContains.value))
    && (f.lastNameContains.Some? ==> Contains(e.lastName, f.lastNameContains.value))
  }

  /** How the store evaluates a where-clause on one application. */
  predicate Matches(w: Where, employees: map<int, Employee>, a: Application) {
    && (w.employeeId.Some? ==> a.employeeId == w.employeeId.value)
    && (w.employee.Some? ==> a.employeeId in employees && NameMatches(w.employee.value, employees[a.employeeId]))
  }

  /**
   The search's meaning, stated straight from the query: the conjunction of one
   clause per truthy parameter.
   */
  ghost predicate SatisfiesQuery(q: SearchQuery, employees: map<int, Employee>, a: Application) {
    && (TruthyNumber(q.employeeId) ==> a.employeeId == q.employeeId.value)
    && (TruthyText(q.firstName) ==>
          a.employeeId in employees && IsSubstring(Lower(q.firstName.value), employees[a.employeeId].firstName))
    && (TruthyText(q.lastName) ==>
          a.employeeId in employees && IsSubstring(Lower(q.lastName.value), employees[a.employeeId].lastName))
  }

  /** The built where-clause accepts exactly the applications that satisfy the query. */
  lemma MatchesIffSatisfiesQuery(q: SearchQuery, employees: map<int, Employee>, a: Application)
    ensures Matches(BuildWhere(q), employees, a) <==> SatisfiesQuery(q, employees, a)
  {
    if a.employeeId in employees {
      var e := employees[a.employeeId];
      if TruthyText(q.firstName) {
        ContainsIsSubstring(e.firstName, Lower(q.firstName.value));
      }
      if TruthyText(q.lastName) {
        ContainsIsSubstring(e.lastName, Lower(q.lastName.value));
      }
    }
  }

  /** A query with no truthy parameter filters nothing out. */
  lemma EmptyQueryMatchesAll(q: SearchQuery, employees: map<int, Employee>, a: Application)
    requires !TruthyNumber(q.employeeId) && !TruthyText(q.firstName) && !TruthyText(q.lastName)
    ensures Matches(BuildWhere(q), employees, a)
  {
  }

  /**
   Find-many with a where-clause: the matching applications, in store order.
   */
  function Select(w: Where, employees: map<int, Employee>, apps: seq<Application>): (r: seq<Application>)
    ensures |r| <= |apps|
    ensures forall i :: 0 <= i < |r| ==> r[i] in apps && Matches(w, employees, r[i])
    ensures forall i :: 0 <= i < |apps| && Matches(w, employees, apps[i]) ==> apps[i] in r
    decreases |apps|
  {
    if apps == [] then []
    else (if Matches(w, employees, apps[0]) then [apps[0]] else []) + Select(w, employees, apps[1..])
  }

  /** Find-many returns each matching record exactly as often as the store holds it, and no other. */
  lemma {:induction false} SelectKeepsMultiplicity(w: Where, employees: map<int, Employee>, apps: seq<Application>)
    ensures forall x :: multiset(Select(w, employees, apps))[x] == (if Matches(w, employees, x) then multiset(apps)[x] else 0)
    decreases |apps|
  {
    if apps != [] {
      SelectKeepsMultiplicity(w, employees, apps[1..]);
      assert apps == [apps[0]] + apps[1..];
    }
  }

  /** Count with a where-clause. */
  function Count(w: Where, employees: map<int, Employee>, apps: seq<Application>): nat
    decreases |apps|
  {
    if apps == [] then 0
    else (if Matches(w, employees, apps[0]) then 1 else 0) + Count(w, employees, apps[1..])
  }

  /** The separate count query agrees with the number of applications find-many matches. */
  lemma {:induction false} CountIsNumberOfMatches(w: Where, employees: map<int, Employee>, apps: seq<Application>)
    ensures Count(w, employees, apps) == |Select(w, employees, apps)|
    decreases |apps|
  {
    if apps != [] {
      CountIsNumberOfMatches(w, employees, apps[1..]);
    }
  }

  /** When every application matches, find-many returns the store's list unchanged. */
  lemma {:induction false} SelectAllMatching(w: Where, employees: map<int, Employee>, apps: seq<Application>)
    requires forall i :: 0 <= i < |apps| ==> Matches(w, employees, apps[i])
    ensures Select(w, employees, apps) == apps
    decreases |apps|
  {
    if apps != [] {
      assert forall i :: 0 <= i < |apps[1..]| ==> Matches(w, employees, apps[1..][i]) by {
        forall i | 0 <= i < |apps[1..]| ensures Matches(w, employees, apps[1..][i]) {
          assert apps[1..][i] == apps[i + 1];
        }
      }
      SelectAllMatching(w, employees, apps[1..]);
      assert [apps[0]] + apps[1..] == apps;
    }
  }

  function Min(a: int, b: int): int {
    if a <= b then a else b
  }

  /** Skip/take on the matches: at most `take` of them, starting at position `skip`. */
  function Window<T>(xs: seq<T>, skip: nat, take: nat): (r: seq<T>)
    ensures |r| <= take
    ensures |r| == (if skip >= |xs| then 0 else Min(take, |xs| - skip))
    ensures forall i :: 0 <= i < |r| ==> skip + i < |xs| && r[i] == xs[skip + i]
  {
    if skip >= |xs| then [] else xs[skip..Min(skip + take, |xs|)]
  }

  /** `Math.ceil(n / d)` for a positive divisor: the least count of pages of `d` that hold `n`. */
  function CeilDiv(n: nat, d: nat): (q: nat)
    requires d > 0
    ensures q * d >= n
    ensures q == 0 || (q - 1) * d < n
    ensures q == 0 <==> n == 0
  {
    (n + d - 1) / d
  }

  /**
   The hits with their employee embedded, as the search includes the employee
   relation: one hit per application, joined along its foreign key to a stored
   employee, who is the one it names when employees are filed under their own ids.
   */
  function Embed(found: seq<Application>, employees: map<int, Employee>): (r: seq<ApplicationWithEmployee>)
    requires forall i :: 0 <= i < |found| ==> found[i].employeeId in employees
    ensures |r| == |found|
    ensures forall i :: 0 <= i < |r| ==> r[i].application == found[i]
    ensures forall i :: 0 <= i < |r| ==> r[i].employee in employees.Values
    ensures (forall k :: k in employees ==> employees[k].id == k) ==>
      forall i :: 0 <= i < |r| ==> r[i].employee.id == r[i].application.employeeId
  {
    seq(|found|, i requires 0 <= i < |found| => ApplicationWithEmployee(found[i], employees[found[i].employeeId]))
  }

  /** The applications the query matches, before skip/take. */
  function MatchesOf(s: Store, q: SearchQuery): seq<Application> {
    Select(BuildWhere(q), s.employees, s.applications)
  }

  function SkipOf(q: SearchQuery): nat
    requires PageOf(q) >= 1 && LimitOf(q) >= 1
  {
    (PageOf(q) - 1) * LimitOf(q)
  }

  /**
   The handler. The page is the window of the matches that starts at
   (page - 1) * limit and holds at most limit of them; the total counts every
   match; the page number is echoed back; the store is untouched.
   */
  function SearchApplications(s: Store, q: SearchQuery): (o: Outcome)
    requires PageOf(q) >= 1 && LimitOf(q) >= 1
    requires ReferencesIntact(s)
    ensures o.store == s
    ensures o.response.status == OK && o.response.body.SearchBody?
    ensures var hits := o.response.body.hits;
      var p := o.response.body.pagination;
      var matches := MatchesOf(s, q);
      && p.page == PageOf(q)
      && p.total == |matches|
      && p.pageSize == |hits| <= LimitOf(q)
      && |hits| == (if SkipOf(q) >= |matches| then 0 else Min(LimitOf(q), |matches| - SkipOf(q)))
      && (forall i :: 0 <= i < |hits| ==>
            SkipOf(q) + i < |matches| && hits[i].application == matches[SkipOf(q) + i])
      && (forall i :: 0 <= i < |hits| ==> hits[i].employee == s.employees[hits[i].application.employeeId])
      && p.totalPages * LimitOf(q) >= p.total
      && (p.totalPages == 0 || (p.totalPages - 1) * LimitOf(q) < p.total)
  {
    var where := BuildWhere(q);
    var found := Window(MatchesOf(s, q), SkipOf(q), LimitOf(q));
    var total := Count(where, s.employees, s.applications);
    CountIsNumberOfMatches(where, s.employees, s.applications);
    var hits := Embed(found, s.employees);
    Outcome(Response(OK, SearchBody(hits, Pagination(total, PageOf(q), |hits|, CeilDiv(total, LimitOf(q))))), s)
  }

  /** Every hit is an application of the store that satisfies the query. */
  lemma SearchHitsSatisfyQuery(s: Store, q: SearchQuery)
    requires PageOf(q) >= 1 && LimitOf(q) >= 1
    requires ReferencesIntact(s)
    ensures var hits := SearchApplications(s, q).response.body.hits;
      forall i :: 0 <= i < |hits| ==>
        hits[i].application in s.applications && SatisfiesQuery(q, s.employees, hits[i].application)
  {
    var hits := SearchApplications(s, q).response.body.hits;
    forall i | 0 <= i < |hits|
      ensures hits[i].application in s.applications && SatisfiesQuery(q, s.employees, hits[i].application)
    {
      MatchesIffSatisfiesQuery(q, s.employees, hits[i].application);
    }
  }

  /** Without truthy filter parameters the total is the number of applications in the store. */
  lemma UnfilteredTotal(s: Store, q: SearchQuery)
    requires PageOf(q) >= 1 && LimitOf(q) >= 1
    requires ReferencesIntact(s)
    requires !TruthyNumber(q.employeeId) && !TruthyText(q.firstName) && !TruthyText(q.lastName)
    ensures MatchesOf(s, q) == s.applications
    ensures SearchApplications(s, q).response.body.pagination.total == |s.applications|
  {
    SelectAllMatching(BuildWhere(q), s.employees, s.applications);
  }

  /** No matches means no pages. */
  lemma NoMatchesNoPages(s: Store, q: SearchQuery)
    requires PageOf(q) >= 1 && LimitOf(q) >= 1
    requires ReferencesIntact(s)
    requires |MatchesOf(s, q)| == 0
    ensures SearchApplications(s, q).response.body.pagination.totalPages == 0
    ensures SearchApplications(s, q).response.body.hits == []
  {
  }

  /** A page past the last one is empty. */
  lemma PastLastPageIsEmpty(s: Store, q: SearchQuery)
    requires PageOf(q) >= 1 && LimitOf(q) >= 1
    requires ReferencesIntact(s)
    requires PageOf(q) > CeilDiv(|MatchesOf(s, q)|, LimitOf(q))
    ensures SearchApplications(s, q).response.body.pagination.totalPages < PageOf(q)
    ensures SearchApplications(s, q).response.body.hits == []
  {
    MulMonotone(CeilDiv(|MatchesOf(s, q)|, LimitOf(q)), PageOf(q) - 1, LimitOf(q));
  }

  lemma MulMonotone(a: nat, b: nat, c: nat)
    requires a <= b
    ensures a * c <= b * c
  {
  }

  /**
   Position `i` lies on page `i / limit + 1`: inside that page's window, at place
   `i % limit` from its start.
   */
  lemma PositionOnPage(q: SearchQuery, i: nat)
    requires LimitOf(q) >= 1
    ensures var q' := q.(page := Some(i / LimitOf(q) + 1));
      && PageOf(q') >= 1 && LimitOf(q') == LimitOf(q)
      && SkipOf(q') <= i < SkipOf(q') + LimitOf(q')
      && i - SkipOf(q') == i % LimitOf(q)
  {
    var limit := LimitOf(q);
    assert (i / limit) * limit + i % limit == i;
  }

  /** The page number takes no part in the filter: every page draws on the same matches. */
  lemma SameMatchesOnEveryPage(s: Store, q: SearchQuery, page: Option<int>)
    ensures MatchesOf(s, q.(page := page)) == MatchesOf(s, q)
  {
    assert BuildWhere(q.(page := page)) == BuildWhere(q);
  }

  /**
   A match whose position falls inside a page's window is on that page, at its
   offset from the window's start, and the page is within the page count.
   */
  lemma HitOnPage(s: Store, q: SearchQuery, i: nat)
    requires PageOf(q) >= 1 && LimitOf(q) >= 1
    requires ReferencesIntact(s)
    requires SkipOf(q) <= i < SkipOf(q) + LimitOf(q) && i < |MatchesOf(s, q)|
    ensures var o := SearchApplications(s, q);
      && i - SkipOf(q) < |o.response.body.hits|
      && o.response.body.hits[i - SkipOf(q)].application == MatchesOf(s, q)[i]
      && PageOf(q) <= o.response.body.pagination.totalPages
  {
    var p := SearchApplications(s, q).response.body.pagination;
    if p.totalPages < PageOf(q) {
      MulMonotone(p.totalPages, PageOf(q) - 1, LimitOf(q));
    }
  }

  /**
   Every match is on exactly the page its position says: match `i` is hit
   `i % limit` of page `i / limit + 1`, and that page is within the page count.
   */
  lemma EveryMatchOnItsPage(s: Store, q: SearchQuery, i: nat)
    requires LimitOf(q) >= 1
    requires ReferencesIntact(s)
    requires i < |MatchesOf(s, q)|
    ensures var q' := q.(page := Some(i / LimitOf(q) + 1));
      var o := SearchApplications(s, q');
      && i % LimitOf(q) < |o.response.body.hits|
      && o.response.body.hits[i % LimitOf(q)].application == MatchesOf(s, q)[i]
      && i / LimitOf(q) + 1 <= o.response.body.pagination.totalPages
  {
    var q' := q.(page := Some(i / LimitOf(q) + 1));
    PositionOnPage(q, i);
    SameMatchesOnEveryPage(s, q, q'.page);
    HitOnPage(s, q', i);
  }
}
