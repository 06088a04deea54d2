/**
 `POST /applications`: one object or an array of objects, processed in order, each
 validated and then created. The first bad item ends the request; items created
 before it stay in the store (there is no transaction around the batch).
 */
module Applications {
  import opened Text
  import opened Store
  import opened Http

  const EmptyBody := "Request body cannot be empty."
  const MissingFields := "Missing required fields: leave_start_date, leave_end_date, and employeeId."

  function UnknownEmployee(id: int): string {
    "Employee ID " + IntToString(id) + " does not exist."
  }

  /** All three required fields are truthy. */
  predicate HasRequiredFields(item: ApplicationInput) {
    TruthyText(item.leaveStartDate) && TruthyText(item.leaveEndDate) && TruthyNumber(item.employeeId)
  }

  /** The item passes both checks against the employees of the store. */
  predicate Acceptable(employees: map<int, Employee>, item: ApplicationInput) {
    HasRequiredFields(item) && item.employeeId.value in employees
  }

  /** The record the store creates for an acceptable item under the given id. */
  predicate IsRecordOf(a: Application, item: ApplicationInput, id: int) {
    && item.leaveStartDate.Some? && item.leaveEndDate.Some? && item.employeeId.Some?
    && a == Application(id, item.leaveStartDate.value, item.leaveEndDate.value, item.employeeId.value)
  }

  /** `created[j]` is the record of `items[j]`, with ids counting up from `firstId`. */
  ghost predicate RecordsOf(created: seq<Application>, items: seq<ApplicationInput>, firstId: int) {
    |created| == |items| && forall j :: 0 <= j < |items| ==> IsRecordOf(created[j], items[j], firstId + j)
  }

  /** `k` is the index of the first item that fails a check. */
  ghost predicate IsFirstFailure(employees: map<int, Employee>, items: seq<ApplicationInput>, k: nat) {
    k < |items| && !Acceptable(employees, items[k]) && forall j :: 0 <= j < k ==> Acceptable(employees, items[j])
  }

  /** The 400 response the failing item draws: the missing-field check runs first. */
  function Rejection(item: ApplicationInput): Response {
    if !HasRequiredFields(item) then Response(BAD_REQUEST, MissingFieldsBody(MissingFields, item))
    else Response(BAD_REQUEST, MessageBody(UnknownEmployee(item.employeeId.value)))
  }

  /** The items of a non-empty body: a single object is a one-element batch. */
  function Batch(body: RequestBody): seq<ApplicationInput>
    requires !body.Absent?
  {
    match body
    case Single(item) => [item]
    case Many(items) => items
  }

  /**
   The loop over the batch: `created` holds the records made so far. Each item is
   checked for its fields, then for its employee, and only then created.
   */
  function CreateEach(s: Store, items: seq<ApplicationInput>, created: seq<Application>): Outcome
    decreases |items|
  {
    if items == [] then
      Outcome(Response(CREATED, ApplicationsBody(created)), s)
    else
      var item := items[0];
      if !HasRequiredFields(item) then
        Outcome(Response(BAD_REQUEST, MissingFieldsBody(MissingFields, item)), s)
      else if FindEmployee(s, item.employeeId.value).None? then
        Outcome(Response(BAD_REQUEST, MessageBody(UnknownEmployee(item.employeeId.value))), s)
      else
        var (a, s') := CreateApplication(s, item.leaveStartDate.value, item.leaveEndDate.value, item.employeeId.value);
        CreateEach(s', items[1..], created + [a])
  }

  /** The handler. An absent body is rejected before anything else and creates nothing. */
  function CreateApplications(s: Store, body: RequestBody): (o: Outcome)
    ensures body.Absent? ==> o == Outcome(Response(BAD_REQUEST, MessageBody(EmptyBody)), s)
    ensures o.store.employees == s.employees
    ensures o.response.status == CREATED || o.response.status == BAD_REQUEST
  {
    if body.Absent? then
      Outcome(Response(BAD_REQUEST, MessageBody(EmptyBody)), s)
    else
      CreateEachKeepsEmployees(s, Batch(body), []);
      CreateEach(s, Batch(body), [])
  }

  lemma {:induction false} CreateEachKeepsEmployees(s: Store, items: seq<ApplicationInput>, created: seq<Application>)
    ensures CreateEach(s, items, created).store.employees == s.employees
    ensures CreateEach(s, items, created).response.status in {CREATED, BAD_REQUEST}
    decreases |items|
  {
    if items != [] && Acceptable(s.employees, items[0]) {
      var item := items[0];
      var (a, s') := CreateApplication(s, item.leaveStartDate.value, item.leaveEndDate.value, item.employeeId.value);
      CreateEachKeepsEmployees(s', items[1..], created + [a]);
    }
  }

  /** The loop when every remaining item is acceptable, with an arbitrary accumulator. */
  lemma {:induction false} CreateEachAllAcceptable(s: Store, items: seq<ApplicationInput>, created: seq<Application>)
    requires forall j :: 0 <= j < |items| ==> Acceptable(s.employees, items[j])
    ensures var o := CreateEach(s, items, created);
      && o.response.status == CREATED
      && o.response.body.ApplicationsBody?
      && |o.response.body.applications| == |created| + |items|
      && o.response.body.applications[..|created|] == created
      && RecordsOf(o.response.body.applications[|created|..], items, s.nextApplicationId)
      && o.store.applications == s.applications + o.response.body.applications[|created|..]
      && o.store.nextApplicationId == s.nextApplicationId + |items|
    decreases |items|
  {
    if items != [] {
      var item := items[0];
      var (a, s') := CreateApplication(s, item.leaveStartDate.value, item.leaveEndDate.value, item.employeeId.value);
      assert Acceptable(s'.employees, item);
      assert forall j :: 0 <= j < |items[1..]| ==> Acceptable(s'.employees, items[1..][j]) by {
        forall j | 0 <= j < |items[1..]| ensures Acceptable(s'.employees, items[1..][j]) {
          assert items[1..][j] == items[j + 1];
        }
      }
      CreateEachAllAcceptable(s', items[1..], created + [a]);
      var o := CreateEach(s', items[1..], created + [a]);
      assert o == CreateEach(s, items, created);
      var all := o.response.body.applications;
      var rest := all[|created| + 1..];
      assert all[..|created| + 1] == created + [a];
      assert all[..|created|] == (created + [a])[..|created|];
      assert all[|created|..] == [a] + rest;
      forall j | 0 <= j < |items|
        ensures IsRecordOf(all[|created|..][j], items[j], s.nextApplicationId + j)
      {
        if j > 0 {
          assert all[|created|..][j] == rest[j - 1];
          assert items[j] == items[1..][j - 1];
        }
      }
    }
  }

  /** The loop when item `k` is the first bad one, with an arbitrary accumulator. */
  lemma {:induction false} CreateEachFirstFailure(s: Store, items: seq<ApplicationInput>, created: seq<Application>, k: nat)
    requires IsFirstFailure(s.employees, items, k)
    ensures var o := CreateEach(s, items, created);
      && o.response == Rejection(items[k])
      && |o.store.applications| == |s.applications| + k
      && o.store.applications[..|s.applications|] == s.applications
      && RecordsOf(o.store.applications[|s.applications|..], items[..k], s.nextApplicationId)
      && o.store.nextApplicationId == s.nextApplicationId + k
    decreases |items|
  {
    if k == 0 {
      assert s.applications[..|s.applications|] == s.applications;
    } else {
      var item := items[0];
      assert Acceptable(s.employees, item);
      var (a, s') := CreateApplication(s, item.leaveStartDate.value, item.leaveEndDate.value, item.employeeId.value);
      assert IsFirstFailure(s'.employees, items[1..], k - 1) by {
        forall j | 0 <= j < k - 1 ensures Acceptable(s'.employees, items[1..][j]) {
          assert items[1..][j] == items[j + 1];
        }
        assert items[1..][k - 1] == items[k];
      }
      CreateEachFirstFailure(s', items[1..], created + [a], k - 1);
      var o := CreateEach(s', items[1..], created + [a]);
      assert o == CreateEach(s, items, created);
      var n := |s.applications|;
      var apps := o.store.applications;
      assert apps[..n] == apps[..n + 1][..n];
      assert apps[n..] == [a] + apps[n + 1..];
      forall j | 0 <= j < k
        ensures IsRecordOf(apps[n..][j], items[..k][j], s.nextApplicationId + j)
      {
        if j > 0 {
          assert apps[n..][j] == apps[n + 1..][j - 1];
          assert items[..k][j] == items[1..][..k - 1][j - 1];
        }
      }
    }
  }

  /**
   Success: when every item is acceptable the answer is 201 with one record per
   item, in input order, each linked to its item's employee, and the store gains
   exactly those records.
   */
  lemma BatchSuccess(s: Store, body: RequestBody)
    requires !body.Absent?
    requires forall j :: 0 <= j < |Batch(body)| ==> Acceptable(s.employees, Batch(body)[j])
    ensures var o := CreateApplications(s, body);
      && o.response.status == CREATED
      && o.response.body.ApplicationsBody?
      && RecordsOf(o.response.body.applications, Batch(body), s.nextApplicationId)
      && o.store.applications == s.applications + o.response.body.applications
      && |o.store.applications| == |s.applications| + |Batch(body)|
      && o.store.employees == s.employees
  {
    CreateEachAllAcceptable(s, Batch(body), []);
    var o := CreateApplications(s, body);
    assert o.response.body.applications[0..] == o.response.body.applications;
  }

  /**
   Failure: when item `k` is the first bad one the answer is that item's 400, and
   exactly the items before it have been created; nothing from `k` on.
   */
  lemma BatchFailure(s: Store, body: RequestBody, k: nat)
    requires !body.Absent?
    requires IsFirstFailure(s.employees, Batch(body), k)
    ensures var o := CreateApplications(s, body);
      && o.response == Rejection(Batch(body)[k])
      && (!HasRequiredFields(Batch(body)[k]) ==>
            o.response == Response(BAD_REQUEST, MissingFieldsBody(MissingFields, Batch(body)[k])))
      && (HasRequiredFields(Batch(body)[k]) ==>
            o.response == Response(BAD_REQUEST, MessageBody(UnknownEmployee(Batch(body)[k].employeeId.value))))
      && |o.store.applications| == |s.applications| + k
      && o.store.applications[..|s.applications|] == s.applications
      && RecordsOf(o.store.applications[|s.applications|..], Batch(body)[..k], s.nextApplicationId)
      && o.store.employees == s.employees
  {
    CreateEachFirstFailure(s, Batch(body), [], k);
  }

  /** Every batch either succeeds as a whole or has a first failing item. */
  lemma {:induction false} BatchSucceedsOrFailsFirst(employees: map<int, Employee>, items: seq<ApplicationInput>)
    ensures (forall j :: 0 <= j < |items| ==> Acceptable(employees, items[j]))
         || (exists k: nat :: IsFirstFailure(employees, items, k))
    decreases |items|
  {
    if items != [] && Acceptable(employees, items[0]) {
      BatchSucceedsOrFailsFirst(employees, items[1..]);
      if exists k: nat :: IsFirstFailure(employees, items[1..], k) {
        var k: nat :| IsFirstFailure(employees, items[1..], k);
        forall j | 0 <= j < k + 1 ensures Acceptable(employees, items[j]) {
          if j > 0 {
            assert items[j] == items[1..][j - 1];
          }
        }
        assert IsFirstFailure(employees, items, k + 1);
      } else {
        forall j | 0 <= j < |items| ensures Acceptable(employees, items[j]) {
          if j > 0 {
            assert items[j] == items[1..][j - 1];
          }
        }
      }
    } else if items != [] {
      assert IsFirstFailure(employees, items, 0);
    }
  }

  /** A single object is handled exactly like a one-element array. */
  lemma SingleIsOneElementBatch(s: Store, item: ApplicationInput)
    ensures CreateApplications(s, Single(item)) == CreateApplications(s, Many([item]))
  {
  }

  /** An empty array is a truthy body: it answers 201 with no records and no change. */
  lemma EmptyArrayCreatesNothing(s: Store)
    ensures CreateApplications(s, Many([])) == Outcome(Response(CREATED, ApplicationsBody([])), s)
  {
  }

  /** The handler keeps the store invariant, whether it succeeds or stops early. */
  lemma {:induction false} CreateEachPreservesValid(s: Store, items: seq<ApplicationInput>, created: seq<Application>)
    requires Valid(s)
    ensures Valid(CreateEach(s, items, created).store)
    decreases |items|
  {
    if items != [] && Acceptable(s.employees, items[0]) {
      var item := items[0];
      CreatePreservesValid(s, item.leaveStartDate.value, item.leaveEndDate.value, item.employeeId.value);
      var (a, s') := CreateApplication(s, item.leaveStartDate.value, item.leaveEndDate.value, item.employeeId.value);
      CreateEachPreservesValid(s', items[1..], created + [a]);
    }
  }

  lemma CreatePreservesValidity(s: Store, body: RequestBody)
    requires Valid(s)
    ensures Valid(CreateApplications(s, body).store)
  {
    if !body.Absent? {
      CreateEachPreservesValid(s, Batch(body), []);
    }
  }
}
