/**
 The abstract record store that stands in for the database client: employees keyed
 by id, applications in creation order, and the next value of the application id
 sequence. The four lookups and writes the handlers issue (find-one, find-many,
 count, create, update) are the functions below and in the handler modules.
 */
module Store {
  import opened Wrappers

  /** Dates are opaque here: a stored date is represented by the text it was parsed from. */
  type Date = string

  datatype Employee = Employee(id: int, firstName: string, lastName: string, dateOfBirth: Date, secret: string)

  datatype Application = Application(id: int, leaveStartDate: Date, leaveEndDate: Date, employeeId: int)

  datatype Store = Store(employees: map<int, Employee>, applications: seq<Application>, nextApplicationId: int)

  /** The employee view every employee response uses: all fields but the secret. */
  datatype EmployeeView = EmployeeView(id: int, firstName: string, lastName: string, dateOfBirth: Date)

  function View(e: Employee): EmployeeView {
    EmployeeView(e.id, e.firstName, e.lastName, e.dateOfBirth)
  }

  /** `v` shows exactly the public fields of `e`. */
  predicate Shows(v: EmployeeView, e: Employee) {
    v.id == e.id && v.firstName == e.firstName && v.lastName == e.lastName && v.dateOfBirth == e.dateOfBirth
  }

  /** Every application refers to an existing employee (the database's foreign key). */
  predicate ReferencesIntact(s: Store) {
    forall i :: 0 <= i < |s.applications| ==> s.applications[i].employeeId in s.employees
  }

  /**
   The store invariant: employees are filed under their own id, applications refer
   to existing employees, and application ids are increasing and below the next id.
   */
  predicate Valid(s: Store) {
    && (forall k :: k in s.employees ==> s.employees[k].id == k)
    && ReferencesIntact(s)
    && (forall i :: 0 <= i < |s.applications| ==> s.applications[i].id < s.nextApplicationId)
    && (forall i, j :: 0 <= i < j < |s.applications| ==> s.applications[i].id < s.applications[j].id)
  }

  /**
   Find-one by primary key. When employees are filed under their own ids, the
   lookup finds exactly the record whose id field is the requested id.
   */
  function FindEmployee(s: Store, id: int): (r: Option<Employee>)
    ensures (forall k :: k in s.employees ==> s.employees[k].id == k) ==>
      && (r.Some? <==> exists e :: e in s.employees.Values && e.id == id)
      && (r.Some? ==> r.value in s.employees.Values && r.value.id == id)
  {
    if id in s.employees then Some(s.employees[id])
    else
      NoRecordUnderAbsentKey(s.employees, id);
      None
  }

  /** Under a key-equals-id filing, no record carries an id that is not a key. */
  lemma NoRecordUnderAbsentKey(employees: map<int, Employee>, id: int)
    requires id !in employees
    ensures (forall k :: k in employees ==> employees[k].id == k) ==>
      forall e :: e in employees.Values ==> e.id != id
  {
    if forall k :: k in employees ==> employees[k].id == k {
      forall e | e in employees.Values ensures e.id != id {
        var k :| k in employees && employees[k] == e;
      }
    }
  }

  /** Create: the new application takes the next id and is appended. */
  function CreateApplication(s: Store, start: Date, end: Date, employeeId: int): (Application, Store) {
    var a := Application(s.nextApplicationId, start, end, employeeId);
    (a, s.(applications := s.applications + [a], nextApplicationId := s.nextApplicationId + 1))
  }

  /**
   In a valid store the created record's id is fresh, above every id already
   given out; the store gains exactly that record, for the requested employee,
   and the employees stay as they were.
   */
  lemma CreateIsFresh(s: Store, start: Date, end: Date, employeeId: int)
    requires Valid(s)
    ensures var (a, s') := CreateApplication(s, start, end, employeeId);
      && (forall i :: 0 <= i < |s.applications| ==> s.applications[i].id < a.id)
      && multiset(s'.applications) == multiset(s.applications) + multiset{a}
      && a.employeeId == employeeId && a.leaveStartDate == start && a.leaveEndDate == end
      && s'.employees == s.employees
  {
  }

  /** Creating an application for an existing employee keeps the store invariant. */
  lemma CreatePreservesValid(s: Store, start: Date, end: Date, employeeId: int)
    requires Valid(s)
    requires employeeId in s.employees
    ensures Valid(CreateApplication(s, start, end, employeeId).1)
  {
  }
}
