/** `GET /employees/:id` and `PATCH /employees/:id`. */
module Employees {
  import opened Wrappers
  import opened Store
  import opened Http

  const EmployeeNotFound := "Employee not found."
  const BlankName := "lastName can not be blank."

  /** A name field passes validation when it is truthy and at least one character long. */
  predicate NonBlank(o: Option<string>) {
    TruthyText(o) && |o.value| >= 1
  }

  predicate NamesValid(b: PatchBody) {
    NonBlank(b.firstName) && NonBlank(b.lastName)
  }

  /**
   Fetch: an existing id answers 200 with the employee's public fields, an absent
   one 404; neither touches the store. The body type has no place for the secret.
   */
  function GetEmployee(s: Store, id: int): (o: Outcome)
    ensures o.store == s
    ensures o.response.status == OK <==> id in s.employees
    ensures id in s.employees ==> o.response.body.EmployeeBody? && Shows(o.response.body.employee, s.employees[id])
    ensures id !in s.employees ==> o.response == Response(NOT_FOUND, MessageBody(EmployeeNotFound))
  {
    match FindEmployee(s, id)
    case None => Outcome(Response(NOT_FOUND, MessageBody(EmployeeNotFound)), s)
    case Some(e) => Outcome(Response(OK, EmployeeBody(View(e))), s)
  }

  /** In a valid store the fetched record carries the id that was asked for. */
  lemma GetEmployeeIdMatches(s: Store, id: int)
    requires Valid(s)
    requires id in s.employees
    ensures GetEmployee(s, id).response.body.employee.id == id
  {
  }

  /**
   Patch: validation comes first, so blank names answer 400 whatever the id; then an
   absent id answers 404; otherwise only the two name fields of that one employee
   change and the response shows the updated record.
   */
  function PatchEmployee(s: Store, id: int, b: PatchBody): (o: Outcome)
    ensures !NamesValid(b) ==> o == Outcome(Response(BAD_REQUEST, MessageBody(BlankName)), s)
    ensures NamesValid(b) && id !in s.employees ==> o == Outcome(Response(NOT_FOUND, MessageBody(EmployeeNotFound)), s)
    ensures NamesValid(b) && id in s.employees ==>
      && o.response.status == OK
      && o.store.applications == s.applications
      && o.store.nextApplicationId == s.nextApplicationId
      && o.store.employees.Keys == s.employees.Keys
      && (forall k :: k in s.employees && k != id ==> o.store.employees[k] == s.employees[k])
      && o.store.employees[id].firstName == b.firstName.value
      && o.store.employees[id].lastName == b.lastName.value
      && o.store.employees[id].id == s.employees[id].id
      && o.store.employees[id].dateOfBirth == s.employees[id].dateOfBirth
      && o.store.employees[id].secret == s.employees[id].secret
      && o.response.body.EmployeeBody?
      && Shows(o.response.body.employee, o.store.employees[id])
  {
    if !NamesValid(b) then
      Outcome(Response(BAD_REQUEST, MessageBody(BlankName)), s)
    else
      match FindEmployee(s, id)
      case None => Outcome(Response(NOT_FOUND, MessageBody(EmployeeNotFound)), s)
      case Some(e) =>
        var updated := e.(firstName := b.firstName.value, lastName := b.lastName.value);
        Outcome(Response(OK, EmployeeBody(View(updated))), s.(employees := s.employees[id := updated]))
  }

  /** Patching keeps the store invariant. */
  lemma PatchPreservesValid(s: Store, id: int, b: PatchBody)
    requires Valid(s)
    ensures Valid(PatchEmployee(s, id, b).store)
  {
  }

  /** A successful patch is what a later fetch of the same id sees. */
  lemma PatchThenGet(s: Store, id: int, b: PatchBody)
    requires PatchEmployee(s, id, b).response.status == OK
    ensures var g := GetEmployee(PatchEmployee(s, id, b).store, id);
      && g.response.status == OK
      && g.response.body == PatchEmployee(s, id, b).response.body
      && g.response.body.employee.firstName == b.firstName.value
      && g.response.body.employee.lastName == b.lastName.value
  {
  }

  /** A patch carrying the names the employee already has changes nothing in the store. */
  lemma PatchWithSameNamesKeepsStore(s: Store, id: int, b: PatchBody)
    requires id in s.employees
    requires b == PatchBody(Some(s.employees[id].firstName), Some(s.employees[id].lastName))
    requires NamesValid(b)
    ensures PatchEmployee(s, id, b).store == s
  {
  }
}
