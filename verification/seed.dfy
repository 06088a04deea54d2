/**
 The seeded store (two employees, no applications yet) and the request scenarios
 the API tests exercise against it, stated as facts about the model.
 */
module Seed {
  import opened Wrappers
  import opened Text
  import opened Store
  import opened Http
  import opened Employees
  import opened Applications

  const Jane := Employee(1, "Jane", "Smith", "2014-09-08T08:02:17-05:00", "jane-secret")
  const John := Employee(2, "John", "Smith", "1097-09-08T08:02:17-05:00", "john-secret")

  const Seeded := Store(map[1 := Jane, 2 := John], [], 1)

  lemma SeededIsValid()
    ensures Valid(Seeded)
  {
  }

  /** Employee 1 is Jane, and her view leaves the secret behind. */
  lemma FetchSeededEmployee()
    ensures GetEmployee(Seeded, 1).response.status == OK
    ensures GetEmployee(Seeded, 1).response.body == EmployeeBody(EmployeeView(1, "Jane", "Smith", Jane.dateOfBirth))
  {
  }

  lemma FetchUnknownEmployee()
    ensures GetEmployee(Seeded, 3).response == Response(NOT_FOUND, MessageBody("Employee not found."))
  {
  }

  lemma PatchSeededEmployee()
    ensures var o := PatchEmployee(Seeded, 1, PatchBody(Some("Zoe"), Some("Sanchez")));
      && o.response == Response(OK, EmployeeBody(EmployeeView(1, "Zoe", "Sanchez", Jane.dateOfBirth)))
      && o.store.employees[1].secret == "jane-secret"
      && o.store.employees[2] == John
  {
  }

  lemma PatchUnknownEmployee()
    ensures PatchEmployee(Seeded, 99, PatchBody(Some("Zoe"), Some("Sanchez")))
         == Outcome(Response(NOT_FOUND, MessageBody("Employee not found.")), Seeded)
  {
  }

  /** A blank last name is rejected before the unknown id is even looked up. */
  lemma PatchBlankLastName()
    ensures PatchEmployee(Seeded, 99, PatchBody(None, Some("")))
         == Outcome(Response(BAD_REQUEST, MessageBody("lastName can not be blank.")), Seeded)
  {
  }

  /**
   A batch whose second item names an unknown employee: the response names that id,
   and the first item's record stays in the store.
   */
  lemma BatchStopsAtUnknownEmployee()
    ensures var good := ApplicationInput(Some("2024-11-01"), Some("2024-11-10"), Some(2));
      var bad := ApplicationInput(Some("2024-11-01"), Some("2024-11-10"), Some(999));
      var o := CreateApplications(Seeded, Many([good, bad]));
      && o.response == Response(BAD_REQUEST, MessageBody("Employee ID 999 does not exist."))
      && o.store.applications == [Application(1, "2024-11-01", "2024-11-10", 2)]
  {
    var good := ApplicationInput(Some("2024-11-01"), Some("2024-11-10"), Some(2));
    var bad := ApplicationInput(Some("2024-11-01"), Some("2024-11-10"), Some(999));
    var (a, s1) := CreateApplication(Seeded, "2024-11-01", "2024-11-10", 2);
    assert [good, bad][1..] == [bad];
    assert CreateEach(Seeded, [good, bad], []) == CreateEach(s1, [bad], [a]);
    assert CreateEach(s1, [bad], [a]) == Outcome(Response(BAD_REQUEST, MessageBody(UnknownEmployee(999))), s1);
    assert Digit(9) == '9';
    assert NatToString(9) == "9";
    assert NatToString(99) == "99";
    assert NatToString(999) == "999";
    assert UnknownEmployee(999) == "Employee ID 999 does not exist.";
    assert s1.applications == [a];
  }
}
