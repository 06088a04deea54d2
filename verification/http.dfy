/**
 Request and response shapes of the four handlers. A handler is a pure function from
 the store and its parsed request to an `Outcome`: the status and body it responds
 with and the store it leaves behind.
 */
module Http {
  import opened Wrappers
  import opened Store

  /** Body of `PATCH /employees/:id`; a field the client left out is `None`. */
  datatype PatchBody = PatchBody(firstName: Option<string>, lastName: Option<string>)

  /** One item of `POST /applications`; a field the client left out is `None`. */
  datatype ApplicationInput = ApplicationInput(
    leaveStartDate: Option<string>,
    leaveEndDate: Option<string>,
    employeeId: Option<int>)

  /** Body of `POST /applications`: nothing, one object, or an array of objects. */
  datatype RequestBody = Absent | Single(item: ApplicationInput) | Many(items: seq<ApplicationInput>)

  /** Query of `GET /applications/search`, with integers already parsed. */
  datatype SearchQuery = SearchQuery(
    employeeId: Option<int>,
    firstName: Option<string>,
    lastName: Option<string>,
    page: Option<int>,
    limit: Option<int>)

  /** A search hit: the application with its employee record embedded. */
  datatype ApplicationWithEmployee = ApplicationWithEmployee(application: Application, employee: Employee)

  datatype Pagination = Pagination(total: nat, page: int, pageSize: nat, totalPages: nat)

  datatype Body =
    | EmployeeBody(employee: EmployeeView)
    | MessageBody(message: string)
    | MissingFieldsBody(message: string, item: ApplicationInput)
    | ApplicationsBody(applications: seq<Application>)
    | SearchBody(hits: seq<ApplicationWithEmployee>, pagination: Pagination)

  datatype Response = Response(status: int, body: Body)

  datatype Outcome = Outcome(response: Response, store: Store)

  const OK := 200
  const CREATED := 201
  const BAD_REQUEST := 400
  const NOT_FOUND := 404

  /** A JavaScript string is truthy exactly when it is present and not empty. */
  predicate TruthyText(o: Option<string>) {
    o.Some? && o.value != ""
  }

  /** A JavaScript number is truthy exactly when it is present and not zero. */
  predicate TruthyNumber(o: Option<int>) {
    o.Some? && o.value != 0
  }
}
