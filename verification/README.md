# HR leave backend: handlers and OpenAPI generator

A Dafny model of the logic inside a small Express/Prisma REST backend for leave
management. It covers two parts.

- **The request handlers** in `src/app.ts`:
  - `GET /employees/:id` and `PATCH /employees/:id`;
  - the batch creation `POST /applications`;
  - the filtered, paginated `GET /applications/search`.

  The database client is replaced by an abstract store value: employees keyed by
  id, applications in creation order, and the next value of the application id
  sequence. In the model that sequence has no gaps, so the records of one batch
  get consecutive ids; the database promises only fresh, increasing ids, and the
  consecutive ids in `Applications.RecordsOf` are a property of the model. Each handler is a pure function from the store and the already-parsed
  request to an `Outcome`: the status, the body, and the store it leaves behind.
- **The schema-to-OpenAPI mapping** in `lib/generateSwagger.ts`. Data models
  (a name plus typed fields) become `{type: 'object', properties}` definitions.
  Each property's type comes from the fixed primitive table (`Int` → `number`,
  `DateTime` → `string`) or is the field type lower-cased; a type named like an
  inherited `Object.prototype` method is written without a type (see the
  `Swagger.OpenApiType` row). The scanned document's
  `components` is then replaced by `{schemas: definitions}`.

Modules: `Wrappers` (Option), `Text` (ASCII lower-casing, substring search,
decimal rendering), `Store` (records, store invariant, find/create), `Http`
(request and response shapes), `Employees`, `Applications`, `Search`, `Swagger`,
and `Seed` (the seeded store and the API test scenarios).

Two behaviours of the code are easy to miss, and the model keeps both:

- **The search exposes the secret.** The search's documented response
  (`src/app.ts:367-377`) shows only `firstName` and `lastName` for the embedded
  employee, and the employee tests expect records "without their secret"
  (`tests/api.test.ts:14`). The query, however, embeds the related employee with
  `include: { employee: true }` (`src/app.ts:433`), which returns every employee
  column. So `ApplicationWithEmployee` holds the full `Employee`, secret included.
  Only the two employee handlers project the secret away.
- **Batch creation is not atomic.** The loop (`src/app.ts:263-289`) creates each
  item before checking the next one and never rolls back. So `BatchFailure` proves
  that exactly the items before the first bad one stay in the store.

## Model

| member | source | states |
|---|---|---|
| Employees.GetEmployee | src/app.ts:64-82 | An existing id answers 200 with that employee's id, names and date of birth; the body type has no secret. An absent id answers 404 "Employee not found.". The store is unchanged either way. |
| Employees.GetEmployeeIdMatches | src/app.ts:66-74 | In a valid store the fetched record carries the requested id. |
| Employees.PatchEmployee | src/app.ts:121-156 | Blank or missing names answer 400 "lastName can not be blank." with the store unchanged, whether or not the id exists. With valid names, an absent id answers 404 with the store unchanged. Otherwise only that employee's two names change: its id, date of birth and secret stay, other employees and all applications stay, and the body shows the updated record. |
| Employees.PatchPreservesValid | src/app.ts:139-151 | A patch keeps the store invariant. |
| Employees.PatchThenGet | src/app.ts:139-154 | After a successful patch, fetching the same id returns the body the patch returned, with the new names. |
| Employees.PatchWithSameNamesKeepsStore | src/app.ts:139-151 | Patching an employee with the names it already has leaves the store as it was. |
| Applications.CreateApplications | src/app.ts:253-260 | A falsy parsed body answers 400 "Request body cannot be empty." and creates nothing. Every outcome is 201 or 400 and leaves the employees unchanged. |
| Applications.SingleIsOneElementBatch | src/app.ts:260 | A single object gets exactly the outcome of a one-element array holding it. |
| Applications.EmptyArrayCreatesNothing | src/app.ts:256-263 | An empty array is a truthy body: it answers 201 with an empty list and no change. |
| Applications.CreateEach | src/app.ts:263-291 | The loop itself has no contract of its own; CreateEachAllAcceptable, CreateEachFirstFailure and CreateEachKeepsEmployees state what it does. |
| Applications.CreateEachAllAcceptable | src/app.ts:263-291 | Loop invariant: if every remaining item is acceptable, the records already made stay in front. After them come one record per item, in order, with consecutive ids. The store gains exactly those records. |
| Applications.CreateEachFirstFailure | src/app.ts:263-289 | Loop invariant: when item k is the first bad one, the answer is that item's rejection. The store gains exactly k records, those of items 0..k-1. |
| Applications.BatchSuccess | src/app.ts:263-291 | If every item has its three fields and an existing employee, the answer is 201. It holds one record per item, in input order, each with the item's dates and employeeId. The application list grows by exactly the batch. |
| Applications.BatchFailure | src/app.ts:263-289 | If item k is the first bad one, a missing field answers 400 with the missing-fields message and item k as data. Otherwise the answer is 400 "Employee ID {id} does not exist.". The field check runs first. Exactly items 0..k-1 have been created and none from k on. |
| Applications.BatchSucceedsOrFailsFirst | src/app.ts:263-289 | Every batch is either wholly acceptable or has a first failing index, so the two theorems above cover all batches. |
| Applications.CreateEachKeepsEmployees | src/app.ts:263-291 | The loop never changes the employees. It answers 201 or 400. |
| Applications.CreateEachPreservesValid | src/app.ts:272-286 | Creating only for existing employees keeps the store invariant, whether the loop finishes or stops early. |
| Applications.CreatePreservesValidity | src/app.ts:253-292 | The handler keeps the store invariant. |
| Store.FindEmployee | src/app.ts:272-274 | When employees are filed under their own ids, find-one by key agrees with finding the stored record whose id field is the requested id: one is found exactly when such a record exists, and the found record is such a record. |
| Store.CreateApplication | src/app.ts:280-286 | The create call has no contract of its own; CreateIsFresh and CreatePreservesValid state what it does. |
| Store.CreateIsFresh | src/app.ts:280-286 | In a valid store the created record's id is above every id already given out. The store gains exactly that one record, holding the item's dates and employeeId, and the employees stay as they were. |
| Store.CreatePreservesValid | src/app.ts:280-286 | One create for an existing employee keeps the invariant: foreign keys, and increasing ids below the next id. |
| Search.BuildWhere | src/app.ts:411-427 | The employeeId clause is present exactly when its number is truthy, so 0 adds no clause. The employee sub-clause is present exactly when a name parameter is truthy, and then holds exactly the given lower-cased names. |
| Search.MatchesIffSatisfiesQuery | src/app.ts:419-427 | The built filter accepts an application exactly when it meets every clause whose parameter is truthy: the employeeId is equal, and the employee's first and last names contain the lower-cased query. |
| Search.Matches | src/app.ts:429-436 | How the store evaluates a where-clause has no contract of its own; MatchesIffSatisfiesQuery states its meaning. |
| Search.EmptyQueryMatchesAll | src/app.ts:419-427 | With no truthy filter parameter, the filter accepts every application. |
| Search.Select | src/app.ts:429-434 | Find-many returns only store applications that match, and every matching application appears. |
| Search.SelectKeepsMultiplicity | src/app.ts:429-434 | Find-many returns each matching record exactly as often as the store holds it, and no record that does not match. |
| Search.Count | src/app.ts:436 | The count query has no contract of its own; CountIsNumberOfMatches states that it equals the number of find-many's matches. |
| Search.CountIsNumberOfMatches | src/app.ts:436 | The separate count query equals the number of applications find-many matches. |
| Search.SelectAllMatching | src/app.ts:429-434 | When everything matches, find-many returns the store's list as it is. |
| Search.Window | src/app.ts:431-432 | Skip/take returns at most take items. They are the items at positions skip, skip+1, and so on, and none when skip is past the end. |
| Search.Embed | src/app.ts:433 | Hit i carries application i of the page, joined to a stored employee record, secret included. When employees are filed under their own ids, that employee is the one the application's foreign key names. |
| Search.CeilDiv | src/app.ts:444 | totalPages is the least page count whose capacity holds the total; it is 0 exactly when the total is 0. |
| Search.SearchApplications | src/app.ts:408-448 | Page and limit default to 1 and 10, and the page number is echoed back. total counts every match. pageSize is the number of hits, at most limit. Hit i is match (page-1)*limit+i and embeds its employee. totalPages is ceil(total/limit). The store is unchanged. |
| Search.SearchHitsSatisfyQuery | src/app.ts:419-434 | Every hit is an application of the store that satisfies the query's conjunction. |
| Search.UnfilteredTotal | src/app.ts:419-436 | Without truthy filter parameters, the matches are all the store's applications and total is their number. |
| Search.NoMatchesNoPages | src/app.ts:436-446 | No matches means no hits and totalPages 0. |
| Search.PastLastPageIsEmpty | src/app.ts:429-446 | A page number beyond ceil(matches/limit) is beyond totalPages and yields no hits. |
| Search.EveryMatchOnItsPage | src/app.ts:415-446 | Match i is hit i mod limit of page i/limit+1, and that page is within totalPages. Under the store-order reading of find-many, pagination loses no match. |
| Swagger.OpenApiType | lib/generateSwagger.ts:25-42 | The table is a plain object: a type named like an inherited `Object.prototype` method looks up a function, which `||` keeps and the JSON writer drops, so exactly those names get no written type. Every written type is lower case, and a table entry is used as it stands. |
| Swagger.IntIsNumber | lib/generateSwagger.ts:25-28 | Field type Int documents as "number". |
| Swagger.DateTimeIsString | lib/generateSwagger.ts:25-28 | Field type DateTime documents as "string". |
| Swagger.OtherTypesAreLowerCased | lib/generateSwagger.ts:42 | Any field type outside the table and the inherited method names documents as its own lower-cased spelling: the same length, with no upper-case letter. |
| Swagger.InheritedNamesLoseTheirType | lib/generateSwagger.ts:42-45 | A field typed, say, `toString` is written as the empty property `{}`. |
| Swagger.StringIsLowerCased | lib/generateSwagger.ts:42 | A String field documents as "string". |
| Swagger.Assign | lib/generateSwagger.ts:40-51 | Assigning keys one after another yields exactly the keys assigned. For a repeated key, the value assigned last is kept. |
| Swagger.Properties | lib/generateSwagger.ts:40-46 | The properties' keys are exactly the field names. Each maps to {type: mapped(field type)}, and for a repeated name the later field wins. |
| Swagger.Definitions | lib/generateSwagger.ts:37-52 | One definition per model name, holding {type: 'object', properties of that model}; a repeated model name keeps the later model. |
| Swagger.NoModelsNoDefinitions | lib/generateSwagger.ts:37-52 | No models give an empty definitions map. |
| Swagger.DefinitionsAreObjects | lib/generateSwagger.ts:48-51 | Every definition, whichever model it came from, has type "object". |
| Swagger.DistinctModelsAllDefined | lib/generateSwagger.ts:39-52 | With distinct model names, every model has its own definition. |
| Swagger.WithComponents | lib/generateSwagger.ts:54-55 | components is replaced wholesale by an object whose only key is schemas. Every other top-level member of the scanned document is left as is. |
| Swagger.GenerateDocument | lib/generateSwagger.ts:37-55 | The generator has no contract of its own; GeneratedSchemasAreTheDefinitions and WithComponents state what it writes. |
| Swagger.DefinitionRoundTrip | lib/generateSwagger.ts:43-51 | A definition's JSON form reads back as the same definition, including properties written without a type. |
| Swagger.SchemasRoundTrip | lib/generateSwagger.ts:54-55 | Whatever definitions are set into a document, its components.schemas reads back as exactly those definitions. |
| Swagger.GeneratedSchemasAreTheDefinitions | lib/generateSwagger.ts:54-55 | The generated document's components.schemas reads back as exactly the models' definitions. |
| Text.ContainsIsSubstring | src/app.ts:423-424 | The contains scan answers true exactly when the needle occurs somewhere in the text. |
| Text.LowerIsIdempotent | src/app.ts:412-413 | Lower-cased text has no upper-case letter, and lower-casing it again changes nothing. |
| Text.IntToStringRoundTrip | src/app.ts:277 | The id rendered into the not-exists message is a numeral that reads back as that id. |
| Text.IntToStringInjective | src/app.ts:277 | Distinct ids render as distinct numerals, so the message names exactly the offending id. |
| Seed.SeededIsValid | prisma/seed.ts:13-26 | The seeded store (Jane as 1, John as 2, no applications) satisfies the store invariant. |
| Seed.FetchSeededEmployee | tests/api.test.ts:14-19 | Employee 1 is Jane, and her view has no secret. |
| Seed.FetchUnknownEmployee | tests/api.test.ts:21-25 | Employee 3 answers 404 "Employee not found.". |
| Seed.PatchSeededEmployee | tests/api.test.ts:27-31 | Patching 1 to Zoe Sanchez answers 200 with the new names; the secret and the other employee stay. |
| Seed.PatchUnknownEmployee | tests/api.test.ts:33-38 | Patching 99 with valid names answers 404 with the store unchanged. |
| Seed.PatchBlankLastName | tests/api.test.ts:40-44 | Patching 99 with a blank last name answers 400 "lastName can not be blank.". |
| Seed.BatchStopsAtUnknownEmployee | src/app.ts:263-289 | For a valid item followed by one for employee 999, the answer is 400 "Employee ID 999 does not exist." and the first record stays in the store. |

## Left out

- Database client calls (`findUnique`, `findMany`, `count`, `create`, `update`) are replaced by the abstract store. `findMany` without `orderBy` is taken to return store order.
- Search.Select: the order of the hits is the store's order by the model's definition; the contract and SelectKeepsMultiplicity pin which records appear and how often, not their order, since find-many without `orderBy` promises none.
- The missing-fields answer echoes the whole request item (`data: applicationData`), including any keys besides the three fields; the model's item holds only those three.
- Search.MatchesIffSatisfiesQuery: `contains` is modelled as a case-sensitive substring test, with only the query lower-cased, as the code does. So a stored "Jane" is not found by `firstName=Jane`, although the parameters are documented as case-insensitive (`src/app.ts:311`, `src/app.ts:318`). Whether the real query finds it depends on the database's collation, which is not part of this model.
- Express plumbing is left out: routing, `express.json()`, the `res.status().json()` mechanics, and async/await. A handler's result is an `Outcome` value.
- String and date parsing is left out: `Number(...)`, `parseInt`, NaN and `new Date(...)`. Requests arrive with integers already parsed. A NaN employeeId is falsy and behaves like an absent one. A stored date is represented by the text it was parsed from.
- Applications.CreateApplications: `Absent` stands for a falsy parsed body. On Express 4, `express.json()` turns a request without a body into `{}`, which is a truthy single item missing every field and so gets the missing-fields 400; the model covers that case as `Single` of an empty item. The model does not promise what the code does with a date text that `new Date(...)` cannot parse, such as "tomorrow". There the create call rejects and the handler gives no successful response (on Express 4 none at all, on Express 5 the default 500), while the earlier items of the batch stay created. The model treats every non-empty text as a date, so its "201 or 400" covers only batches whose dates parse.
- Applications.BatchSuccess: holds only when every item's dates parse (see the line above); with an unparsable date the code gives no successful response, not 201.
- Applications.BatchFailure: an employeeId outside the database's 32-bit integer range makes the code's find-one reject, so the code gives no successful response; the model answers 400 "does not exist" for it, as for any other absent id.
- Employees.GetEmployee: a path id outside the database's 32-bit integer range makes the code's find-one reject, so the code gives no successful response; the model answers 404, as for any other absent id. The same holds for Employees.PatchEmployee once the names pass validation, and for the search's employeeId filter.
- Swagger.OtherTypesAreLowerCased: the inherited method names are those of `Object.prototype` that begin with a letter; whether the schema language accepts a model or enum with such a name is not part of this model.
- Search.SearchApplications: requires page ≥ 1 and limit ≥ 1 (after the defaults). The code guards neither, so a zero limit would divide by zero and a zero page would give a negative skip.
- Search.SearchApplications: requires every application to refer to an existing employee. The database's foreign key guarantees this, and every handler here preserves it (`Store.Valid`).
- Request fields are modelled as strings or integers only. A truthy string is a non-empty one, and a truthy number a non-zero one. Bodies whose fields have other JSON types, and batch items that are not objects, are left out.
- Lower-casing is ASCII only; Unicode `toLowerCase` is not modelled.
- `GET /benefits` is left out: it passes `findMany` straight through, and its error branch returns the store error's opaque `errors` field.
- In `lib/generateSwagger.ts`, the file and library work is left out: the `fs` reads and writes, `getDMMF` schema parsing, swagger-jsdoc comment scanning, `process.exit` and `$disconnect`. The scanned document is a parameter of `GenerateDocument`, and data models arrive already parsed.
- JSON object key order, and `JSON.stringify` formatting, are not modelled: objects are maps.
- `src/index.ts` (CORS, Swagger UI mounting, `listen`) and seed loading are not part of this model; the seed data appears only as the example store `Seed.Seeded`.
