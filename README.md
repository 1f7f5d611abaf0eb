# Student records service: a Dafny model

This project models the request pipeline of a small student-records HTTP service: **validate → normalise → check → persist**. A `Student` has a `matricula` (the unique key), a `name`, a `photo` and an `attendance`. The service registers, searches, updates and removes students. The model covers three layers:

- **Validators** (`Schemas`). Each of the four Zod schemas is written as data: a list of field rules with their checks and messages. One interpreter turns a schema and a payload into the issue list Zod reports. A direct reading of each schema's constraints is proved equivalent to the interpreter. The `matricula` pattern `/\d\d\d\d\dBSI[0-9]+/i` is searched unanchored, as `regex.test` does. The three schemas that check `matricula` report identical issues for it.
- **Service** (`Service`, `Base64`). Each operation is a pure step from the old table rows to an outcome and the new rows. The classes `StudentTable` (the store, updated in place) and `StudentService` (one instance per request) run the same steps imperatively and are proved against them.
  - The photo is fetched, base64-encoded and signature-checked before any store call, so every failure leaves the rows as they were.
  - Store errors: a duplicate key is Prisma's `P2002`, a missing key `P2025`. The catch blocks turn these into `ValidationExceptionError` 400/404. Every other error is rethrown.
  - `AcceptedImageBytes` proves which downloads pass the signature check. It passes a first byte 0x88–0x8B, which covers every PNG. It also passes `FF D8 FF` followed by a fourth byte `E0`–`E3`. So a JPEG that begins `FF D8 FF DB` is refused.
- **Controller** (`Controller`). This is the decision table from (payload truthy?, validator verdict, service outcome) to a sent response or an escaping error: `HandleRegister`, `HandleSearch`, `HandleUpdate`, `HandleRemove`. Four methods write an Express-like `Response` object at most once (`Send` requires that nothing was sent yet) and are proved against those functions.

The model takes three things from outside as parameters:

- `normalize`: `normalizeString`, uninterpreted. Its source is not part of this model, and no property of it (idempotence included) is assumed.
- `isUrl`: Zod's URL check.
- `render`: `handleZodIssues`.

The outbound photo GET is the parameter `fetched`: the bytes received, or `None` when Axios fails.

Behaviour of the code a reader may not expect:

- The photo check looks at the base64 text, not at the decoded bytes. The consequences are the ones `AcceptedImageBytes` states above.
- Search normalises a filter only when it is a non-empty string (`if (student.name)`).
- Search's service result is the wrapper `{students}`, so the GET body is `{student: {students}}` (`Body.Found`).
- A 10-character identifier such as `20231BSI01` contains the pattern but fails `.length(11)`, so create refuses it with 422.
- Update's `attendance` is `Zod.any()`, so the value goes to the store as given. Prisma takes a number, or an object holding exactly one atomic operation (`set`, `increment`, `decrement`, `multiply`, `divide`) with a number, and applies it. It refuses anything else with an error that is not a known-request error, and the handler rethrows that error (`HandleUpdate`). A division by zero fails in the database and is rethrown too.

## Model

| member | source | states |
|---|---|---|
| `Schemas.SearchPattern` | src/app/schemas/student.schemas.ts:7 | scanning from a start position finds a match exactly when one exists at or after it |
| `Schemas.RegexTest` | src/app/schemas/student.schemas.ts:7 | `regex.test` is true exactly when five ASCII digits, `BSI` in any case and a digit occur somewhere in the string |
| `Schemas.AcceptedMatriculaShape` | src/app/schemas/student.schemas.ts:4-7 | an accepted matricula has length 11 and its match starts at index 0, 1 or 2 |
| `Schemas.TenCharacterMatriculaRefused` | src/app/schemas/student.schemas.ts:6-7 | `20231BSI01` contains the pattern but is refused, because it is not 11 characters long |
| `Schemas.CheckIssues` | src/app/schemas/student.schemas.ts:4-7 | a string field reports no issue exactly when every chained check holds, and every issue carries the field's path |
| `Schemas.ObjectIssues` | src/app/schemas/student.schemas.ts:3-19 | an object passes a schema exactly when every field rule reports nothing |
| `Schemas.MatriculaChecksMeaning` | src/app/schemas/student.schemas.ts:6-7 | the `.length(11)` and `.regex` checks together hold exactly for an 11-character string containing the pattern |
| `Schemas.CreateSchemaMeaning` | src/app/schemas/student.schemas.ts:3-19 | the create schema reports no issue exactly when matricula, name, photo and attendance are all present, with a valid matricula, a non-empty name, a URL photo and a number attendance |
| `Schemas.SearchSchemaMeaning` | src/app/schemas/student.schemas.ts:21-33 | the search schema reports no issue exactly when every present name and matricula is a string and every present attendance a number |
| `Schemas.UpdateSchemaMeaning` | src/app/schemas/student.schemas.ts:35-54 | the update schema demands only a valid matricula; a present name must be non-empty, a present photo a URL, and attendance may be anything |
| `Schemas.RemoveSchemaMeaning` | src/app/schemas/student.schemas.ts:56-61 | the remove schema checks the matricula and nothing else |
| `Schemas.ValidateCreate` | src/app/schemas/student.schemas.ts:3-19 | create accepts exactly the payloads its constraints admit; a refusal carries at least one issue, and exactly the issues the schema reports; accepted data are the payload's own four values |
| `Schemas.ValidateSearch` | src/app/schemas/student.schemas.ts:21-33 | search accepts exactly the objects whose present fields have the right types, with no length or pattern check; a refusal carries exactly the schema's issues; the data are the payload's fields |
| `Schemas.ValidateUpdate` | src/app/schemas/student.schemas.ts:35-54 | update accepts exactly the payloads with a valid matricula, a non-empty name if present and a URL photo if present; a refusal carries exactly the schema's issues; attendance is passed through as given |
| `Schemas.ValidateRemove` | src/app/schemas/student.schemas.ts:56-61 | remove accepts exactly the objects whose matricula is valid and hands on that matricula; a refusal carries exactly the schema's issues |
| `Schemas.IssuesAtConcat` | src/app/schemas/student.schemas.ts:3-19 | the issues at one path of two concatenated lists are the concatenation of each list's issues there |
| `Schemas.ObjectIssuesAtRule` | src/app/schemas/student.schemas.ts:3-19 | when one rule owns a path, the issues at that path are exactly that rule's issues |
| `Schemas.MatriculaRuleIssues` | src/app/schemas/student.schemas.ts:46-49 | the matricula rule reports a missing-field message, a type message, or the length and pattern messages for the checks that fail, in that order |
| `Schemas.SameMatriculaRule` | src/app/schemas/student.schemas.ts:4-7 | create, update (lines 46-49) and remove (lines 57-60) report identical matricula issues for every payload, so they accept the same identifiers |
| `Schemas.CreateReportsMissingField` | src/app/schemas/student.schemas.ts:3-19 | a missing create field is reported at its own path with its own `required_error` message |
| `Schemas.SearchAcceptsEmptyQuery` | src/app/schemas/student.schemas.ts:21-33 | an empty query passes search with no filters; a query-string attendance (always a string) is refused |
| `Base64.Encode` | src/app/service/student.service.ts:19 | padded base64 has length four times the number of three-byte groups, rounded up |
| `Base64.EncodePrefix` | src/app/service/student.service.ts:19 | the first base64 character depends only on the first byte, the first four on the first three bytes, and the fifth on the fourth byte |
| `Service.Slice` | src/app/service/student.service.ts:20 | `slice(0, n)` is a prefix of length n, or the whole shorter string |
| `Service.CharAt` | src/app/service/student.service.ts:20 | `charAt(i)` agrees with `slice(i, i + 1)`, and it is empty exactly when `i` is past the end |
| `Service.SignatureOk` | src/app/service/student.service.ts:20 | the photo passes exactly when its base64 starts with `/9j/4` or with `i` |
| `Service.AcceptedImageBytes` | src/app/service/student.service.ts:18-20 | the encoded download passes exactly when its first byte is 0x88–0x8B, or when it starts `FF D8 FF` and the fourth byte is `E0`–`E3` |
| `Service.SignatureExamples` | src/app/service/student.service.ts:20 | a PNG or a JFIF/EXIF JPEG passes; a JPEG opening `FF D8 FF DB` or `FF D8 FF EE` is refused |
| `Service.IndexOf` | src/app/service/student.service.ts:82-89 | the lookup by unique key finds the first row with that matricula, or reports that none has it |
| `Service.Contains` | src/app/service/student.service.ts:53-58 | Prisma's `contains` holds exactly when the needle occurs at some position (the empty needle always does) |
| `Service.FirstMatch` | src/app/service/student.service.ts:53-58 | `findFirst` answers the position of the first row, in the model's row order, that matches both filters, or none exactly when no row matches |
| `Service.FindFirstRow` | src/app/service/student.service.ts:53-58 | the row `findFirst` returns is the first matching row in the model's row order, and it is null exactly when no row matches |
| `Service.CreateRow` | src/app/service/student.service.ts:24-28 | create fails with P2002 exactly when the key is taken, otherwise appends the record, and keeps keys unique |
| `Service.AttendanceUpdate` | src/app/service/student.service.ts:82-89 | Prisma accepts an attendance exactly when it is a number or an object whose only key is one of the five operators, holding a number; a number means `set` |
| `Service.AttendanceUpdateRoundTrip` | src/app/service/student.service.ts:82-89 | every operation, written as Prisma's `{operator: n}` object, is read back as itself |
| `Service.Quotient` | src/app/service/student.service.ts:82-89 | `divide` on an integer column rounds toward zero: the remainder is smaller than the divisor in magnitude and has the dividend's sign |
| `Service.QuotientRemainder` | src/app/service/student.service.ts:82-89 | the signed quotient built from the magnitudes leaves the remainder of the magnitudes, carrying the sign of the dividend |
| `Service.Applied` | src/app/service/student.service.ts:82-89 | applying an operation fails exactly for a division by zero, and a division gives the truncated quotient |
| `Service.UpdateAppliesIncrement` | src/app/service/student.service.ts:68-105 | an update of an existing key with attendance `{increment: k}` and a passing photo succeeds, adds `k` to that row's attendance and changes no other row |
| `Service.UpdateRow` | src/app/service/student.service.ts:82-89 | update refuses an attendance that is neither a number nor a single atomic operation; given one it accepts, it fails with P2025 exactly when the key is missing, and with a database error on a division by zero; otherwise it replaces only that row with the supplied fields applied, and keeps keys unique |
| `Service.RemoveAt` | src/app/service/student.service.ts:112-116 | removing one row of unique-keyed rows keeps keys unique and leaves exactly the rows with other keys |
| `Service.DeleteRow` | src/app/service/student.service.ts:112-116 | delete fails with P2025 exactly when the key is missing, otherwise removes and returns the row with that key |
| `Service.RegisterStep` | src/app/service/student.service.ts:11-44 | every failure is a 400 and leaves the rows unchanged; fetch failure, bad signature and duplicate key each give their own message; success happens exactly when the fetch succeeds, the signature passes and the normalised key is free; the stored record has the normalised name and matricula, the base64 photo and the given attendance; keys stay unique |
| `Service.SearchStep` | src/app/service/student.service.ts:46-66 | any row returned is a stored row matching the normalised filters, the first such in the model's row order, and the result is null exactly when none matches; attendance plays no part; absent or empty filters give the first row |
| `Service.UpdateStep` | src/app/service/student.service.ts:68-105 | every failure leaves the rows unchanged; fetch and signature failures are 400, a missing key is 404 naming the normalised matricula, and an attendance Prisma refuses or a division by zero escapes; success comes exactly when the photo passes, the attendance is accepted and does not divide by zero, and the key exists; on success only the keyed row changes, in the supplied fields only, with the name normalised, the photo as base64 and the attendance operation applied |
| `Service.RemoveStep` | src/app/service/student.service.ts:107-129 | fails with 404 and no change exactly when the normalised key is missing; otherwise returns the prior record and leaves exactly the other rows |
| `Service.RegisterTwice` | src/app/service/student.service.ts:24-35 | registering again under a key already stored fails with 400 and keeps the first record, reporting "Já Cadastrado" once the photo passes |
| `Service.StudentTable.Create` | src/app/service/student.service.ts:24-28 | the table rejects a taken key with P2002 unchanged, or appends the record |
| `Service.StudentTable.FindFirst` | src/app/service/student.service.ts:53-58 | reads the first matching row without changing the table |
| `Service.StudentTable.Update` | src/app/service/student.service.ts:82-89 | the table changes as the store's update says, and not at all on failure |
| `Service.StudentTable.Delete` | src/app/service/student.service.ts:112-116 | the table loses the keyed row, or stays unchanged with P2025 |
| `Service.StudentService.Register` | src/app/service/student.service.ts:11-44 | the in-place register answers and writes what `RegisterStep` says |
| `Service.StudentService.Search` | src/app/service/student.service.ts:46-66 | the in-place search answers what `SearchStep` says and writes nothing |
| `Service.StudentService.Update` | src/app/service/student.service.ts:68-105 | the in-place update answers and writes what `UpdateStep` says |
| `Service.StudentService.Remove` | src/app/service/student.service.ts:107-129 | the in-place remove answers and writes what `RemoveStep` says |
| `Controller.Rendered` | src/app/controller/student.controller.ts:19 | the issue list is mapped element by element through `handleZodIssues` |
| `Controller.HandleRegister` | src/app/controller/student.controller.ts:8-38 | falsy data gives 422 "Missing some fields.", a schema failure gives 422 with the rendered issues, and in both the table is untouched; otherwise the service's answer is used; the status is always 200, 400 or 422; only a 200 writes, and it appends the confirmed record |
| `Controller.HandleSearch` | src/app/controller/student.controller.ts:40-65 | no payload guard; the query is validated (422 with issues), otherwise 200 with the search result; the status is always 200 or 422 |
| `Controller.HandleUpdate` | src/app/controller/student.controller.ts:67-97 | the same guards; otherwise the service's answer; the status is 200, 400, 404 or 422, or the error escapes, which happens only for an attendance Prisma refuses or one that divides by zero; only a 200 writes |
| `Controller.HandleRemove` | src/app/controller/student.controller.ts:99-129 | the same guards; only `data.matricula` goes to the service; the status is 200, 404 or 422; only a 200 writes |
| `Controller.Response.Send` | src/app/controller/student.controller.ts:12 | sets the status and the body, and may be called only while nothing has been sent |
| `Controller.Deliver` | src/app/controller/student.controller.ts:26-36 | sends 200 or the ValidationExceptionError's code and message, or hands any other error back to be rethrown |
| `Controller.Register` | src/app/controller/student.controller.ts:8-38 | either exactly one response was sent or the error is rethrown, and the reply and the table are those of `HandleRegister` |
| `Controller.Search` | src/app/controller/student.controller.ts:40-65 | exactly one response is sent, the one `HandleSearch` gives, and the table is not modified |
| `Controller.Update` | src/app/controller/student.controller.ts:67-97 | either exactly one response was sent or the error is rethrown, and the reply and the table are those of `HandleUpdate` |
| `Controller.Remove` | src/app/controller/student.controller.ts:99-129 | either exactly one response was sent or the error is rethrown, and the reply and the table are those of `HandleRemove` |

## Left out

- src/app/index.ts, src/server.ts and src/app/route/student.route.ts: Express, CORS and body-parser wiring, the port and dotenv setup. The admin gate on DELETE uses `authReq`, which is not part of this model; the handlers are modelled as they run once a request reaches them.
- The Axios GET: the parameter `fetched` stands for it (the bytes, or a failure). Base64 encoding is modelled; decoding is not needed and is not modelled.
- `normalizeString` and `handleZodIssues` are not part of this model. They are uninterpreted parameters. Nothing is proved about normalising twice, because nothing is known about the normaliser.
- Controller.Rendered: `issues.map(handleZodIssues)` also passes each issue's index and the whole array. `render` sees only the issue, so a `handleZodIssues` that used those arguments is not captured.
- Zod internals:
  - URL validity is the parameter `isUrl`.
  - Issues keep only their path and message, not Zod's issue codes.
  - Messages Zod supplies itself ("Expected string, received number") follow Zod's wording.
  - Unknown keys are dropped by reading only the schema's keys into typed records.
- String lengths count Unicode scalar values. JavaScript counts UTF-16 units, so the two differ for characters outside the Basic Multilingual Plane. A matricula with such a character could therefore pass `.length(11)` in one and fail it in the other.
- JavaScript numbers are modelled as integers: `attendance` is an `int`, and NaN, infinities and fractions are not modelled.
- The store: Prisma and SQL internals are left out.
  - `contains` is a case-sensitive substring test. The real case sensitivity depends on the database collation.
  - The attendance column is taken to be a non-nullable number.
  - Store failures other than P2002 and P2025 are not modelled, except two on update: Prisma refusing the attendance, and a division by zero. Examples are a lost connection or another constraint. Because of this, register and remove never rethrow in the model.
  - The column type of `attendance` is not part of this model. Numbers are taken to be integers, `divide` truncates toward zero as integer division does in PostgreSQL, and `multiply` and `increment` cannot overflow.
- Service.SearchStep, Service.FindFirstRow and Service.FirstMatch answer the first matching row in the model's row order. That order is fixed, and update and delete never change it. `findFirst` without `orderBy` lets the database pick the order, so the source is only promised the order-free part: any row returned matches both filters, and the result is null exactly when nothing matches.
- Search's catch blocks are not modelled: the service's `throw err` and the controller's `{error, data}` reply. The modelled `findFirst` never fails, so both are unreachable here.
- The aliasing of the request object (`requestRef = student`) is modelled as local updates of a request value. Its one visible effect is kept: the duplicate message names the normalised matricula. No caller reads its own copy afterwards except in the search catch block left out above.
- Async sequencing and concurrent requests on the same matricula are not modelled.
