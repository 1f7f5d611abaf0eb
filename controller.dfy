/**
 * StudentController of student.controller.ts. Each handler is a chain of guards
 * that ends in exactly one of: a response (status and body) is sent, or the
 * service's error escapes to the framework. `Handle...` gives that decision as a
 * function of the request, the table and the outside world; the methods at the
 * end run the same chain against a mutable response object and the table, and
 * are proved against it.
 *
 * `handleZodIssues` is the parameter `render`, URL validity the parameter `isUrl`.
 */
module Controller {
  import opened Wrappers
  import opened Json
  import opened Schemas
  import opened Base64
  import opened Service

  /** The JSON bodies the handlers send. */
  datatype Body =
    | Error(error: string)                     // { error }
    | Issues(errors: seq<Json>)                // { errors: issues.map(handleZodIssues) }
    | Confirmed(message: string, data: Student) // { message, data: student }
    | Found(students: Option<Student>)         // { student: { students } }, the service's wrapper kept

  /** A sent response, or an error rethrown to the framework with nothing sent. */
  datatype Reply = Sent(status: int, body: Body) | Rethrown(error: Thrown)

  /** The reply and the rows of the table afterwards. */
  datatype Handled = Handled(reply: Reply, rows: seq<Student>)

  const MissingFields := "Missing some fields."

  function AddedMessage(s: Student): string
  {
    "\U{2705} - Success - " + s.matricula + " - " + s.name + " added to Students"
  }

  function UpdatedMessage(s: Student): string
  {
    "\U{2705} - Success - " + s.matricula + " - " + s.name + " updated"
  }

  function DeletedMessage(s: Student): string
  {
    "\U{1F5D1}\U{FE0F} - Remotion Completed - " + s.matricula + " - " + s.name + " deleted."
  }

  /** `issues.map(handleZodIssues)`. */
  function Rendered(issues: seq<Issue>, render: Issue -> Json): (r: seq<Json>)
    ensures |r| == |issues|
    ensures forall i :: 0 <= i < |issues| ==> r[i] == render(issues[i])
  {
    if issues == [] then [] else [render(issues[0])] + Rendered(issues[1..], render)
  }

  /** The handlers' catch block: a ValidationExceptionError is sent with its own code and message; anything else escapes. */
  function ServiceError(err: Thrown): (reply: Reply)
    ensures reply.Sent? <==> err.ValidationException?
    ensures reply.Sent? ==> reply.body.Error? && reply.status == err.code
    ensures reply.Rethrown? ==> reply.error == err
  {
    if err.ValidationException? then Sent(err.code, Error(err.message)) else Rethrown(err)
  }

  /** The reply to a write the service answered: 200 with `message` naming the record, or the catch block. */
  function Answer(outcome: Result<Student, Thrown>, message: Student -> string): (reply: Reply)
    ensures reply.Rethrown? <==> outcome.Failure? && !outcome.error.ValidationException?
    ensures outcome.Success? ==> reply.Sent? && reply.status == 200 && reply.body.Confirmed? && reply.body.data == outcome.value
    ensures outcome.Failure? && reply.Sent? ==> reply.body.Error?
  {
    match outcome
    case Success(s) => Sent(200, Confirmed(message(s), s))
    case Failure(err) => ServiceError(err)
  }

  /** The handler's result once the service has run. */
  function Answered(st: Step, message: Student -> string): Handled
  {
    Handled(Answer(st.outcome, message), st.rows)
  }

  /**
   * POST: a falsy `body.data` is 422 "Missing some fields."; a payload create
   * refuses is 422 with the rendered issues; neither reaches the service, so the
   * rows stay. Otherwise the service decides: 200 naming the new record, or 400.
   * Nothing else is ever sent and nothing escapes.
   */
  function HandleRegister(data: Option<Json>, rows: seq<Student>, fetched: Option<seq<byte>>,
                          normalize: Normalizer, isUrl: string -> bool, render: Issue -> Json): (h: Handled)
    ensures !Truthy(data) ==> h == Handled(Sent(422, Error(MissingFields)), rows)
    ensures Truthy(data) && !CreateAcceptable(data.value, isUrl) ==>
      h == Handled(Sent(422, Issues(Rendered(ValidateCreate(data.value, isUrl).error, render))), rows)
    ensures Truthy(data) && CreateAcceptable(data.value, isUrl) ==>
      h == Answered(RegisterStep(rows, ValidateCreate(data.value, isUrl).value, fetched, normalize), AddedMessage)
    ensures h.reply.Sent? && h.reply.status in {200, 400, 422}
    ensures h.reply.status != 200 ==> h.rows == rows
    ensures h.reply.status == 200 ==> h.reply.body.Confirmed? && h.rows == rows + [h.reply.body.data]
    ensures UniqueKeys(rows) ==> UniqueKeys(h.rows)
  {
    if !Truthy(data) then Handled(Sent(422, Error(MissingFields)), rows)
    else match ValidateCreate(data.value, isUrl)
      case Failure(issues) => Handled(Sent(422, Issues(Rendered(issues, render))), rows)
      case Success(student) => Answered(RegisterStep(rows, student, fetched, normalize), AddedMessage)
  }

  /**
   * GET: no missing-payload guard; the query itself is validated (422 with the
   * rendered issues), then 200 with whatever search found, null included. The
   * table is only read.
   */
  function HandleSearch(query: map<string, Json>, rows: seq<Student>,
                        normalize: Normalizer, isUrl: string -> bool, render: Issue -> Json): (reply: Reply)
    ensures !SearchAcceptable(JObject(query)) ==>
      reply == Sent(422, Issues(Rendered(ValidateSearch(JObject(query), isUrl).error, render)))
    ensures SearchAcceptable(JObject(query)) ==>
      reply == Sent(200, Found(SearchStep(rows, ValidateSearch(JObject(query), isUrl).value, normalize)))
    ensures reply.Sent? && reply.status in {200, 422}
  {
    match ValidateSearch(JObject(query), isUrl)
    case Failure(issues) => Sent(422, Issues(Rendered(issues, render)))
    case Success(student) => Sent(200, Found(SearchStep(rows, student, normalize)))
  }

  /**
   * PUT: the same two 422 guards; then 200 naming the updated record, 400 for a
   * photo, 404 for a missing key, or the store's error escaping when the
   * attendance is neither a number nor an atomic operation Prisma accepts, or
   * divides by zero. Only a 200 changes the rows.
   */
  function HandleUpdate(data: Option<Json>, rows: seq<Student>, fetched: Option<seq<byte>>,
                        normalize: Normalizer, isUrl: string -> bool, render: Issue -> Json): (h: Handled)
    ensures !Truthy(data) ==> h == Handled(Sent(422, Error(MissingFields)), rows)
    ensures Truthy(data) && !UpdateAcceptable(data.value, isUrl) ==>
      h == Handled(Sent(422, Issues(Rendered(ValidateUpdate(data.value, isUrl).error, render))), rows)
    ensures Truthy(data) && UpdateAcceptable(data.value, isUrl) ==>
      h == Answered(UpdateStep(rows, ValidateUpdate(data.value, isUrl).value, fetched, normalize), UpdatedMessage)
    ensures h.reply.Sent? ==> h.reply.status in {200, 400, 404, 422}
    ensures h.reply.Rethrown? ==>
      "attendance" in data.value.fields &&
      var given := data.value.fields["attendance"];
      (h.reply.error == PrismaInvalid("attendance") && AttendanceUpdate(given).None?) ||
      (h.reply.error == DatabaseError("division by zero") && AttendanceUpdate(given) == Some(Divide(0)))
    ensures !(h.reply.Sent? && h.reply.status == 200) ==> h.rows == rows
    ensures UniqueKeys(rows) ==> UniqueKeys(h.rows)
  {
    if !Truthy(data) then Handled(Sent(422, Error(MissingFields)), rows)
    else match ValidateUpdate(data.value, isUrl)
      case Failure(issues) => Handled(Sent(422, Issues(Rendered(issues, render))), rows)
      case Success(student) => Answered(UpdateStep(rows, student, fetched, normalize), UpdatedMessage)
  }

  /**
   * DELETE: the same two 422 guards; only `data.matricula` goes to the service;
   * then 200 naming the deleted record, or 404. Nothing escapes.
   */
  function HandleRemove(data: Option<Json>, rows: seq<Student>,
                        normalize: Normalizer, isUrl: string -> bool, render: Issue -> Json): (h: Handled)
    ensures !Truthy(data) ==> h == Handled(Sent(422, Error(MissingFields)), rows)
    ensures Truthy(data) && !RemoveAcceptable(data.value) ==>
      h == Handled(Sent(422, Issues(Rendered(ValidateRemove(data.value, isUrl).error, render))), rows)
    ensures Truthy(data) && RemoveAcceptable(data.value) ==>
      h == Answered(RemoveStep(rows, data.value.fields["matricula"].s, normalize), DeletedMessage)
    ensures h.reply.Sent? && h.reply.status in {200, 404, 422}
    ensures h.reply.status != 200 ==> h.rows == rows
    ensures UniqueKeys(rows) ==> UniqueKeys(h.rows)
  {
    if !Truthy(data) then Handled(Sent(422, Error(MissingFields)), rows)
    else match ValidateRemove(data.value, isUrl)
      case Failure(issues) => Handled(Sent(422, Issues(Rendered(issues, render))), rows)
      case Success(student) => Answered(RemoveStep(rows, student.matricula, normalize), DeletedMessage)
  }

  // ---------------------------------------------------------------------------
  // The handlers in place.

  /** Express's response object as the handlers use it: `res.status(code).send(body)`, at most once. */
  class Response {
    var status: int
    var body: Option<Body>

    constructor ()
      ensures body.None?
    {
      status := 200;
      body := None;
    }

    method Send(code: int, b: Body)
      requires body.None?
      modifies this
      ensures status == code && body == Some(b)
    {
      status := code;
      body := Some(b);
    }
  }

  method Register(data: Option<Json>, res: Response, table: StudentTable, normalize: Normalizer,
                  fetched: Option<seq<byte>>, isUrl: string -> bool, render: Issue -> Json)
    returns (rethrown: Option<Thrown>)
    requires res.body.None? && table.Valid()
    modifies res, table
    ensures table.Valid()
    ensures var h := HandleRegister(data, old(table.rows), fetched, normalize, isUrl, render);
      table.rows == h.rows &&
      (rethrown.Some? ==> res.body.None? && h.reply == Rethrown(rethrown.value)) &&
      (rethrown.None? ==> res.body.Some? && h.reply == Sent(res.status, res.body.value))
  {
    var studentService := new StudentService(table, normalize);
    if !Truthy(data) {
      res.Send(422, Error(MissingFields));
      return None;
    }
    var result := ValidateCreate(data.value, isUrl);
    if result.Failure? {
      res.Send(422, Issues(Rendered(result.error, render)));
      return None;
    }
    var student := studentService.Register(result.value, fetched);
    rethrown := Deliver(student, res, AddedMessage);
  }

  method Search(query: map<string, Json>, res: Response, table: StudentTable, normalize: Normalizer,
                isUrl: string -> bool, render: Issue -> Json)
    requires res.body.None?
    modifies res
    ensures res.body.Some? && HandleSearch(query, table.rows, normalize, isUrl, render) == Sent(res.status, res.body.value)
  {
    var studentService := new StudentService(table, normalize);
    var result := ValidateSearch(JObject(query), isUrl);
    if result.Failure? {
      res.Send(422, Issues(Rendered(result.error, render)));
      return;
    }
    var student := studentService.Search(result.value);
    res.Send(200, Found(student));
  }

  method Update(data: Option<Json>, res: Response, table: StudentTable, normalize: Normalizer,
                fetched: Option<seq<byte>>, isUrl: string -> bool, render: Issue -> Json)
    returns (rethrown: Option<Thrown>)
    requires res.body.None? && table.Valid()
    modifies res, table
    ensures table.Valid()
    ensures var h := HandleUpdate(data, old(table.rows), fetched, normalize, isUrl, render);
      table.rows == h.rows &&
      (rethrown.Some? ==> res.body.None? && h.reply == Rethrown(rethrown.value)) &&
      (rethrown.None? ==> res.body.Some? && h.reply == Sent(res.status, res.body.value))
  {
    var studentService := new StudentService(table, normalize);
    if !Truthy(data) {
      res.Send(422, Error(MissingFields));
      return None;
    }
    var result := ValidateUpdate(data.value, isUrl);
    if result.Failure? {
      res.Send(422, Issues(Rendered(result.error, render)));
      return None;
    }
    var student := studentService.Update(result.value, fetched);
    rethrown := Deliver(student, res, UpdatedMessage);
  }

  method Remove(data: Option<Json>, res: Response, table: StudentTable, normalize: Normalizer,
                isUrl: string -> bool, render: Issue -> Json)
    returns (rethrown: Option<Thrown>)
    requires res.body.None? && table.Valid()
    modifies res, table
    ensures table.Valid()
    ensures var h := HandleRemove(data, old(table.rows), normalize, isUrl, render);
      table.rows == h.rows &&
      (rethrown.Some? ==> res.body.None? && h.reply == Rethrown(rethrown.value)) &&
      (rethrown.None? ==> res.body.Some? && h.reply == Sent(res.status, res.body.value))
  {
    var studentService := new StudentService(table, normalize);
    if !Truthy(data) {
      res.Send(422, Error(MissingFields));
      return None;
    }
    var result := ValidateRemove(data.value, isUrl);
    if result.Failure? {
      res.Send(422, Issues(Rendered(result.error, render)));
      return None;
    }
    var student := studentService.Remove(result.value.matricula);
    rethrown := Deliver(student, res, DeletedMessage);
  }

  /** The try/catch after a write: send 200 or the ValidationExceptionError, or hand the error back to rethrow. */
  method Deliver(outcome: Result<Student, Thrown>, res: Response, message: Student -> string)
    returns (rethrown: Option<Thrown>)
    requires res.body.None?
    modifies res
    ensures var reply := Answer(outcome, message);
      (rethrown.Some? ==> res.body.None? && reply == Rethrown(rethrown.value)) &&
      (rethrown.None? ==> res.body.Some? && reply == Sent(res.status, res.body.value))
  {
    match outcome
    case Success(s) =>
      res.Send(200, Confirmed(message(s), s));
      rethrown := None;
    case Failure(err) =>
      if err.ValidationException? {
        res.Send(err.code, Error(err.message));
        rethrown := None;
      } else {
        rethrown := Some(err);
      }
  }
}
