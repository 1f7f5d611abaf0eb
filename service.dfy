/**
 * StudentService of student.service.ts over an abstract store. Prisma's
 * `student` table is a sequence of rows whose `matricula` values are distinct
 * (the store's unique key). The model keeps them in one order, which update and
 * delete never change, and `findFirst` answers the first matching row in it.
 * Each operation is first given as a pure step function from the old rows to an
 * outcome and the new rows; the classes at the end perform the same steps in
 * place and are proved against them.
 *
 * `normalizeString` is the parameter `normalize`; the outbound photo GET is the
 * parameter `fetched` (the bytes received, or None when Axios fails).
 */
module Service {
  import opened Wrappers
  import opened Json
  import opened Schemas
  import opened Base64

  datatype Student = Student(matricula: string, name: string, photo: string, attendance: int)

  /** The second argument of `normalizeString`. */
  datatype FieldKind = NameField | MatriculaField

  type Normalizer = (string, FieldKind) -> string

  /** What a service call can throw. */
  datatype Thrown =
    | ValidationException(code: int, message: string)  // ValidationExceptionError
    | PrismaKnown(errorCode: string)                    // PrismaClientKnownRequestError with its code
    | PrismaInvalid(detail: string)                     // Prisma refused the data: an attendance it cannot store
    | DatabaseError(detail: string)                     // the database failed while applying the update
    | AxiosFailure                                      // the photo GET was rejected

  const FetchFailed := "Bad Request: Axios failed to retrieve photo."
  const UnsupportedImage := "Bad Request: Unsupported image extension, try using .jpg or .png"

  function AlreadyRegistered(matricula: string): string
  {
    "Bad Request: " + matricula + " - J\U{E1} Cadastrado"
  }

  function NotFound(matricula: string): string
  {
    matricula + " - Student not found"
  }

  // ---------------------------------------------------------------------------
  // The photo signature check.

  /** JavaScript's `s.slice(0, n)`: the first `n` characters, or all of a shorter string. */
  function Slice(s: string, n: nat): (r: string)
    ensures |r| == if |s| < n then |s| else n
    ensures r <= s
  {
    if |s| <= n then s else s[..n]
  }

  /** JavaScript's `s.charAt(i)`: a one-character string, or "" past the end. */
  function CharAt(s: string, i: nat): (r: string)
    ensures r == "" <==> i >= |s|
    ensures i <= |s| ==> r == Slice(s[i..], 1)
  {
    if i < |s| then [s[i]] else ""
  }

  /**
   * The base64 photo passes unless its first five characters differ from
   * "/9j/4" and its first character differs from "i": it passes exactly when it
   * starts with "/9j/4" or with "i".
   */
  function SignatureOk(photo: string): (ok: bool)
    ensures ok <==> (|photo| >= 5 && photo[..5] == "/9j/4") || (|photo| >= 1 && photo[0] == 'i')
  {
    !(Slice(photo, 5) != "/9j/4" && CharAt(photo, 0) != "i")
  }

  /** A first byte from 0x88 to 0x8B: the one whose base64 starts with "i"; every PNG (0x89 'P' 'N' 'G') has it. */
  predicate PngLead(b: seq<byte>)
  {
    |b| >= 1 && 0x88 <= b[0] <= 0x8B
  }

  /** FF D8 FF, then a fourth byte from E0 to E3: the bytes whose base64 starts with "/9j/4". */
  predicate JpegLead(b: seq<byte>)
  {
    |b| >= 4 && b[0] == 0xFF && b[1] == 0xD8 && b[2] == 0xFF && 0xE0 <= b[3] <= 0xE3
  }

  /** Which downloads the check lets through, stated on the bytes received. */
  lemma AcceptedImageBytes(b: seq<byte>)
    ensures SignatureOk(Encode(b)) <==> PngLead(b) || JpegLead(b)
  {
    EncodePrefix(b);
    var s := Encode(b);
    if |b| >= 1 {
      DigitValues(b[0] / 4);
      assert s[0] == 'i' <==> PngLead(b);
    }
    if |b| >= 4 {
      DigitValues(b[0] / 4);
      DigitValues(b[0] % 4 * 16 + b[1] / 16);
      DigitValues(b[1] % 16 * 4 + b[2] / 64);
      DigitValues(b[2] % 64);
      DigitValues(b[3] / 4);
      assert s[..5] == s[..4] + [s[4]];
      assert s[..5] == "/9j/4" <==> s[0] == '/' && s[1] == '9' && s[2] == 'j' && s[3] == '/' && s[4] == '4';
      assert s[..5] == "/9j/4" <==> JpegLead(b);
    } else {
      assert |s| <= 4;
    }
  }

  /** A PNG passes; a JPEG with a JFIF/EXIF marker (FF E0, FF E1) passes; a JPEG opening with FF DB (a quantisation table) or FF EE does not. */
  lemma SignatureExamples(b: seq<byte>)
    ensures |b| >= 8 && b[..8] == [0x89, 0x50, 0x4E, 0x47, 0x0D, 0x0A, 0x1A, 0x0A] ==> SignatureOk(Encode(b))
    ensures |b| >= 4 && b[..4] == [0xFF, 0xD8, 0xFF, 0xE0] ==> SignatureOk(Encode(b))
    ensures |b| >= 4 && b[..4] == [0xFF, 0xD8, 0xFF, 0xE1] ==> SignatureOk(Encode(b))
    ensures |b| >= 4 && b[..4] == [0xFF, 0xD8, 0xFF, 0xDB] ==> !SignatureOk(Encode(b))
    ensures |b| >= 4 && b[..4] == [0xFF, 0xD8, 0xFF, 0xEE] ==> !SignatureOk(Encode(b))
  {
    AcceptedImageBytes(b);
    if |b| >= 4 {
      assert b[0] == b[..4][0] && b[1] == b[..4][1] && b[2] == b[..4][2] && b[3] == b[..4][3];
    }
    if |b| >= 8 {
      assert b[0] == b[..8][0];
    }
  }

  // ---------------------------------------------------------------------------
  // The store.

  ghost predicate HasKey(rows: seq<Student>, key: string)
  {
    exists j :: 0 <= j < |rows| && rows[j].matricula == key
  }

  /** The store's unique constraint on `matricula`. */
  ghost predicate UniqueKeys(rows: seq<Student>)
  {
    forall i, j :: 0 <= i < j < |rows| ==> rows[i].matricula != rows[j].matricula
  }

  /** The position of the row with key `key`. */
  function IndexOf(rows: seq<Student>, key: string): (r: Option<nat>)
    ensures r.Some? ==> r.value < |rows| && rows[r.value].matricula == key
    ensures r.Some? ==> forall j :: 0 <= j < r.value ==> rows[j].matricula != key
    ensures r.None? <==> !HasKey(rows, key)
  {
    if rows == [] then None
    else if rows[0].matricula == key then Some(0)
    else match IndexOf(rows[1..], key)
      case None => None
      case Some(i) => Some(i + 1)
  }

  /** Prisma's `contains`: `needle` occurs in `hay` (the empty string occurs everywhere). */
  function Contains(hay: string, needle: string): (found: bool)
    ensures found <==> exists k :: 0 <= k <= |hay| && needle <= hay[k..]
    decreases |hay|
  {
    if needle <= hay then assert hay[0..] == hay; true
    else if hay == [] then false
    else
      assert forall k :: 1 <= k <= |hay| ==> hay[1..][k - 1..] == hay[k..];
      Contains(hay[1..], needle)
  }

  /** `where: { matricula: { contains: m }, name: { contains: n } }`, an undefined filter matching everything. */
  predicate RowMatches(row: Student, matriculaFilter: Option<string>, nameFilter: Option<string>)
  {
    (matriculaFilter.None? || Contains(row.matricula, matriculaFilter.value)) &&
    (nameFilter.None? || Contains(row.name, nameFilter.value))
  }

  /** Row `i` matches and no earlier row does. */
  ghost predicate FirstMatching(rows: seq<Student>, i: nat, matriculaFilter: Option<string>, nameFilter: Option<string>)
  {
    i < |rows| && RowMatches(rows[i], matriculaFilter, nameFilter) &&
    forall j :: 0 <= j < i ==> !RowMatches(rows[j], matriculaFilter, nameFilter)
  }

  /** The position `findFirst` answers with. */
  function FirstMatch(rows: seq<Student>, matriculaFilter: Option<string>, nameFilter: Option<string>): (r: Option<nat>)
    ensures r.Some? ==> FirstMatching(rows, r.value, matriculaFilter, nameFilter)
    ensures r.None? <==> forall j :: 0 <= j < |rows| ==> !RowMatches(rows[j], matriculaFilter, nameFilter)
  {
    if rows == [] then None
    else if RowMatches(rows[0], matriculaFilter, nameFilter) then Some(0)
    else match FirstMatch(rows[1..], matriculaFilter, nameFilter)
      case None => None
      case Some(i) => Some(i + 1)
  }

  /** The fields `prisma.student.update` is given; an absent one is left as it is. */
  datatype Changes = Changes(name: Option<string>, photo: Option<string>, attendance: Option<Json>)

  /**
   * What Prisma accepts as the new value of a number column: a number replaces
   * it, and an object holding exactly one of the atomic operations `set`,
   * `increment`, `decrement`, `multiply` or `divide`, with a number, is applied
   * to it by the database.
   */
  datatype NumberUpdate = SetTo(n: int) | Increment(n: int) | Decrement(n: int) | Multiply(n: int) | Divide(n: int)

  const NumberOperators: set<string> := {"set", "increment", "decrement", "multiply", "divide"}

  /** The key Prisma uses for an operation. */
  function OperatorName(u: NumberUpdate): (op: string)
    ensures op in NumberOperators
  {
    match u
    case SetTo(_) => "set"
    case Increment(_) => "increment"
    case Decrement(_) => "decrement"
    case Multiply(_) => "multiply"
    case Divide(_) => "divide"
  }

  /** `fields` is `{op: <number>}` and nothing else. */
  predicate SingleOperation(fields: map<string, Json>, op: string)
  {
    fields.Keys == {op} && fields[op].JNum?
  }

  /** How Prisma reads the `attendance` it is given; None when it refuses the value. */
  function AttendanceUpdate(v: Json): (u: Option<NumberUpdate>)
    ensures u.Some? <==> v.JNum? || (v.JObject? && exists op :: op in NumberOperators && SingleOperation(v.fields, op))
    ensures v.JNum? ==> u == Some(SetTo(v.n))
    ensures u.Some? && v.JObject? ==> SingleOperation(v.fields, OperatorName(u.value)) &&
                                       v.fields[OperatorName(u.value)].n == u.value.n
  {
    if v.JNum? then Some(SetTo(v.n))
    else if !v.JObject? then None
    else if SingleOperation(v.fields, "set") then Some(SetTo(v.fields["set"].n))
    else if SingleOperation(v.fields, "increment") then Some(Increment(v.fields["increment"].n))
    else if SingleOperation(v.fields, "decrement") then Some(Decrement(v.fields["decrement"].n))
    else if SingleOperation(v.fields, "multiply") then Some(Multiply(v.fields["multiply"].n))
    else if SingleOperation(v.fields, "divide") then Some(Divide(v.fields["divide"].n))
    else None
  }

  /** Every operation, written as the object Prisma expects, is read back as itself. */
  lemma AttendanceUpdateRoundTrip(u: NumberUpdate)
    ensures AttendanceUpdate(JObject(map[OperatorName(u) := JNum(u.n)])) == Some(u)
  {
    var fields := map[OperatorName(u) := JNum(u.n)];
    assert fields.Keys == {OperatorName(u)};
  }

  function Abs(x: int): nat
  {
    if x < 0 then -x else x
  }

  /** `q` is `a / d` rounded toward zero: the remainder is smaller than `d` in magnitude and has the sign of `a`. */
  ghost predicate TruncatedQuotient(a: int, d: int, q: int)
  {
    var rem := a - q * d;
    Abs(rem) < Abs(d) && (rem == 0 || (rem < 0) == (a < 0))
  }

  /** Integer division as the database performs it on an integer column: truncating toward zero. */
  function Quotient(a: int, d: int): (q: int)
    requires d != 0
    ensures TruncatedQuotient(a, d, q)
  {
    var q0 := Abs(a) / Abs(d);
    var q := if (a < 0) != (d < 0) then -q0 else q0;
    QuotientRemainder(a, d, q0, q);
    q
  }

  /** The remainder of the signed quotient is that of the magnitudes, with the sign of `a`. */
  lemma QuotientRemainder(a: int, d: int, q0: int, q: int)
    requires d != 0 && q0 == Abs(a) / Abs(d)
    requires q == if (a < 0) != (d < 0) then -q0 else q0
    ensures TruncatedQuotient(a, d, q)
  {
    var p := q0 * Abs(d);
    var r0 := Abs(a) - p;
    assert 0 <= r0 < Abs(d);
    if d > 0 {
      assert q * d == (if a < 0 then -p else p);
    } else {
      assert q * d == (if a < 0 then -p else p) by {
        assert Abs(d) == -d;
        assert q0 * d == -p;
      }
    }
    assert a - q * d == (if a < 0 then -r0 else r0);
  }

  /** The value of the column after `u` is applied to `current`; the database refuses a division by zero. */
  function Applied(u: NumberUpdate, current: int): (r: Option<int>)
    ensures r.None? <==> u == Divide(0)
    ensures u.Divide? && u.n != 0 ==> TruncatedQuotient(current, u.n, r.value)
  {
    match u
    case SetTo(n) => Some(n)
    case Increment(n) => Some(current + n)
    case Decrement(n) => Some(current - n)
    case Multiply(n) => Some(current * n)
    case Divide(n) => if n == 0 then None else Some(Quotient(current, n))
  }

  /** The attendance given to update is one Prisma accepts (or none is given). */
  predicate AttendanceAccepted(given: Option<Json>)
  {
    given.None? || AttendanceUpdate(given.value).Some?
  }

  /** The attendance given to update asks the database to divide by zero. */
  predicate DividesByZero(given: Option<Json>)
  {
    given.Some? && AttendanceUpdate(given.value) == Some(Divide(0))
  }

  /** The row after the update, or None when the database refuses the attendance operation. */
  function Changed(row: Student, changes: Changes): (r: Option<Student>)
    requires AttendanceAccepted(changes.attendance)
    ensures r.None? <==> DividesByZero(changes.attendance)
    ensures r.Some? ==> r.value.matricula == row.matricula
    ensures changes == Changes(None, None, None) ==> r == Some(row)
    ensures changes.attendance.Some? && changes.attendance.value.JNum? ==>
      r.Some? && r.value.attendance == changes.attendance.value.n
  {
    var attendance := if changes.attendance.Some? then Applied(AttendanceUpdate(changes.attendance.value).value, row.attendance)
                      else Some(row.attendance);
    if attendance.None? then None
    else
      Some(Student(row.matricula,
                   if changes.name.Some? then changes.name.value else row.name,
                   if changes.photo.Some? then changes.photo.value else row.photo,
                   attendance.value))
  }

  /** A record the store hands back together with the rows after the call. */
  datatype Written = Written(record: Student, rows: seq<Student>)

  /** `prisma.student.create`: P2002 when the key is taken, otherwise the row is appended. */
  function CreateRow(rows: seq<Student>, record: Student): (r: Result<seq<Student>, Thrown>)
    ensures r.Failure? <==> HasKey(rows, record.matricula)
    ensures r.Failure? ==> r.error == PrismaKnown("P2002")
    ensures r.Success? ==> r.value == rows + [record]
    ensures UniqueKeys(rows) && r.Success? ==> UniqueKeys(r.value)
  {
    if IndexOf(rows, record.matricula).Some? then Failure(PrismaKnown("P2002"))
    else Success(rows + [record])
  }

  /**
   * `prisma.student.update` on the row keyed `key`: Prisma checks the data
   * first, then P2025 when no row has the key; the database then applies the
   * attendance operation, refusing a division by zero.
   */
  function UpdateRow(rows: seq<Student>, key: string, changes: Changes): (r: Result<Written, Thrown>)
    ensures !AttendanceAccepted(changes.attendance) ==> r == Failure(PrismaInvalid("attendance"))
    ensures AttendanceAccepted(changes.attendance) ==> (r.Failure? <==> !HasKey(rows, key) || DividesByZero(changes.attendance))
    ensures AttendanceAccepted(changes.attendance) && !HasKey(rows, key) ==> r == Failure(PrismaKnown("P2025"))
    ensures AttendanceAccepted(changes.attendance) && HasKey(rows, key) && DividesByZero(changes.attendance) ==>
      r == Failure(DatabaseError("division by zero"))
    ensures r.Success? ==>
      AttendanceAccepted(changes.attendance) && IndexOf(rows, key).Some? &&
      var i := IndexOf(rows, key).value;
      Changed(rows[i], changes) == Some(r.value.record) && r.value.rows == rows[i := r.value.record]
    ensures UniqueKeys(rows) && r.Success? ==> UniqueKeys(r.value.rows)
  {
    if !AttendanceAccepted(changes.attendance) then Failure(PrismaInvalid("attendance"))
    else match IndexOf(rows, key)
      case None => Failure(PrismaKnown("P2025"))
      case Some(i) =>
        match Changed(rows[i], changes)
        case None => Failure(DatabaseError("division by zero"))
        case Some(record) => Success(Written(record, rows[i := record]))
  }

  /** Removing row `i` of unique-keyed rows leaves exactly the rows with other keys. */
  lemma {:induction false} RemoveAt(rows: seq<Student>, i: nat)
    requires i < |rows|
    ensures UniqueKeys(rows) ==> UniqueKeys(rows[..i] + rows[i + 1..])
    ensures UniqueKeys(rows) ==>
      forall s :: s in rows[..i] + rows[i + 1..] <==> s in rows && s.matricula != rows[i].matricula
  {
    var rest := rows[..i] + rows[i + 1..];
    assert forall j :: 0 <= j < |rest| ==> rest[j] == if j < i then rows[j] else rows[j + 1];
    if UniqueKeys(rows) {
      forall s | s in rows && s.matricula != rows[i].matricula
        ensures s in rest
      {
        var j :| 0 <= j < |rows| && rows[j] == s;
        assert j != i;
        if j < i { assert rest[j] == s; } else { assert rest[j - 1] == s; }
      }
    }
  }

  /** `prisma.student.delete` of the row keyed `key`: P2025 when there is none, otherwise that row goes and is returned. */
  function DeleteRow(rows: seq<Student>, key: string): (r: Result<Written, Thrown>)
    ensures r.Failure? <==> !HasKey(rows, key)
    ensures r.Failure? ==> r.error == PrismaKnown("P2025")
    ensures r.Success? ==> r.value.record.matricula == key && r.value.record in rows && |r.value.rows| == |rows| - 1
    ensures UniqueKeys(rows) && r.Success? ==>
      UniqueKeys(r.value.rows) && forall s :: s in r.value.rows <==> s in rows && s.matricula != key
  {
    match IndexOf(rows, key)
    case None => Failure(PrismaKnown("P2025"))
    case Some(i) =>
      RemoveAt(rows, i);
      Success(Written(rows[i], rows[..i] + rows[i + 1..]))
  }

  /** The row `findFirst` returns, or null. */
  function FindFirstRow(rows: seq<Student>, matriculaFilter: Option<string>, nameFilter: Option<string>): (r: Option<Student>)
    ensures r.None? <==> forall j :: 0 <= j < |rows| ==> !RowMatches(rows[j], matriculaFilter, nameFilter)
    ensures r.Some? ==> exists i: nat :: FirstMatching(rows, i, matriculaFilter, nameFilter) && rows[i] == r.value
  {
    match FirstMatch(rows, matriculaFilter, nameFilter)
    case None => None
    case Some(i) => Some(rows[i])
  }

  // ---------------------------------------------------------------------------
  // The catch blocks.

  /** register's catch: P2002 becomes 400 "already registered", an Axios error 400 "failed to retrieve"; anything else is rethrown as it is. */
  function CatchRegister(err: Thrown, matricula: string): (t: Thrown)
    ensures t == err || t == ValidationException(400, AlreadyRegistered(matricula)) || t == ValidationException(400, FetchFailed)
    ensures t.ValidationException? && !err.ValidationException? ==> t.code == 400
    ensures err.ValidationException? ==> t == err
  {
    if err.PrismaKnown? && err.errorCode == "P2002" then ValidationException(400, AlreadyRegistered(matricula))
    else if err.AxiosFailure? then ValidationException(400, FetchFailed)
    else err
  }

  /** update's catch: P2025 becomes 404 "not found", an Axios error 400 "failed to retrieve"; anything else is rethrown. */
  function CatchUpdate(err: Thrown, matricula: string): (t: Thrown)
    ensures t == err || t == ValidationException(404, NotFound(matricula)) || t == ValidationException(400, FetchFailed)
    ensures t.ValidationException? && !err.ValidationException? ==> t.code in {400, 404}
    ensures err.ValidationException? ==> t == err
  {
    if err.PrismaKnown? && err.errorCode == "P2025" then ValidationException(404, NotFound(matricula))
    else if err.AxiosFailure? then ValidationException(400, FetchFailed)
    else err
  }

  /** remove's catch: P2025 becomes 404 "not found"; anything else is rethrown. */
  function CatchRemove(err: Thrown, matricula: string): (t: Thrown)
    ensures t == err || t == ValidationException(404, NotFound(matricula))
    ensures t.ValidationException? && !err.ValidationException? ==> t.code == 404
    ensures err.ValidationException? ==> t == err
  {
    if err.PrismaKnown? && err.errorCode == "P2025" then ValidationException(404, NotFound(matricula))
    else err
  }

  // ---------------------------------------------------------------------------
  // The four operations as steps.

  /** What a write operation answers, and the rows after it. */
  datatype Step = Step(outcome: Result<Student, Thrown>, rows: seq<Student>)

  /** `if (v) v = normalizeString(v, kind)`: only a present, non-empty string is normalised. */
  function Normalized(v: Option<string>, kind: FieldKind, normalize: Normalizer): (r: Option<string>)
    ensures r.Some? <==> v.Some?
    ensures r.Some? ==> r.value == v.value || r.value == normalize(v.value, kind)
    ensures v == Some("") ==> r == v
  {
    if TruthyText(v) then Some(normalize(v.value, kind)) else v
  }

  /**
   * register: the photo is fetched and checked before the store is touched, and
   * a failure of any kind leaves the rows as they were; the duplicate message
   * names the normalised matricula; a new record carries the normalised name and
   * matricula, the base64 of the downloaded bytes (never the URL) and the given
   * attendance. Every failure is a 400.
   */
  function RegisterStep(rows: seq<Student>, student: CreateRequest, fetched: Option<seq<byte>>, normalize: Normalizer): (st: Step)
    ensures st.outcome.Failure? ==> st.rows == rows
    ensures st.outcome.Failure? ==> st.outcome.error.ValidationException? && st.outcome.error.code == 400
    ensures fetched.None? ==> st.outcome == Failure(ValidationException(400, FetchFailed))
    ensures fetched.Some? && !SignatureOk(Encode(fetched.value)) ==>
      st.outcome == Failure(ValidationException(400, UnsupportedImage))
    ensures fetched.Some? && SignatureOk(Encode(fetched.value)) && HasKey(rows, normalize(student.matricula, MatriculaField)) ==>
      st.outcome == Failure(ValidationException(400, AlreadyRegistered(normalize(student.matricula, MatriculaField))))
    ensures st.outcome.Success? <==>
      fetched.Some? && SignatureOk(Encode(fetched.value)) && !HasKey(rows, normalize(student.matricula, MatriculaField))
    ensures st.outcome.Success? ==>
      st.outcome.value == Student(normalize(student.matricula, MatriculaField), normalize(student.name, NameField),
                                  Encode(fetched.value), student.attendance) &&
      st.rows == rows + [st.outcome.value]
    ensures UniqueKeys(rows) ==> UniqueKeys(st.rows)
  {
    var matricula := normalize(student.matricula, MatriculaField);
    var name := normalize(student.name, NameField);
    if fetched.None? then Step(Failure(CatchRegister(AxiosFailure, matricula)), rows)
    else
      var photo := Encode(fetched.value);
      if !SignatureOk(photo) then Step(Failure(CatchRegister(ValidationException(400, UnsupportedImage), matricula)), rows)
      else
        var record := Student(matricula, name, photo, student.attendance);
        match CreateRow(rows, record)
        case Failure(e) => Step(Failure(CatchRegister(e, matricula)), rows)
        case Success(after) => Step(Success(record), after)
  }

  /**
   * search: a present, non-empty filter is normalised first; `attendance` plays
   * no part; the answer is the first row matching both filters, or null, and
   * with no (or only empty) filters it is the first row of the table. The
   * store's `findFirst` never fails here, so neither does search.
   */
  function SearchStep(rows: seq<Student>, student: SearchRequest, normalize: Normalizer): (r: Option<Student>)
    ensures var mf := Normalized(student.matricula, MatriculaField, normalize);
            var nf := Normalized(student.name, NameField, normalize);
      (r.None? <==> forall j :: 0 <= j < |rows| ==> !RowMatches(rows[j], mf, nf)) &&
      (r.Some? ==> exists i: nat :: FirstMatching(rows, i, mf, nf) && rows[i] == r.value) &&
      (r.Some? ==> r.value in rows && RowMatches(r.value, mf, nf))
    ensures !TruthyText(student.matricula) && !TruthyText(student.name) ==>
      r == if rows == [] then None else Some(rows[0])
  {
    var matriculaFilter := Normalized(student.matricula, MatriculaField, normalize);
    var nameFilter := Normalized(student.name, NameField, normalize);
    FindFirstRow(rows, matriculaFilter, nameFilter)
  }

  /** The photo of an update passes: none to fetch, or fetched and of a supported signature. */
  predicate UpdatePhotoOk(student: UpdateRequest, fetched: Option<seq<byte>>)
  {
    !TruthyText(student.photo) || (fetched.Some? && SignatureOk(Encode(fetched.value)))
  }

  /**
   * update: the photo is fetched and checked before the store is touched; a
   * failure of any kind leaves the rows as they were; a missing key is a 404
   * naming the normalised matricula; an attendance Prisma cannot store, or a
   * division by zero, makes the store throw an error the service does not
   * recognise. On success only the row with that key changes, and only in the
   * fields the request supplies; a number replaces the attendance and an atomic
   * operation (`{increment: 1}`, ...) is applied to it.
   */
  function UpdateStep(rows: seq<Student>, student: UpdateRequest, fetched: Option<seq<byte>>, normalize: Normalizer): (st: Step)
    ensures st.outcome.Failure? ==> st.rows == rows
    ensures TruthyText(student.photo) && fetched.None? ==> st.outcome == Failure(ValidationException(400, FetchFailed))
    ensures TruthyText(student.photo) && fetched.Some? && !SignatureOk(Encode(fetched.value)) ==>
      st.outcome == Failure(ValidationException(400, UnsupportedImage))
    ensures UpdatePhotoOk(student, fetched) && !AttendanceAccepted(student.attendance) ==>
      st.outcome == Failure(PrismaInvalid("attendance"))
    ensures UpdatePhotoOk(student, fetched) && AttendanceAccepted(student.attendance) &&
            !HasKey(rows, normalize(student.matricula, MatriculaField)) ==>
      st.outcome == Failure(ValidationException(404, NotFound(normalize(student.matricula, MatriculaField))))
    ensures UpdatePhotoOk(student, fetched) && AttendanceAccepted(student.attendance) &&
            HasKey(rows, normalize(student.matricula, MatriculaField)) && DividesByZero(student.attendance) ==>
      st.outcome == Failure(DatabaseError("division by zero"))
    ensures st.outcome.Success? <==>
      UpdatePhotoOk(student, fetched) && AttendanceAccepted(student.attendance) && !DividesByZero(student.attendance) &&
      HasKey(rows, normalize(student.matricula, MatriculaField))
    ensures st.outcome.Success? ==>
      var key := normalize(student.matricula, MatriculaField);
      IndexOf(rows, key).Some? &&
      var i := IndexOf(rows, key).value;
      var record := st.outcome.value;
      st.rows == rows[i := record] && record.matricula == key &&
      record.name == (if student.name.Some? then Normalized(student.name, NameField, normalize).value else rows[i].name) &&
      record.photo == (if TruthyText(student.photo) then Encode(fetched.value)
                       else if student.photo.Some? then student.photo.value else rows[i].photo) &&
      (student.attendance.None? ==> record.attendance == rows[i].attendance) &&
      (student.attendance.Some? ==>
        Some(record.attendance) == Applied(AttendanceUpdate(student.attendance.value).value, rows[i].attendance))
    ensures UniqueKeys(rows) ==> UniqueKeys(st.rows)
  {
    var matricula := normalize(student.matricula, MatriculaField);
    var name := Normalized(student.name, NameField, normalize);
    if TruthyText(student.photo) && fetched.None? then
      Step(Failure(CatchUpdate(AxiosFailure, matricula)), rows)
    else if TruthyText(student.photo) && !SignatureOk(Encode(fetched.value)) then
      Step(Failure(CatchUpdate(ValidationException(400, UnsupportedImage), matricula)), rows)
    else
      var photo := if TruthyText(student.photo) then Some(Encode(fetched.value)) else student.photo;
      match UpdateRow(rows, matricula, Changes(name, photo, student.attendance))
      case Failure(e) => Step(Failure(CatchUpdate(e, matricula)), rows)
      case Success(w) => Step(Success(w.record), w.rows)
  }

  /**
   * remove: the row keyed by the normalised matricula is deleted and returned as
   * it was; without one, 404 and nothing changes. With unique keys the rows left
   * are exactly the others.
   */
  function RemoveStep(rows: seq<Student>, matricula: string, normalize: Normalizer): (st: Step)
    ensures st.outcome.Failure? <==> !HasKey(rows, normalize(matricula, MatriculaField))
    ensures st.outcome.Failure? ==>
      st.outcome.error == ValidationException(404, NotFound(normalize(matricula, MatriculaField))) && st.rows == rows
    ensures st.outcome.Success? ==>
      st.outcome.value.matricula == normalize(matricula, MatriculaField) && st.outcome.value in rows &&
      |st.rows| == |rows| - 1
    ensures UniqueKeys(rows) ==> UniqueKeys(st.rows)
    ensures UniqueKeys(rows) && st.outcome.Success? ==>
      forall s :: s in st.rows <==> s in rows && s.matricula != normalize(matricula, MatriculaField)
  {
    var key := normalize(matricula, MatriculaField);
    match DeleteRow(rows, key)
    case Failure(e) => Step(Failure(CatchRemove(e, key)), rows)
    case Success(w) => Step(Success(w.record), w.rows)
  }

  /** Registering a second student under a key already taken fails with 400 and leaves the first record in place. */
  lemma RegisterTwice(rows: seq<Student>, first: CreateRequest, second: CreateRequest,
                      firstPhoto: Option<seq<byte>>, secondPhoto: Option<seq<byte>>, normalize: Normalizer)
    requires RegisterStep(rows, first, firstPhoto, normalize).outcome.Success?
    requires normalize(second.matricula, MatriculaField) == normalize(first.matricula, MatriculaField)
    ensures var after := RegisterStep(rows, first, firstPhoto, normalize);
            var again := RegisterStep(after.rows, second, secondPhoto, normalize);
      again.outcome.Failure? && again.outcome.error.code == 400 && again.rows == after.rows &&
      after.outcome.value in again.rows &&
      (secondPhoto.Some? && SignatureOk(Encode(secondPhoto.value)) ==>
        again.outcome.error.message == AlreadyRegistered(normalize(first.matricula, MatriculaField)))
  {
    var after := RegisterStep(rows, first, firstPhoto, normalize);
    assert after.rows[|rows|] == after.outcome.value;
    assert HasKey(after.rows, normalize(first.matricula, MatriculaField));
  }

  /** An update whose attendance is `{increment: k}` adds `k` to the stored attendance of the keyed row. */
  lemma UpdateAppliesIncrement(rows: seq<Student>, student: UpdateRequest, fetched: Option<seq<byte>>,
                               normalize: Normalizer, k: int)
    requires student.attendance == Some(JObject(map["increment" := JNum(k)]))
    requires UpdatePhotoOk(student, fetched)
    requires HasKey(rows, normalize(student.matricula, MatriculaField))
    ensures var st := UpdateStep(rows, student, fetched, normalize);
            var i := IndexOf(rows, normalize(student.matricula, MatriculaField)).value;
      st.outcome.Success? && st.outcome.value.attendance == rows[i].attendance + k &&
      st.rows == rows[i := st.outcome.value]
  {
    AttendanceUpdateRoundTrip(Increment(k));
  }

  // ---------------------------------------------------------------------------
  // The same operations in place.

  /** `prisma.student`: the table the service writes to. */
  class StudentTable {
    var rows: seq<Student>

    ghost predicate Valid()
      reads this
    {
      UniqueKeys(rows)
    }

    constructor (initial: seq<Student>)
      requires UniqueKeys(initial)
      ensures Valid() && rows == initial
    {
      rows := initial;
    }

    method Create(record: Student) returns (r: Result<Student, Thrown>)
      requires Valid()
      modifies this
      ensures Valid()
      ensures HasKey(old(rows), record.matricula) ==> r == Failure(PrismaKnown("P2002")) && rows == old(rows)
      ensures !HasKey(old(rows), record.matricula) ==> r == Success(record) && rows == old(rows) + [record]
    {
      match CreateRow(rows, record)
      case Failure(e) =>
        r := Failure(e);
      case Success(after) =>
        rows := after;
        r := Success(record);
    }

    method FindFirst(matriculaFilter: Option<string>, nameFilter: Option<string>) returns (r: Option<Student>)
      ensures r == FindFirstRow(rows, matriculaFilter, nameFilter)
    {
      r := FindFirstRow(rows, matriculaFilter, nameFilter);
    }

    method Update(key: string, changes: Changes) returns (r: Result<Student, Thrown>)
      requires Valid()
      modifies this
      ensures Valid()
      ensures UpdateRow(old(rows), key, changes).Failure? ==>
        r == Failure(UpdateRow(old(rows), key, changes).error) && rows == old(rows)
      ensures UpdateRow(old(rows), key, changes).Success? ==>
        r == Success(UpdateRow(old(rows), key, changes).value.record) && rows == UpdateRow(old(rows), key, changes).value.rows
    {
      match UpdateRow(rows, key, changes)
      case Failure(e) =>
        r := Failure(e);
      case Success(w) =>
        rows := w.rows;
        r := Success(w.record);
    }

    method Delete(key: string) returns (r: Result<Student, Thrown>)
      requires Valid()
      modifies this
      ensures Valid()
      ensures DeleteRow(old(rows), key).Failure? ==> r == Failure(PrismaKnown("P2025")) && rows == old(rows)
      ensures DeleteRow(old(rows), key).Success? ==>
        r == Success(DeleteRow(old(rows), key).value.record) && rows == DeleteRow(old(rows), key).value.rows
    {
      match DeleteRow(rows, key)
      case Failure(e) =>
        r := Failure(e);
      case Success(w) =>
        rows := w.rows;
        r := Success(w.record);
    }
  }

  /**
   * The service: a fresh instance per request over the shared table. Each method
   * works on a copy of the request the way the source reassigns `requestRef`'s
   * fields, and does to the table what its step function says.
   */
  class StudentService {
    const table: StudentTable
    const normalize: Normalizer

    constructor (table: StudentTable, normalize: Normalizer)
      ensures this.table == table && this.normalize == normalize
    {
      this.table := table;
      this.normalize := normalize;
    }

    method Register(student: CreateRequest, fetched: Option<seq<byte>>) returns (r: Result<Student, Thrown>)
      requires table.Valid()
      modifies table
      ensures table.Valid()
      ensures r == RegisterStep(old(table.rows), student, fetched, normalize).outcome
      ensures table.rows == RegisterStep(old(table.rows), student, fetched, normalize).rows
    {
      var request := student;
      request := request.(name := normalize(student.name, NameField));
      request := request.(matricula := normalize(student.matricula, MatriculaField));
      var thrown: Thrown;
      if fetched.None? {
        thrown := AxiosFailure;
      } else {
        var base64Photo := Encode(fetched.value);
        if !SignatureOk(base64Photo) {
          thrown := ValidationException(400, UnsupportedImage);
        } else {
          request := request.(photo := base64Photo);
          var result := table.Create(Student(request.matricula, request.name, request.photo, request.attendance));
          if result.Success? {
            return result;
          }
          thrown := result.error;
        }
      }
      r := Failure(CatchRegister(thrown, request.matricula));
    }

    method Search(student: SearchRequest) returns (students: Option<Student>)
      ensures students == SearchStep(table.rows, student, normalize)
    {
      var request := student;
      if TruthyText(student.matricula) {
        request := request.(matricula := Some(normalize(student.matricula.value, MatriculaField)));
      }
      if TruthyText(student.name) {
        request := request.(name := Some(normalize(student.name.value, NameField)));
      }
      students := table.FindFirst(request.matricula, request.name);
    }

    method Update(student: UpdateRequest, fetched: Option<seq<byte>>) returns (r: Result<Student, Thrown>)
      requires table.Valid()
      modifies table
      ensures table.Valid()
      ensures r == UpdateStep(old(table.rows), student, fetched, normalize).outcome
      ensures table.rows == UpdateStep(old(table.rows), student, fetched, normalize).rows
    {
      var request := student;
      request := request.(matricula := normalize(student.matricula, MatriculaField));
      if TruthyText(student.name) {
        request := request.(name := Some(normalize(student.name.value, NameField)));
      }
      if TruthyText(student.photo) {
        if fetched.None? {
          return Failure(CatchUpdate(AxiosFailure, request.matricula));
        }
        request := request.(photo := Some(Encode(fetched.value)));
        if !SignatureOk(request.photo.value) {
          return Failure(CatchUpdate(ValidationException(400, UnsupportedImage), request.matricula));
        }
      }
      var result := table.Update(request.matricula, Changes(request.name, request.photo, request.attendance));
      if result.Failure? {
        return Failure(CatchUpdate(result.error, request.matricula));
      }
      r := result;
    }

    method Remove(matricula: string) returns (r: Result<Student, Thrown>)
      requires table.Valid()
      modifies table
      ensures table.Valid()
      ensures r == RemoveStep(old(table.rows), matricula, normalize).outcome
      ensures table.rows == RemoveStep(old(table.rows), matricula, normalize).rows
    {
      var key := normalize(matricula, MatriculaField);
      var result := table.Delete(key);
      if result.Failure? {
        return Failure(CatchRemove(result.error, key));
      }
      r := result;
    }
  }
}
