/**
 * The global exception handler of the admin backend: a stateless classifier
 * with two overloads. A business exception becomes an error `Result` carrying
 * its own message. A PostgreSQL exception with SQLSTATE 23505
 * (unique_violation) becomes an error `Result` naming the duplicated value
 * taken from the server's detail text; any other PostgreSQL exception is
 * thrown again, unchanged.
 */
module ExceptionHandler {
  import opened Nullable
  import opened DetailPattern

  /** `MessageConstant.ALREADY_EXISTS`, the suffix of every duplicate-entry message. */
  const ALREADY_EXISTS: string := "已存在"

  /** SQLSTATE of PostgreSQL's unique_violation (integrity-constraint class 23). */
  const UNIQUE_VIOLATION: string := "23505"

  /** `BaseException`: what domain code throws; `getMessage()` may be null. */
  datatype BaseException = BaseException(message: Option<string>)

  /** `ServerErrorMessage`: the fields the server sent; only the detail is read here. */
  datatype ServerErrorMessage = ServerErrorMessage(detail: Option<string>)

  /** `PSQLException`: its SQLSTATE and the server's error message, either possibly null. */
  datatype PSQLException = PSQLException(sqlState: Option<string>, serverErrorMessage: Option<ServerErrorMessage>)

  /** The response envelope; `ok` is false for `Result.error(msg)`. */
  datatype Result = Result(ok: bool, msg: Option<string>)

  /** How a handler call ends: it returns a `Result`, throws the exception it
    * was given, or throws a `NullPointerException` of its own. */
  datatype Outcome = Returns(result: Result) | Rethrows(exception: PSQLException) | ThrowsNullPointer

  function ErrorResult(msg: string): Result {
    Result(false, Some(msg))
  }

  /** `exceptionHandler(BaseException)`: the message passes straight through. */
  function HandleBusiness(ex: BaseException): (o: Outcome)
    ensures o.Returns? && !o.result.ok
    ensures o.result.msg == ex.message
  {
    Returns(Result(false, ex.message))
  }

  /** The message reported for a unique violation whose detail text is `detail`:
    * the value captured by group 2 of the first match, or the bare suffix. */
  function DuplicateMessage(detail: string): (msg: string)
    ensures NoMatch(detail) ==> msg == ALREADY_EXISTS
    ensures !NoMatch(detail) ==> exists i: nat, k: nat, m: nat ::
      FirstMatch(detail, i, k, m) && msg == detail[i + 4 + k..i + 4 + k + m] + ALREADY_EXISTS
  {
    match Find(detail)
    case Some(mt) =>
      assert FirstMatch(detail, mt.start, |mt.group1|, |mt.group2|);
      mt.group2 + ALREADY_EXISTS
    case None => ALREADY_EXISTS
  }

  /** `exceptionHandler(PSQLException)` as written: a null detail reaches
    * `pattern.matcher(detail)`, which throws `NullPointerException`. */
  function HandleSql(ex: PSQLException): (o: Outcome)
    ensures o.Rethrows? <==> ex.sqlState != Some(UNIQUE_VIOLATION)
    ensures o.Rethrows? ==> o.exception == ex
    ensures o.ThrowsNullPointer? <==>
      ex.sqlState == Some(UNIQUE_VIOLATION) && ex.serverErrorMessage.Some? && ex.serverErrorMessage.value.detail.None?
    ensures o.Returns? ==> !o.result.ok && o.result.msg.Some?
    ensures ex.sqlState == Some(UNIQUE_VIOLATION) && ex.serverErrorMessage.None? ==>
      o == Returns(ErrorResult(ALREADY_EXISTS))
    ensures ex.sqlState == Some(UNIQUE_VIOLATION) && ex.serverErrorMessage.Some? && ex.serverErrorMessage.value.detail.Some? ==>
      var detail := ex.serverErrorMessage.value.detail.value;
      && o.Returns?
      && (NoMatch(detail) ==> o.result == ErrorResult(ALREADY_EXISTS))
      && (!NoMatch(detail) ==> exists i: nat, k: nat, m: nat ::
            FirstMatch(detail, i, k, m) && o.result == ErrorResult(detail[i + 4 + k..i + 4 + k + m] + ALREADY_EXISTS))
  {
    if ex.sqlState == Some(UNIQUE_VIOLATION) then
      match ex.serverErrorMessage
      case Some(serverError) =>
        (match serverError.detail
         case None => ThrowsNullPointer
         case Some(detail) => Returns(ErrorResult(DuplicateMessage(detail))))
      case None => Returns(ErrorResult(ALREADY_EXISTS))
    else
      Rethrows(ex)
  }

  /** The same handler with the missing `detail != null` guard added: a null
    * detail falls back to the bare suffix like a missing server message. */
  function HandleSqlGuarded(ex: PSQLException): (o: Outcome)
    ensures o.Rethrows? <==> ex.sqlState != Some(UNIQUE_VIOLATION)
    ensures o.Rethrows? ==> o.exception == ex
    ensures ex.sqlState == Some(UNIQUE_VIOLATION) ==> o.Returns? && !o.result.ok && o.result.msg.Some?
    ensures !HandleSql(ex).ThrowsNullPointer? ==> o == HandleSql(ex)
    ensures HandleSql(ex).ThrowsNullPointer? ==> o == Returns(ErrorResult(ALREADY_EXISTS))
  {
    if ex.sqlState == Some(UNIQUE_VIOLATION) then
      match ex.serverErrorMessage
      case Some(ServerErrorMessage(Some(detail))) => Returns(ErrorResult(DuplicateMessage(detail)))
      case _ => Returns(ErrorResult(ALREADY_EXISTS))
    else
      Rethrows(ex)
  }

  /** A unique violation whose server message has no detail makes the handler
    * as written throw instead of falling back. */
  lemma NullDetailThrowsNullPointer()
    ensures HandleSql(PSQLException(Some("23505"), Some(ServerErrorMessage(None)))) == ThrowsNullPointer
    ensures HandleSqlGuarded(PSQLException(Some("23505"), Some(ServerErrorMessage(None)))) == Returns(ErrorResult(ALREADY_EXISTS))
  {
  }

  /** A unique violation whose detail has PostgreSQL's `Key (c)=(v)...` shape is
    * reported as `v` followed by the suffix; the column `c` is not reported. */
  lemma KeyDetailReportsValue(p: string, c: string, v: string, q: string, server: ServerErrorMessage)
    requires '(' !in p
    requires DotRun(c, 0, |c|) && NoDelimiter(c)
    requires DotRun(v, 0, |v|) && ')' !in v
    requires server.detail == Some(KeyDetail(p, c, v, q))
    ensures HandleSql(PSQLException(Some(UNIQUE_VIOLATION), Some(server))) == Returns(ErrorResult(v + ALREADY_EXISTS))
  {
    FindKeyDetail(p, c, v, q);
  }

  /** Two unique violations that differ only in the column name get the same outcome. */
  lemma ColumnNameDiscarded(p: string, c1: string, c2: string, v: string, q: string)
    requires '(' !in p
    requires DotRun(c1, 0, |c1|) && NoDelimiter(c1)
    requires DotRun(c2, 0, |c2|) && NoDelimiter(c2)
    requires DotRun(v, 0, |v|) && ')' !in v
    ensures HandleSql(PSQLException(Some(UNIQUE_VIOLATION), Some(ServerErrorMessage(Some(KeyDetail(p, c1, v, q))))))
         == HandleSql(PSQLException(Some(UNIQUE_VIOLATION), Some(ServerErrorMessage(Some(KeyDetail(p, c2, v, q))))))
  {
    FindKeyDetail(p, c1, v, q);
    FindKeyDetail(p, c2, v, q);
  }

  /** The example in the handler's own comment: the user name is reported. */
  lemma UsernameExample()
    ensures HandleSql(PSQLException(Some("23505"), Some(ServerErrorMessage(Some("Key (username)=(zhangsan) already exists.")))))
         == Returns(ErrorResult("zhangsan" + ALREADY_EXISTS))
  {
    assert KeyDetail("Key ", "username", "zhangsan", " already exists.") == "Key (username)=(zhangsan) already exists.";
    FindKeyDetail("Key ", "username", "zhangsan", " already exists.");
  }

  /** A second `=(...)` after the first match does not change what is captured. */
  lemma RepeatedValueExample()
    ensures HandleSql(PSQLException(Some("23505"), Some(ServerErrorMessage(Some("Key (email)=(a@b.com)=(dup) already exists.")))))
         == Returns(ErrorResult("a@b.com" + ALREADY_EXISTS))
  {
    var detail := "Key (email)=(a@b.com)=(dup) already exists.";
    assert KeyDetail("Key ", "email", "a@b.com", "=(dup) already exists.") == detail;
    assert NoDelimiter("email");
    assert ')' !in "a@b.com";
    KeyDetailReportsValue("Key ", "email", "a@b.com", "=(dup) already exists.", ServerErrorMessage(Some(detail)));
  }

  /** An empty detail has no match and falls back to the bare suffix. */
  lemma EmptyDetailFallsBack()
    ensures HandleSql(PSQLException(Some("23505"), Some(ServerErrorMessage(Some(""))))) == Returns(ErrorResult(ALREADY_EXISTS))
  {
  }
}
