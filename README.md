# Global exception handler of the sky-take-out admin backend

This project models `GlobalExceptionHandler`, the exception advice of the sky-take-out
backend. It is a stateless classifier with two overloads:

- `exceptionHandler(BaseException)`: a business exception becomes `Result.error(message)`.
  Its message is passed through unchanged.
- `exceptionHandler(PSQLException)`: SQLSTATE `23505` is PostgreSQL's `unique_violation`.
  For it, the handler reads the detail text of the server's error message, such as
  `Key (username)=(zhangsan) already exists.`. It runs `find()` with the regular expression
  `\((.*?)\)=\((.*?)\)` and reports the value in group 2 followed by
  `MessageConstant.ALREADY_EXISTS`. With no server message, or no match, it reports the bare
  suffix. Any other SQLSTATE, a null one included, makes the handler throw the same
  exception again.

Modules:

- `Nullable` (`nullable.dfy`): `Option`, standing for Java references that may be null.
- `DetailPattern` (`detail_pattern.dfy`): the fixed pattern under Java's `find()`.
  It has two views. The first is a specification: `MatchesAt` says which (start, group-1
  length, group-2 length) triples the pattern accepts. `FirstMatch` picks the one `find()`
  reports: the leftmost start, then the shortest group 1 that lets the rest match, then the
  shortest group 2. Both groups are lazy, which gives this order. The second view is the
  backtracking search (`LazyValue`, `LazyName`, `FindFrom`, `Find`). The search's contracts
  prove that it returns exactly that first match, and `None` exactly when no match exists.
  `.` refuses Java's line terminators: `\n`, `\r`, U+0085, U+2028 and U+2029.
- `ExceptionHandler` (`exception_handler.dfy`): the exception and result types, both
  handlers, and the lemmas about them.

The handler has no fields, so the same exception always gets the same outcome. In the
model, each handler is a Dafny function, so this holds by definition. No lemma states it.

The model follows the code where it departs from its evident intent. A missing detail is
meant to fall back to the generic message. The code checks only
`serverError != null`, then passes `getDetail()` to `pattern.matcher`. A null detail there
throws `NullPointerException`. `HandleSql` models this with the `ThrowsNullPointer`
outcome. See "## Findings".

## Model

| member | source | states |
|---|---|---|
| `ExceptionHandler.HandleBusiness` | sky-server/src/main/java/com/sky/handler/GlobalExceptionHandler.java:27-31 | A business exception always yields an error result whose message is the exception's own message. The handler never rethrows it and looks at nothing else. |
| `ExceptionHandler.HandleSql` | sky-server/src/main/java/com/sky/handler/GlobalExceptionHandler.java:58-85 | It rethrows exactly when the SQLSTATE is not `"23505"` (a null SQLSTATE included), and it rethrows the very exception it was given. It throws `NullPointerException` exactly when the SQLSTATE is `23505` and the server message is present with a null detail. With `23505` and no server message, it returns `error(ALREADY_EXISTS)`. With `23505` and a detail, it always returns an error result. That result is `ALREADY_EXISTS` alone when no match exists; otherwise it is the first match's group 2 followed by `ALREADY_EXISTS`. |
| `ExceptionHandler.DuplicateMessage` | sky-server/src/main/java/com/sky/handler/GlobalExceptionHandler.java:70-78 | The message for a detail text is the first match's group-2 slice followed by `ALREADY_EXISTS`, or `ALREADY_EXISTS` alone when the pattern matches nowhere. |
| `ExceptionHandler.HandleSqlGuarded` | sky-server/src/main/java/com/sky/handler/GlobalExceptionHandler.java:61-84 | The corrected handler, with the missing `detail != null` guard. It never throws `NullPointerException`. With `23505` it always returns an error result. It rethrows the given exception exactly when the SQLSTATE is not `23505`. It agrees with `HandleSql` on every input where `HandleSql` does not throw `NullPointerException`; on the others it returns `error(ALREADY_EXISTS)`. |
| `ExceptionHandler.NullDetailThrowsNullPointer` | sky-server/src/main/java/com/sky/handler/GlobalExceptionHandler.java:66-71 | A `23505` exception whose server message has a null detail makes the handler as written throw `NullPointerException`. The guarded handler returns `error(ALREADY_EXISTS)` for the same input. |
| `ExceptionHandler.KeyDetailReportsValue` | sky-server/src/main/java/com/sky/handler/GlobalExceptionHandler.java:61-75 | Take a detail of the form `p(c)=(v)q`, where `p` opens no parenthesis, `c` has no `)=(` and no line terminator, and `v` has no `)` and no line terminator. Under `23505` it is reported as exactly `v + ALREADY_EXISTS`. |
| `ExceptionHandler.ColumnNameDiscarded` | sky-server/src/main/java/com/sky/handler/GlobalExceptionHandler.java:73-75 | Two such details that differ only in the column name `c` get the same outcome. Group 1 is captured but never reported. |
| `ExceptionHandler.UsernameExample` | sky-server/src/main/java/com/sky/handler/GlobalExceptionHandler.java:67-75 | The detail `Key (username)=(zhangsan) already exists.` under `23505` yields exactly `error("zhangsan" + ALREADY_EXISTS)`. |
| `ExceptionHandler.RepeatedValueExample` | sky-server/src/main/java/com/sky/handler/GlobalExceptionHandler.java:70-75 | The detail `Key (email)=(a@b.com)=(dup) already exists.` yields `error("a@b.com" + ALREADY_EXISTS)`. Only the first `(..)=(..)` counts. |
| `ExceptionHandler.EmptyDetailFallsBack` | sky-server/src/main/java/com/sky/handler/GlobalExceptionHandler.java:71-78 | An empty detail under `23505` falls back to `error(ALREADY_EXISTS)`. Nothing is thrown. |
| `DetailPattern.Find` | sky-server/src/main/java/com/sky/handler/GlobalExceptionHandler.java:70-74 | `find()` succeeds exactly when some match exists. A match it returns is the first match in Java's order, and its groups are the slices of the text at that match. Group 2 contains no `)`, and neither group contains a line terminator. |
| `DetailPattern.FindFrom` | sky-server/src/main/java/com/sky/handler/GlobalExceptionHandler.java:71-72 | Trying start positions from `i` upward, it returns the earliest match starting at or after `i`, or `None` exactly when no match starts there. |
| `DetailPattern.LazyName` | sky-server/src/main/java/com/sky/handler/GlobalExceptionHandler.java:70 | Lazy group 1 returns the shortest group 1 of at least `k` characters for which `)=(` and group 2 can follow, paired with the shortest such group 2. It returns `None` exactly when no length of at least `k` works. |
| `DetailPattern.LazyValue` | sky-server/src/main/java/com/sky/handler/GlobalExceptionHandler.java:70 | Lazy group 2 returns the shortest run of non-terminator characters followed by `)`. It returns `None` exactly when no such run exists. |
| `DetailPattern.FindKeyDetail` | sky-server/src/main/java/com/sky/handler/GlobalExceptionHandler.java:67-74 | On a detail `p(c)=(v)q` satisfying the conditions of `KeyDetailReportsValue`, `find()` matches at the position just after `p` and captures `c` and `v`. |

## Left out

- Logging (`log.error`, `log.info`) is left out: it has no effect on the outcome.
- Spring's `@RestControllerAdvice` / `@ExceptionHandler` dispatch is left out. So is what the framework does with a thrown exception. Each overload is modelled as its own function over its own exception type.
- `DishController` is thin REST glue with no logic of its own, so it is not modelled.
- The commented-out `split(" ")` handler is dead code and is not modelled.
- `Result` is not part of this model. It is reduced to the error flag and the message. The `data` field and the numeric code are left out.
- `MessageConstant` is not part of this model. `ALREADY_EXISTS` takes the upstream value `"已存在"`, and no proof depends on its content.
- `PSQLException` and `ServerErrorMessage` are not part of this model. They are reduced to the fields the handler reads: the SQLSTATE, the server message and its detail, each of which may be null.
- HandleSql: a rethrow is stated as value equality with the given exception. Java's object identity is not modelled.
- Only the fixed pattern `\((.*?)\)=\((.*?)\)` is modelled. General `java.util.regex` is not.
- Java strings are UTF-16. The model works on Unicode scalar values, so positions count code points, not UTF-16 units. The captured text is the same either way, because no supplementary character is a line terminator or a parenthesis.

## Findings

| source | as written | input that shows it | evidently intended | confidence | as-written member | corrected member |
|---|---|---|---|---|---|---|
| sky-server/src/main/java/com/sky/handler/GlobalExceptionHandler.java:66-71 | Only `serverError != null` is checked. `getDetail()` goes unchecked into `pattern.matcher(detail)`, which throws `NullPointerException` on null. | SQLSTATE `23505` with a server message that has no detail field. PostgreSQL omits the `Key (...)=(...)` detail, for example when the role may not read the key columns. | Fall back to `error(ALREADY_EXISTS)`, as for a missing server message. | medium; not executed | ExceptionHandler.NullDetailThrowsNullPointer | ExceptionHandler.HandleSqlGuarded |
