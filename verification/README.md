# MySQL administration backend of dba-operator, in Dafny

This project models the MySQL administration backend of dba-operator
(`pkg/dbadmin/mysqladmin/admin.go`). The backend creates database
credentials, grants them rights on one database, lists users by name
prefix, drops a user once no session uses it, and reads the schema
version recorded by the migration engine.

The heart of it is `indirectSubstitute`, the injection-safe way the
backend runs statements such as `CREATE USER` and `GRANT`, which cannot
take bind parameters. It works in one transaction:
- Every caller value is bound to a fresh session variable with
  `SET @var… := ?`.
- The statement text is then assembled on the server with
  `CONCAT("…", QUOTE(@var…), "…")`.
- The text is prepared from that variable and executed.

The model is functional. The database is an oracle:
- `accepts(i)` answers the i-th request of a transaction, counting
  `Begin` as request 0.
- A single-row query is answered by a `Scan` value.
- The user listing is answered by a `Rows` value.

The random bytes drawn for identifiers are a parameter (`Draws`).

On top of the request traces, the project gives a small model of what the
server does with them:
- `Lexer`: MySQL's `QUOTE()` and the string-literal lexer that reads its
  output back.
- `Concat`: the `CONCAT` argument list the server parses, and how it is
  evaluated.
- `Substitute.Session`: user variables and prepared statements.

With these, the project proves that the statement the server finally
executes is exactly the template with each value rendered. Quoted values
are rendered as one string literal, whatever quotes or backslashes they
contain (strings are sequences of characters; see "Left out" on bytes and
character sets).

Modules, one file each:
- `Results`: `Option`, `Result`, and the permanent/temporary error tag.
- `Hex`: `encoding/hex` lower-case encoding, and a lower-case decoder used to prove identifiers injective.
- `Lexer`: identifiers, `QUOTE()`, string literals.
- `Identifiers`: `randIdentifier`.
- `Format`: `fmt.Sprintf` for `%s`/`%%` templates with string arguments,
  including Go's `%!s(MISSING)` and `%!(EXTRA …)` decorations.
- `Concat`: the fragments Go substitutes, the expression the server reads,
  its parser and its evaluation.
- `Transaction`: the request sequence of one transaction, its deferred
  rollback, and a state machine for the protocol.
- `Substitute`: `sqlValue`, the statement plan, the `indirectSubstitute`
  method, and the session semantics.
- `Admin`: the handle, its construction, and the four operations.

## Model

| member | source | states |
|---|---|---|
| Substitute.RenderReads | pkg/dbadmin/mysqladmin/admin.go:23-34 | a `quoted` value is placed in the statement as one complete string literal that reads back as exactly the value; a `noquote` value is placed as it is |
| Admin.CreateMySQLAdmin | pkg/dbadmin/mysqladmin/admin.go:38-56 | opening the pool is attempted exactly when the DSN parsed and has a user, a password and a database name, so validation always comes before opening; a handle is returned exactly when that attempt also succeeds, and an open failure is reported exactly when it does not; the handle is bound to the DSN's database name; missing credentials are reported exactly when the DSN parsed with an empty user or password; a missing database is reported only after the credentials passed; a parse failure is reported exactly when the DSN did not parse |
| Identifiers.RandIdentifier | pkg/dbadmin/mysqladmin/admin.go:58-65 | the name is `var` followed by 2n lower-case hex digits for n drawn bytes (length 3 + 2n); it is a valid user-variable name and never starts with a digit |
| Identifiers.RandIdentifierDecodes | pkg/dbadmin/mysqladmin/admin.go:58-65 | the part after `var` decodes back to exactly the drawn bytes |
| Identifiers.RandIdentifierInjective | pkg/dbadmin/mysqladmin/admin.go:58-65 | different draws give different names, so distinct draws give distinct variables |
| Hex.DecodeEncode | pkg/dbadmin/mysqladmin/admin.go:64 | decoding the hex encoding of bytes gives the bytes back |
| Hex.EncodeDecode | pkg/dbadmin/mysqladmin/admin.go:64 | every string the decoder accepts is the encoding of what it decodes to |
| Substitute.Plan | pkg/dbadmin/mysqladmin/admin.go:79-109 | the statements of one substitution: one binding per value carrying that value, then the `CONCAT` into a statement variable, a `PREPARE` from that same variable, and an `EXECUTE` of the name just prepared |
| Substitute.Substitution | pkg/dbadmin/mysqladmin/admin.go:72-119 | the requests of one `indirectSubstitute` call: it commits exactly when all of its n + 5 requests (for n values) are accepted, and then it sent `Begin` first and `Commit` last; otherwise, less the rollback, it sent a prefix of the full request list whose last request was rejected |
| Substitute.PlanRequests | pkg/dbadmin/mysqladmin/admin.go:80-109 | a substitution sends one `SET @id := ?` per value, in argument order, with that value as its only bind argument, then the `CONCAT` into the statement variable, then `PREPARE` from that variable, then `EXECUTE` |
| Substitute.BindValues | pkg/dbadmin/mysqladmin/admin.go:79-93 | the loop sends the `SET`s in order and collects one fragment per value; the first rejected `SET` ends the run with the rollback and no commit |
| Substitute.BindsAreValues | pkg/dbadmin/mysqladmin/admin.go:80-93 | the bind arguments of the whole transaction are exactly the values, each once, in argument order |
| Substitute.TextIndependentOfValues | pkg/dbadmin/mysqladmin/admin.go:83-97 | every SQL text sent depends only on which values are quoted, never on the values themselves: caller values are handed to the driver only as bind arguments |
| Concat.SprintfIsJoin | pkg/dbadmin/mysqladmin/admin.go:83-95 | the template formatted with the fragments is the literals of the built `CONCAT` expression joined by the fragments; the same expression joined by the variables' values is the template formatted with those values |
| Concat.ParseJoin | pkg/dbadmin/mysqladmin/admin.go:84-97 | the server reads the `CONCAT` text back as exactly the expression it was built from: no literal ends early and no reference is misread |
| Concat.BuildShape | pkg/dbadmin/mysqladmin/admin.go:95-97 | for a template without `"` or `\`, every literal of the expression is safe and every reference is one of the generated variables |
| Lexer.QuoteScans | pkg/dbadmin/mysqladmin/admin.go:84 | `QUOTE(v)` is read back by the lexer as one string literal holding exactly `v`, and the text after it is left alone, when that text does not start with a quote |
| Substitute.ConcatMeaning | pkg/dbadmin/mysqladmin/admin.go:95-98 | once every value is bound, the `CONCAT` text is read as the built expression, and that expression evaluates to the intended statement |
| Substitute.PlanMeaning | pkg/dbadmin/mysqladmin/admin.go:72-112 | when the server accepts every statement of a substitution, it executes exactly one statement: the template with each value rendered (given distinct draws and a template without `"` or `\`) |
| Transaction.Run | pkg/dbadmin/mysqladmin/admin.go:73-118 | a transaction commits exactly when every request, the commit included, is accepted; a committed run sent exactly begin, the statements and the commit |
| Transaction.RunStopsAtFirstFailure | pkg/dbadmin/mysqladmin/admin.go:73-118 | what a run sends, less the deferred rollback, is a prefix of the full request list; every request before the last one sent was accepted, and when the run did not commit the last one was rejected, so nothing after the first failure is sent |
| Transaction.RunFollowsProtocol | pkg/dbadmin/mysqladmin/admin.go:73-118 | whatever the database answers, a run follows the begin/exec/commit/rollback state machine and ends finished; it ends committed exactly when the run reports a commit |
| Substitute.IndirectSubstitute | pkg/dbadmin/mysqladmin/admin.go:72-119 | the method sends exactly the run of the planned requests, returns no error exactly when that run commits, and every error it returns is permanent |
| Substitute.RunStatement | pkg/dbadmin/mysqladmin/admin.go:95-116 | after the `SET`s, the `CONCAT`, `PREPARE`, `EXECUTE` and commit are sent in order, each only after the previous one was accepted |
| Admin.CreateUserTemplate | pkg/dbadmin/mysqladmin/admin.go:124-128 | the `CREATE USER` template, with the quoted name and password, means `CREATE USER '<name>'@'%' IDENTIFIED BY '<password>'` with both values escaped |
| Admin.GrantTemplate | pkg/dbadmin/mysqladmin/admin.go:133-137 | the `GRANT` template means granting select, insert, update and delete on `<database>.*` to the quoted user, with the database name placed as it is |
| Admin.DropUserTemplate | pkg/dbadmin/mysqladmin/admin.go:188-191 | the `DROP USER` template means dropping exactly the quoted user |
| Admin.CreateUserReadsBack | pkg/dbadmin/mysqladmin/admin.go:124-128 | in the created statement, the user name and the password each read back as one string literal holding exactly the given text |
| Admin.WriteCredentials | pkg/dbadmin/mysqladmin/admin.go:122-143 | success exactly when both transactions commit; every error is permanent; a failed create sends nothing after its own transaction, so no grant is attempted; after a committed create, the grant's transaction follows it, and a failed grant leaves the create committed |
| Admin.WriteCredentialsMeaning | pkg/dbadmin/mysqladmin/admin.go:122-143 | when the create transaction is accepted, its session executes exactly the creation of the user with the given name and password; when the grant transaction is accepted, its session (possibly another pooled connection) executes exactly the grant on the handle's database |
| Admin.CreateCommitRejected | pkg/dbadmin/mysqladmin/admin.go:109-131 | when every statement of the create transaction is accepted but its commit is rejected, the `EXECUTE` of the `CREATE USER` was sent and accepted, yet the operation returns a permanent error and sends no grant |
| Admin.VerifyUnusedAndDeleteCredentials | pkg/dbadmin/mysqladmin/admin.go:172-197 | the session count is always queried first with the user name as bind argument; the drop is sent exactly when the count was scanned and is not positive, and then it is the `DROP USER` substitution for the quoted name; a positive count gives a temporary error carrying the count; a failed scan gives a permanent error; success exactly when the count is not positive and the drop commits |
| Admin.DropMeaning | pkg/dbadmin/mysqladmin/admin.go:188-191 | when the drop is accepted, the server executes exactly the drop of that user |
| Admin.GetSchemaVersion | pkg/dbadmin/mysqladmin/admin.go:200-214 | exactly the engine's version query is sent; a scanned version is returned as it is; MySQL error 1146 (no such table) gives the empty version and no error; every other failure is a permanent error |
| Admin.EmptyVersionAmbiguous | pkg/dbadmin/mysqladmin/admin.go:204-208 | a database without the metadata table gives the same result as one whose stored version is the empty string |
| Admin.ListUsernames | pkg/dbadmin/mysqladmin/admin.go:146-169 | the only request is the listing query with `prefix%` as its bind argument; success exactly when the query ran, every row scanned and iteration ended cleanly, and then the names are the rows in the order returned; every error is permanent |

## Left out

- The SQL driver and `database/sql`: connections, pooling and row iteration are answers supplied to the model. A `Rollback` after a failed `Commit` is taken to send nothing, since the transaction is already over.
- `mysql.ParseDSN` and `sql.Open`: the parsed user, password and database name, and whether opening succeeds, are parameters of `CreateMySQLAdmin`.
- `math/rand`: the drawn bytes are parameters. Where the server-side meaning is proved, the values' draws are required to be pairwise distinct. A collision could make two values share one variable, and its probability cannot be stated here.
- The `LIKE` semantics of `ListUsernames`: the prefix is not escaped, so `_` and `%` in it act as wildcards. The model records only the bind argument `prefix%`; which names match is the server's answer. It does not claim the names start with the prefix.
- `ListUsernames`: with no rows, the code returns a nil slice, not an empty one. The model has a single empty sequence, so it cannot tell the two apart.
- `wrap` and `xerrors` are not part of this model. Every driver error is classed as permanent, and only the temporary/permanent tag is kept; error messages are not.
- Concurrency: the handle is shared by concurrent callers, and that is not modelled.
- `fmt.Sprintf` verbs other than `%s` and `%%`: the three templates use only these.
- SQL modes `NO_BACKSLASH_ESCAPES` and `ANSI_QUOTES`: under them, `QUOTE()` and double-quoted literals read differently. The server model assumes the default mode.
- The effect of the executed statement itself (creating, granting, dropping a user): the session model records its text only. The state of `mysql.user` is not modelled, so no property of the form "a created user is listed afterwards" is stated.
- `Concat.ParseBody` reads only the grammar the backend generates (literals, `@id`, `QUOTE(@id)`). Other `CONCAT` argument lists are rejected rather than evaluated.
- The migration engine: it is represented only by its version query string.
- Client-side interpolation: with `interpolateParams=true` in the DSN, the driver escapes the bound value and splices it into the `SET` text on the client. The model stops at the `database/sql` call, so its statements about bind arguments are about what the driver is handed.
- Strings are sequences of Dafny characters. Go strings are byte strings, and the driver and server convert them to the connection's character set; that conversion is not modelled. Invalid UTF-8, or a character the connection's character set cannot hold, may reach a variable altered. The meaning lemmas hold for the characters as the server receives them.

## Notes on the code

- `VerifyUnusedAndDeleteCredentials`: `sessionCount > 0` is the only guard, so any count that is not positive leads to the drop. `COUNT(*)` is never negative, so in practice this means a count of 0. The model keeps the code's guard.
- `ListUsernames` passes the prefix unescaped to `LIKE` (see "Left out").
- `Commit` and `Rollback` decide only the result `indirectSubstitute` returns, not whether the statement took effect. `SET @var` and `PREPARE` are not transactional, and `CREATE USER`, `GRANT` and `DROP USER` commit implicitly when `EXECUTE` runs them. A rejected `Commit` therefore follows a statement that already took effect. For `WriteCredentials`, the call then fails with no grant, although the user exists (`Admin.CreateCommitRejected`). The model's `committed` flag is the client-side outcome only.
- The backend never sends `DEALLOCATE PREPARE` and never resets the `@var…` variables. After the transaction, the pooled connection still holds the user name and password in its variables, and the prepared statement holds the full `CREATE USER … IDENTIFIED BY '<password>'` text. `Substitute.Apply` keeps `vars` and `prepared` across statements, so the model's sessions show this.
