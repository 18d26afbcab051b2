/** The MySQL administration handle of the operator: constructing it from a
    DSN, creating and granting credentials, listing users by prefix,
    dropping a user once no session uses it, and reading the schema
    version. The database is a parameter: transaction answers (`TxInputs`)
    for the statements sent through the substitution protocol, and the
    scanned answers of plain queries. */
module Admin {
  import opened Results
  import opened Lexer
  import opened Identifiers
  import opened Format
  import opened Concat
  import opened Transaction
  import opened Substitute

  // ---------------------------------------------------------------------
  // The handle and its construction.

  /** The settings of a parsed DSN that the handle checks. */
  datatype Dsn = Dsn(user: string, passwd: string, dbName: string)

  /** A handle bound to one database. The migration engine is represented
      by the query it uses to read the schema version. */
  datatype Admin = Admin(database: string, versionQuery: string)

  /** Why no handle was made, in the order the checks are made. */
  datatype CreateError = BadDsn | MissingCredentials | MissingDatabase | OpenFailed

  datatype Created = Created(admin: Admin) | NotCreated(reason: CreateError)

  /** The outcome, and whether opening a connection pool was attempted. */
  datatype Construction = Construction(result: Created, openAttempted: bool)

  /** `CreateMySQLAdmin`. `parsed` is the DSN parser's result (`None` when
      it fails) and `openOk` whether opening the pool succeeds. */
  function CreateMySQLAdmin(parsed: Option<Dsn>, openOk: bool, versionQuery: string): (c: Construction)
    ensures c.openAttempted <==> (parsed.Some? && parsed.value.user != "" && parsed.value.passwd != ""
                                  && parsed.value.dbName != "")
    ensures c.result.Created? <==> c.openAttempted && openOk
    ensures c.result == NotCreated(OpenFailed) <==> c.openAttempted && !openOk
    ensures c.result == NotCreated(MissingCredentials) <==>
              parsed.Some? && (parsed.value.user == "" || parsed.value.passwd == "")
    ensures c.result.Created? ==> c.result.admin == Admin(parsed.value.dbName, versionQuery)
    ensures c.result == NotCreated(MissingDatabase) ==>
              parsed.Some? && parsed.value.user != "" && parsed.value.passwd != "" && parsed.value.dbName == ""
    ensures c.result == NotCreated(BadDsn) <==> parsed.None?
  {
    match parsed
    case None => Construction(NotCreated(BadDsn), false)
    case Some(dsn) =>
      if dsn.user == "" || dsn.passwd == "" then Construction(NotCreated(MissingCredentials), false)
      else if dsn.dbName == "" then Construction(NotCreated(MissingDatabase), false)
      else if !openOk then Construction(NotCreated(OpenFailed), true)
      else Construction(Created(Admin(dsn.dbName, versionQuery)), true)
  }

  // ---------------------------------------------------------------------
  // The statements.

  /** The templates, written as their literal pieces and directives: the
      texts `CREATE USER %s@'%%' IDENTIFIED BY %s`,
      `GRANT SELECT, INSERT, UPDATE, DELETE ON %s.* TO %s` and
      `DROP USER %s`. */
  const CreateUserText: string := "CREATE USER " + ("%s" + ("@'" + ("%%" + ("' IDENTIFIED BY " + "%s"))))
  const GrantText: string := "GRANT SELECT, INSERT, UPDATE, DELETE ON " + ("%s" + (".* TO " + "%s"))
  const DropUserText: string := "DROP USER " + "%s"
  const SessionCountSql: string := "SELECT COUNT(*) FROM information_schema.processlist WHERE user = ?"
  const ListUsersSql: string := "SELECT user FROM mysql.user WHERE user LIKE ?"

  /** MySQL's error number for a table that does not exist. */
  const NoSuchTable: int := 1146

  /** The templates can be formatted: only `%s` and `%%` directives. */
  function CreateUserFormat(): (f: string)
    ensures Format.WellFormed(f)
  {
    TwoHolesPercent("CREATE USER ", "@'", "' IDENTIFIED BY ", "", "");
    CreateUserText
  }

  function GrantFormat(): (f: string)
    ensures Format.WellFormed(f)
  {
    TwoHoles("GRANT SELECT, INSERT, UPDATE, DELETE ON ", ".* TO ", "", "");
    GrantText
  }

  function DropUserFormat(): (f: string)
    ensures Format.WellFormed(f)
  {
    OneHole("DROP USER ", "");
    DropUserText
  }

  /** No template holds a double quote or a backslash, so the literals of
      the `CONCAT` expression stay intact. */
  lemma CreateUserSafe()
    ensures SafeLiteral(CreateUserFormat())
  {
    assert SafeLiteral("CREATE USER ") && SafeLiteral("@'") && SafeLiteral("' IDENTIFIED BY ");
    SafeTwoHolesPercent("CREATE USER ", "@'", "' IDENTIFIED BY ");
  }

  lemma GrantSafe()
    ensures SafeLiteral(GrantFormat())
  {
    assert SafeLiteral("GRANT SELECT, INSERT, UPDATE, DELETE ON ") && SafeLiteral(".* TO ");
    SafeTwoHoles("GRANT SELECT, INSERT, UPDATE, DELETE ON ", ".* TO ");
  }

  lemma DropUserSafe()
    ensures SafeLiteral(DropUserFormat())
  {
    assert SafeLiteral("DROP USER ");
    SafeOneHole("DROP USER ");
  }

  lemma SafeOneHole(t0: string)
    requires SafeLiteral(t0)
    ensures SafeLiteral(t0 + "%s")
  {
    assert SafeLiteral("%s");
    SafeLiteralAppend(t0, "%s");
  }

  lemma SafeTwoHoles(t0: string, t1: string)
    requires SafeLiteral(t0) && SafeLiteral(t1)
    ensures SafeLiteral(t0 + ("%s" + (t1 + "%s")))
  {
    SafeOneHole(t1);
    SafeLiteralAppend("%s", t1 + "%s");
    SafeLiteralAppend(t0, "%s" + (t1 + "%s"));
  }

  lemma SafeTwoHolesPercent(t0: string, t1: string, t2: string)
    requires SafeLiteral(t0) && SafeLiteral(t1) && SafeLiteral(t2)
    ensures SafeLiteral(t0 + ("%s" + (t1 + ("%%" + (t2 + "%s")))))
  {
    assert SafeLiteral("%%");
    SafeOneHole(t2);
    SafeLiteralAppend("%%", t2 + "%s");
    SafeLiteralAppend(t1, "%%" + (t2 + "%s"));
    SafeLiteralAppend("%s", t1 + ("%%" + (t2 + "%s")));
    SafeLiteralAppend(t0, "%s" + (t1 + ("%%" + (t2 + "%s"))));
  }

  /** The statement `WriteCredentials` means to create the user with. */
  function CreateUserSql(username: string, password: string): string {
    "CREATE USER " + Quote(username) + "@'%' IDENTIFIED BY " + Quote(password)
  }

  function GrantSql(database: string, username: string): string {
    "GRANT SELECT, INSERT, UPDATE, DELETE ON " + database + ".* TO " + Quote(username)
  }

  function DropUserSql(username: string): string {
    "DROP USER " + Quote(username)
  }

  /** Each template, formatted with its values, means the statement above:
      two values for the first two, one for the last, so Go adds neither
      `MISSING` nor `EXTRA`, and each quoted value is its `QUOTE()` text. */
  lemma CreateUserTemplate(username: string, password: string)
    ensures Intended(CreateUserFormat(), [Quoted(username), Quoted(password)]) == CreateUserSql(username, password)
  {
    var qu, qp := Quote(username), Quote(password);
    var args := [Quoted(username), Quoted(password)];
    CreateUserFormatted(qu, qp);
    assert seq(2, i requires 0 <= i < 2 => Render(args[i])) == [qu, qp];
    assert Intended(CreateUserFormat(), args) == Sprintf(CreateUserFormat(), [qu, qp]);
  }

  lemma CreateUserFormatted(qu: string, qp: string)
    ensures Sprintf(CreateUserFormat(), [qu, qp]) == "CREATE USER " + qu + "@'%' IDENTIFIED BY " + qp
  {
    TwoHolesPercent("CREATE USER ", "@'", "' IDENTIFIED BY ", qu, qp);
    var h := "@'" + ("%" + "' IDENTIFIED BY ");
    assert h == "@'%' IDENTIFIED BY ";
    assert "@'" + ("%" + ("' IDENTIFIED BY " + qp)) == h + qp;
  }

  lemma GrantTemplate(database: string, username: string)
    ensures Intended(GrantFormat(), [NoQuote(database), Quoted(username)]) == GrantSql(database, username)
  {
    var qu := Quote(username);
    var args := [NoQuote(database), Quoted(username)];
    GrantFormatted(database, qu);
    assert seq(2, i requires 0 <= i < 2 => Render(args[i])) == [database, qu];
    assert Intended(GrantFormat(), args) == Sprintf(GrantFormat(), [database, qu]);
  }

  lemma GrantFormatted(database: string, qu: string)
    ensures Sprintf(GrantFormat(), [database, qu]) == "GRANT SELECT, INSERT, UPDATE, DELETE ON " + database + ".* TO " + qu
  {
    TwoHoles("GRANT SELECT, INSERT, UPDATE, DELETE ON ", ".* TO ", database, qu);
  }

  lemma DropUserTemplate(username: string)
    ensures Intended(DropUserFormat(), [Quoted(username)]) == DropUserSql(username)
  {
    var qu := Quote(username);
    var args := [Quoted(username)];
    OneHole("DROP USER ", qu);
    assert seq(1, i requires 0 <= i < 1 => Render(args[i])) == [qu];
    assert Intended(DropUserFormat(), args) == Sprintf(DropUserFormat(), [qu]);
  }

  /** Reading the `CREATE USER` statement back: after the keywords comes
      one string literal holding exactly the user name, then the host part,
      then one literal holding exactly the password, whatever quotes or
      backslashes the two contain. */
  lemma CreateUserReadsBack(username: string, password: string)
    ensures var s := CreateUserSql(username, password);
            && s[..12] == "CREATE USER "
            && ScanLiteral(s[12..]) == Some((username, "@'%' IDENTIFIED BY " + Quote(password)))
            && ScanLiteral(Quote(password)) == Some((password, ""))
  {
    var rest := "@'%' IDENTIFIED BY " + Quote(password);
    assert CreateUserSql(username, password) == "CREATE USER " + (Quote(username) + rest);
    QuoteScans(username, rest);
    QuoteScans(password, "");
    assert Quote(password) + "" == Quote(password);
  }

  // ---------------------------------------------------------------------
  // Operations.

  /** The database's side of one substituted statement: the random bytes
      drawn for it and the answers to its transaction's requests. */
  datatype TxInputs = TxInputs(draws: Draws, accepts: Answers)

  /** What an operation sent, and what it returned. */
  datatype Op<T> = Op(issued: seq<Request>, result: Result<T>)

  /** The number of requests a transaction of `k` substituted values sends
      when nothing fails: `Begin`, `k` bindings, the `CONCAT`, `PREPARE`
      and `EXECUTE`, and `Commit`. */
  function TxRequestCount(k: nat): nat {
    k + 5
  }

  /** `WriteCredentials`: create the user in one transaction, then grant
      it rights on the handle's database in a second one. The grant is
      not attempted when the creation fails, and a failed grant does not
      undo the committed creation. */
  function WriteCredentials(a: Admin, username: string, password: string, create: TxInputs, grant: TxInputs): (op: Op<()>)
    requires Fits(create.draws, 2) && Fits(grant.draws, 2)
    ensures op.result.Ok? <==> AllAccepted(create.accepts, TxRequestCount(2)) && AllAccepted(grant.accepts, TxRequestCount(2))
    ensures op.result.Err? ==> op.result.error == Permanent
    ensures !AllAccepted(create.accepts, TxRequestCount(2)) ==>
              op.issued == Substitution(CreateUserFormat(), [Quoted(username), Quoted(password)], create.draws, create.accepts).issued
    ensures AllAccepted(create.accepts, TxRequestCount(2)) ==>
              && |op.issued| >= TxRequestCount(2)
              && op.issued[..TxRequestCount(2)] == Requests(Execs(Plan(CreateUserFormat(), [Quoted(username), Quoted(password)], create.draws)))
              && op.issued[TxRequestCount(2)..] == Substitution(GrantFormat(), [NoQuote(a.database), Quoted(username)], grant.draws, grant.accepts).issued
  {
    var c := Substitution(CreateUserFormat(), [Quoted(username), Quoted(password)], create.draws, create.accepts);
    if !c.committed then Op(c.issued, Err(Permanent))
    else
      var g := Substitution(GrantFormat(), [NoQuote(a.database), Quoted(username)], grant.draws, grant.accepts);
      Op(c.issued + g.issued, if g.committed then Ok(()) else Err(Permanent))
  }

  /** What the server executes when both transactions of
      `WriteCredentials` commit: the user is created with exactly the
      given name and password and granted rights on the handle's
      database, whatever quotes or backslashes the name and password
      contain. The two transactions may run on different pooled
      connections, so each is applied to a session of its own. */
  lemma WriteCredentialsMeaning(a: Admin, username: string, password: string, create: TxInputs, grant: TxInputs,
                                s: Session, t: Session)
    requires Fits(create.draws, 2) && Distinct(create.draws.args)
    requires Fits(grant.draws, 2) && Distinct(grant.draws.args)
    ensures var s1 := ApplyAll(s, Plan(CreateUserFormat(), [Quoted(username), Quoted(password)], create.draws));
            s1.Some? && s1.value.executed == s.executed + [CreateUserSql(username, password)]
    ensures var t1 := ApplyAll(t, Plan(GrantFormat(), [NoQuote(a.database), Quoted(username)], grant.draws));
            t1.Some? && t1.value.executed == t.executed + [GrantSql(a.database, username)]
  {
    CreateUserTemplate(username, password);
    GrantTemplate(a.database, username);
    CreateUserSafe();
    GrantSafe();
    PlanMeaning(CreateUserFormat(), [Quoted(username), Quoted(password)], create.draws, s);
    PlanMeaning(GrantFormat(), [NoQuote(a.database), Quoted(username)], grant.draws, t);
  }

  /** A create transaction whose statements are all accepted but whose
      commit is rejected: `EXECUTE` of the `CREATE USER` was sent and
      accepted, yet the operation reports an error and no grant follows.
      The statement commits implicitly in MySQL, so the user then exists
      although the call failed. */
  lemma CreateCommitRejected(a: Admin, username: string, password: string, create: TxInputs, grant: TxInputs)
    requires Fits(create.draws, 2) && Fits(grant.draws, 2)
    requires AllAccepted(create.accepts, TxRequestCount(2) - 1) && !create.accepts(TxRequestCount(2) - 1)
    ensures var op := WriteCredentials(a, username, password, create, grant);
            var execs := Execs(Plan(CreateUserFormat(), [Quoted(username), Quoted(password)], create.draws));
            && op.result == Err(Permanent)
            && op.issued == Requests(execs)
            && op.issued[TxRequestCount(2) - 2] == execs[|execs| - 1]
            && execs[|execs| - 1].sql == ExecuteSql(RandIdentifier(create.draws.stmtName))
  {
    var args := [Quoted(username), Quoted(password)];
    var execs := Execs(Plan(CreateUserFormat(), args, create.draws));
    PlanRequests(CreateUserFormat(), args, create.draws);
    RunStopsAt(execs, create.accepts, |execs| + 1);
  }

  /** The database's error for a failed scan. */
  datatype DbError = MySqlError(number: int) | NoRows | OtherError

  /** The answer to a single-row query, scanned into a `T`. */
  datatype Scan<T> = Scanned(value: T) | ScanFailed(cause: DbError)

  /** `VerifyUnusedAndDeleteCredentials`: count the user's sessions and
      drop the user only when there are none. Sessions still open are a
      temporary error carrying their count. */
  function VerifyUnusedAndDeleteCredentials(username: string, count: Scan<int>, drop: TxInputs): (op: Op<()>)
    requires Fits(drop.draws, 1)
    ensures |op.issued| >= 1 && op.issued[0] == Query(SessionCountSql, [username])
    ensures op.result.Ok? <==> count.Scanned? && count.value <= 0 && AllAccepted(drop.accepts, TxRequestCount(1))
    ensures (op.result.Err? && op.result.error.Temporary?) <==> count.Scanned? && count.value > 0
    ensures op.result.Err? && op.result.error.Temporary? ==> op.result.error.activeSessions == count.value
    ensures count.ScanFailed? ==> op.result == Err(Permanent)
    ensures |op.issued| > 1 <==> count.Scanned? && count.value <= 0
    ensures count.Scanned? && count.value <= 0 ==>
              op.issued[1..] == Substitution(DropUserFormat(), [Quoted(username)], drop.draws, drop.accepts).issued
  {
    var q := [Query(SessionCountSql, [username])];
    match count
    case ScanFailed(_) => Op(q, Err(Permanent))
    case Scanned(n) =>
      if n > 0 then Op(q, Err(Temporary(n)))
      else
        var t := Substitution(DropUserFormat(), [Quoted(username)], drop.draws, drop.accepts);
        Op(q + t.issued, if t.committed then Ok(()) else Err(Permanent))
  }

  /** When no session is open and the drop transaction commits, the server
      executes exactly the drop of that user. */
  lemma DropMeaning(username: string, drop: TxInputs, s: Session)
    requires Fits(drop.draws, 1)
    ensures var s1 := ApplyAll(s, Plan(DropUserFormat(), [Quoted(username)], drop.draws));
            s1.Some? && s1.value.executed == s.executed + [DropUserSql(username)]
  {
    DropUserTemplate(username);
    DropUserSafe();
    PlanMeaning(DropUserFormat(), [Quoted(username)], drop.draws, s);
  }

  /** `GetSchemaVersion`: the version the migration engine's query reads.
      A missing metadata table means an empty database and reads as the
      empty version; every other failure is an error. */
  function GetSchemaVersion(a: Admin, answer: Scan<string>): (op: Op<string>)
    ensures op.issued == [Query(a.versionQuery, [])]
    ensures op.result.Ok? <==> answer.Scanned? || answer.cause == MySqlError(NoSuchTable)
    ensures answer.Scanned? ==> op.result == Ok(answer.value)
    ensures op.result.Ok? && answer.ScanFailed? ==> op.result.value == ""
    ensures op.result.Err? ==> op.result.error == Permanent
  {
    var issued := [Query(a.versionQuery, [])];
    match answer
    case Scanned(v) => Op(issued, Ok(v))
    case ScanFailed(MySqlError(n)) => Op(issued, if n == NoSuchTable then Ok("") else Err(Permanent))
    case ScanFailed(_) => Op(issued, Err(Permanent))
  }

  /** A database without the metadata table cannot be told apart from one
      whose stored version is the empty string. */
  lemma EmptyVersionAmbiguous(a: Admin)
    ensures GetSchemaVersion(a, ScanFailed(MySqlError(NoSuchTable))) == GetSchemaVersion(a, Scanned(""))
  {
  }

  /** The answer to the user listing: a failed query, or the rows, each
      scanned or not, and whether iterating ended in an error. */
  datatype Rows = QueryFailed | Rows(rows: seq<Scan<string>>, iterErr: bool)

  /** `ListUsernames`: the names of the users the `LIKE` pattern `prefix%`
      matches, in the order the server returns them. The prefix travels
      only as a bind argument. Whether a name matches is the server's
      business: the rows are the answer. */
  method ListUsernames(prefix: string, answer: Rows) returns (issued: seq<Request>, result: Result<seq<string>>)
    ensures issued == [Query(ListUsersSql, [prefix + "%"])]
    ensures result.Ok? <==> && answer.Rows? && !answer.iterErr
                            && forall i :: 0 <= i < |answer.rows| ==> answer.rows[i].Scanned?
    ensures result.Ok? ==> && |result.value| == |answer.rows|
                           && forall i :: 0 <= i < |answer.rows| ==> result.value[i] == answer.rows[i].value
    ensures result.Err? ==> result.error == Permanent
  {
    issued := [Query(ListUsersSql, [prefix + "%"])];
    if answer.QueryFailed? {
      return issued, Err(Permanent);
    }
    var usernames := [];
    var i := 0;
    while i < |answer.rows|
      invariant 0 <= i <= |answer.rows|
      invariant |usernames| == i
      invariant forall j :: 0 <= j < i ==> answer.rows[j].Scanned? && usernames[j] == answer.rows[j].value
    {
      match answer.rows[i]
      case ScanFailed(_) =>
        return issued, Err(Permanent);
      case Scanned(username) =>
        usernames := usernames + [username];
      i := i + 1;
    }
    if answer.iterErr {
      return issued, Err(Permanent);
    }
    return issued, Ok(usernames);
  }
}
