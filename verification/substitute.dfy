/** The injection-safe indirect substitution protocol: every caller value
    is handed to the driver only as the bind argument of `SET @name := ?`; the
    statement text is assembled on the server with `CONCAT` from the
    template and variable names, then prepared and executed, all in one
    transaction. */
module Substitute {
  import opened Results
  import opened Hex
  import opened Lexer
  import opened Identifiers
  import opened Format
  import opened Concat
  import opened Transaction

  /** A value for one `%s` of a template. A `Quoted` value must appear as a
      string literal; a `NoQuote` value is a trusted identifier and is
      placed as it is. */
  datatype SqlValue = Quoted(value: string) | NoQuote(value: string)

  /** The random bytes one substitution draws: a name per value, the name of
      the variable holding the statement text, the name of the prepared
      statement. */
  datatype Draws = Draws(args: seq<seq<byte>>, stmtVar: seq<byte>, stmtName: seq<byte>)

  predicate Fits(d: Draws, n: nat) {
    && |d.args| == n
    && (forall i :: 0 <= i < n ==> |d.args[i]| == IdentBytes)
    && |d.stmtVar| == IdentBytes
    && |d.stmtName| == IdentBytes
  }

  /** One statement of the protocol, in the form the server reads it. */
  datatype Stmt =
    | SetParam(name: string, value: string)  // SET @name := ?, with `value` bound
    | SetConcat(name: string, body: string)  // SET @name := CONCAT("body")
    | Prepare(name: string, from: string)    // PREPARE name FROM @from
    | Execute(name: string)                  // EXECUTE name

  function SetParamSql(v: string): string {
    "SET @" + v + " := ?"
  }

  function SetConcatSql(v: string, body: string): string {
    "SET @" + v + " := CONCAT(\"" + body + "\")"
  }

  function PrepareSql(n: string, from: string): string {
    "PREPARE " + n + " FROM @" + from
  }

  function ExecuteSql(n: string): string {
    "EXECUTE " + n
  }

  /** The SQL text sent for a statement. */
  function Sql(st: Stmt): string {
    match st
    case SetParam(v, _) => SetParamSql(v)
    case SetConcat(v, body) => SetConcatSql(v, body)
    case Prepare(n, from) => PrepareSql(n, from)
    case Execute(n) => ExecuteSql(n)
  }

  /** The bind arguments sent with a statement. */
  function Binds(st: Stmt): seq<string> {
    if st.SetParam? then [st.value] else []
  }

  function Refs(args: seq<SqlValue>, d: Draws): (refs: seq<Ref>)
    requires |d.args| == |args|
    ensures |refs| == |args|
  {
    seq(|args|, i requires 0 <= i < |args| => Ref(RandIdentifier(d.args[i]), args[i].Quoted?))
  }

  /** The statements of one substitution, in the order they are sent: one
      binding per value, then the statement variable is assembled,
      prepared from and executed. */
  function Plan(f: string, args: seq<SqlValue>, d: Draws): (plan: seq<Stmt>)
    requires Format.WellFormed(f) && Fits(d, |args|)
    ensures |plan| == |args| + 3
    ensures forall i :: 0 <= i < |args| ==> plan[i].SetParam? && plan[i].value == args[i].value
    ensures plan[|args|].SetConcat?
    ensures plan[|args| + 1] == Prepare(plan[|args| + 2].name, plan[|args|].name)
    ensures plan[|args| + 2].Execute?
  {
    var refs := Refs(args, d);
    var sets := seq(|args|, i requires 0 <= i < |args| => SetParam(refs[i].id, args[i].value));
    var stmtVar := RandIdentifier(d.stmtVar);
    var stmtName := RandIdentifier(d.stmtName);
    sets + [SetConcat(stmtVar, Sprintf(f, MapRefs(refs, Fragment))),
            Prepare(stmtName, stmtVar),
            Execute(stmtName)]
  }

  function Execs(plan: seq<Stmt>): (execs: seq<Request>)
    ensures |execs| == |plan| && AllExec(execs)
  {
    seq(|plan|, i requires 0 <= i < |plan| => Exec(Sql(plan[i]), Binds(plan[i])))
  }

  /** `indirectSubstitute(f, args...)` against a database that answers the
      i-th request of the transaction with `accepts(i)`. */
  function Substitution(f: string, args: seq<SqlValue>, d: Draws, accepts: Answers): (t: TxRun)
    requires Format.WellFormed(f) && Fits(d, |args|)
    ensures t.committed <==> AllAccepted(accepts, |args| + 5)
    ensures t.committed ==> |t.issued| == |args| + 5 && t.issued[0] == Begin && t.issued[|args| + 4] == Commit
    ensures !t.committed ==> 0 < |WithoutRollback(t.issued)| && !accepts(|WithoutRollback(t.issued)| - 1)
    ensures IsPrefix(WithoutRollback(t.issued), [Begin] + Execs(Plan(f, args, d)) + [Commit])
  {
    RunStopsAtFirstFailure(Execs(Plan(f, args, d)), accepts);
    Run(Execs(Plan(f, args, d)), accepts)
  }

  /** What one substitution sends, request by request: one `SET @id := ?`
      per value, in argument order, with that value as its only bind
      argument; then the `CONCAT` into the statement variable, `PREPARE`
      and `EXECUTE`, none of which has a bind argument. */
  lemma PlanRequests(f: string, args: seq<SqlValue>, d: Draws)
    requires Format.WellFormed(f) && Fits(d, |args|)
    ensures var execs := Execs(Plan(f, args, d));
            var n := |args|;
            var stmtVar := RandIdentifier(d.stmtVar);
            var stmtName := RandIdentifier(d.stmtName);
            && |execs| == n + 3
            && (forall i :: 0 <= i < n ==>
                  execs[i] == Exec(SetParamSql(RandIdentifier(d.args[i])), [args[i].value]))
            && execs[n] == Exec(SetConcatSql(stmtVar, Sprintf(f, MapRefs(Refs(args, d), Fragment))), [])
            && execs[n + 1] == Exec(PrepareSql(stmtName, stmtVar), [])
            && execs[n + 2] == Exec(ExecuteSql(stmtName), [])
  {
  }

  /** Sends `st`, request `m + 1` of the transaction whose statements are
      `execs`, after everything before it was accepted. When it is
      rejected, the deferred rollback follows and the run is over. */
  method SendExec(issued: seq<Request>, st: Request, accepts: Answers, ghost execs: seq<Request>, m: nat)
    returns (issued': seq<Request>, ok: bool)
    requires m < |execs| && execs[m] == st
    requires issued == [Begin] + execs[..m]
    requires forall j :: 0 <= j <= m ==> accepts(j)
    ensures ok ==> && issued' == [Begin] + execs[..m + 1]
                   && forall j :: 0 <= j <= m + 1 ==> accepts(j)
    ensures !ok ==> && issued' == Run(execs, accepts).issued
                    && !Run(execs, accepts).committed
  {
    issued' := issued + [st];
    assert execs[..m + 1] == execs[..m] + [st];
    if !accepts(m + 1) {
      RunStopsAt(execs, accepts, m + 1);
      return issued' + [Rollback], false;
    }
    return issued', true;
  }

  /** Sends the commit once every statement was accepted. */
  method SendCommit(issued: seq<Request>, accepts: Answers, ghost execs: seq<Request>, m: nat)
    returns (issued': seq<Request>, ok: bool)
    requires m == |execs| && issued == [Begin] + execs
    requires forall j :: 0 <= j <= |execs| ==> accepts(j)
    ensures issued' == Run(execs, accepts).issued
    ensures ok <==> Run(execs, accepts).committed
  {
    issued' := issued + [Commit];
    if !accepts(m + 1) {
      RunStopsAt(execs, accepts, m + 1);
      return issued', false;
    }
    return issued', true;
  }

  /** The loop of `indirectSubstitute`: for each value in order, draw its
      name, record the fragment that will reference it, and bind the value
      with `SET @name := ?`. Stops at the first rejected `SET`, after the
      deferred rollback. `execs` is what the whole transaction would send. */
  method BindValues(args: seq<SqlValue>, d: Draws, accepts: Answers, ghost execs: seq<Request>)
    returns (issued: seq<Request>, finalArgs: seq<string>, bound: bool)
    requires |d.args| == |args| && |args| < |execs|
    requires forall i :: 0 <= i < |args| ==>
               execs[i] == Exec(SetParamSql(RandIdentifier(d.args[i])), [args[i].value])
    requires accepts(0)
    ensures bound ==> && issued == [Begin] + execs[..|args|]
                      && finalArgs == MapRefs(Refs(args, d), Fragment)
                      && forall j :: 0 <= j <= |args| ==> accepts(j)
    ensures !bound ==> && issued == Run(execs, accepts).issued
                       && !Run(execs, accepts).committed
  {
    ghost var refs := Refs(args, d);
    issued := [Begin];
    finalArgs := [];
    var i := 0;
    while i < |args|
      invariant 0 <= i <= |args|
      invariant finalArgs == MapRefs(refs[..i], Fragment)
      invariant issued == [Begin] + execs[..i]
      invariant forall j :: 0 <= j <= i ==> accepts(j)
    {
      var newIdent := RandIdentifier(d.args[i]);
      finalArgs := finalArgs + [Fragment(Ref(newIdent, args[i].Quoted?))];
      MapRefsSnoc(refs, i, Fragment);
      var ok;
      issued, ok := SendExec(issued, Exec(SetParamSql(newIdent), [args[i].value]), accepts, execs, i);
      if !ok {
        return issued, finalArgs, false;
      }
      i := i + 1;
    }
    assert refs[..i] == refs;
    return issued, finalArgs, true;
  }

  /** `indirectSubstitute`: begin, bind the values, then the `CONCAT`,
      `PREPARE`, `EXECUTE` and the commit, each checked before the next;
      the deferred rollback follows a failed statement. It sends exactly
      what `Substitution` describes. The commit and the rollback decide
      only the result returned: none of these statements is transactional
      in MySQL, and the executed `CREATE USER`, `GRANT` or `DROP USER`
      commits implicitly, so a rejected commit can follow a statement that
      took effect. */
  method IndirectSubstitute(f: string, args: seq<SqlValue>, d: Draws, accepts: Answers)
    returns (issued: seq<Request>, err: Option<Error>)
    requires Format.WellFormed(f) && Fits(d, |args|)
    ensures issued == Substitution(f, args, d, accepts).issued
    ensures err.None? <==> Substitution(f, args, d, accepts).committed
    ensures err.Some? ==> err.value == Permanent
  {
    ghost var execs := Execs(Plan(f, args, d));
    if !accepts(0) {
      RunStopsAt(execs, accepts, 0);
      return [Begin], Some(Permanent);
    }
    var finalArgs, ok;
    PlanRequests(f, args, d);
    issued, finalArgs, ok := BindValues(args, d, accepts, execs);
    if !ok {
      return issued, Some(Permanent);
    }
    var n := |args|;
    var rawSqlStmt := Sprintf(f, finalArgs);
    issued, ok := RunStatement(issued, rawSqlStmt, d, accepts, execs, n);
    if !ok {
      return issued, Some(Permanent);
    }
    return issued, None;
  }

  /** The end of `indirectSubstitute`, once every value is bound: store the
      formatted text in the statement variable with `CONCAT`, prepare it,
      execute it, commit. */
  method RunStatement(issued: seq<Request>, rawSqlStmt: string, d: Draws, accepts: Answers,
                      ghost execs: seq<Request>, n: nat)
    returns (issued': seq<Request>, ok: bool)
    requires |execs| == n + 3
    requires execs[n] == Exec(SetConcatSql(RandIdentifier(d.stmtVar), rawSqlStmt), [])
    requires execs[n + 1] == Exec(PrepareSql(RandIdentifier(d.stmtName), RandIdentifier(d.stmtVar)), [])
    requires execs[n + 2] == Exec(ExecuteSql(RandIdentifier(d.stmtName)), [])
    requires issued == [Begin] + execs[..n]
    requires forall j :: 0 <= j <= n ==> accepts(j)
    ensures issued' == Run(execs, accepts).issued
    ensures ok <==> Run(execs, accepts).committed
  {
    var stmtStringName := RandIdentifier(d.stmtVar);
    issued', ok := SendExec(issued, Exec(SetConcatSql(stmtStringName, rawSqlStmt), []), accepts, execs, n);
    if !ok {
      return;
    }
    var stmtName := RandIdentifier(d.stmtName);
    issued', ok := SendExec(issued', Exec(PrepareSql(stmtName, stmtStringName), []), accepts, execs, n + 1);
    if !ok {
      return;
    }
    issued', ok := SendExec(issued', Exec(ExecuteSql(stmtName), []), accepts, execs, n + 2);
    if !ok {
      return;
    }
    assert execs[..n + 3] == execs;
    issued', ok := SendCommit(issued', accepts, execs, n + 3);
  }

  /** Requests that each carry one value as their only bind argument. */
  lemma {:induction false} OneBindEach(reqs: seq<Request>, vals: seq<string>)
    requires |reqs| == |vals|
    requires forall i :: 0 <= i < |reqs| ==> reqs[i].Exec? && reqs[i].binds == [vals[i]]
    ensures AllBinds(reqs) == vals
    decreases |reqs|
  {
    if |reqs| > 0 {
      OneBindEach(reqs[1..], vals[1..]);
      assert [vals[0]] + vals[1..] == vals;
    }
  }

  lemma {:induction false} NoBinds(reqs: seq<Request>)
    requires forall i :: 0 <= i < |reqs| ==> BindArgs(reqs[i]) == []
    ensures AllBinds(reqs) == []
    decreases |reqs|
  {
    if |reqs| > 0 {
      NoBinds(reqs[1..]);
    }
  }

  /** `n` requests with one value each, then three without any. */
  lemma ValuesThenNone(reqs: seq<Request>, vals: seq<string>)
    requires |reqs| == |vals| + 3
    requires forall i :: 0 <= i < |vals| ==> reqs[i].Exec? && reqs[i].binds == [vals[i]]
    requires forall i :: |vals| <= i < |reqs| ==> reqs[i].Exec? && reqs[i].binds == []
    ensures AllBinds(reqs) == vals
  {
    var n := |vals|;
    var t := reqs[n..];
    assert reqs == reqs[..n] + t;
    AllBindsAppend(reqs[..n], t);
    OneBindEach(reqs[..n], vals);
    NoBinds(t);
    assert vals + [] == vals;
  }

  /** The data a substitution sends apart from its SQL texts is exactly
      the values, each once, in argument order: the `CONCAT`, `PREPARE`
      and `EXECUTE` carry no bind argument. */
  lemma BindsAreValues(f: string, args: seq<SqlValue>, d: Draws)
    requires Format.WellFormed(f) && Fits(d, |args|)
    ensures AllBinds(Execs(Plan(f, args, d))) == seq(|args|, i requires 0 <= i < |args| => args[i].value)
  {
    PlanRequests(f, args, d);
    ValuesThenNone(Execs(Plan(f, args, d)), seq(|args|, i requires 0 <= i < |args| => args[i].value));
  }

  /** Only the values' kinds shape the statements' texts: two argument
      lists of the same length whose values are quoted alike produce the
      same SQL text for every request, whatever the values are. The values
      differ only in the bind arguments. */
  lemma TextIndependentOfValues(f: string, args: seq<SqlValue>, args': seq<SqlValue>, d: Draws)
    requires Format.WellFormed(f) && Fits(d, |args|) && |args'| == |args|
    requires forall i :: 0 <= i < |args| ==> args[i].Quoted? == args'[i].Quoted?
    ensures var execs := Execs(Plan(f, args, d));
            var execs' := Execs(Plan(f, args', d));
            && |execs| == |execs'|
            && forall i :: 0 <= i < |execs| ==> execs[i].sql == execs'[i].sql
  {
    assert Refs(args, d) == Refs(args', d);
    PlanRequests(f, args, d);
    PlanRequests(f, args', d);
  }

  // ---------------------------------------------------------------------
  // What the server does with the statements.

  /** The part of a MySQL session the protocol touches: user variables (a
      name that is absent holds NULL), prepared statements by name, and the
      texts of the statements executed so far. */
  datatype Session = Session(vars: map<string, string>, prepared: map<string, string>, executed: seq<string>)

  /** The effect of one statement, or `None` when the server rejects it: a
      `CONCAT` body it cannot read, `PREPARE` from a NULL variable,
      `EXECUTE` of a name never prepared. */
  function Apply(s: Session, st: Stmt): Option<Session> {
    match st
    case SetParam(v, x) => Some(s.(vars := s.vars[v := x]))
    case SetConcat(v, body) =>
      (match ParseBody(body)
       case None => None
       case Some(e) =>
         match Eval(e, s.vars)
         case None => Some(s.(vars := s.vars - {v}))
         case Some(x) => Some(s.(vars := s.vars[v := x])))
    case Prepare(n, from) =>
      if from in s.vars then Some(s.(prepared := s.prepared[n := s.vars[from]])) else None
    case Execute(n) =>
      if n in s.prepared then Some(s.(executed := s.executed + [s.prepared[n]])) else None
  }

  function ApplyAll(s: Session, plan: seq<Stmt>): Option<Session>
    decreases |plan|
  {
    if |plan| == 0 then Some(s)
    else
      match Apply(s, plan[0])
      case None => None
      case Some(s') => ApplyAll(s', plan[1..])
  }

  lemma {:induction false} ApplyAllAppend(s: Session, a: seq<Stmt>, b: seq<Stmt>)
    ensures ApplyAll(s, a + b) ==
            match ApplyAll(s, a)
            case None => None
            case Some(s') => ApplyAll(s', b)
    decreases |a|
  {
    if |a| == 0 {
      assert a + b == b;
    } else {
      assert (a + b)[1..] == a[1..] + b;
      match Apply(s, a[0])
      case None =>
      case Some(s') => ApplyAllAppend(s', a[1..], b);
    }
  }

  /** The variables after assigning `vals[i]` to `ids[i]`, in order. */
  function Assign(m: map<string, string>, ids: seq<string>, vals: seq<string>): map<string, string>
    requires |ids| == |vals|
    decreases |ids|
  {
    if |ids| == 0 then m else Assign(m[ids[0] := vals[0]], ids[1..], vals[1..])
  }

  function SetParams(ids: seq<string>, vals: seq<string>): (sets: seq<Stmt>)
    requires |ids| == |vals|
    ensures |sets| == |ids|
  {
    seq(|ids|, i requires 0 <= i < |ids| => SetParam(ids[i], vals[i]))
  }

  lemma {:induction false} ApplySetParams(s: Session, ids: seq<string>, vals: seq<string>)
    requires |ids| == |vals|
    ensures ApplyAll(s, SetParams(ids, vals)) == Some(s.(vars := Assign(s.vars, ids, vals)))
    decreases |ids|
  {
    if |ids| > 0 {
      var sets := SetParams(ids, vals);
      var s' := s.(vars := s.vars[ids[0] := vals[0]]);
      assert sets[1..] == SetParams(ids[1..], vals[1..]);
      ApplySetParams(s', ids[1..], vals[1..]);
    }
  }

  /** A later assignment to other names leaves a variable alone. */
  lemma {:induction false} AssignKeeps(m: map<string, string>, ids: seq<string>, vals: seq<string>, k: string)
    requires |ids| == |vals| && k in m
    requires forall j :: 0 <= j < |ids| ==> ids[j] != k
    ensures k in Assign(m, ids, vals) && Assign(m, ids, vals)[k] == m[k]
    decreases |ids|
  {
    if |ids| > 0 {
      AssignKeeps(m[ids[0] := vals[0]], ids[1..], vals[1..], k);
    }
  }

  /** A name assigned once holds the value assigned to it. */
  lemma {:induction false} AssignLookup(m: map<string, string>, ids: seq<string>, vals: seq<string>, i: nat)
    requires |ids| == |vals| && i < |ids|
    requires forall j :: i < j < |ids| ==> ids[j] != ids[i]
    ensures ids[i] in Assign(m, ids, vals) && Assign(m, ids, vals)[ids[i]] == vals[i]
    decreases |ids|
  {
    if i == 0 {
      AssignKeeps(m[ids[0] := vals[0]], ids[1..], vals[1..], ids[0]);
    } else {
      AssignLookup(m[ids[0] := vals[0]], ids[1..], vals[1..], i - 1);
    }
  }

  /** The text a value stands for in the statement: its quoted literal for
      `Quoted`, the value itself for `NoQuote`. */
  function Render(a: SqlValue): string {
    if a.Quoted? then Quote(a.value) else a.value
  }

  /** A quoted value is placed as one complete string literal holding
      exactly the value; an unquoted one is placed as it is. */
  lemma RenderReads(a: SqlValue)
    ensures a.Quoted? ==> ScanLiteral(Render(a)) == Some((a.value, ""))
    ensures a.NoQuote? ==> Render(a) == a.value
  {
    if a.Quoted? {
      QuoteScans(a.value, "");
      assert Quote(a.value) + "" == Quote(a.value);
    }
  }

  /** The statement the caller means: the template with each `%s` replaced
      by its rendered value. */
  function Intended(f: string, args: seq<SqlValue>): string
    requires Format.WellFormed(f)
  {
    Sprintf(f, seq(|args|, i requires 0 <= i < |args| => Render(args[i])))
  }

  /** Every value's variable holds that value. */
  predicate ValuesBound(args: seq<SqlValue>, d: Draws, vars: map<string, string>)
    requires |d.args| == |args|
  {
    forall i :: 0 <= i < |args| ==>
      RandIdentifier(d.args[i]) in vars && vars[RandIdentifier(d.args[i])] == args[i].value
  }

  /** Each reference, read in such a session, is its value rendered. */
  lemma RefsRender(args: seq<SqlValue>, d: Draws, vars: map<string, string>)
    requires |d.args| == |args| && ValuesBound(args, d, vars)
    ensures MapRefs(Refs(args, d), Valuer(vars)) == seq(|args|, i requires 0 <= i < |args| => Render(args[i]))
  {
  }

  /** Every reference of the built expression names a variable that is set. */
  lemma BuiltDefined(f: string, args: seq<SqlValue>, d: Draws, vars: map<string, string>)
    requires Format.WellFormed(f) && SafeLiteral(f) && Fits(d, |args|) && ValuesBound(args, d, vars)
    ensures WellFormedExpr(Build(f, Refs(args, d)))
    ensures Defined(Build(f, Refs(args, d)), vars)
  {
    var refs := Refs(args, d);
    var e := Build(f, refs);
    BuildShape(f, refs);
    forall i | 0 <= i < |e.tail|
      ensures IsIdentifier(e.tail[i].0.id) && Deref(e.tail[i].0, vars).Some?
    {
      var j :| 0 <= j < |refs| && refs[j] == e.tail[i].0;
    }
  }

  /** With every value's variable set, the `CONCAT` text Go sends is read
      as the built expression and evaluates to the intended statement. */
  lemma ConcatMeaning(f: string, args: seq<SqlValue>, d: Draws, vars: map<string, string>)
    requires Format.WellFormed(f) && SafeLiteral(f) && Fits(d, |args|)
    requires ValuesBound(args, d, vars)
    ensures ParseBody(Sprintf(f, MapRefs(Refs(args, d), Fragment))) == Some(Build(f, Refs(args, d)))
    ensures Eval(Build(f, Refs(args, d)), vars) == Some(Intended(f, args))
  {
    var refs := Refs(args, d);
    var e := Build(f, refs);
    BuiltDefined(f, args, d, vars);
    SprintfIsJoin(f, refs, Fragment);
    ParseJoin(e);
    SprintfIsJoin(f, refs, Valuer(vars));
    RefsRender(args, d, vars);
  }

  /** The three statements after the `SET`s, once the body reads as an
      expression with value `x`: `x` is executed. */
  lemma ApplyTail(s: Session, stmtVar: string, stmtName: string, body: string, e: Expr, x: string)
    requires ParseBody(body) == Some(e) && Eval(e, s.vars) == Some(x)
    ensures var r := ApplyAll(s, [SetConcat(stmtVar, body), Prepare(stmtName, stmtVar), Execute(stmtName)]);
            r.Some? && r.value.executed == s.executed + [x]
  {
    var plan := [SetConcat(stmtVar, body), Prepare(stmtName, stmtVar), Execute(stmtName)];
    var s1 := s.(vars := s.vars[stmtVar := x]);
    var s2 := s1.(prepared := s1.prepared[stmtName := x]);
    var s3 := s2.(executed := s2.executed + [x]);
    assert Apply(s, plan[0]) == Some(s1);
    assert Apply(s1, plan[1]) == Some(s2);
    assert Apply(s2, plan[2]) == Some(s3);
    assert plan[1..] == [plan[1], plan[2]];
    assert plan[1..][1..] == [plan[2]];
    assert plan[1..][1..][1..] == [];
    assert ApplyAll(s2, [plan[2]]) == Some(s3);
    assert ApplyAll(s1, plan[1..]) == Some(s3);
  }

  /** When the server accepts every statement, the session executes
      exactly the intended statement, once, whatever quotes or backslashes
      the values hold:
      a quoted value arrives as one string literal and no value can close
      the `CONCAT` literals or rename a variable. Needs distinct draws for
      the values and a template without double quotes or backslashes. */
  lemma PlanMeaning(f: string, args: seq<SqlValue>, d: Draws, s: Session)
    requires Format.WellFormed(f) && SafeLiteral(f) && Fits(d, |args|) && Distinct(d.args)
    ensures ApplyAll(s, Plan(f, args, d)).Some?
    ensures ApplyAll(s, Plan(f, args, d)).value.executed == s.executed + [Intended(f, args)]
  {
    var n := |args|;
    var refs := Refs(args, d);
    var ids := seq(n, i requires 0 <= i < n => refs[i].id);
    var vals := seq(n, i requires 0 <= i < n => args[i].value);
    var plan := Plan(f, args, d);
    var stmtVar := RandIdentifier(d.stmtVar);
    var stmtName := RandIdentifier(d.stmtName);
    var body := Sprintf(f, MapRefs(refs, Fragment));
    var tail := [SetConcat(stmtVar, body), Prepare(stmtName, stmtVar), Execute(stmtName)];
    assert plan == SetParams(ids, vals) + tail;
    ApplyAllAppend(s, SetParams(ids, vals), tail);
    ApplySetParams(s, ids, vals);
    var s1 := s.(vars := Assign(s.vars, ids, vals));
    forall i | 0 <= i < n
      ensures RandIdentifier(d.args[i]) in s1.vars && s1.vars[RandIdentifier(d.args[i])] == args[i].value
    {
      forall j | i < j < n ensures ids[j] != ids[i] {
        if ids[j] == ids[i] {
          RandIdentifierInjective(d.args[i], d.args[j]);
        }
      }
      AssignLookup(s.vars, ids, vals, i);
    }
    ConcatMeaning(f, args, d, s1.vars);
    ApplyTail(s1, stmtVar, stmtName, body, Build(f, refs), Intended(f, args));
  }
}
