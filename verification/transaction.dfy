/** The transaction discipline of the substitution protocol, against a
    database that answers each request with success or failure. The
    database is an oracle: `accepts(i)` tells whether the i-th request of
    the transaction succeeds, counting `Begin` as request 0. */
module Transaction {

  /** A request the backend sends to the database. */
  datatype Request =
    | Begin
    | Exec(sql: string, binds: seq<string>)
    | Query(sql: string, binds: seq<string>)
    | Commit
    | Rollback

  type Answers = nat -> bool

  /** The bind arguments sent with a request. */
  function BindArgs(r: Request): seq<string> {
    if r.Exec? || r.Query? then r.binds else []
  }

  /** All bind arguments of `reqs`, in the order they are sent. */
  function AllBinds(reqs: seq<Request>): seq<string> {
    if |reqs| == 0 then [] else BindArgs(reqs[0]) + AllBinds(reqs[1..])
  }

  lemma {:induction false} AllBindsAppend(a: seq<Request>, b: seq<Request>)
    ensures AllBinds(a + b) == AllBinds(a) + AllBinds(b)
    decreases |a|
  {
    if |a| == 0 {
      assert a + b == b;
    } else {
      assert (a + b)[1..] == a[1..] + b;
      AllBindsAppend(a[1..], b);
    }
  }

  /** The first `n` requests of a transaction are all accepted. */
  predicate AllAccepted(accepts: Answers, n: nat) {
    forall i :: 0 <= i < n ==> accepts(i)
  }

  /** Everything a transaction would send when nothing fails. */
  function Requests(execs: seq<Request>): seq<Request> {
    [Begin] + execs + [Commit]
  }

  /** The position of the first request in `from .. n` that the database
      rejects, or `n` when it accepts them all. */
  function FirstRejected(accepts: Answers, from: nat, n: nat): (k: nat)
    requires from <= n
    ensures from <= k <= n
    ensures forall i :: from <= i < k ==> accepts(i)
    ensures k < n ==> !accepts(k)
    decreases n - from
  {
    if from == n then n
    else if !accepts(from) then from
    else FirstRejected(accepts, from + 1, n)
  }

  /** What was sent, and whether the transaction was committed. */
  datatype TxRun = TxRun(issued: seq<Request>, committed: bool)

  /** The requests of a run without the deferred rollback at its end. */
  function WithoutRollback(issued: seq<Request>): seq<Request> {
    if |issued| > 0 && issued[|issued| - 1] == Rollback then issued[..|issued| - 1] else issued
  }

  predicate IsPrefix(a: seq<Request>, b: seq<Request>) {
    |a| <= |b| && a == b[..|a|]
  }

  /** Begin, the statements in order, commit. The first failing request
      ends the run: a failed `Begin` leaves nothing to undo, a failed
      statement is followed by the deferred rollback, and after a failed
      commit the rollback has nothing left to do and sends nothing. */
  function Run(execs: seq<Request>, accepts: Answers): (t: TxRun)
    ensures t.committed <==> AllAccepted(accepts, |execs| + 2)
    ensures t.committed ==> t.issued == Requests(execs)
  {
    var reqs := Requests(execs);
    var k := FirstRejected(accepts, 0, |reqs|);
    if k == |reqs| then TxRun(reqs, true)
    else if k == 0 || k == |reqs| - 1 then TxRun(reqs[..k + 1], false)
    else TxRun(reqs[..k + 1] + [Rollback], false)
  }

  /** What a run sends, less the deferred rollback, is the start of the
      full request list; every request but the last one sent was accepted,
      and when the run did not commit the last one was rejected. */
  lemma RunStopsAtFirstFailure(execs: seq<Request>, accepts: Answers)
    ensures var t := Run(execs, accepts);
            && IsPrefix(WithoutRollback(t.issued), Requests(execs))
            && 0 < |WithoutRollback(t.issued)|
            && (forall i :: 0 <= i < |WithoutRollback(t.issued)| - 1 ==> accepts(i))
            && (!t.committed ==> !accepts(|WithoutRollback(t.issued)| - 1))
  {
    var reqs := Requests(execs);
    var k := FirstRejected(accepts, 0, |reqs|);
    var t := Run(execs, accepts);
    if k == |reqs| || k == |reqs| - 1 {
      assert t.issued == reqs by {
        if k == |reqs| - 1 {
          assert reqs[..k + 1] == reqs;
        }
      }
      assert reqs[|reqs| - 1] == Commit;
      assert WithoutRollback(t.issued) == reqs;
    } else if k == 0 {
      assert t.issued == [Begin];
    } else {
      var sent := reqs[..k + 1];
      assert t.issued == sent + [Rollback];
      assert (sent + [Rollback])[..|sent|] == sent;
      assert WithoutRollback(t.issued) == sent;
    }
  }

  /** The run when request `k` is the first one the database rejects. */
  lemma RunStopsAt(execs: seq<Request>, accepts: Answers, k: nat)
    requires k < |execs| + 2
    requires forall j :: 0 <= j < k ==> accepts(j)
    requires !accepts(k)
    ensures !Run(execs, accepts).committed
    ensures Run(execs, accepts).issued ==
              if k == 0 then [Begin]
              else if k == |execs| + 1 then Requests(execs)
              else [Begin] + execs[..k] + [Rollback]
  {
    var reqs := Requests(execs);
    assert FirstRejected(accepts, 0, |reqs|) == k;
    if 0 < k <= |execs| {
      assert reqs[..k + 1] == [Begin] + execs[..k];
    } else if k == |execs| + 1 {
      assert reqs[..k + 1] == reqs;
    }
  }

  // ---------------------------------------------------------------------
  // The transaction as a state machine.

  datatype TxState =
    | Idle          // nothing sent yet
    | Open          // begun, every statement so far succeeded
    | Doomed        // a statement failed; the transaction must be rolled back
    | Committed
    | RolledBack
    | NotStarted    // `Begin` failed
    | CommitFailed  // the commit was attempted and failed
    | Invalid       // a request the protocol does not allow in that state

  /** The effect of request `r` answered with `ok`. */
  function Step(s: TxState, r: Request, ok: bool): TxState {
    match (s, r)
    case (Idle, Begin) => if ok then Open else NotStarted
    case (Open, Exec(_, _)) => if ok then Open else Doomed
    case (Open, Commit) => if ok then Committed else CommitFailed
    case (Doomed, Rollback) => RolledBack
    case _ => Invalid
  }

  /** Replays `issued`, the first of which is request `i` of the transaction. */
  function Replay(s: TxState, issued: seq<Request>, accepts: Answers, i: nat): TxState
    decreases |issued|
  {
    if |issued| == 0 then s
    else Replay(Step(s, issued[0], accepts(i)), issued[1..], accepts, i + 1)
  }

  /** A state in which the transaction is over: nothing is left open. */
  predicate Finished(s: TxState) {
    s.Committed? || s.RolledBack? || s.NotStarted? || s.CommitFailed?
  }

  predicate AllExec(execs: seq<Request>) {
    forall i :: 0 <= i < |execs| ==> execs[i].Exec?
  }

  lemma {:induction false} ReplayAppend(s: TxState, a: seq<Request>, b: seq<Request>, accepts: Answers, i: nat)
    ensures Replay(s, a + b, accepts, i) == Replay(Replay(s, a, accepts, i), b, accepts, i + |a|)
    decreases |a|
  {
    if |a| > 0 {
      assert (a + b)[1..] == a[1..] + b;
      ReplayAppend(Step(s, a[0], accepts(i)), a[1..], b, accepts, i + 1);
    } else {
      assert a + b == b;
    }
  }

  /** Accepted statements keep the transaction open. */
  lemma {:induction false} ReplayExecs(execs: seq<Request>, accepts: Answers, i: nat)
    requires AllExec(execs)
    requires forall j :: i <= j < i + |execs| ==> accepts(j)
    ensures Replay(Open, execs, accepts, i) == Open
    decreases |execs|
  {
    if |execs| > 0 {
      ReplayExecs(execs[1..], accepts, i + 1);
    }
  }

  /** Whatever the database answers, a run obeys the state machine and
      leaves the transaction finished, and it ends committed exactly when
      the run reports a commit. */
  lemma RunFollowsProtocol(execs: seq<Request>, accepts: Answers)
    requires AllExec(execs)
    ensures Finished(Replay(Idle, Run(execs, accepts).issued, accepts, 0))
    ensures Replay(Idle, Run(execs, accepts).issued, accepts, 0).Committed? <==> Run(execs, accepts).committed
  {
    var reqs := Requests(execs);
    var t := Run(execs, accepts);
    var k := FirstRejected(accepts, 0, |reqs|);
    if k == 0 {
      assert t.issued == [Begin];
    } else {
      var m := if k == |reqs| then |execs| else k - 1;
      var prefix := [Begin] + execs[..m];
      ReplayAppend(Idle, [Begin], execs[..m], accepts, 0);
      ReplayExecs(execs[..m], accepts, 1);
      assert Replay(Idle, prefix, accepts, 0) == Open;
      if k == |reqs| {
        assert t.issued == prefix + [Commit];
        assert execs[..m] == execs;
        ReplayAppend(Idle, prefix, [Commit], accepts, 0);
      } else if k == |reqs| - 1 {
        assert t.issued == prefix + [Commit];
        assert execs[..m] == execs;
        ReplayAppend(Idle, prefix, [Commit], accepts, 0);
      } else {
        assert reqs[..k + 1] == prefix + [execs[k - 1]];
        assert t.issued == prefix + [execs[k - 1], Rollback];
        ReplayAppend(Idle, prefix, [execs[k - 1], Rollback], accepts, 0);
        assert execs[k - 1].Exec? && !accepts(k);
        assert Step(Open, execs[k - 1], accepts(k)) == Doomed;
        assert [execs[k - 1], Rollback][1..] == [Rollback];
        assert Replay(Doomed, [Rollback], accepts, k + 1) == RolledBack;
        assert Replay(Open, [execs[k - 1], Rollback], accepts, k) == RolledBack;
      }
    }
  }
}
