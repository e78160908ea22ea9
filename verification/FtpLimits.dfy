/** The login counter of the package limits over the runs of the FTP store. */
module FtpLimits {
  import opened FtpHost
  import opened FtpStore
  import opened FtpSync

  /** How many logins the account has, those being deleted included. */
  function Count(rows: seq<Row>, account: string): nat {
    |AccountRows(rows, account)|
  }

  lemma CountConcat(a: seq<Row>, b: seq<Row>, account: string)
    ensures Count(a + b, account) == Count(a, account) + Count(b, account)
  {
    AccountRowsConcat(a, b, account);
  }

  lemma CountOne(row: Row, account: string)
    ensures Count([row], account) == if row.account == account then 1 else 0
  {
    var rest := [row][1..];
    assert rest == [] && AccountRows(rest, account) == [];
    assert AccountRows([row], account) == (if row.account == account then [row] else []) + AccountRows(rest, account);
  }

  lemma CountInsert(rows: seq<Row>, at: nat, row: Row, account: string)
    requires at <= |rows|
    ensures Count(rows[..at] + [row] + rows[at..], account) == Count(rows, account) + if row.account == account then 1 else 0
  {
    CountConcat(rows[..at] + [row], rows[at..], account);
    CountConcat(rows[..at], [row], account);
    CountConcat(rows[..at], rows[at..], account);
    assert rows[..at] + rows[at..] == rows;
    CountOne(row, account);
  }

  lemma CountReplace(rows: seq<Row>, i: nat, row: Row, account: string)
    requires i < |rows| && row.account == rows[i].account
    ensures Count(rows[i := row], account) == Count(rows, account)
  {
    var rest := rows[..i] + rows[i + 1..];
    CountInsert(rest, i, row, account);
    CountInsert(rest, i, rows[i], account);
    assert rest[..i] == rows[..i] && rest[i..] == rows[i + 1..];
    assert rows[i := row] == rest[..i] + [row] + rest[i..];
    assert rows == rest[..i] + [rows[i]] + rest[i..];
  }

  lemma {:induction false} CountFinish(t: Tables, a: string, failed: bool, account: string)
    ensures Count(Finish(t, a, failed).rows, account) <= Count(t.rows, account)
    decreases |t.rows|
  {
    if t.rows == [] {
    } else {
      var r, rest := t.rows[0], t.(rows := t.rows[1..]);
      var head := if !failed && r.account == a && r.deleting then [] else [if r.account == a then Settled(r, failed) else r];
      CountFinish(rest, a, failed, account);
      FinishHead(t, a, failed);
      CountConcat(head, Finish(rest, a, failed).rows, account);
      CountConcat([r], rest.rows, account);
      assert t.rows == [r] + rest.rows;
    }
  }

  /** Only a create request raises the counter of an account, and not above the limit it is checked against. */
  lemma StepWithinLimit(s: State, users: Users, step: Step, account: string)
    ensures var before, after := Count(s.tables.rows, account), Count(Next(s, users, step).tables.rows, account);
      after <= before || (step.CreateRequest? && step.row.account == account && after <= step.limit)
  {
    match step
    case CreateRequest(row, key, at, limit, allowed) =>
      if Create(s.tables, row, key, at, limit, allowed).ok {
        CountInsert(s.tables.rows, at, row.(deleting := false, status := Pending), account);
      }
    case ChangeRequest(id, changes, key, allowed) =>
      if Change(s.tables, id, changes, key, allowed).ok {
        var i := FindRow(s.tables.rows, id).value;
        CountReplace(s.tables.rows, i, Merge(s.tables.rows[i], changes), account);
      }
    case FinishRows(written) =>
      if s.worker.Called? && WorkerHasJob(s) {
        CountFinish(s.tables, JobAccount(s), !s.worker.ok, account);
      }
    case _ =>
  }

  /** Over every run: while the requests for an account are checked against at most this limit, it has no more logins. */
  lemma {:induction false} LimitHolds(s: State, users: Users, steps: seq<Step>, account: string, limit: nat)
    requires Count(s.tables.rows, account) <= limit
    requires forall i :: 0 <= i < |steps| && steps[i].CreateRequest? && steps[i].row.account == account ==> steps[i].limit <= limit
    ensures Count(FtpSync.Run(s, users, steps).tables.rows, account) <= limit
    decreases |steps|
  {
    if steps == [] {
    } else {
      StepWithinLimit(s, users, steps[0], account);
      LimitHolds(Next(s, users, steps[0]), users, steps[1..], account, limit);
    }
  }
}
