/** The FTP tables of the control plane: account rows, sync jobs, and the transactions over them. */
module FtpStore {
  import opened Jobs
  import opened Options
  import opened FtpHost

  datatype Status = Pending | Active | Disabled | Error

  datatype Row = Row(id: string, account: string, username: string, hash: string,
                     enabled: bool, deleting: bool, status: Status)

  /** An ftp.sync job carries its account. */
  type SyncJob = Job<string>

  /** Rows are kept in the order AccountFTP lists them; jobs are the ftp.sync jobs. */
  datatype Tables = Tables(rows: seq<Row>, jobs: map<nat, SyncJob>)

  datatype Changes = Changes(username: Option<string>, hash: Option<string>, enabled: Option<bool>, deleting: bool)

  datatype Result = Result(tables: Tables, ok: bool)

  predicate Busy(t: Tables, account: string) {
    exists k :: k in t.jobs && t.jobs[k].work == account && Unfinished(t.jobs[k])
  }

  predicate NameExists(t: Tables, username: string, except: string) {
    exists r :: r in t.rows && r.username == username && r.id != except
  }

  predicate HasRow(t: Tables, id: string) {
    exists r :: r in t.rows && r.id == id
  }

  /** The entries a sync sends for an account: every row not marked deleting, in order. */
  function EntriesOf(rows: seq<Row>, account: string): seq<Entry> {
    if rows == [] then []
    else
      var r := rows[0];
      (if r.account == account && !r.deleting then [Entry(r.id, r.username, r.hash, r.enabled)] else [])
      + EntriesOf(rows[1..], account)
  }

  function AccountRows(rows: seq<Row>, account: string): seq<Row> {
    if rows == [] then []
    else (if rows[0].account == account then [rows[0]] else []) + AccountRows(rows[1..], account)
  }

  function QueueJob(t: Tables, key: nat, account: string): map<nat, SyncJob> {
    t.jobs[key := NewJob(account)]
  }

  /** CreateFTP: `allowed` is the account gate, `at` the place its creation time gives the row. */
  function Create(t: Tables, row: Row, key: nat, at: nat, limit: nat, allowed: bool): Result {
    if !allowed || Busy(t, row.account) || NameExists(t, row.username, row.id) then Result(t, false)
    else if |AccountRows(t.rows, row.account)| >= limit then Result(t, false)
    else if HasRow(t, row.id) || key in t.jobs || at > |t.rows| then Result(t, false)
    else
      var created := row.(deleting := false, status := Pending);
      Result(Tables(t.rows[..at] + [created] + t.rows[at..], QueueJob(t, key, row.account)), true)
  }

  function Merge(r: Row, c: Changes): Row {
    r.(username := if c.username.Some? then c.username.value else r.username,
       hash := if c.hash.Some? then c.hash.value else r.hash,
       enabled := if c.enabled.Some? then c.enabled.value else r.enabled,
       deleting := c.deleting,
       status := Pending)
  }

  function FindRow(rows: seq<Row>, id: string): (i: Option<nat>)
    ensures i.Some? ==> i.value < |rows| && rows[i.value].id == id
    ensures i.None? ==> forall r :: r in rows ==> r.id != id
  {
    if rows == [] then None
    else if rows[0].id == id then Some(0)
    else
      match FindRow(rows[1..], id)
      case None => None
      case Some(i) => Some(i + 1)
  }

  /** ChangeFTP: the fields are merged inside the transaction, a deleting row accepts only another delete. */
  function Change(t: Tables, id: string, c: Changes, key: nat, allowed: bool): Result {
    match FindRow(t.rows, id)
    case None => Result(t, false)
    case Some(i) =>
      var row := t.rows[i];
      if row.deleting && !c.deleting then Result(t, false)
      else
        var merged := Merge(row, c);
        if !allowed || Busy(t, row.account) || NameExists(t, merged.username, id) || key in t.jobs then Result(t, false)
        else Result(Tables(t.rows[i := merged], QueueJob(t, key, row.account)), true)
  }

  function WithoutDeleting(rows: seq<Row>, account: string): (r: seq<Row>)
    ensures forall x :: x in r <==> x in rows && !(x.account == account && x.deleting)
  {
    if rows == [] then []
    else
      var rest := WithoutDeleting(rows[1..], account);
      if rows[0].account == account && rows[0].deleting then rest else [rows[0]] + rest
  }

  function Settled(r: Row, failed: bool): Row {
    r.(status := if failed then Error else if r.enabled then Active else Disabled)
  }

  function SetStatuses(rows: seq<Row>, account: string, failed: bool): (r: seq<Row>)
    ensures |r| == |rows|
    ensures forall i :: 0 <= i < |rows| ==> r[i] == if rows[i].account == account then Settled(rows[i], failed) else rows[i]
  {
    if rows == [] then []
    else [if rows[0].account == account then Settled(rows[0], failed) else rows[0]] + SetStatuses(rows[1..], account, failed)
  }

  /** FinishFTP: a success drops the rows marked deleting, then every row of the account gets its status. */
  function Finish(t: Tables, account: string, failed: bool): Tables {
    var kept := if failed then t.rows else WithoutDeleting(t.rows, account);
    t.(rows := SetStatuses(kept, account, failed))
  }

  // ---- What the transactions do to the entries of an account ----

  lemma AppendTwice<T>(x: seq<T>, y: seq<T>, z: seq<T>)
    ensures (x + y) + z == x + (y + z)
  {
  }

  lemma HeadOfConcat(a: seq<Row>, b: seq<Row>)
    requires a != []
    ensures (a + b)[0] == a[0] && (a + b)[1..] == a[1..] + b
  {
  }

  lemma {:induction false} EntriesConcat(a: seq<Row>, b: seq<Row>, account: string)
    ensures EntriesOf(a + b, account) == EntriesOf(a, account) + EntriesOf(b, account)
  {
    if a == [] {
      assert a + b == b;
    } else {
      var r := a[0];
      var head := if r.account == account && !r.deleting then [Entry(r.id, r.username, r.hash, r.enabled)] else [];
      HeadOfConcat(a, b);
      EntriesConcat(a[1..], b, account);
      AppendTwice(head, EntriesOf(a[1..], account), EntriesOf(b, account));
    }
  }

  lemma {:induction false} AccountRowsConcat(a: seq<Row>, b: seq<Row>, account: string)
    ensures AccountRows(a + b, account) == AccountRows(a, account) + AccountRows(b, account)
  {
    if a == [] {
      assert a + b == b;
    } else {
      HeadOfConcat(a, b);
      AccountRowsConcat(a[1..], b, account);
      AppendTwice(if a[0].account == account then [a[0]] else [], AccountRows(a[1..], account), AccountRows(b, account));
    }
  }

  lemma {:induction false} EntriesOfInsert(rows: seq<Row>, at: nat, row: Row, account: string)
    requires at <= |rows| && row.account != account
    ensures EntriesOf(rows[..at] + [row] + rows[at..], account) == EntriesOf(rows, account)
    ensures AccountRows(rows[..at] + [row] + rows[at..], account) == AccountRows(rows, account)
  {
    EntriesConcat(rows[..at] + [row], rows[at..], account);
    EntriesConcat(rows[..at], [row], account);
    EntriesConcat(rows[..at], rows[at..], account);
    AccountRowsConcat(rows[..at] + [row], rows[at..], account);
    AccountRowsConcat(rows[..at], [row], account);
    AccountRowsConcat(rows[..at], rows[at..], account);
    assert rows[..at] + rows[at..] == rows;
  }

  lemma {:induction false} EntriesOfReplace(rows: seq<Row>, i: nat, row: Row, account: string)
    requires i < |rows| && rows[i].account != account && row.account != account
    ensures EntriesOf(rows[i := row], account) == EntriesOf(rows, account)
    ensures AccountRows(rows[i := row], account) == AccountRows(rows, account)
  {
    EntriesOfInsert(rows[..i] + rows[i + 1..], i, row, account);
    EntriesOfInsert(rows[..i] + rows[i + 1..], i, rows[i], account);
    var rest := rows[..i] + rows[i + 1..];
    assert rest[..i] == rows[..i] && rest[i..] == rows[i + 1..];
    assert rows[i := row] == rest[..i] + [row] + rest[i..];
    assert rows == rest[..i] + [rows[i]] + rest[i..];
  }

  /** Finishing the first row and the rest. */
  lemma FinishHead(t: Tables, a: string, failed: bool)
    requires t.rows != []
    ensures var r := t.rows[0];
      Finish(t, a, failed).rows
      == (if !failed && r.account == a && r.deleting then [] else [if r.account == a then Settled(r, failed) else r])
         + Finish(t.(rows := t.rows[1..]), a, failed).rows
  {
  }

  lemma {:induction false} EntriesOfFinish(t: Tables, a: string, failed: bool, account: string)
    ensures EntriesOf(Finish(t, a, failed).rows, account) == EntriesOf(t.rows, account)
    ensures a != account ==> AccountRows(Finish(t, a, failed).rows, account) == AccountRows(t.rows, account)
    decreases |t.rows|
  {
    if t.rows == [] {
    } else {
      var r, rest := t.rows[0], t.(rows := t.rows[1..]);
      EntriesOfFinish(rest, a, failed, account);
      FinishHead(t, a, failed);
      var after := Finish(t, a, failed).rows;
      if !failed && r.account == a && r.deleting {
        assert after == Finish(rest, a, failed).rows;
      } else {
        assert after[0] == (if r.account == a then Settled(r, failed) else r) && after[1..] == Finish(rest, a, failed).rows;
      }
    }
  }

  lemma {:induction false} EntriesFromRows(rows: seq<Row>, account: string, e: Entry)
    ensures e in EntriesOf(rows, account)
      <==> exists r :: r in rows && r.account == account && !r.deleting && e == Entry(r.id, r.username, r.hash, r.enabled)
  {
    if rows == [] {
    } else {
      EntriesFromRows(rows[1..], account, e);
    }
  }
}
