/** The store transactions and the sync handler as objects, each proved against the steps of the run model. */
module FtpService {
  import opened Jobs
  import opened Options
  import opened FtpLine
  import opened FtpHost
  import opened FtpStore
  import opened FtpSync
  import FtpDriver

  /** The columns of the owning account the guard looks at. */
  datatype Owner = Owner(status: Status, enabled: bool)

  /** A settled account may change its logins; only an active and enabled one gets new ones. */
  predicate Admits(owner: Option<Owner>, creating: bool) {
    && owner.Some?
    && (owner.value.status == Active || owner.value.status == Disabled)
    && (creating ==> owner.value.status == Active && owner.value.enabled)
  }

  class Store {
    var rows: seq<Row>
    var jobs: map<nat, SyncJob>

    constructor ()
      ensures View() == Tables([], map[])
    {
      rows, jobs := [], map[];
    }

    function View(): Tables
      reads this
    {
      Tables(rows, jobs)
    }

    /** The shared guard of every FTP write: account gate, one unfinished job, unique username. */
    method RequireFTP(account: string, username: string, id: string, owner: Option<Owner>, creating: bool) returns (ok: bool)
      ensures ok <==> Admits(owner, creating) && !Busy(View(), account) && !NameExists(View(), username, id)
    {
      if owner.None? {
        return false;
      }
      if owner.value.status != Active && owner.value.status != Disabled {
        return false;
      }
      if creating && (owner.value.status != Active || !owner.value.enabled) {
        return false;
      }
      if exists k :: k in jobs && jobs[k].work == account && Unfinished(jobs[k]) {
        return false;
      }
      var i := 0;
      while i < |rows|
        invariant i <= |rows|
        invariant forall k :: 0 <= k < i ==> rows[k].username != username || rows[k].id == id
      {
        if rows[i].username == username && rows[i].id != id {
          return false;
        }
        i := i + 1;
      }
      return true;
    }

    method CreateFTP(row: Row, key: nat, at: nat, limit: nat, owner: Option<Owner>) returns (ok: bool)
      modifies this
      ensures Result(View(), ok) == Create(old(View()), row, key, at, limit, Admits(owner, true))
    {
      var required := RequireFTP(row.account, row.username, row.id, owner, true);
      if !required || |AccountRows(rows, row.account)| >= limit {
        return false;
      }
      if HasRow(View(), row.id) || key in jobs || at > |rows| {
        return false;
      }
      rows := rows[..at] + [row.(deleting := false, status := Pending)] + rows[at..];
      jobs := jobs[key := NewJob(row.account)];
      return true;
    }

    method ChangeFTP(id: string, c: Changes, key: nat, owner: Option<Owner>) returns (ok: bool)
      modifies this
      ensures Result(View(), ok) == Change(old(View()), id, c, key, Admits(owner, false))
    {
      var found := FindRow(rows, id);
      if found.None? {
        return false;
      }
      var row := rows[found.value];
      if row.deleting && !c.deleting {
        return false;
      }
      var merged := Merge(row, c);
      var required := RequireFTP(row.account, merged.username, id, owner, false);
      if !required || key in jobs {
        return false;
      }
      rows := rows[found.value := merged];
      jobs := jobs[key := NewJob(row.account)];
      return true;
    }

    method FinishFTP(account: string, failed: bool)
      modifies this
      ensures View() == Finish(old(View()), account, failed)
    {
      if !failed {
        rows := WithoutDeleting(rows, account);
      }
      rows := SetStatuses(rows, account, failed);
    }
  }

  class Service {
    const store: Store
    const driver: FtpDriver.Driver

    constructor (store: Store, driver: FtpDriver.Driver)
      ensures this.store == store && this.driver == driver
    {
      this.store, this.driver := store, driver;
    }

    /** The entries of every row not marked deleting, collected in table order. */
    method CollectEntries(account: string) returns (entries: seq<Entry>)
      ensures entries == EntriesOf(store.rows, account)
    {
      entries := [];
      for i := 0 to |store.rows|
        invariant entries == EntriesOf(store.rows[..i], account)
      {
        var row := store.rows[i];
        EntriesConcat(store.rows[..i], [row], account);
        assert store.rows[..i + 1] == store.rows[..i] + [row];
        if row.account == account && !row.deleting {
          entries := entries + [Entry(row.id, row.username, row.hash, row.enabled)];
        }
      }
      assert store.rows[..|store.rows|] == store.rows;
    }

    /** The ftp.sync handler: read the rows, push them to the agent, record the outcome. */
    method Sync(job: nat, systemUser: string, loads: bool, f: Faults, delivered: bool, answered: bool, written: bool)
      returns (ok: bool)
      requires job in store.jobs
      modifies store, driver
      ensures var start := State(old(store.View()), old(driver.View()), Claimed(job));
        var steps := if loads then [LoadRows, CallAgent(systemUser, f, delivered, answered), FinishRows(written)]
                     else [LoadFails, FinishRows(written)];
        State(store.View(), driver.View(), Done(job, ok)) == FtpSync.Run(start, driver.users, steps)
    {
      var account := store.jobs[job].work;
      ghost var users := driver.users;
      ghost var s0 := State(store.View(), driver.View(), Claimed(job));
      var reached := false;
      if loads {
        var entries := CollectEntries(account);
        ghost var s1 := Next(s0, users, LoadRows);
        if delivered {
          var applied := driver.SyncEntries(account, systemUser, Some(entries), f);
          reached := applied && answered;
        }
        ghost var s2 := Next(s1, users, CallAgent(systemUser, f, delivered, answered));
        assert s2 == State(store.View(), driver.View(), Called(job, reached));
        RunThree(s0, users, LoadRows, CallAgent(systemUser, f, delivered, answered), FinishRows(written));
      } else {
        RunTwo(s0, users, LoadFails, FinishRows(written));
      }
      if written {
        store.FinishFTP(account, !reached);
      }
      return reached && written;
    }

    lemma RunTwo(s: State, users: Users, a: Step, b: Step)
      ensures FtpSync.Run(s, users, [a, b]) == Next(Next(s, users, a), users, b)
    {
      assert [a, b][1..] == [b] && [b][1..] == [];
      assert FtpSync.Run(Next(s, users, a), users, [b]) == Next(Next(s, users, a), users, b);
    }

    lemma RunThree(s: State, users: Users, a: Step, b: Step, c: Step)
      ensures FtpSync.Run(s, users, [a, b, c]) == Next(Next(Next(s, users, a), users, b), users, c)
    {
      assert [a, b, c][1..] == [b, c];
      RunTwo(Next(s, users, a), users, b, c);
    }
  }
}
