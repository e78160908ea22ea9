/** What the invariant of the record runs means to a reader. */
module DnsOutcome {
  import opened Jobs
  import opened Options
  import opened DnsZone
  import opened DnsSync
  import opened DnsConverge

  lemma InitialInv(s: State, zone: string)
    requires Initial(s)
    ensures Inv(s, zone)
  {
    forall key ensures Agrees(s.tables.rows, s.provider, key) {
      NothingLive(s.tables.rows, key, None);
    }
  }

  lemma {:induction false} RunKeeps(s: State, zone: string, steps: seq<Step>)
    requires Inv(s, zone) && GuardedRun(s, zone, steps)
    ensures Inv(Run(s, zone, steps), zone)
    decreases |steps|
  {
    if steps == [] {
    } else {
      NextKeeps(s, zone, steps[0]);
      RunKeeps(Next(s, zone, steps[0]), zone, steps[1..]);
    }
  }

  /** Over every guarded run: a key no unsettled row touches is served as the table says. */
  lemma SettledKeysAgree(start: State, zone: string, steps: seq<Step>, key: Key)
    requires Initial(start) && GuardedRun(start, zone, steps)
    ensures var s := Run(start, zone, steps);
      Renderable(s.tables.rows)
      && (Covered(s.tables.rows, s.tables.jobs, key) || ProviderSet(s.provider, key) == SetOf(s.tables.rows, key, None))
  {
    InitialInv(start, zone);
    RunKeeps(start, zone, steps);
    var s := Run(start, zone, steps);
    assert Agrees(s.tables.rows, s.provider, key) || Covered(s.tables.rows, s.tables.jobs, key);
  }

  /** Nothing is left to do: every row is active and no record job is open. */
  ghost predicate AtRest(t: Tables) {
    && (forall r :: r in t.rows ==> r.status == Active)
    && (forall k :: k in t.jobs ==> !Unfinished(t.jobs[k]))
  }

  /** The provider serves a text under a key exactly when a row of that key renders to it, with the row's TTL. */
  ghost predicate Served(rows: seq<Row>, p: Provider, key: Key)
    requires Renderable(rows)
  {
    && (forall text :: text in ProviderSet(p, key).records
          <==> exists r :: r in rows && r.key == key && Render(ValueOf(r)) == text)
    && Distinct(ProviderSet(p, key).records)
    && (forall r :: r in rows && r.key == key ==> ProviderSet(p, key).ttl == r.ttl)
  }

  /** Convergence: at the end of a guarded run that has come to rest the provider serves exactly the rows. */
  lemma RestingZoneIsServed(start: State, zone: string, steps: seq<Step>, key: Key)
    requires Initial(start) && GuardedRun(start, zone, steps)
    requires AtRest(Run(start, zone, steps).tables)
    ensures Renderable(Run(start, zone, steps).tables.rows)
    ensures Served(Run(start, zone, steps).tables.rows, Run(start, zone, steps).provider, key)
  {
    var s := Run(start, zone, steps);
    var rows := s.tables.rows;
    SettledKeysAgree(start, zone, steps, key);
    InitialInv(start, zone);
    RunKeeps(start, zone, steps);
    SetMeaning(rows, key, None, zone);
    assert forall r :: r in rows && r.key == key ==> Live(r, key, None);
  }
}
