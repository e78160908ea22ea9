/** The two drivers that change configuration files in place and roll them back. */
module ConfigDriver {
  import opened Options
  import opened ConfigTx

  /** configfile.Snapshot: what a path held, or that it held nothing. */
  datatype Snapshot = Absent | Held(data: string, mode: nat)

  /** configfile.Take on one entry of a directory; None when the entry is not a readable regular file. */
  function Take(files: map<string, Node>, id: string, readable: bool): Option<Snapshot> {
    if id !in files then Some(Absent)
    else if !files[id].File? || !readable then None
    else Some(Held(files[id].data, files[id].mode))
  }

  function RestoreSnapshot(files: map<string, Node>, id: string, s: Snapshot): map<string, Node> {
    match s
    case Absent => files - {id}
    case Held(data, mode) => files[id := File(data, mode)]
  }

  /** Restoring a snapshot undoes whatever was done to its path. */
  lemma RestoreUndoes(files: map<string, Node>, id: string, readable: bool, now: map<string, Node>)
    requires Take(files, id, readable).Some?
    requires now - {id} == files - {id}
    ensures RestoreSnapshot(now, id, Take(files, id, readable).value) == files
  {
    var restored := RestoreSnapshot(now, id, Take(files, id, readable).value);
    forall k ensures k in restored <==> k in files {
      assert k != id ==> (k in now - {id} <==> k in files - {id});
    }
    forall k | k in files && k != id ensures restored[k] == files[k] {
      assert (now - {id})[k] == (files - {id})[k];
    }
  }

  class Nginx {
    var include_: Option<Node>
    var configs: map<string, Node>
    var links: map<string, Node>
    var loaded: Config
    const outside: Config

    constructor (outside: Config)
      ensures View() == Host(Disk(None, map[], map[]), map[]) && this.outside == outside
    {
      this.outside := outside;
      include_, configs, links, loaded := None, map[], map[], map[];
    }

    function View(): Host
      reads this
    {
      Host(Disk(include_, configs, links), loaded)
    }

    /** systemctl reload nginx. */
    method ReloadServer(r: Reload) returns (ok: bool)
      modifies `loaded
      ensures loaded == Reloaded(old(loaded), Denote(View().disk, outside), r) && ok == (r == Loads)
    {
      if r != Refused {
        loaded := Denote(Disk(include_, configs, links), outside);
      }
      return r == Loads;
    }

    /** ensureInclude: true when the include file was created here. */
    method EnsureInclude(f: Faults) returns (created: bool, ok: bool)
      modifies `include_
      ensures ok == if old(include_).Some? then old(include_).value.File? && old(include_).value.data == INCLUDE else f.include_
      ensures created == (ok && old(include_).None?)
      ensures include_ == if created then Some(File(INCLUDE, FILE_MODE)) else old(include_)
    {
      if include_.None? {
        if !f.include_ {
          return false, false;
        }
        include_ := Some(File(INCLUDE, FILE_MODE));
        return true, true;
      }
      return false, include_.value.File? && include_.value.data == INCLUDE;
    }

    method RemoveInclude(created: bool)
      modifies `include_
      ensures include_ == if created then None else old(include_)
    {
      if created {
        include_ := None;
      }
    }

    /** ensureLink: true when the link was created here. */
    method EnsureLink(id: string, creates: bool) returns (created: bool, ok: bool)
      modifies `links
      ensures ok == if id in old(links) then old(links)[id] == Link(TargetOf(id)) else creates
      ensures created == (ok && id !in old(links))
      ensures links == if created then old(links)[id := Link(TargetOf(id))] else old(links)
    {
      if id in links {
        return false, links[id] == Link(TargetOf(id));
      }
      if !creates {
        return false, false;
      }
      links := links[id := Link(TargetOf(id))];
      return true, true;
    }

    /** The three writes before the check; None, with nothing changed, when one of them fails. */
    method WriteFiles(id: string, contents: string, f: Faults) returns (done: Option<(Snapshot, bool, bool)>)
      modifies `include_, `configs, `links
      ensures done.Some? == InstallReady(old(View()).disk, id, f)
      ensures View().disk == if done.Some? then Installed(old(View()).disk, id, contents) else old(View()).disk
      ensures done.Some? ==>
        Take(old(configs), id, f.read) == Some(done.value.0) && done.value.1 == (id !in old(links)) && done.value.2 == old(include_).None?
    {
      ghost var start := configs;
      if !f.dirs {
        return None;
      }
      var includeCreated, includeOk := EnsureInclude(f);
      if !includeOk {
        return None;
      }
      var taken := Take(configs, id, f.read);
      if taken.None? || !f.config {
        RemoveInclude(includeCreated);
        return None;
      }
      configs := configs[id := File(contents, FILE_MODE)];
      var linkCreated, linkOk := EnsureLink(id, f.link);
      if !linkOk {
        RestoreUndoes(start, id, f.read, configs);
        configs := RestoreSnapshot(configs, id, taken.value);
        RemoveInclude(includeCreated);
        return None;
      }
      return Some((taken.value, linkCreated, includeCreated));
    }

    method Install(id: string, contents: string, f: Faults) returns (ok: bool)
      modifies this
      ensures Result(View(), ok) == ConfigTx.Install(old(View()), id, contents, outside, f)
    {
      ghost var start := View();
      var done := WriteFiles(id, contents, f);
      if done.None? {
        return false;
      }
      var (previous, linkCreated, includeCreated) := done.value;
      RestoreUndoes(start.disk.configs, id, f.read, configs);
      if !f.test {
        Rollback(id, previous, linkCreated, includeCreated);
        assert links == start.disk.links;
        return false;
      }
      var loads := ReloadServer(f.reload);
      if !loads {
        Rollback(id, previous, linkCreated, includeCreated);
        assert links == start.disk.links;
        var again := ReloadServer(f.again);
        return false;
      }
      return true;
    }

    method Rollback(id: string, previous: Snapshot, linkCreated: bool, includeCreated: bool)
      modifies `include_, `configs, `links
      ensures configs == RestoreSnapshot(old(configs), id, previous)
      ensures links == if linkCreated then old(links) - {id} else old(links)
      ensures include_ == if includeCreated then None else old(include_)
    {
      configs := RestoreSnapshot(configs, id, previous);
      if linkCreated {
        links := links - {id};
      }
      RemoveInclude(includeCreated);
    }

    /** restoreLink. */
    method RestoreLink(id: string, restore: bool)
      requires restore ==> id !in links
      modifies `links
      ensures links == if restore then old(links)[id := Link(TargetOf(id))] else old(links)
    {
      if restore {
        var created, ok := EnsureLink(id, true);
      }
    }

    method Remove(id: string, deleteConfig: bool, f: Faults) returns (ok: bool)
      modifies this
      ensures Result(View(), ok) == ConfigTx.Remove(old(View()), id, deleteConfig, outside, f)
    {
      ghost var start := View();
      if !f.dirs {
        return false;
      }
      var taken := Take(configs, id, f.read);
      if taken.None? || (id in links && links[id] != Link(TargetOf(id))) {
        return false;
      }
      var previous, linkExists := taken.value, id in links;
      if !linkExists && (!deleteConfig || previous.Absent?) {
        return true;
      }
      if linkExists {
        if !f.unlink {
          return false;
        }
        links := links - {id};
        assert links[id := Link(TargetOf(id))] == start.disk.links;
      }
      if deleteConfig && previous.Held? {
        if !f.erase {
          RestoreLink(id, linkExists);
          return false;
        }
        configs := configs - {id};
      }
      RestoreUndoes(start.disk.configs, id, f.read, configs);
      if deleteConfig && previous.Absent? {
        assert configs == start.disk.configs - {id};
      }
      if !linkExists {
        assert links == start.disk.links - {id};
        return true;
      }
      assert View().disk == Removed(start.disk, id, deleteConfig);
      if !f.test {
        Reinstate(id, previous, deleteConfig);
        return false;
      }
      var loads := ReloadServer(f.reload);
      if !loads {
        Reinstate(id, previous, deleteConfig);
        var again := ReloadServer(f.again);
        return false;
      }
      return true;
    }

    method Reinstate(id: string, previous: Snapshot, deleteConfig: bool)
      requires id !in links
      modifies `configs, `links
      ensures configs == if deleteConfig then RestoreSnapshot(old(configs), id, previous) else old(configs)
      ensures links == old(links)[id := Link(TargetOf(id))]
    {
      if deleteConfig {
        configs := RestoreSnapshot(configs, id, previous);
      }
      RestoreLink(id, true);
    }
  }

  // ---- The one-file form ----

  /** Every pool file is read by the server. */
  function DenotePools(pools: map<string, Node>): Config {
    map id | id in pools && pools[id].File? :: pools[id].data
  }

  class PhpFpm {
    var pools: map<string, Node>
    var loaded: Config

    constructor ()
      ensures pools == map[] && loaded == map[]
    {
      pools, loaded := map[], map[];
    }

    method ReloadServer(r: Reload) returns (ok: bool)
      modifies `loaded
      ensures loaded == Reloaded(old(loaded), DenotePools(pools), r) && ok == (r == Loads)
    {
      if r != Refused {
        loaded := DenotePools(pools);
      }
      return r == Loads;
    }

    /**
     * Ensure: on success the pool file is the rendered one and loaded; on error the files are as before, and the
     * loaded configuration is left behind only by a reload that loads and still fails.
     */
    method Ensure(id: string, contents: string, f: Faults) returns (ok: bool)
      modifies this
      ensures ok == (f.dirs && Take(old(pools), id, f.read).Some? && f.config && f.test && f.reload == Loads)
      ensures pools == if ok then old(pools)[id := File(contents, FILE_MODE)] else old(pools)
      ensures ok ==> loaded == DenotePools(pools) && id in loaded && loaded[id] == contents
      ensures !ok && old(loaded) == DenotePools(old(pools)) && (f.reload != Unreported || f.again != Refused || !f.test) ==>
        loaded == DenotePools(pools)
    {
      if !f.dirs {
        return false;
      }
      var taken := Take(pools, id, f.read);
      if taken.None? || !f.config {
        return false;
      }
      ghost var start := pools;
      pools := pools[id := File(contents, FILE_MODE)];
      RestoreUndoes(start, id, f.read, pools);
      if !f.test {
        pools := RestoreSnapshot(pools, id, taken.value);
        return false;
      }
      var loads := ReloadServer(f.reload);
      if !loads {
        pools := RestoreSnapshot(pools, id, taken.value);
        var again := ReloadServer(f.again);
        return false;
      }
      return true;
    }

    /** Delete: the same for the removal of a pool file; a missing one is already deleted. */
    method Delete(id: string, f: Faults) returns (ok: bool)
      modifies this
      ensures ok == (id !in old(pools) || (Take(old(pools), id, f.read).Some? && f.erase && f.test && f.reload == Loads))
      ensures pools == if ok then old(pools) - {id} else old(pools)
      ensures old(loaded) == DenotePools(old(pools)) && (f.reload != Unreported || f.again != Refused || !f.test || ok) ==>
        loaded == DenotePools(pools)
      ensures ok && old(loaded) == DenotePools(old(pools)) ==> id !in loaded
    {
      var taken := Take(pools, id, f.read);
      if taken.None? {
        return false;
      }
      if taken.value.Absent? {
        assert pools - {id} == pools;
        return true;
      }
      if !f.erase {
        return false;
      }
      ghost var start := pools;
      pools := pools - {id};
      RestoreUndoes(start, id, f.read, pools);
      if !f.test {
        pools := RestoreSnapshot(pools, id, taken.value);
        return false;
      }
      var loads := ReloadServer(f.reload);
      if !loads {
        pools := RestoreSnapshot(pools, id, taken.value);
        var again := ReloadServer(f.again);
        return false;
      }
      return true;
    }
  }
}
