/** Configuration changes of the web server and the PHP runtime: write, check, reload, and roll back on failure. */
module ConfigTx {
  import opened Options

  datatype Node = File(data: string, mode: nat) | Link(target: string) | Other

  /** The include file, the site files by id, and the enabled directory by id. */
  datatype Disk = Disk(include_: Option<Node>, configs: map<string, Node>, links: map<string, Node>)

  type Config = map<string, string>

  /** The disk and the configuration the server process runs with. */
  datatype Host = Host(disk: Disk, loaded: Config)

  /** A reload command loads and succeeds, loads nothing and fails, or loads and still reports a failure. */
  datatype Reload = Loads | Refused | Unreported

  /** Which file operation fails on the way, and how the commands answer. Rollback file operations succeed. */
  datatype Faults = Faults(dirs: bool, include_: bool, read: bool, config: bool, link: bool, unlink: bool, erase: bool,
                           test: bool, reload: Reload, again: Reload)

  datatype Result = Result(host: Host, ok: bool)

  const INCLUDE := "include /etc/nginx/webycp/sites-enabled/*.conf;\n"
  const PREFIX := "../sites-available/"
  const FILE_MODE := 420

  function TargetOf(id: string): string {
    PREFIX + id
  }

  /** The text a node of the enabled directory gives the server; `outside` are the files links may reach elsewhere. */
  function Content(d: Disk, outside: Config, n: Node): Option<string> {
    match n
    case File(data, _) => Some(data)
    case Link(target) =>
      if |target| >= |PREFIX| && target[..|PREFIX|] == PREFIX then
        var id := target[|PREFIX|..];
        if id in d.configs && d.configs[id].File? then Some(d.configs[id].data) else None
      else if target in outside then Some(outside[target]) else None
    case Other => None
  }

  /** The configuration the files denote. */
  function Denote(d: Disk, outside: Config): Config {
    if d.include_.Some? && d.include_.value.File? && d.include_.value.data == INCLUDE then
      map id | id in d.links && Content(d, outside, d.links[id]).Some? :: Content(d, outside, d.links[id]).value
    else map[]
  }

  predicate Consistent(h: Host, outside: Config) {
    h.loaded == Denote(h.disk, outside)
  }

  /** No enabled link leads to the file of another site. */
  ghost predicate LinksOwn(d: Disk) {
    forall id, other :: id in d.links && d.links[id] == Link(TargetOf(other)) ==> other == id
  }

  // ---- What a call does, said without its steps ----

  function Installed(d: Disk, id: string, contents: string): Disk {
    Disk(if d.include_.None? then Some(File(INCLUDE, FILE_MODE)) else d.include_,
         d.configs[id := File(contents, FILE_MODE)],
         if id in d.links then d.links else d.links[id := Link(TargetOf(id))])
  }

  function Removed(d: Disk, id: string, deleteConfig: bool): Disk {
    Disk(d.include_, if deleteConfig then d.configs - {id} else d.configs, d.links - {id})
  }

  function Reloaded(before: Config, denoted: Config, r: Reload): Config {
    if r == Refused then before else denoted
  }

  /** The end of a transaction: check, reload, and on failure roll back and reload again. */
  function Commit(h: Host, changed: Disk, outside: Config, f: Faults): Result {
    if !f.test then Result(h, false)
    else if f.reload == Loads then Result(Host(changed, Denote(changed, outside)), true)
    else
      Result(h.(loaded := Reloaded(Reloaded(h.loaded, Denote(changed, outside), f.reload), Denote(h.disk, outside), f.again)), false)
  }

  predicate InstallReady(d: Disk, id: string, f: Faults) {
    && f.dirs
    && (if d.include_.Some? then d.include_.value.File? && d.include_.value.data == INCLUDE else f.include_)
    && (id in d.configs ==> d.configs[id].File? && f.read) && f.config
    && (if id in d.links then d.links[id] == Link(TargetOf(id)) else f.link)
  }

  function Install(h: Host, id: string, contents: string, outside: Config, f: Faults): Result {
    if !InstallReady(h.disk, id, f) then Result(h, false)
    else Commit(h, Installed(h.disk, id, contents), outside, f)
  }

  predicate RemoveReady(d: Disk, id: string, f: Faults) {
    && f.dirs
    && (id in d.configs ==> d.configs[id].File? && f.read)
    && (id in d.links ==> d.links[id] == Link(TargetOf(id)))
  }

  function Remove(h: Host, id: string, deleteConfig: bool, outside: Config, f: Faults): Result {
    var erases := deleteConfig && id in h.disk.configs;
    if !RemoveReady(h.disk, id, f) then Result(h, false)
    else if id !in h.disk.links && !erases then Result(h, true)
    else if (id in h.disk.links && !f.unlink) || (erases && !f.erase) then Result(h, false)
    else if id !in h.disk.links then Result(h.(disk := Removed(h.disk, id, deleteConfig)), true)
    else Commit(h, Removed(h.disk, id, deleteConfig), outside, f)
  }

  datatype Call =
    | InstallCall(id: string, contents: string, faults: Faults)
    | RemoveCall(id: string, deleteConfig: bool, faults: Faults)

  function Apply(h: Host, outside: Config, call: Call): Result {
    match call
    case InstallCall(id, contents, f) => Install(h, id, contents, outside, f)
    case RemoveCall(id, deleteConfig, f) => Remove(h, id, deleteConfig, outside, f)
  }

  /** What a call is for. */
  function Effect(d: Disk, call: Call): Disk {
    match call
    case InstallCall(id, contents, _) => Installed(d, id, contents)
    case RemoveCall(id, deleteConfig, _) => Removed(d, id, deleteConfig)
  }

  // ---- Properties of one call ----

  /** A call that returns an error leaves include, links and site files, contents and modes, as they were. */
  lemma Atomic(h: Host, outside: Config, call: Call)
    ensures var r := Apply(h, outside, call);
      r.host.disk == if r.ok then Effect(h.disk, call) else h.disk
  {
    if call.RemoveCall? && Apply(h, outside, call).ok {
      var d, id := h.disk, call.id;
      if id !in d.links {
        assert d.links - {id} == d.links;
        if id !in d.configs {
          assert d.configs - {id} == d.configs;
        }
      }
    }
  }

  lemma UnlinkedContent(d: Disk, outside: Config, id: string, other: string)
    requires LinksOwn(d) && id !in d.links && other in d.links
    ensures Content(Removed(d, id, true), outside, d.links[other]) == Content(d, outside, d.links[other])
  {
    var n := d.links[other];
    if n.Link? && |n.target| >= |PREFIX| && n.target[..|PREFIX|] == PREFIX {
      var named := n.target[|PREFIX|..];
      assert n.target == TargetOf(named);
    }
  }

  /** Deleting the file of a site that is not enabled changes nothing the server reads. */
  lemma UnlinkedDelete(d: Disk, outside: Config, id: string)
    requires LinksOwn(d) && id !in d.links
    ensures Denote(Removed(d, id, true), outside) == Denote(d, outside)
  {
    assert d.links - {id} == d.links;
    forall other | other in d.links
      ensures Content(Removed(d, id, true), outside, d.links[other]) == Content(d, outside, d.links[other])
    {
      UnlinkedContent(d, outside, id, other);
    }
  }

  /** The call got as far as a reload that loaded the change and still failed, and the second one loaded nothing. */
  predicate LeftBehind(h: Host, outside: Config, call: Call) {
    var f := call.faults;
    && f.test && f.reload == Unreported && f.again == Refused
    && (match call
        case InstallCall(id, _, _) => InstallReady(h.disk, id, f)
        case RemoveCall(id, deleteConfig, _) =>
          RemoveReady(h.disk, id, f) && id in h.disk.links && f.unlink && (deleteConfig && id in h.disk.configs ==> f.erase))
  }

  /** Disk and loaded configuration stay equal exactly unless such a reload loaded something different. */
  lemma ConsistentExactly(h: Host, outside: Config, call: Call)
    requires Consistent(h, outside) && LinksOwn(h.disk)
    ensures Consistent(Apply(h, outside, call).host, outside)
      <==> !(LeftBehind(h, outside, call) && Denote(Effect(h.disk, call), outside) != Denote(h.disk, outside))
  {
    if call.RemoveCall? && call.id !in h.disk.links {
      UnlinkedDelete(h.disk, outside, call.id);
      assert h.disk.links - {call.id} == h.disk.links;
    }
  }

  lemma TargetInjective(a: string, b: string)
    requires TargetOf(a) == TargetOf(b)
    ensures a == b
  {
    assert TargetOf(a)[|PREFIX|..] == a && TargetOf(b)[|PREFIX|..] == b;
  }

  lemma LinksStayOwn(h: Host, outside: Config, call: Call)
    requires LinksOwn(h.disk)
    ensures LinksOwn(Apply(h, outside, call).host.disk)
  {
    Atomic(h, outside, call);
    var after := Apply(h, outside, call).host.disk;
    forall id, other | id in after.links && after.links[id] == Link(TargetOf(other)) ensures other == id {
      if id !in h.disk.links || h.disk.links[id] != after.links[id] {
        TargetInjective(id, other);
      }
    }
  }

  // ---- Whole runs ----

  function Run(h: Host, outside: Config, calls: seq<Call>): Host
    decreases |calls|
  {
    if calls == [] then h else Run(Apply(h, outside, calls[0]).host, outside, calls[1..])
  }

  /** The calls of a run that returned no error. */
  function Succeeded(h: Host, outside: Config, calls: seq<Call>): seq<Call>
    decreases |calls|
  {
    if calls == [] then []
    else
      var r := Apply(h, outside, calls[0]);
      (if r.ok then [calls[0]] else []) + Succeeded(r.host, outside, calls[1..])
  }

  function Effects(d: Disk, calls: seq<Call>): Disk
    decreases |calls|
  {
    if calls == [] then d else Effects(Effect(d, calls[0]), calls[1..])
  }

  /** Over any run the disk is what the successful calls alone make of it: a failed call leaves no trace. */
  lemma {:induction false} RunIsSuccesses(h: Host, outside: Config, calls: seq<Call>)
    ensures Run(h, outside, calls).disk == Effects(h.disk, Succeeded(h, outside, calls))
    decreases |calls|
  {
    if calls == [] {
    } else {
      Atomic(h, outside, calls[0]);
      var r := Apply(h, outside, calls[0]);
      RunIsSuccesses(r.host, outside, calls[1..]);
      var rest := Succeeded(r.host, outside, calls[1..]);
      if r.ok {
        assert ([calls[0]] + rest)[1..] == rest;
      } else {
        assert [] + rest == rest;
      }
    }
  }

  /** A failed reload loads nothing. */
  predicate Honest(calls: seq<Call>) {
    forall i :: 0 <= i < |calls| ==> calls[i].faults.reload != Unreported
  }

  /** Over any run whose failed reloads load nothing the server runs what the files denote. */
  lemma {:induction false} RunKeepsConsistent(h: Host, outside: Config, calls: seq<Call>)
    requires Consistent(h, outside) && LinksOwn(h.disk) && Honest(calls)
    ensures Consistent(Run(h, outside, calls), outside) && LinksOwn(Run(h, outside, calls).disk)
    decreases |calls|
  {
    if calls == [] {
    } else {
      ConsistentExactly(h, outside, calls[0]);
      LinksStayOwn(h, outside, calls[0]);
      RunKeepsConsistent(Apply(h, outside, calls[0]).host, outside, calls[1..]);
    }
  }
}
