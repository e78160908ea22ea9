/** What a configuration call leaves on disk and in the server, file by file, and which contents a site runs after any calls. */
module ConfigLaws {
  import opened Options
  import opened ConfigTx

  const OWN := "../sites-available/"
  const READ_LINE := "include /etc/nginx/webycp/sites-enabled/*.conf;\n"

  /** The server reads the enabled directory. */
  predicate Includes(d: Disk) {
    d.include_.Some? && d.include_.value.File? && d.include_.value.data == READ_LINE
  }

  /** Every entry but the one of the site is as it was. */
  ghost predicate OthersSame(before: map<string, Node>, after: map<string, Node>, id: string) {
    forall other :: other != id ==>
      (other in after <==> other in before) && (other in before ==> after[other] == before[other])
  }

  lemma OwnTarget(id: string)
    ensures TargetOf(id) == OWN + id
    ensures TargetOf(id)[..|OWN|] == OWN && TargetOf(id)[|OWN|..] == id
  {
  }

  // ---- Install ----

  /** An install that succeeds leaves the new contents in the file, a link to it, and the server running them. */
  lemma InstallLeaves(h: Host, id: string, contents: string, outside: Config, f: Faults)
    requires Install(h, id, contents, outside, f).ok
    ensures var after := Install(h, id, contents, outside, f).host;
      && id in after.disk.configs && after.disk.configs[id] == File(contents, 420)
      && OthersSame(h.disk.configs, after.disk.configs, id)
      && id in after.disk.links && after.disk.links[id] == Link(OWN + id)
      && OthersSame(h.disk.links, after.disk.links, id)
      && after.disk.include_ == (if h.disk.include_ == None then Some(File(READ_LINE, 420)) else h.disk.include_)
      && Includes(after.disk)
      && id in after.loaded && after.loaded[id] == contents
  {
    OwnTarget(id);
  }

  /** It succeeds exactly when nothing stands in the way and no step fails. */
  lemma InstallSucceedsExactly(h: Host, id: string, contents: string, outside: Config, f: Faults)
    ensures Install(h, id, contents, outside, f).ok <==>
      && f.dirs && (if h.disk.include_ == None then f.include_ else Includes(h.disk))
      && (id in h.disk.configs ==> h.disk.configs[id].File? && f.read) && f.config
      && (if id in h.disk.links then h.disk.links[id] == Link(OWN + id) else f.link)
      && f.test && f.reload == Loads
  {
    OwnTarget(id);
  }

  // ---- Remove ----

  /** A removal that succeeds leaves no link, the file gone exactly when asked, and everything else as it was. */
  lemma RemoveLeaves(h: Host, id: string, deleteConfig: bool, outside: Config, f: Faults)
    requires Remove(h, id, deleteConfig, outside, f).ok
    ensures var after := Remove(h, id, deleteConfig, outside, f).host;
      && id !in after.disk.links && OthersSame(h.disk.links, after.disk.links, id)
      && (id in after.disk.configs <==> id in h.disk.configs && !deleteConfig)
      && (id in after.disk.configs ==> after.disk.configs[id] == h.disk.configs[id])
      && OthersSame(h.disk.configs, after.disk.configs, id)
      && after.disk.include_ == h.disk.include_
      && (Consistent(h, outside) ==> id !in after.loaded)
  {
  }

  /** It succeeds exactly when nothing foreign is in the way and no step that is needed fails; a missing site is removed. */
  lemma RemoveSucceedsExactly(h: Host, id: string, deleteConfig: bool, outside: Config, f: Faults)
    ensures Remove(h, id, deleteConfig, outside, f).ok <==>
      && f.dirs
      && (id in h.disk.configs ==> h.disk.configs[id].File? && f.read)
      && (id in h.disk.links ==> h.disk.links[id] == Link(OWN + id) && f.unlink && f.test && f.reload == Loads)
      && (deleteConfig && id in h.disk.configs ==> f.erase)
  {
    OwnTarget(id);
  }

  // ---- What the server runs ----

  /** A site with its own link and a file is served that file, exactly when the include is right. */
  lemma ServesOwnFile(d: Disk, outside: Config, id: string)
    requires id in d.links && d.links[id] == Link(OWN + id) && id in d.configs && d.configs[id].File?
    ensures id in Denote(d, outside) <==> Includes(d)
    ensures id in Denote(d, outside) ==> Denote(d, outside)[id] == d.configs[id].data
  {
    OwnTarget(id);
  }

  /** What is not linked is not served. */
  lemma ServesLinked(d: Disk, outside: Config, id: string)
    requires id !in d.links
    ensures id !in Denote(d, outside)
  {
  }

  function Running(loaded: Config, id: string): Option<string> {
    if id in loaded then Some(loaded[id]) else None
  }

  /** A failed call whose first reload loaded nothing leaves disk and server as they were. */
  lemma FailedLeaves(h: Host, outside: Config, call: Call)
    requires Consistent(h, outside) && LinksOwn(h.disk)
    requires !Apply(h, outside, call).ok && call.faults.reload != Unreported
    ensures Apply(h, outside, call).host == h
  {
    Atomic(h, outside, call);
    ConsistentExactly(h, outside, call);
  }

  // ---- Over whole runs ----

  /** What the last of the calls about a site asked for; a removal asks for nothing to run. */
  function Asked(calls: seq<Call>, id: string, before: Option<string>): Option<string>
    decreases |calls|
  {
    if calls == [] then before
    else
      Asked(calls[1..], id,
            match calls[0]
            case InstallCall(other, contents, _) => if other == id then Some(contents) else before
            case RemoveCall(other, _, _) => if other == id then None else before)
  }

  /** A call about another site leaves what this one runs. */
  lemma OtherContent(d: Disk, after: Disk, outside: Config, id: string, other: string)
    requires LinksOwn(d) && id != other && id in d.links
    requires OthersSame(d.configs, after.configs, other)
    ensures Content(after, outside, d.links[id]) == Content(d, outside, d.links[id])
  {
    var n := d.links[id];
    if n.Link? && |n.target| >= |PREFIX| && n.target[..|PREFIX|] == PREFIX {
      var named := n.target[|PREFIX|..];
      assert n.target == TargetOf(named);
    }
  }

  lemma OtherServed(d: Disk, after: Disk, outside: Config, id: string, other: string)
    requires LinksOwn(d) && id != other && (Includes(d) || id !in d.links)
    requires OthersSame(d.configs, after.configs, other) && OthersSame(d.links, after.links, other)
    requires Includes(d) ==> Includes(after)
    ensures Running(Denote(after, outside), id) == Running(Denote(d, outside), id)
  {
    if id in d.links {
      OtherContent(d, after, outside, id, other);
    }
  }

  lemma RunningStep(h: Host, outside: Config, call: Call, id: string)
    requires Consistent(h, outside) && LinksOwn(h.disk) && (Includes(h.disk) || id !in h.disk.links)
    requires Apply(h, outside, call).ok
    ensures var after := Apply(h, outside, call).host;
      && Consistent(after, outside)
      && (Includes(after.disk) || id !in after.disk.links)
      && Running(after.loaded, id) == Asked([call], id, Running(h.loaded, id))
  {
    var after := Apply(h, outside, call).host;
    assert [call][1..] == [];
    match call
    case InstallCall(other, contents, f) =>
      InstallLeaves(h, other, contents, outside, f);
      if other != id {
        OtherServed(h.disk, after.disk, outside, id, other);
      }
    case RemoveCall(other, deleteConfig, f) =>
      RemoveLeaves(h, other, deleteConfig, outside, f);
      ConsistentExactly(h, outside, call);
      if other != id {
        OtherServed(h.disk, after.disk, outside, id, other);
      }
  }

  lemma AskedCons(call: Call, rest: seq<Call>, id: string, before: Option<string>)
    ensures Asked([call] + rest, id, before) == Asked(rest, id, Asked([call], id, before))
  {
    assert ([call] + rest)[1..] == rest && [call][1..] == [];
  }

  /**
   * Over any run whose failed reloads load nothing the server runs for each site the contents of the last install of it
   * that succeeded, and nothing when a removal succeeded since.
   */
  lemma {:induction false} RunsLastInstall(h: Host, outside: Config, calls: seq<Call>, id: string)
    requires Consistent(h, outside) && LinksOwn(h.disk) && Honest(calls) && (Includes(h.disk) || id !in h.disk.links)
    ensures Running(Run(h, outside, calls).loaded, id) == Asked(Succeeded(h, outside, calls), id, Running(h.loaded, id))
    decreases |calls|
  {
    if calls == [] {
    } else {
      var r, rest := Apply(h, outside, calls[0]), Succeeded(Apply(h, outside, calls[0]).host, outside, calls[1..]);
      LinksStayOwn(h, outside, calls[0]);
      if r.ok {
        RunningStep(h, outside, calls[0], id);
        AskedCons(calls[0], rest, id, Running(h.loaded, id));
      } else {
        FailedLeaves(h, outside, calls[0]);
        assert [] + rest == rest;
      }
      RunsLastInstall(r.host, outside, calls[1..], id);
    }
  }
}
