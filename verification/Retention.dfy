/** Backup retention: after a run the plan keeps its newest artifacts, file and row together. */
module Retention {
  import opened Options

  /** A stored artifact; rows are kept newest first. */
  datatype Artifact = Artifact(id: string, plan: string, path: string)

  function OfPlan(rows: seq<Artifact>, plan: string): seq<Artifact> {
    if rows == [] then [] else (if rows[0].plan == plan then [rows[0]] else []) + OfPlan(rows[1..], plan)
  }

  /** The plan's artifacts past the newest `keep`. */
  function Expired(rows: seq<Artifact>, plan: string, keep: nat): seq<Artifact> {
    var own := OfPlan(rows, plan);
    if |own| <= keep then [] else own[keep..]
  }

  function Without(rows: seq<Artifact>, id: string): seq<Artifact> {
    if rows == [] then [] else (if rows[0].id == id then [] else [rows[0]]) + Without(rows[1..], id)
  }

  function WithoutAll(rows: seq<Artifact>, gone: seq<Artifact>): seq<Artifact> {
    if gone == [] then rows else Without(WithoutAll(rows, gone[..|gone| - 1]), gone[|gone| - 1].id)
  }

  ghost predicate IdsDistinct(rows: seq<Artifact>) {
    forall i, j :: 0 <= i < j < |rows| ==> rows[i].id != rows[j].id
  }

  /** Every archive file has its row. */
  ghost predicate NoOrphans(rows: seq<Artifact>, files: set<string>) {
    forall p :: p in files ==> exists r :: r in rows && r.path == p
  }

  function Paths(rows: seq<Artifact>): set<string> {
    set r | r in rows :: r.path
  }

  lemma {:induction false} WithoutMembers(rows: seq<Artifact>, id: string, r: Artifact)
    ensures r in Without(rows, id) <==> r in rows && r.id != id
  {
    if rows == [] {
    } else {
      WithoutMembers(rows[1..], id, r);
    }
  }

  lemma {:induction false} WithoutAllMembers(rows: seq<Artifact>, gone: seq<Artifact>, r: Artifact)
    ensures r in WithoutAll(rows, gone) <==> r in rows && forall g :: g in gone ==> g.id != r.id
  {
    if gone == [] {
    } else {
      var n := |gone| - 1;
      WithoutAllMembers(rows, gone[..n], r);
      WithoutMembers(WithoutAll(rows, gone[..n]), gone[n].id, r);
      assert forall g :: g in gone <==> g in gone[..n] || g == gone[n];
    }
  }

  lemma {:induction false} OfPlanMembers(rows: seq<Artifact>, plan: string, r: Artifact)
    ensures r in OfPlan(rows, plan) <==> r in rows && r.plan == plan
  {
    if rows == [] {
    } else {
      OfPlanMembers(rows[1..], plan, r);
    }
  }

  lemma {:induction false} OfPlanWithout(rows: seq<Artifact>, plan: string, id: string)
    ensures OfPlan(Without(rows, id), plan) == Without(OfPlan(rows, plan), id)
  {
    if rows == [] {
    } else {
      OfPlanWithout(rows[1..], plan, id);
      var rest := rows[1..];
      if rows[0].id == id {
        assert Without(rows, id) == Without(rest, id);
      } else {
        assert Without(rows, id)[1..] == Without(rest, id);
      }
      if rows[0].plan == plan {
        assert OfPlan(rows, plan)[1..] == OfPlan(rest, plan);
      } else {
        assert OfPlan(rows, plan) == OfPlan(rest, plan);
      }
    }
  }

  lemma {:induction false} WithoutAbsent(rows: seq<Artifact>, id: string)
    requires forall r :: r in rows ==> r.id != id
    ensures Without(rows, id) == rows
  {
    if rows == [] {
    } else {
      WithoutAbsent(rows[1..], id);
    }
  }

  lemma {:induction false} WithoutConcat(a: seq<Artifact>, b: seq<Artifact>, id: string)
    ensures Without(a + b, id) == Without(a, id) + Without(b, id)
  {
    if a == [] {
      assert a + b == b;
    } else {
      assert (a + b)[1..] == a[1..] + b;
      WithoutConcat(a[1..], b, id);
    }
  }

  lemma {:induction false} OfPlanDistinct(rows: seq<Artifact>, plan: string)
    requires IdsDistinct(rows)
    ensures IdsDistinct(OfPlan(rows, plan))
  {
    if rows == [] {
    } else {
      OfPlanDistinct(rows[1..], plan);
      var rest := OfPlan(rows[1..], plan);
      forall k | 0 <= k < |rest| ensures rest[k].id != rows[0].id {
        OfPlanMembers(rows[1..], plan, rest[k]);
      }
    }
  }

  lemma WithoutMiddle(a: seq<Artifact>, e: Artifact, b: seq<Artifact>)
    requires (forall r :: r in a ==> r.id != e.id) && (forall r :: r in b ==> r.id != e.id)
    ensures Without(a + ([e] + b), e.id) == a + b
  {
    WithoutConcat(a, [e] + b, e.id);
    WithoutAbsent(a, e.id);
    WithoutAbsent(b, e.id);
    assert ([e] + b)[1..] == b;
  }

  /** Taking out a middle stretch of a list, one element after the other. */
  lemma {:induction false} CutOut(own: seq<Artifact>, keep: nat, i: nat)
    requires IdsDistinct(own) && keep + i <= |own|
    ensures WithoutAll(own, own[keep..][..i]) == own[..keep] + own[keep + i..]
  {
    if i == 0 {
      assert own[..keep] + own[keep..] == own;
    } else {
      CutOut(own, keep, i - 1);
      var e := own[keep + i - 1];
      assert own[keep..][..i][..i - 1] == own[keep..][..i - 1] && own[keep..][..i][i - 1] == e;
      assert own[keep + i - 1..] == [e] + own[keep + i..];
      WithoutMiddle(own[..keep], e, own[keep + i..]);
    }
  }

  lemma {:induction false} OfPlanWithoutAll(rows: seq<Artifact>, plan: string, gone: seq<Artifact>)
    ensures OfPlan(WithoutAll(rows, gone), plan) == WithoutAll(OfPlan(rows, plan), gone)
  {
    if gone == [] {
    } else {
      var n := |gone| - 1;
      OfPlanWithoutAll(rows, plan, gone[..n]);
      OfPlanWithout(WithoutAll(rows, gone[..n]), plan, gone[n].id);
    }
  }

  /** Removing the first expired artifacts leaves the newest ones, in order, and then the rest. */
  lemma RetainedExactly(rows: seq<Artifact>, plan: string, keep: nat, i: nat)
    requires IdsDistinct(rows) && i <= |Expired(rows, plan, keep)|
    ensures var own, kept := OfPlan(rows, plan), OfPlan(WithoutAll(rows, Expired(rows, plan, keep)[..i]), plan);
      kept == if |own| <= keep then own else own[..keep] + own[keep + i..]
  {
    var own := OfPlan(rows, plan);
    OfPlanWithoutAll(rows, plan, Expired(rows, plan, keep)[..i]);
    OfPlanDistinct(rows, plan);
    if |own| > keep {
      CutOut(own, keep, i);
    }
  }

  /** A plan's retention never touches the rows of another plan. */
  lemma OthersRetained(rows: seq<Artifact>, plan: string, keep: nat, i: nat, r: Artifact)
    requires IdsDistinct(rows) && i <= |Expired(rows, plan, keep)| && r in rows && r.plan != plan
    ensures r in WithoutAll(rows, Expired(rows, plan, keep)[..i])
  {
    var gone := Expired(rows, plan, keep)[..i];
    WithoutAllMembers(rows, gone, r);
    forall g | g in gone ensures g.id != r.id {
      assert g in OfPlan(rows, plan);
      OfPlanMembers(rows, plan, g);
      var j :| 0 <= j < |rows| && rows[j] == g;
      var k :| 0 <= k < |rows| && rows[k] == r;
    }
  }

  /** The newer artifacts of the plan: those listed before place i. */
  function Newer(rows: seq<Artifact>, plan: string, i: nat): set<nat>
    requires i <= |rows|
  {
    set j | 0 <= j < i && rows[j].plan == plan
  }

  lemma {:induction false} OfPlanConcat(a: seq<Artifact>, b: seq<Artifact>, plan: string)
    ensures OfPlan(a + b, plan) == OfPlan(a, plan) + OfPlan(b, plan)
  {
    if a == [] {
      assert a + b == b;
    } else {
      assert (a + b)[0] == a[0] && (a + b)[1..] == a[1..] + b;
      OfPlanConcat(a[1..], b, plan);
      assert OfPlan(a + b, plan) == (if a[0].plan == plan then [a[0]] else []) + OfPlan(a[1..] + b, plan);
    }
  }

  lemma OfPlanLast(rows: seq<Artifact>, plan: string, i: nat)
    requires 0 < i <= |rows|
    ensures OfPlan(rows[..i], plan) == OfPlan(rows[..i - 1], plan) + if rows[i - 1].plan == plan then [rows[i - 1]] else []
  {
    var one := [rows[i - 1]];
    assert rows[..i] == rows[..i - 1] + one && one[1..] == [];
    OfPlanConcat(rows[..i - 1], one, plan);
  }

  lemma {:induction false} CountNewer(rows: seq<Artifact>, plan: string, i: nat)
    requires i <= |rows|
    ensures |OfPlan(rows[..i], plan)| == |Newer(rows, plan, i)|
  {
    if i == 0 {
      assert Newer(rows, plan, i) == {};
    } else {
      CountNewer(rows, plan, i - 1);
      OfPlanLast(rows, plan, i);
      assert Newer(rows, plan, i) == Newer(rows, plan, i - 1) + if rows[i - 1].plan == plan then {i - 1} else {};
    }
  }

  lemma PlaceInPlan(rows: seq<Artifact>, plan: string, i: nat)
    requires i < |rows| && rows[i].plan == plan
    ensures |Newer(rows, plan, i)| < |OfPlan(rows, plan)| && OfPlan(rows, plan)[|Newer(rows, plan, i)|] == rows[i]
  {
    CountNewer(rows, plan, i);
    OfPlanLast(rows, plan, i + 1);
    assert rows == rows[..i + 1] + rows[i + 1..];
    OfPlanConcat(rows[..i + 1], rows[i + 1..], plan);
  }

  /** Retention keeps an artifact of the plan exactly when fewer than `keep` of its artifacts are newer. */
  lemma KeptExactly(rows: seq<Artifact>, plan: string, keep: nat, i: nat)
    requires IdsDistinct(rows) && i < |rows| && rows[i].plan == plan
    ensures rows[i] in WithoutAll(rows, Expired(rows, plan, keep)) <==> |Newer(rows, plan, i)| < keep
  {
    var own, at := OfPlan(rows, plan), |Newer(rows, plan, i)|;
    PlaceInPlan(rows, plan, i);
    OfPlanDistinct(rows, plan);
    var gone := Expired(rows, plan, keep);
    WithoutAllMembers(rows, gone, rows[i]);
    CutFrom(own, keep, at);
  }

  lemma CutFrom(own: seq<Artifact>, keep: nat, at: nat)
    requires IdsDistinct(own) && at < |own|
    ensures (forall g :: g in (if |own| <= keep then [] else own[keep..]) ==> g.id != own[at].id) <==> at < keep
  {
    if keep <= at {
      assert own[keep..][at - keep] == own[at];
    } else if keep < |own| {
      forall g | g in own[keep..] ensures g.id != own[at].id {
        var k :| 0 <= k < |own[keep..]| && own[keep..][k] == g;
        assert own[keep + k] == g;
      }
    }
  }

  lemma RemovedFileKeepsOthers(rows: seq<Artifact>, files: set<string>, a: Artifact)
    requires NoOrphans(rows, files)
    ensures NoOrphans(Without(rows, a.id), files - {a.path}) || exists r :: r in rows && r.id == a.id && r.path != a.path
  {
    if forall r :: r in rows && r.id == a.id ==> r.path == a.path {
      forall p | p in files - {a.path} ensures exists r :: r in Without(rows, a.id) && r.path == p {
        var r :| r in rows && r.path == p;
        WithoutMembers(rows, a.id, r);
      }
    }
  }

  class Store {
    var rows: seq<Artifact>
    var files: set<string>

    constructor ()
      ensures rows == [] && files == {}
    {
      rows, files := [], {};
    }

    /**
     * applyRetention: file first, then row, from the newest expired artifact on. `fileFault` and `rowFault` are the
     * items at which the agent or the row deletion fails, if any.
     */
    method ApplyRetention(plan: string, keep: nat, fileFault: Option<nat>, rowFault: Option<nat>) returns (ok: bool, done: nat)
      requires IdsDistinct(rows) && NoOrphans(rows, files)
      modifies this
      ensures done <= |Expired(old(rows), plan, keep)|
      ensures rows == WithoutAll(old(rows), Expired(old(rows), plan, keep)[..done])
      ensures ok ==> done == |Expired(old(rows), plan, keep)|
      ensures var before := OfPlan(old(rows), plan);
        ok ==> OfPlan(rows, plan) == if |before| <= keep then before else before[..keep]
      ensures ok ==> files == old(files) - Paths(Expired(old(rows), plan, keep))
      ensures NoOrphans(rows, files)
    {
      var items := Expired(rows, plan, keep);
      ghost var start, before := rows, files;
      done := 0;
      assert items[..0] == [];
      while done < |items|
        invariant done <= |items|
        invariant rows == WithoutAll(start, items[..done])
        invariant files == before - Paths(items[..done])
        invariant NoOrphans(rows, files)
      {
        var item := items[done];
        if fileFault == Some(done) {
          return false, done;
        }
        ItemHasItsRow(start, plan, keep, done);
        RemovedFileKeepsOthers(rows, files, item);
        files := files - {item.path};
        if rowFault == Some(done) {
          return false, done;
        }
        assert items[..done + 1][..done] == items[..done] && items[..done + 1] == items[..done] + [item];
        rows := Without(rows, item.id);
        done := done + 1;
      }
      assert items[..|items|] == items;
      RetainedExactly(start, plan, keep, done);
      return true, done;
    }
  }

  lemma ItemHasItsRow(rows: seq<Artifact>, plan: string, keep: nat, i: nat)
    requires IdsDistinct(rows) && i < |Expired(rows, plan, keep)|
    ensures var item := Expired(rows, plan, keep)[i];
      forall r :: r in WithoutAll(rows, Expired(rows, plan, keep)[..i]) && r.id == item.id ==> r.path == item.path
  {
    var item := Expired(rows, plan, keep)[i];
    assert item in OfPlan(rows, plan);
    OfPlanMembers(rows, plan, item);
    forall r | r in WithoutAll(rows, Expired(rows, plan, keep)[..i]) && r.id == item.id ensures r == item {
      WithoutAllMembers(rows, Expired(rows, plan, keep)[..i], r);
      var j :| 0 <= j < |rows| && rows[j] == item;
      var k :| 0 <= k < |rows| && rows[k] == r;
    }
  }
}
