/**
 * src/utils/response_transformer.py, `_group_results_by_file`: hits are filed
 * under their resolved path in an insertion-ordered map. The ordered map is a
 * sequence of (path, infos) pairs with distinct paths.
 */
module FileGrouping {
  import opened Wrappers
  import opened ResultPaths
  import opened Strings

  /** A (path, info) pair for one kept hit. */
  type Entry = (string, Info)

  /** The ordered map `file_groups`, as its `.items()`. */
  type Groups = seq<(string, seq<Info>)>

  /** What one hit contributes: nothing for a folder or a hit without a path, else its path and info. */
  function EntryOf(r: Record): (e: seq<Entry>)
    ensures |e| <= 1
    ensures |e| == 1 ==> e[0].0 != "" && Some(e[0].0) == ExtractPath(r) && KindOf(r) != "Folder"
    ensures |e| == 1 ==> e[0].1 == BuildResultInfo(r, true)
    ensures |e| == 0 <==> KindOf(r) == "Folder" || !Truthy(ExtractPath(r))
  {
    if KindOf(r) == "Folder" then []
    else
      var path := ExtractPath(r);
      if !Truthy(path) then [] else [(path.value, BuildResultInfo(r, true))]
  }

  /**
   * A hit that does not raise yet is not fully readable is dropped, except one
   * whose unreadable "end" was never read because its start has no line: that
   * one is filed without line numbers. Either way its unread fields never matter.
   */
  lemma QuietHitsAreDropped(r: Record)
    requires Raised(r).None? && !r.shape.Readable?
    ensures !r.shape.EndNotAnObject? ==> EntryOf(r) == []
    ensures forall e :: e in EntryOf(r) ==> r.shape.EndNotAnObject? && e.1.startLine.None? && e.1.endLine.None?
  {
  }

  /** The message of the first hit whose reading raises, if any: the loop stops there. */
  function FirstRaised(rs: seq<Record>): Option<string>
    decreases |rs|
  {
    if rs == [] then None
    else
      var m := FirstRaised(rs[..|rs| - 1]);
      if m.Some? then m else Raised(rs[|rs| - 1])
  }

  /**
   * Grouping raises exactly when some hit raises, and then with the message of
   * the first such hit.
   */
  lemma {:induction false} FirstRaisedIsFirst(rs: seq<Record>)
    ensures FirstRaised(rs).None? <==> forall i :: 0 <= i < |rs| ==> Raised(rs[i]).None?
    ensures FirstRaised(rs).Some? ==>
      exists i :: 0 <= i < |rs| && Raised(rs[i]) == FirstRaised(rs) && (forall j :: 0 <= j < i ==> Raised(rs[j]).None?)
    decreases |rs|
  {
    if rs != [] {
      var init := rs[..|rs| - 1];
      FirstRaisedIsFirst(init);
      assert forall i :: 0 <= i < |init| ==> init[i] == rs[i];
      if FirstRaised(init).Some? {
        var i :| 0 <= i < |init| && Raised(init[i]) == FirstRaised(init) && forall j :: 0 <= j < i ==> Raised(init[j]).None?;
        assert Raised(rs[i]) == FirstRaised(rs);
      } else if FirstRaised(rs).Some? {
        assert Raised(rs[|init|]) == FirstRaised(rs);
      }
    }
  }

  /** Once a prefix has raised, nothing after it is read. */
  lemma {:induction false} FirstRaisedPrefix(rs: seq<Record>, k: nat)
    requires k <= |rs| && FirstRaised(rs[..k]).Some?
    ensures FirstRaised(rs) == FirstRaised(rs[..k])
    decreases |rs|
  {
    if k < |rs| {
      var init := rs[..|rs| - 1];
      assert init[..k] == rs[..k];
      FirstRaisedPrefix(init, k);
    } else {
      Whole(rs);
    }
  }

  /** A single hit raises as it does alone, and a kept one makes a single group. */
  lemma SingleHit(hit: Record)
    ensures FirstRaised([hit]) == Raised(hit)
    ensures EntryOf(hit) != [] ==> GroupsOf(Entries([hit])) == [(EntryOf(hit)[0].0, [EntryOf(hit)[0].1])]
  {
    assert [hit][..0] == [] && [hit][0] == hit;
    if EntryOf(hit) != [] {
      var e := EntryOf(hit)[0];
      assert Entries([hit]) == [e];
      assert [e][..0] == [];
      assert Keys([e]) == [e.0];
      assert Select([e], e.0) == [e.1];
    }
  }

  /** The kept hits, in arrival order. */
  function Entries(rs: seq<Record>): seq<Entry>
    decreases |rs|
  {
    if rs == [] then [] else Entries(rs[..|rs| - 1]) + EntryOf(rs[|rs| - 1])
  }

  /** The distinct paths, each where it first appears. */
  function Keys(es: seq<Entry>): seq<string>
    decreases |es|
  {
    if es == [] then []
    else
      var ks := Keys(es[..|es| - 1]);
      if es[|es| - 1].0 in ks then ks else ks + [es[|es| - 1].0]
  }

  /** The infos filed under `path`, in arrival order. */
  function Select(es: seq<Entry>, path: string): seq<Info>
    decreases |es|
  {
    if es == [] then []
    else Select(es[..|es| - 1], path) + (if es[|es| - 1].0 == path then [es[|es| - 1].1] else [])
  }

  /** The ordered map the loop builds, as a reference definition: one pair per key, holding its selection. */
  function GroupsOf(es: seq<Entry>): Groups {
    var ks := Keys(es);
    seq(|ks|, i requires 0 <= i < |ks| => (ks[i], Select(es, ks[i])))
  }

  /** The number of infos across all groups. */
  function TotalSize(gs: Groups): nat
    decreases |gs|
  {
    if gs == [] then 0 else TotalSize(gs[..|gs| - 1]) + |gs[|gs| - 1].1|
  }

  /** The path of every pair (a hit's entry or a file group), in order. */
  function Paths<V>(es: seq<(string, V)>): (ps: seq<string>)
    ensures |ps| == |es| && forall i :: 0 <= i < |es| ==> ps[i] == es[i].0
  {
    seq(|es|, i requires 0 <= i < |es| => es[i].0)
  }

  /** The position of the first occurrence of `p`. */
  function FirstIndex(ps: seq<string>, p: string): (k: nat)
    requires p in ps
    ensures k < |ps| && ps[k] == p
    ensures p !in ps[..k]
    decreases |ps|
  {
    if ps[0] == p then 0
    else
      assert p in ps[1..];
      var k := 1 + FirstIndex(ps[1..], p);
      assert ps[..k] == [ps[0]] + ps[1..][..k - 1];
      k
  }

  /** The keys are distinct, and they are exactly the paths of the entries. */
  lemma {:induction false} KeysAreThePaths(es: seq<Entry>)
    ensures Distinct(Keys(es))
    ensures forall p :: p in Keys(es) <==> p in Paths(es)
    decreases |es|
  {
    if es != [] {
      var init := es[..|es| - 1];
      KeysAreThePaths(init);
      assert Paths(es) == Paths(init) + [es[|es| - 1].0];
    }
  }

  /** A path never filed has an empty selection. */
  lemma {:induction false} SelectAbsent(es: seq<Entry>, path: string)
    requires path !in Keys(es)
    ensures Select(es, path) == []
    decreases |es|
  {
    if es != [] {
      var init := es[..|es| - 1];
      assert path !in Keys(init);
      SelectAbsent(init, path);
    }
  }

  /** Filing one more entry either opens a new group at the end or extends the group of its path in place. */
  lemma GroupsSnoc(es: seq<Entry>, e: Entry)
    ensures e.0 !in Keys(es) ==> GroupsOf(es + [e]) == GroupsOf(es) + [(e.0, [e.1])]
    ensures forall k :: 0 <= k < |Keys(es)| && Keys(es)[k] == e.0 ==>
      GroupsOf(es + [e]) == GroupsOf(es)[k := (e.0, GroupsOf(es)[k].1 + [e.1])]
  {
    var es' := es + [e];
    assert es'[..|es'| - 1] == es;
    KeysAreThePaths(es);
    if e.0 !in Keys(es) {
      SelectAbsent(es, e.0);
      var ks := Keys(es);
      assert Keys(es') == ks + [e.0];
      forall i | 0 <= i < |ks| ensures GroupsOf(es')[i] == GroupsOf(es)[i] {
        assert ks[i] != e.0;
        assert Select(es', ks[i]) == Select(es, ks[i]);
      }
      assert Select(es', e.0) == [e.1];
    } else {
      forall k | 0 <= k < |Keys(es)| && Keys(es)[k] == e.0
        ensures GroupsOf(es') == GroupsOf(es)[k := (e.0, GroupsOf(es)[k].1 + [e.1])]
      {
        GroupsExtend(es, e, k);
      }
    }
  }

  lemma GroupsExtend(es: seq<Entry>, e: Entry, k: nat)
    requires k < |Keys(es)| && Keys(es)[k] == e.0
    ensures GroupsOf(es + [e]) == GroupsOf(es)[k := (e.0, GroupsOf(es)[k].1 + [e.1])]
  {
    var es' := es + [e];
    assert es'[..|es'| - 1] == es;
    KeysAreThePaths(es);
    var ks := Keys(es);
    assert Keys(es') == ks;
    var gs := GroupsOf(es);
    var updated := gs[k := (e.0, gs[k].1 + [e.1])];
    var gs' := GroupsOf(es');
    assert |gs'| == |ks| == |updated|;
    forall i | 0 <= i < |ks| ensures gs'[i] == updated[i] {
      assert Select(es', ks[i]) == Select(es, ks[i]) + (if e.0 == ks[i] then [e.1] else []);
      assert gs'[i] == (ks[i], Select(es', ks[i]));
      assert gs[i] == (ks[i], Select(es, ks[i]));
      if i != k {
        assert ks[i] != ks[k];
        assert updated[i] == gs[i];
        assert Select(es', ks[i]) == Select(es, ks[i]);
      } else {
        assert updated[i] == (e.0, gs[k].1 + [e.1]);
        assert Select(es', ks[i]) == Select(es, ks[i]) + [e.1];
      }
    }
  }

  lemma {:induction false} TotalSizeAppend(gs: Groups, g: (string, seq<Info>))
    ensures TotalSize(gs + [g]) == TotalSize(gs) + |g.1|
  {
    assert (gs + [g])[..|gs|] == gs;
  }

  lemma {:induction false} TotalSizeUpdate(gs: Groups, k: nat, g: (string, seq<Info>))
    requires k < |gs|
    ensures TotalSize(gs[k := g]) == TotalSize(gs) - |gs[k].1| + |g.1|
    decreases |gs|
  {
    var last := |gs| - 1;
    if k == last {
      assert gs[k := g][..last] == gs[..last];
    } else {
      TotalSizeUpdate(gs[..last], k, g);
      assert gs[k := g][..last] == gs[..last][k := g];
    }
  }

  /** Grouping loses and duplicates nothing: the group sizes add up to the number of kept hits. */
  lemma {:induction false} GroupSizesAddUp(es: seq<Entry>)
    ensures TotalSize(GroupsOf(es)) == |es|
    decreases |es|
  {
    if es == [] {
    } else {
      var init := es[..|es| - 1];
      var e := es[|es| - 1];
      assert es == init + [e];
      GroupSizesAddUp(init);
      GroupsSnoc(init, e);
      if e.0 in Keys(init) {
        var k :| 0 <= k < |Keys(init)| && Keys(init)[k] == e.0;
        TotalSizeUpdate(GroupsOf(init), k, (e.0, GroupsOf(init)[k].1 + [e.1]));
      } else {
        TotalSizeAppend(GroupsOf(init), (e.0, [e.1]));
      }
    }
  }

  lemma FirstIndexPrefix(ps: seq<string>, q: string, p: string)
    requires p in ps
    ensures FirstIndex(ps + [q], p) == FirstIndex(ps, p)
  {
    var k := FirstIndex(ps, p);
    assert (ps + [q])[k] == p;
  }

  /** Group order is first-appearance order: an earlier key's first hit comes before a later key's. */
  lemma {:induction false} KeysInFirstAppearanceOrder(es: seq<Entry>)
    ensures forall i, j :: 0 <= i < j < |Keys(es)| ==>
      Keys(es)[i] in Paths(es) && Keys(es)[j] in Paths(es) &&
      FirstIndex(Paths(es), Keys(es)[i]) < FirstIndex(Paths(es), Keys(es)[j])
    decreases |es|
  {
    KeysAreThePaths(es);
    if es != [] {
      var init := es[..|es| - 1];
      var e := es[|es| - 1];
      KeysInFirstAppearanceOrder(init);
      KeysAreThePaths(init);
      var ks := Keys(init);
      var ps := Paths(init);
      assert Paths(es) == ps + [e.0];
      forall i, j | 0 <= i < j < |Keys(es)|
        ensures FirstIndex(Paths(es), Keys(es)[i]) < FirstIndex(Paths(es), Keys(es)[j])
      {
        assert Keys(es)[i] == ks[i];
        FirstIndexPrefix(ps, e.0, ks[i]);
        if j < |ks| {
          FirstIndexPrefix(ps, e.0, ks[j]);
        } else {
          assert Keys(es)[j] == e.0 && e.0 !in ks;
          assert e.0 !in ps;
          assert FirstIndex(ps + [e.0], e.0) == |ps|;
        }
      }
    }
  }

  /** Each group lists exactly its path's infos, in arrival order: selection commutes with concatenation. */
  lemma {:induction false} SelectAppend(a: seq<Entry>, b: seq<Entry>, path: string)
    ensures Select(a + b, path) == Select(a, path) + Select(b, path)
    decreases |b|
  {
    if b == [] {
      assert a + b == a;
    } else {
      var b' := b[..|b| - 1];
      SelectAppend(a, b', path);
      assert (a + b)[..|a + b| - 1] == a + b';
    }
  }

  /** No kept hit is a folder, and none has an empty path. */
  lemma {:induction false} EntriesHaveNoFolders(rs: seq<Record>)
    ensures forall i :: 0 <= i < |Entries(rs)| ==> Entries(rs)[i].1.kind.GetOr("") != "Folder" && Entries(rs)[i].0 != ""
    decreases |rs|
  {
    if rs != [] {
      EntriesHaveNoFolders(rs[..|rs| - 1]);
    }
  }

  lemma {:induction false} SelectFromEntries(es: seq<Entry>, path: string)
    ensures forall x :: x in Select(es, path) ==> exists i :: 0 <= i < |es| && es[i] == (path, x)
    decreases |es|
  {
    if es != [] {
      var init := es[..|es| - 1];
      SelectFromEntries(init, path);
      forall x | x in Select(es, path) ensures exists i :: 0 <= i < |es| && es[i] == (path, x) {
        if x in Select(init, path) {
          var i :| 0 <= i < |init| && init[i] == (path, x);
          assert es[i] == (path, x);
        } else {
          assert es[|es| - 1] == (path, x);
        }
      }
    }
  }

  /** Folder hits never reach any group, in either output mode. */
  lemma NoFolderInGroups(rs: seq<Record>)
    ensures forall g, x :: g in GroupsOf(Entries(rs)) && x in g.1 ==> x.kind.GetOr("") != "Folder"
  {
    var es := Entries(rs);
    EntriesHaveNoFolders(rs);
    forall g, x | g in GroupsOf(es) && x in g.1 ensures x.kind.GetOr("") != "Folder" {
      SelectFromEntries(es, g.0);
    }
  }

  /**
   * `_group_results_by_file(results)`: the grouping of the kept hits, or the
   * message of the `AttributeError` the first unreadable hit raises (the groups
   * are then of no interest).
   */
  method GroupResultsByFile(results: seq<Record>) returns (fileGroups: Groups, raised: Option<string>)
    ensures raised == FirstRaised(results)
    ensures raised.None? ==> fileGroups == GroupsOf(Entries(results))
  {
    fileGroups, raised := [], None;
    for i := 0 to |results|
      invariant FirstRaised(results[..i]).None?
      invariant fileGroups == GroupsOf(Entries(results[..i]))
    {
      var result := results[i];
      TakeOneMore(results, i);
      assert FirstRaised(results[..i + 1]) == Raised(result);
      var es := Entries(results[..i]);
      assert Entries(results[..i + 1]) == es + EntryOf(result);
      if result.shape.HitNotAnObject? {
        raised := Some(NoAttributeGet(result.shape.typeName));
        FirstRaisedPrefix(results, i + 1);
        return;
      }
      var kind := result.kind.GetOr("");
      if kind == "Folder" {
        assert es + EntryOf(result) == es;
        continue;
      }
      if result.shape.LocationNotAnObject? {
        raised := Some(NoAttributeGet(result.shape.typeName));
        FirstRaisedPrefix(results, i + 1);
        return;
      }
      var path := ExtractPath(result);
      if !Truthy(path) {
        assert es + EntryOf(result) == es;
        continue;
      }
      if result.shape.RangeNotReadable? || (result.shape.EndNotAnObject? && result.startLine.Some?) {
        raised := Some(NoAttributeGet(result.shape.typeName));
        FirstRaisedPrefix(results, i + 1);
        return;
      }
      var info := BuildResultInfo(result, true);
      assert EntryOf(result) == [(path.value, info)];
      var k := IndexOfPath(fileGroups, path.value);
      ghost var before := fileGroups;
      if k == |fileGroups| {
        fileGroups := fileGroups + [(path.value, [])];
      }
      ghost var middle := fileGroups;
      fileGroups := fileGroups[k := (path.value, fileGroups[k].1 + [info])];
      FileStep(es, (path.value, info), k, before, middle, fileGroups);
    }
    Whole(results);
  }

  /** One filing step of the loop, on the reference definition: a new key goes last, a known one grows. */
  lemma FileStep(es: seq<Entry>, e: Entry, k: nat, before: Groups, middle: Groups, after: Groups)
    requires before == GroupsOf(es)
    requires k <= |before| && (k < |before| ==> before[k].0 == e.0)
    requires forall j :: 0 <= j < k ==> before[j].0 != e.0
    requires middle == if k == |before| then before + [(e.0, [])] else before
    requires k < |middle| && after == middle[k := (e.0, middle[k].1 + [e.1])]
    ensures after == GroupsOf(es + [e])
  {
    GroupsSnoc(es, e);
    assert |before| == |Keys(es)| && forall j :: 0 <= j < |before| ==> before[j].0 == Keys(es)[j];
    if k == |before| {
      assert e.0 !in Keys(es);
      assert after == before + [(e.0, [e.1])];
    } else {
      assert Keys(es)[k] == e.0;
    }
  }

  /** `path in file_groups`: the position of `path` among the keys, or their count when absent. */
  method IndexOfPath(fileGroups: Groups, path: string) returns (k: nat)
    ensures k <= |fileGroups|
    ensures k < |fileGroups| ==> fileGroups[k].0 == path
    ensures forall j :: 0 <= j < k ==> fileGroups[j].0 != path
  {
    k := 0;
    while k < |fileGroups| && fileGroups[k].0 != path
      invariant k <= |fileGroups|
      invariant forall j :: 0 <= j < k ==> fileGroups[j].0 != path
    {
      k := k + 1;
    }
  }
}
