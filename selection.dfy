/**
 * The projection at the end of `main` (main.py): the names of the
 * repositories `repo_filters` keeps, in the order they were fetched.
 */
module Selection {
  import opened Repos

  /** `[x.name for x in filter(repo_filter, results)]`. */
  function SelectNames(results: seq<Repo>, templateName: string, lastNDays: int, now: int): (names: seq<string>)
    ensures |names| <= |results|
  {
    if results == [] then []
    else
      var rest := SelectNames(results[..|results| - 1], templateName, lastNDays, now);
      var last := results[|results| - 1];
      if RepoFilter(last, templateName, lastNDays, now) then rest + [last.name] else rest
  }

  /** Positions of the kept repositories, in increasing order. */
  function KeptIndices(results: seq<Repo>, templateName: string, lastNDays: int, now: int): (idx: seq<nat>)
  {
    if results == [] then []
    else
      var rest := KeptIndices(results[..|results| - 1], templateName, lastNDays, now);
      if RepoFilter(results[|results| - 1], templateName, lastNDays, now) then rest + [|results| - 1] else rest
  }

  /**
   * The projection is a stable filter: its k-th name is the name of the k-th
   * kept repository; the kept positions increase; every kept repository
   * appears, and only kept ones do.
   */
  lemma {:induction false} SelectNamesIsStableFilter(results: seq<Repo>, templateName: string, lastNDays: int, now: int)
    ensures var idx := KeptIndices(results, templateName, lastNDays, now);
      var names := SelectNames(results, templateName, lastNDays, now);
      && |names| == |idx|
      && (forall k :: 0 <= k < |idx| ==>
            idx[k] < |results| && RepoFilter(results[idx[k]], templateName, lastNDays, now) && names[k] == results[idx[k]].name)
      && (forall k, l :: 0 <= k < l < |idx| ==> idx[k] < idx[l])
      && (forall i :: 0 <= i < |results| && RepoFilter(results[i], templateName, lastNDays, now) ==> i in idx)
  {
    if results != [] {
      var init, last := results[..|results| - 1], results[|results| - 1];
      SelectNamesIsStableFilter(init, templateName, lastNDays, now);
      var idx := KeptIndices(results, templateName, lastNDays, now);
      var initIdx := KeptIndices(init, templateName, lastNDays, now);
      assert forall i :: 0 <= i < |init| ==> results[i] == init[i];
      if RepoFilter(last, templateName, lastNDays, now) {
        assert idx == initIdx + [|init|];
        assert idx[|initIdx|] == |init|;
      } else {
        assert idx == initIdx;
      }
    }
  }

  /** Filtering the concatenation of two lists is the concatenation of the filtered lists. */
  lemma {:induction false} SelectNamesAppend(a: seq<Repo>, b: seq<Repo>, templateName: string, lastNDays: int, now: int)
    ensures SelectNames(a + b, templateName, lastNDays, now)
         == SelectNames(a, templateName, lastNDays, now) + SelectNames(b, templateName, lastNDays, now)
    decreases |b|
  {
    if b == [] {
      assert a + b == a;
    } else {
      var init, last := b[..|b| - 1], b[|b| - 1];
      SelectNamesAppend(a, init, templateName, lastNDays, now);
      assert a + b == (a + init) + [last];
      SelectNamesSnoc(a + init, last, templateName, lastNDays, now);
      assert b == init + [last];
      SelectNamesSnoc(init, last, templateName, lastNDays, now);
    }
  }

  /** Appending one repository appends its name exactly when it is kept. */
  lemma SelectNamesSnoc(rs: seq<Repo>, r: Repo, templateName: string, lastNDays: int, now: int)
    ensures SelectNames(rs + [r], templateName, lastNDays, now)
         == SelectNames(rs, templateName, lastNDays, now) + (if RepoFilter(r, templateName, lastNDays, now) then [r.name] else [])
  {
    assert (rs + [r])[..|rs|] == rs;
  }

  /** A name is selected iff some kept repository carries it. */
  lemma SelectedIff(results: seq<Repo>, templateName: string, lastNDays: int, now: int, name: string)
    ensures name in SelectNames(results, templateName, lastNDays, now)
        <==> exists i :: 0 <= i < |results| && RepoFilter(results[i], templateName, lastNDays, now) && results[i].name == name
  {
    SelectNamesIsStableFilter(results, templateName, lastNDays, now);
    var idx := KeptIndices(results, templateName, lastNDays, now);
    var names := SelectNames(results, templateName, lastNDays, now);
    if name in names {
      var k :| 0 <= k < |names| && names[k] == name;
      assert RepoFilter(results[idx[k]], templateName, lastNDays, now) && results[idx[k]].name == name;
    }
    if exists i :: 0 <= i < |results| && RepoFilter(results[i], templateName, lastNDays, now) && results[i].name == name {
      var i :| 0 <= i < |results| && RepoFilter(results[i], templateName, lastNDays, now) && results[i].name == name;
      assert i in idx;
      var k :| 0 <= k < |idx| && idx[k] == i;
      assert names[k] == name;
    }
  }
}
