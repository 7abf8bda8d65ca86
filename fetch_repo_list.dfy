/**
 * `main` (main.py) without argument parsing and without writing repos.txt:
 * fetch every repository of the viewer page by page, then keep the names of
 * those generated from the template and pushed within the window.
 */
module FetchRepoList {
  import opened Wrappers
  import opened Repos
  import opened RepoServer
  import opened Pagination
  import opened Selection

  /** Default of `--last_active`. */
  const DefaultLastActive: int := 28

  /**
   * Default of `--template_name`. Command-line parsing is not modelled, so
   * this only records the default; `Run` takes the template name as a
   * parameter.
   */
  const DefaultTemplateName: string := "SFLScientific/SFL-Template"

  /**
   * The repository names `main` writes out: the names of the server's
   * repositories that pass the filter, in the server's order. With `now`
   * on the UTC scale of `pushedAt` this is the intended filter; passing the
   * local wall-clock reading `utcNow + utcOffset` instead gives the script
   * as written, which is `RepoFilterAsWritten`.
   */
  method Run(server: Server, templateName: string, lastActive: int, now: int) returns (repoList: seq<string>)
    requires server.WellFormed()
    ensures repoList == SelectNames(Records(server.edges), templateName, lastActive, now)
    ensures |repoList| <= |server.edges|
  {
    var results;
    ghost var sent, fetched;
    results, sent, fetched := FetchAll(server);
    repoList := SelectNames(results, templateName, lastActive, now);
  }

  /**
   * The selected names are the page-by-page selections joined in fetch
   * order: nothing depends on where the page boundaries fall.
   */
  lemma {:induction false} SelectionPerPage(pages: seq<seq<Edge>>, templateName: string, lastNDays: int, now: int)
    ensures SelectNames(Records(Concat(pages)), templateName, lastNDays, now)
         == SelectPages(pages, templateName, lastNDays, now)
  {
    if pages != [] {
      SelectionPerPage(pages[1..], templateName, lastNDays, now);
      RecordsAppend(pages[0], Concat(pages[1..]));
      SelectNamesAppend(Records(pages[0]), Records(Concat(pages[1..])), templateName, lastNDays, now);
    }
  }

  /** The names selected from each page, joined in order. */
  function SelectPages(pages: seq<seq<Edge>>, templateName: string, lastNDays: int, now: int): seq<string>
  {
    if pages == [] then []
    else SelectNames(Records(pages[0]), templateName, lastNDays, now) + SelectPages(pages[1..], templateName, lastNDays, now)
  }

  /**
   * Two repositories pushed five days ago, one generated from `org/tpl` and
   * one from `other/tpl`, with a window of 28 days: only the first is
   * reported, after a single fetch.
   */
  lemma TwoRepositoryExample(now: int)
    ensures var server := Server([
        Edge("c1", Node("a/x", now - 5 * MicrosPerDay, Some(TemplateRepository("org/tpl")))),
        Edge("c2", Node("a/y", now - 5 * MicrosPerDay, Some(TemplateRepository("other/tpl"))))]);
      && server.WellFormed()
      && |Chunks(server.edges)| == 1
      && SelectNames(Records(server.edges), "org/tpl", DefaultLastActive, now) == ["a/x"]
  {
    var x := Node("a/x", now - 5 * MicrosPerDay, Some(TemplateRepository("org/tpl")));
    var y := Node("a/y", now - 5 * MicrosPerDay, Some(TemplateRepository("other/tpl")));
    var edges := [Edge("c1", x), Edge("c2", y)];
    var records := Records(edges);
    assert records == [FromNode(x), FromNode(y)];
    assert records[..1] == [FromNode(x)] && records[..1][..0] == [];
    assert RepoFilter(FromNode(x), "org/tpl", DefaultLastActive, now);
    assert !RepoFilter(FromNode(y), "org/tpl", DefaultLastActive, now);
  }
}
