/**
 * The paginated fetch in `main` (main.py): query a page of up to PageSize
 * edges, append every edge's node as a `Repo`, stop on the first short page,
 * otherwise continue after the last edge's cursor.
 */
module Pagination {
  import opened Wrappers
  import opened GraphQuery
  import opened Repos
  import opened RepoServer

  /** `[Repo(x['node']) for x in edges]`. */
  function Records(edges: seq<Edge>): (rs: seq<Repo>)
  {
    seq(|edges|, i requires 0 <= i < |edges| => FromNode(edges[i].node))
  }

  /** Building records commutes with concatenation (`results.extend`). */
  lemma RecordsAppend(a: seq<Edge>, b: seq<Edge>)
    ensures Records(a + b) == Records(a) + Records(b)
  {
    var l, r := Records(a + b), Records(a) + Records(b);
    assert |l| == |r|;
    forall i | 0 <= i < |l| ensures l[i] == r[i] {
      if i < |a| { assert (a + b)[i] == a[i]; } else { assert (a + b)[i] == b[i - |a|]; }
    }
  }

  /** All pages joined in order. */
  function Concat(pages: seq<seq<Edge>>): seq<Edge>
  {
    if pages == [] then [] else pages[0] + Concat(pages[1..])
  }

  /**
   * The pages a walk over `edges` receives: full pages of PageSize edges,
   * then one page shorter than PageSize (empty when PageSize divides |edges|).
   */
  function Chunks(edges: seq<Edge>): seq<seq<Edge>>
    decreases |edges|
  {
    if |edges| < PageSize then [edges] else [edges[..PageSize]] + Chunks(edges[PageSize..])
  }

  /**
   * Every page but the last is full, the last is short, together they are
   * the whole list in order, and there are |edges| / PageSize + 1 of them.
   */
  lemma {:induction false} ChunksShape(edges: seq<Edge>)
    ensures var pages := Chunks(edges);
      && |pages| == |edges| / PageSize + 1
      && Concat(pages) == edges
      && (forall k :: 0 <= k < |pages| - 1 ==> |pages[k]| == PageSize)
      && |pages[|pages| - 1]| < PageSize
    decreases |edges|
  {
    if |edges| >= PageSize {
      var rest := edges[PageSize..];
      ChunksShape(rest);
      var pages := Chunks(edges);
      assert pages == [edges[..PageSize]] + Chunks(rest);
      assert pages[1..] == Chunks(rest);
      assert edges[..PageSize] + rest == edges;
      forall k | 0 <= k < |pages| - 1 ensures |pages[k]| == PageSize {
        if k > 0 { assert pages[k] == Chunks(rest)[k - 1]; }
      }
    }
  }

  /**
   * Page counts for a list of 250 and of 200 repositories: three fetches
   * each, the last of 50 and of 0 edges.
   */
  lemma FetchCountExamples(edges: seq<Edge>)
    ensures |edges| == 250 ==>
      |Chunks(edges)| == 3 && |Chunks(edges)[0]| == 100 && |Chunks(edges)[1]| == 100 && |Chunks(edges)[2]| == 50
    ensures |edges| == 200 ==> |Chunks(edges)| == 3 && Chunks(edges)[2] == []
  {
    ChunksShape(edges);
    if |edges| == 250 {
      assert |Concat(Chunks(edges))| == 250;
      ConcatLength3(Chunks(edges));
    } else if |edges| == 200 {
      ConcatLength3(Chunks(edges));
    }
  }

  lemma ConcatLength3(pages: seq<seq<Edge>>)
    requires |pages| == 3
    ensures |Concat(pages)| == |pages[0]| + |pages[1]| + |pages[2]|
  {
    assert Concat(pages) == pages[0] + Concat(pages[1..]);
    assert Concat(pages[1..]) == pages[1] + Concat(pages[1..][1..]);
    assert Concat(pages[1..][1..]) == pages[2] + Concat(pages[1..][1..][1..]);
    assert pages[1..][1..][1..] == [];
  }

  function Min(a: int, b: int): int
  {
    if a <= b then a else b
  }

  /** The k-th page of a walk starts at edge PageSize * k. */
  lemma {:induction false} ChunkAt(edges: seq<Edge>, k: nat)
    requires k < |Chunks(edges)|
    ensures PageSize * k <= |edges|
    ensures Chunks(edges)[k] == edges[PageSize * k..Min(PageSize * k + PageSize, |edges|)]
    decreases k
  {
    if k > 0 {
      var rest := edges[PageSize..];
      assert Chunks(edges) == [edges[..PageSize]] + Chunks(rest);
      ChunkAt(rest, k - 1);
      assert Chunks(edges)[k] == Chunks(rest)[k - 1];
      assert rest[PageSize * (k - 1)..Min(PageSize * (k - 1) + PageSize, |rest|)]
          == edges[PageSize * k..Min(PageSize * k + PageSize, |edges|)];
    }
  }

  /** The first `n` pages of a walk, all full. */
  function FullPages(edges: seq<Edge>, n: nat): (pages: seq<seq<Edge>>)
    requires PageSize * n <= |edges|
  {
    seq(n, k requires 0 <= k < n => edges[PageSize * k..PageSize * k + PageSize])
  }

  /** The cursors the first `n` queries of a walk are built from. */
  function CursorsSent(edges: seq<Edge>, n: nat): (sent: seq<Option<string>>)
    requires n == 0 || PageSize * (n - 1) <= |edges|
  {
    seq(n, k requires 0 <= k < n => CursorBefore(edges, PageSize * k))
  }

  /** One more page read in full. */
  lemma WalkStep(edges: seq<Edge>, n: nat)
    requires PageSize * (n + 1) <= |edges|
    ensures FullPages(edges, n + 1) == FullPages(edges, n) + [edges[PageSize * n..PageSize * n + PageSize]]
  {
    assert FullPages(edges, n + 1)[n] == edges[PageSize * n..PageSize * n + PageSize];
  }

  /** One more query, built from the cursor of the edge before the page it asks for. */
  lemma CursorStep(edges: seq<Edge>, n: nat)
    requires PageSize * n <= |edges|
    ensures CursorsSent(edges, n + 1) == CursorsSent(edges, n) + [CursorBefore(edges, PageSize * n)]
  {
    assert CursorsSent(edges, n + 1)[n] == CursorBefore(edges, PageSize * n);
  }

  /**
   * Full pages read in order followed by the short rest of the list are the
   * pages Chunks describes.
   */
  lemma PagesAreChunks(edges: seq<Edge>, n: nat)
    requires PageSize * n <= |edges| < PageSize * n + PageSize
    ensures FullPages(edges, n) + [edges[PageSize * n..]] == Chunks(edges)
  {
    var pages := FullPages(edges, n) + [edges[PageSize * n..]];
    var chunks := Chunks(edges);
    ChunkCount(edges, n);
    forall k | 0 <= k < n ensures pages[k] == chunks[k] {
      ChunkAt(edges, k);
      assert pages[k] == FullPages(edges, n)[k];
    }
    ChunkAt(edges, n);
    assert Min(PageSize * n + PageSize, |edges|) == |edges|;
    assert pages[n] == edges[PageSize * n..] == edges[PageSize * n..|edges|] == chunks[n];
  }

  /** A list of between PageSize * n and PageSize * n + PageSize - 1 edges takes n + 1 pages. */
  lemma {:induction false} ChunkCount(edges: seq<Edge>, n: nat)
    requires PageSize * n <= |edges| < PageSize * n + PageSize
    ensures |Chunks(edges)| == n + 1
  {
    if n > 0 {
      ChunkCount(edges[PageSize..], n - 1);
    }
  }

  /** Records of a prefix extended by the edges up to `next`. */
  lemma RecordsExtend(edges: seq<Edge>, pos: nat, next: nat)
    requires pos <= next <= |edges|
    ensures Records(edges[..pos]) + Records(edges[pos..next]) == Records(edges[..next])
  {
    RecordsAppend(edges[..pos], edges[pos..next]);
    assert edges[..pos] + edges[pos..next] == edges[..next];
  }

  /** The cursor a query is built from once `pos` edges have been read. */
  function CursorBefore(edges: seq<Edge>, pos: nat): Option<string>
    requires pos <= |edges|
  {
    if pos == 0 then None else Some(edges[pos - 1].cursor)
  }

  /** Querying with the cursor of edge `pos - 1` returns the edges from `pos` on. */
  lemma AnswerAt(server: Server, pos: nat)
    requires server.WellFormed() && pos <= |server.edges|
    ensures var c := CursorBefore(server.edges, pos);
      && Truthy(c) == c
      && (c.None? || server.Issued(c.value))
      && server.Answer(Request(PageSize, c)) == server.edges[pos..Min(pos + PageSize, |server.edges|)]
  {
    if pos > 0 {
      CursorIndexOfEdge(server, pos - 1);
    }
  }

  /**
   * One round trip: build the query for `cursor` and execute it. The server
   * answers with up to PageSize edges after the cursor when it is truthy,
   * from the start otherwise. Within a walk, where `cursor` is that of the
   * edge before position `pos`, this is the next PageSize edges from `pos`.
   */
  method FetchPage(server: Server, cursor: Option<string>, ghost pos: nat) returns (page: seq<Edge>)
    requires server.WellFormed() && pos <= |server.edges| && cursor == CursorBefore(server.edges, pos)
    ensures page == server.Answer(Request(PageSize, Truthy(cursor)))
    ensures page == server.edges[pos..Min(pos + PageSize, |server.edges|)]
  {
    AnswerAt(server, pos);
    var query := GenerateQuery(cursor);
    page := server.Respond(query);
  }

  /**
   * The loop of `main`. Returns `results` and, as ghost outputs, the cursor
   * each query was built from (`sent`) and the page each returned
   * (`fetched`). WalkTrace states what these traces promise.
   */
  method FetchAll(server: Server) returns (results: seq<Repo>, ghost sent: seq<Option<string>>, ghost fetched: seq<seq<Edge>>)
    requires server.WellFormed()
    ensures results == Records(server.edges)
    ensures fetched == Chunks(server.edges)
    ensures |sent| == |fetched| && PageSize * (|sent| - 1) <= |server.edges|
    ensures sent == CursorsSent(server.edges, |sent|)
  {
    var edges := server.edges;
    var currentCursor: Option<string> := None;
    results := [];
    sent, fetched := [], [];
    ghost var pos := 0;
    while true
      invariant 0 <= pos <= |edges| && pos == PageSize * |fetched|
      invariant currentCursor == CursorBefore(edges, pos)
      invariant results == Records(edges[..pos])
      invariant fetched == FullPages(edges, |fetched|)
      invariant sent == CursorsSent(edges, |fetched|)
      decreases |edges| - pos
    {
      var page := FetchPage(server, currentCursor, pos);
      ghost var next := Min(pos + PageSize, |edges|);
      RecordsExtend(edges, pos, next);
      results := results + Records(page);
      CursorStep(edges, |fetched|);
      if |page| < PageSize {
        PagesAreChunks(edges, |fetched|);
        sent, fetched := sent + [currentCursor], fetched + [page];
        break;
      }
      WalkStep(edges, |fetched|);
      sent, fetched := sent + [currentCursor], fetched + [page];
      currentCursor := Some(page[|page| - 1].cursor);
      pos := pos + PageSize;
    }
    assert edges[..|edges|] == edges;
  }

  /**
   * The trace of a complete walk: the first query has no cursor; each later
   * query's cursor is that of the last edge of the previous page, which was
   * full; every cursor sent was issued by the server; and each page is the
   * server's answer to its query.
   */
  lemma WalkTrace(server: Server)
    requires server.WellFormed()
    ensures |Chunks(server.edges)| > 0 && PageSize * (|Chunks(server.edges)| - 1) <= |server.edges|
    ensures var pages := Chunks(server.edges);
      var sent := CursorsSent(server.edges, |pages|);
      && sent[0] == None
      && (forall k :: 0 < k < |pages| ==>
            |pages[k - 1]| == PageSize && sent[k] == Some(pages[k - 1][PageSize - 1].cursor))
      && (forall k :: 0 <= k < |pages| ==>
            (sent[k].None? || server.Issued(sent[k].value)) && pages[k] == server.Answer(Request(PageSize, sent[k])))
  {
    var pages := Chunks(server.edges);
    ChunksShape(server.edges);
    var sent := CursorsSent(server.edges, |pages|);
    forall k | 0 <= k < |pages|
      ensures (sent[k].None? || server.Issued(sent[k].value)) && pages[k] == server.Answer(Request(PageSize, sent[k]))
      ensures k > 0 ==> |pages[k - 1]| == PageSize && sent[k] == Some(pages[k - 1][PageSize - 1].cursor)
    {
      PageFacts(server, k);
    }
  }

  /**
   * The k-th page of a walk is the server's answer to the cursor of the edge
   * before it, and that cursor closes the previous page, which was full.
   */
  lemma PageFacts(server: Server, k: nat)
    requires server.WellFormed() && k < |Chunks(server.edges)|
    ensures PageSize * k <= |server.edges|
    ensures var c := CursorBefore(server.edges, PageSize * k);
      && (c.None? || server.Issued(c.value))
      && Chunks(server.edges)[k] == server.Answer(Request(PageSize, c))
      && (k > 0 ==> |Chunks(server.edges)[k - 1]| == PageSize && c == Some(Chunks(server.edges)[k - 1][PageSize - 1].cursor))
  {
    var edges := server.edges;
    ChunkAt(edges, k);
    AnswerAt(server, PageSize * k);
    if k > 0 {
      ChunkAt(edges, k - 1);
    }
  }
}
