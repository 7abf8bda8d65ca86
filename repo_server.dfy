/**
 * The remote end of `client.execute`: the viewer's repositories as one list
 * of edges, each with its opaque cursor, answered page by page. A query text
 * is read back with GraphQuery.ParseQuery and answered with up to `first`
 * edges following the edge whose cursor is `after` (from the start when
 * there is no cursor). This stands in for the GraphQL API, which is not part
 * of this model.
 */
module RepoServer {
  import opened Wrappers
  import opened GraphQuery
  import opened Repos

  /** One element of `repositories.edges`. */
  datatype Edge = Edge(cursor: string, node: Node)

  /** Position of the first edge at or after `from` carrying `cursor`, or |edges| if none does. */
  function CursorIndex(edges: seq<Edge>, cursor: string, from: nat): (i: nat)
    requires from <= |edges|
    ensures from <= i <= |edges|
    ensures i < |edges| ==> edges[i].cursor == cursor
    ensures forall j :: from <= j < i ==> edges[j].cursor != cursor
    decreases |edges| - from
  {
    if from == |edges| then from
    else if edges[from].cursor == cursor then from
    else CursorIndex(edges, cursor, from + 1)
  }

  datatype Server = Server(edges: seq<Edge>) {
    /**
     * What the platform guarantees of its cursors: non-empty (so Python
     * treats them as truthy), free of `"` and `\` (so the unescaped
     * `after: "<cursor>"` is a GraphQL string literal denoting the cursor
     * itself), and distinct.
     */
    predicate WellFormed()
    {
      && (forall i :: 0 <= i < |edges| ==> edges[i].cursor != "")
      && (forall i :: 0 <= i < |edges| ==> '"' !in edges[i].cursor && '\\' !in edges[i].cursor)
      && (forall i, j :: 0 <= i < j < |edges| ==> edges[i].cursor != edges[j].cursor)
    }

    /** The cursor belongs to one of the server's edges. */
    predicate Issued(cursor: string)
    {
      exists i :: 0 <= i < |edges| && edges[i].cursor == cursor
    }

    /** Index of the first edge served after `after`. */
    function Start(after: Option<string>): (s: nat)
      requires after.None? || Issued(after.value)
      ensures s <= |edges|
      ensures after.Some? ==> 0 < s && edges[s - 1].cursor == after.value
    {
      match after
      case None => 0
      case Some(c) => CursorIndex(edges, c, 0) + 1
    }

    /** Up to `request.first` edges following the `after` cursor. */
    function Answer(request: Request): (page: seq<Edge>)
      requires request.after.None? || Issued(request.after.value)
      ensures |page| <= request.first && Start(request.after) + |page| <= |edges|
      ensures var s := Start(request.after);
        page == edges[s..s + |page|] && (|page| < request.first ==> s + |page| == |edges|)
    {
      var s := Start(request.after);
      var e := if s + request.first <= |edges| then s + request.first else |edges|;
      edges[s..e]
    }

    /** The page of edges returned for a query text. */
    function Respond(query: string): (page: seq<Edge>)
      requires ParseQuery(query).Some?
      requires ParseQuery(query).value.after.None? || Issued(ParseQuery(query).value.after.value)
    {
      Answer(ParseQuery(query).value)
    }
  }

  /** In a well-formed server an edge's cursor leads back to that very edge. */
  lemma CursorIndexOfEdge(server: Server, k: nat)
    requires server.WellFormed() && k < |server.edges|
    ensures server.Issued(server.edges[k].cursor)
    ensures server.Start(Some(server.edges[k].cursor)) == k + 1
  {
  }
}
