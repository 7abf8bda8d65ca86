/**
 * The GraphQL query text the script sends for one page of the viewer's
 * repositories (`generate_query` in main.py), and its inverse: a parser that
 * reads the requested page size and the optional `after` cursor back out of
 * the text. The parser is what the modelled server uses to answer a query.
 */
module GraphQuery {
  import opened Wrappers

  /** Number of edges requested per page (`first: 100`). */
  const PageSize: nat := 100

  /** Decimal text of PageSize as it appears in the query. */
  const PageSizeText: string := "100"

  /** Query text up to and including `repositories(first: `. */
  const QueryHead: string := "\n        {\n            viewer {\n                repositories(first: "

  /** Query text from the closing parenthesis of the argument list to the end. */
  const QueryTail: string := ") {\n                    edges {\n                        cursor\n                        node {\n                            nameWithOwner\n                            pushedAt\n                            templateRepository {\n                                nameWithOwner\n                            }\n                        }\n                    }\n                }\n            }\n        }\n        "

  /** Opening of the cursor clause, up to the opening quote. */
  const AfterOpen: string := " after: \""

  /** What a query asks for: a page size and an optional start cursor. */
  datatype Request = Request(first: nat, after: Option<string>)

  /**
   * The cursor as Python's `if cursor:` sees it: `None` and the empty string
   * are both falsy, so neither yields a cursor.
   */
  function Truthy(cursor: Option<string>): (t: Option<string>)
    ensures t.Some? <==> cursor.Some? && cursor.value != ""
    ensures t.Some? ==> t == cursor
  {
    match cursor
    case Some(c) => if c != "" then Some(c) else None
    case None => None
  }

  /** The ` after: "<cursor>"` clause, present only for a truthy cursor. */
  function AfterClause(cursor: Option<string>): string
  {
    if Truthy(cursor).Some? then AfterOpen + cursor.value + "\"" else ""
  }

  /**
   * generate_query: the query always asks for PageSize edges, and starts
   * after the given cursor exactly when that cursor is truthy.
   */
  function GenerateQuery(cursor: Option<string>): (q: string)
    ensures ParseQuery(q) == Some(Request(PageSize, Truthy(cursor)))
  {
    var args := PageSizeText + AfterClause(cursor);
    ParseFramed(args);
    ParseAfterClause(cursor);
    ParseArgumentsGenerated(AfterClause(cursor));
    QueryHead + args + QueryTail
  }

  /** Reads a request back from a query text; None if the text is not a query of this shape. */
  function ParseQuery(q: string): Option<Request>
  {
    match StripPrefix(QueryHead, q)
    case None => None
    case Some(rest) =>
      match StripSuffix(QueryTail, rest)
      case None => None
      case Some(args) => ParseArguments(args)
  }

  /** Parses `<digits>` optionally followed by a cursor clause. */
  function ParseArguments(args: string): Option<Request>
  {
    var k := LeadingDigits(args);
    if k == 0 then None
    else
      match ParseAfter(args[k..])
      case None => None
      case Some(after) => Some(Request(DigitsValue(args[..k]), after))
  }

  /** Parses the part after the page size: nothing, or ` after: "<cursor>"`. */
  function ParseAfter(s: string): Option<Option<string>>
  {
    if s == "" then Some(None)
    else
      match StripPrefix(AfterOpen, s)
      case None => None
      case Some(rest) =>
        if rest != [] && rest[|rest| - 1] == '"' then Some(Some(rest[..|rest| - 1])) else None
  }

  /** `s` without `prefix`, if it starts with it. */
  function StripPrefix(prefix: string, s: string): Option<string>
  {
    if prefix == [] then Some(s)
    else if s != [] && s[0] == prefix[0] then StripPrefix(prefix[1..], s[1..])
    else None
  }

  /** `s` without `suffix`, if it ends with it. */
  function StripSuffix(suffix: string, s: string): Option<string>
  {
    if suffix == [] then Some(s)
    else if s != [] && s[|s| - 1] == suffix[|suffix| - 1] then StripSuffix(suffix[..|suffix| - 1], s[..|s| - 1])
    else None
  }

  /** Stripping a prefix undoes prepending it. */
  lemma {:induction false} StripPrefixOf(prefix: string, s: string)
    ensures StripPrefix(prefix, prefix + s) == Some(s)
  {
    if prefix != [] {
      assert (prefix + s)[1..] == prefix[1..] + s;
      StripPrefixOf(prefix[1..], s);
    } else {
      assert prefix + s == s;
    }
  }

  /** Stripping a suffix undoes appending it. */
  lemma {:induction false} StripSuffixOf(suffix: string, s: string)
    ensures StripSuffix(suffix, s + suffix) == Some(s)
  {
    if suffix != [] {
      var t := s + suffix;
      assert t[..|t| - 1] == s + suffix[..|suffix| - 1];
      StripSuffixOf(suffix[..|suffix| - 1], s);
    } else {
      assert s + suffix == s;
    }
  }

  predicate IsDigit(c: char)
  {
    '0' <= c <= '9'
  }

  /** Length of the longest prefix of `s` made of decimal digits. */
  function LeadingDigits(s: string): (k: nat)
    ensures k <= |s|
    ensures forall i :: 0 <= i < k ==> IsDigit(s[i])
    ensures k < |s| ==> !IsDigit(s[k])
  {
    if s != [] && IsDigit(s[0]) then 1 + LeadingDigits(s[1..]) else 0
  }

  /** Value of a decimal numeral. */
  function DigitsValue(d: string): nat
    requires forall i :: 0 <= i < |d| ==> IsDigit(d[i])
  {
    if d == [] then 0
    else
      assert IsDigit(d[|d| - 1]);
      10 * DigitsValue(d[..|d| - 1]) + (d[|d| - 1] as int - '0' as int)
  }

  /** Stripping the fixed head and tail of a query leaves its argument text. */
  lemma ParseFramed(args: string)
    ensures ParseQuery(QueryHead + args + QueryTail) == ParseArguments(args)
  {
    StripFrame(QueryHead, args, QueryTail);
  }

  lemma StripFrame(head: string, args: string, tail: string)
    ensures StripPrefix(head, head + args + tail) == Some(args + tail)
    ensures StripSuffix(tail, args + tail) == Some(args)
  {
    assert head + args + tail == head + (args + tail);
    StripPrefixOf(head, args + tail);
    StripSuffixOf(tail, args);
  }

  /** The argument list `100<clause>` parses back to the page size and the clause's cursor. */
  lemma ParseArgumentsGenerated(clause: string)
    requires clause == [] || clause[0] == ' '
    requires ParseAfter(clause).Some?
    ensures ParseArguments(PageSizeText + clause) == Some(Request(PageSize, ParseAfter(clause).value))
  {
    var args := PageSizeText + clause;
    assert args[..3] == PageSizeText && args[3..] == clause;
    LeadingDigitsOfPageSize(clause);
    assert DigitsValue("100") == 100 by {
      assert "100"[..2] == "10" && "10"[..1] == "1" && "1"[..0] == "";
    }
  }

  /** The cursor clause parses back to the truthy cursor. */
  lemma ParseAfterClause(cursor: Option<string>)
    ensures AfterClause(cursor) == [] || AfterClause(cursor)[0] == ' '
    ensures ParseAfter(AfterClause(cursor)) == Some(Truthy(cursor))
  {
    if Truthy(cursor).Some? {
      var c := cursor.value;
      assert AfterClause(cursor) == AfterOpen + (c + "\"");
      StripPrefixOf(AfterOpen, c + "\"");
      assert (c + "\"")[..|c|] == c;
    }
  }

  lemma LeadingDigitsOfPageSize(clause: string)
    requires clause == [] || clause[0] == ' '
    ensures LeadingDigits(PageSizeText + clause) == 3
  {
    var s := PageSizeText + clause;
    assert s[1..] == "00" + clause;
    assert s[1..][1..] == "0" + clause;
    assert s[1..][1..][1..] == clause;
  }

  /**
   * Two cursors yield the same query text exactly when Python treats them
   * alike: None and "" both give the query without a cursor clause.
   */
  lemma {:induction false} GenerateQuerySameIff(a: Option<string>, b: Option<string>)
    ensures GenerateQuery(a) == GenerateQuery(b) <==> Truthy(a) == Truthy(b)
  {
    if Truthy(a) == Truthy(b) {
      assert AfterClause(a) == AfterClause(b);
    }
  }
}
