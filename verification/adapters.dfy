/**
 How the two fetchers turn search results into rows: one search per query,
 at most 12 results per search, and every row tagged with the material, the
 query that found it and the source.
 */
module Adapters {
  import opened Wrappers
  import opened Seqs
  import opened Text
  import opened Queries
  import opened Items

  /** `MAX_ITEMS_PER_MATERIAL_PER_SOURCE`. */
  const MaxItems: nat := 12

  /** The summary length `summarize_text` uses by default. */
  const SummaryChars: nat := 280

  const NewsSource: string := "GoogleNewsRSS"
  const GdeltSource: string := "GDELT"

  /** One RSS entry; a missing key reads as "". */
  datatype FeedEntry = FeedEntry(title: string, link: string, published: string, updated: string, summary: string)

  /** One GDELT article; a missing or null key reads as "". */
  datatype Article = Article(
    title: string, url: string, seendate: string, publishedDate: string,
    seendescription: string, sourceCommonName: string)

  /** The library steps the fetchers rely on: HTML tools and the Google News redirect unwrapping. */
  datatype NewsTools = NewsTools(html: HtmlTools, unwrapLink: string -> string)

  /** Python's `a or b` on two strings. */
  function Or(a: string, b: string): string {
    if |a| > 0 then a else b
  }

  /** `xs[:n]`. */
  function Take<T>(xs: seq<T>, n: nat): (r: seq<T>)
    ensures |r| == if |xs| < n then |xs| else n
    ensures forall i :: 0 <= i < |r| ==> r[i] == xs[i]
  {
    if |xs| <= n then xs else xs[..n]
  }

  function NewsRow(tools: NewsTools, material: string, q: string, e: FeedEntry): (r: Candidate)
    ensures r.material == material && r.queryVariant == q && r.source == NewsSource
    ensures Tidy(r.title)
    ensures |r.summary| <= SummaryChars + 1
  {
    Candidate(material, q, CleanText(tools.html.unescape, e.title), tools.unwrapLink(e.link),
              Or(e.published, e.updated), NewsSource, SummarizeText(tools.html, e.summary, SummaryChars))
  }

  /** The rows of one Google News search: the first 12 entries, in feed order. */
  function NewsRowsOf(tools: NewsTools, material: string, q: string, entries: seq<FeedEntry>): (rows: seq<Candidate>)
    ensures |rows| == if |entries| < MaxItems then |entries| else MaxItems
    ensures forall i :: 0 <= i < |rows| ==> rows[i] == NewsRow(tools, material, q, entries[i])
    ensures forall i :: 0 <= i < |rows| ==>
      rows[i].material == material && rows[i].queryVariant == q && rows[i].source == NewsSource && Tidy(rows[i].title)
  {
    var es := Take(entries, MaxItems);
    seq(|es|, i requires 0 <= i < |es| => NewsRow(tools, material, q, es[i]))
  }

  /** The rows the Google News search for one query yields. */
  function NewsHits(tools: NewsTools, search: string -> seq<FeedEntry>, material: string): string -> seq<Candidate>
  {
    q => NewsRowsOf(tools, material, q, search(NewsQuery(q)))
  }

  /**
   The loop of `fetch_google_news` over `queries`: the search for each query
   string, rows tagged with the query, in query order.
   */
  function NewsLoop(tools: NewsTools, search: string -> seq<FeedEntry>, material: string, queries: seq<string>)
    : (rows: seq<Candidate>)
    ensures |rows| <= MaxItems * |queries|
    ensures forall i :: 0 <= i < |rows| ==>
      && rows[i].material == material && rows[i].source == NewsSource
      && rows[i].queryVariant in queries && Tidy(rows[i].title)
    decreases |queries|
  {
    if |queries| == 0 then []
    else
      var here := NewsRowsOf(tools, material, queries[0], search(NewsQuery(queries[0])));
      var rest := NewsLoop(tools, search, material, queries[1..]);
      assert |here + rest| <= MaxItems * |queries| by {
        assert MaxItems * |queries| == MaxItems + MaxItems * |queries[1..]|;
      }
      TailMembers(queries);
      here + rest
  }

  /** The loop yields each query's search rows, one block per query, joined in query order. */
  lemma {:induction false} NewsLoopBlocks(tools: NewsTools, search: string -> seq<FeedEntry>, material: string,
                                          queries: seq<string>)
    ensures NewsLoop(tools, search, material, queries) == Flatten(Map(NewsHits(tools, search, material), queries))
    decreases |queries|
  {
    if |queries| > 0 {
      NewsLoopBlocks(tools, search, material, queries[1..]);
      FlattenMapCons(NewsHits(tools, search, material), queries);
    }
  }

  /** One more query appends the rows of its own search. */
  lemma NewsLoopSnoc(tools: NewsTools, search: string -> seq<FeedEntry>, material: string, queries: seq<string>,
                     q: string)
    ensures NewsLoop(tools, search, material, queries + [q])
      == NewsLoop(tools, search, material, queries) + NewsRowsOf(tools, material, q, search(NewsQuery(q)))
  {
    NewsLoopBlocks(tools, search, material, queries + [q]);
    NewsLoopBlocks(tools, search, material, queries);
    FlattenMapSnoc(NewsHits(tools, search, material), queries, q);
  }

  lemma TailMembers(xs: seq<string>)
    requires |xs| > 0
    ensures forall x :: x in xs[1..] ==> x in xs
  {
  }

  /** `fetch_google_news(material)`: one search per expanded query. */
  function NewsRows(tools: NewsTools, search: string -> seq<FeedEntry>, synonyms: map<string, seq<string>>,
                    material: string): (rows: seq<Candidate>)
    ensures rows == Flatten(Map(NewsHits(tools, search, material), ExpandQueries(synonyms, material)))
    ensures |rows| <= MaxItems * |ExpandQueries(synonyms, material)|
    ensures forall i :: 0 <= i < |rows| ==>
      && rows[i].material == material && rows[i].source == NewsSource
      && rows[i].queryVariant in ExpandQueries(synonyms, material)
  {
    NewsLoopBlocks(tools, search, material, ExpandQueries(synonyms, material));
    NewsLoop(tools, search, material, ExpandQueries(synonyms, material))
  }

  function GdeltRow(unescape: string -> string, material: string, q: string, a: Article): (r: Candidate)
    ensures r.material == material && r.queryVariant == q && r.source == GdeltSource
    ensures Tidy(r.title) && Tidy(r.summary)
  {
    Candidate(material, q, CleanText(unescape, a.title), a.url, Or(a.seendate, a.publishedDate), GdeltSource,
              CleanText(unescape, Or(a.seendescription, a.sourceCommonName)))
  }

  /** The rows of one GDELT search; a failed request or an undecodable answer gives none. */
  function GdeltRowsOf(unescape: string -> string, material: string, q: string, answer: Option<seq<Article>>)
    : (rows: seq<Candidate>)
    ensures |rows| <= MaxItems
    ensures answer.None? ==> rows == []
    ensures answer.Some? ==> |rows| == if |answer.value| < MaxItems then |answer.value| else MaxItems
    ensures forall i :: 0 <= i < |rows| ==>
      rows[i].material == material && rows[i].queryVariant == q && rows[i].source == GdeltSource && Tidy(rows[i].title)
    ensures answer.Some? ==> forall i :: 0 <= i < |rows| ==> rows[i] == GdeltRow(unescape, material, q, answer.value[i])
  {
    match answer
    case None => []
    case Some(articles) =>
      var xs := Take(articles, MaxItems);
      seq(|xs|, i requires 0 <= i < |xs| => GdeltRow(unescape, material, q, xs[i]))
  }

  /** The rows the GDELT search for one query yields. */
  function GdeltHits(unescape: string -> string, search: string -> Option<seq<Article>>, material: string)
    : string -> seq<Candidate>
  {
    q => GdeltRowsOf(unescape, material, q, search(q))
  }

  /** The loop of `fetch_gdelt` over `queries`. */
  function GdeltLoop(unescape: string -> string, search: string -> Option<seq<Article>>, material: string,
                     queries: seq<string>): (rows: seq<Candidate>)
    ensures |rows| <= MaxItems * |queries|
    ensures forall i :: 0 <= i < |rows| ==>
      && rows[i].material == material && rows[i].source == GdeltSource
      && rows[i].queryVariant in queries && Tidy(rows[i].title)
    decreases |queries|
  {
    if |queries| == 0 then []
    else
      var here := GdeltRowsOf(unescape, material, queries[0], search(queries[0]));
      var rest := GdeltLoop(unescape, search, material, queries[1..]);
      assert |here + rest| <= MaxItems * |queries| by {
        assert MaxItems * |queries| == MaxItems + MaxItems * |queries[1..]|;
      }
      TailMembers(queries);
      here + rest
  }

  /** The loop yields each query's search rows, one block per query, joined in query order. */
  lemma {:induction false} GdeltLoopBlocks(unescape: string -> string, search: string -> Option<seq<Article>>,
                                           material: string, queries: seq<string>)
    ensures GdeltLoop(unescape, search, material, queries) == Flatten(Map(GdeltHits(unescape, search, material), queries))
    decreases |queries|
  {
    if |queries| > 0 {
      GdeltLoopBlocks(unescape, search, material, queries[1..]);
      FlattenMapCons(GdeltHits(unescape, search, material), queries);
    }
  }

  /** `fetch_gdelt(material)`: one search per GDELT query. */
  function GdeltRows(unescape: string -> string, search: string -> Option<seq<Article>>,
                     synonyms: map<string, seq<string>>, material: string): (rows: seq<Candidate>)
    ensures rows == Flatten(Map(GdeltHits(unescape, search, material), GdeltQueries(synonyms, material)))
    ensures |rows| <= MaxItems * (|ExpandQueries(synonyms, material)| + 2)
    ensures forall i :: 0 <= i < |rows| ==>
      && rows[i].material == material && rows[i].source == GdeltSource
      && rows[i].queryVariant in GdeltQueries(synonyms, material)
  {
    GdeltLoopBlocks(unescape, search, material, GdeltQueries(synonyms, material));
    GdeltLoop(unescape, search, material, GdeltQueries(synonyms, material))
  }

  /** A query whose search fails adds nothing; the rows of the other queries are unchanged. */
  lemma GdeltLoopSkipsFailure(unescape: string -> string, search: string -> Option<seq<Article>>,
                              material: string, before: seq<string>, q: string, after: seq<string>)
    requires search(q).None?
    ensures GdeltLoop(unescape, search, material, before + [q] + after)
      == GdeltLoop(unescape, search, material, before) + GdeltLoop(unescape, search, material, after)
  {
    var hits := GdeltHits(unescape, search, material);
    assert hits(q) == [];
    GdeltLoopBlocks(unescape, search, material, before + [q] + after);
    GdeltLoopBlocks(unescape, search, material, before);
    GdeltLoopBlocks(unescape, search, material, after);
    FlattenMapSkip(hits, before, q, after);
  }

  /** The rows fetched for one material: the Google News rows, then the GDELT rows. */
  function FetchMaterial(tools: NewsTools, news: string -> seq<FeedEntry>, gdelt: string -> Option<seq<Article>>,
                         synonyms: map<string, seq<string>>, material: string): (rows: seq<Candidate>)
    ensures rows == Flatten(Map(NewsHits(tools, news, material), ExpandQueries(synonyms, material)))
      + Flatten(Map(GdeltHits(tools.html.unescape, gdelt, material), GdeltQueries(synonyms, material)))
    ensures forall i :: 0 <= i < |rows| ==> rows[i].material == material
    ensures |rows| <= MaxItems * (2 * |ExpandQueries(synonyms, material)| + 2)
  {
    var fromNews := NewsRows(tools, news, synonyms, material);
    var fromGdelt := GdeltRows(tools.html.unescape, gdelt, synonyms, material);
    JoinedRows(fromNews, fromGdelt, material, |ExpandQueries(synonyms, material)|);
    fromNews + fromGdelt
  }

  lemma JoinedRows(a: seq<Candidate>, b: seq<Candidate>, material: string, n: nat)
    requires |a| <= MaxItems * n && |b| <= MaxItems * (n + 2)
    requires forall i :: 0 <= i < |a| ==> a[i].material == material
    requires forall i :: 0 <= i < |b| ==> b[i].material == material
    ensures |a + b| <= MaxItems * (2 * n + 2)
    ensures forall i :: 0 <= i < |a + b| ==> (a + b)[i].material == material
  {
    assert MaxItems * n + MaxItems * (n + 2) == MaxItems * (2 * n + 2);
  }
}
