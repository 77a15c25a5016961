/**
 The search queries issued for one material: `expand_queries`, the query
 string sent to Google News, and the de-duplicated query list sent to GDELT.
 */
module Queries {
  import opened Seqs
  import opened Text

  /** The configured synonyms of `material`; `SYNONYMS.get(material, [])`. */
  function Synonyms(synonyms: map<string, seq<string>>, material: string): seq<string> {
    if material in synonyms then synonyms[material] else []
  }

  /**
   `expand_queries`: the material, then its synonyms, each distinct string
   once (compared case-sensitively) in order of first occurrence.
   */
  function ExpandQueries(synonyms: map<string, seq<string>>, material: string): (qs: seq<string>)
    ensures |qs| > 0 && qs[0] == material
    ensures forall i :: 0 <= i < |Synonyms(synonyms, material)| ==> Synonyms(synonyms, material)[i] in qs
    ensures forall i :: 0 <= i < |qs| ==> qs[i] == material || qs[i] in Synonyms(synonyms, material)
    ensures NoDup(qs)
    ensures |qs| <= 1 + |Synonyms(synonyms, material)|
  {
    var all := [material] + Synonyms(synonyms, material);
    assert forall i :: 0 <= i < |Synonyms(synonyms, material)| ==> Synonyms(synonyms, material)[i] == all[i + 1];
    Unique(all)
  }

  /** The queries keep the order in which each string first occurs among material and synonyms. */
  lemma ExpandQueriesFirstOccurrenceOrder(synonyms: map<string, seq<string>>, material: string)
    ensures var all := [material] + Synonyms(synonyms, material);
      var qs := ExpandQueries(synonyms, material);
      forall i, j :: 0 <= i < j < |qs| ==> FirstIndex(all, qs[i]) < FirstIndex(all, qs[j])
  {
    UniqueKeepsFirstOccurrenceOrder([material] + Synonyms(synonyms, material));
  }

  /** Distinct synonyms that differ from the material are all kept, in their order. */
  lemma ExpandQueriesOfDistinct(synonyms: map<string, seq<string>>, material: string)
    requires NoDup([material] + Synonyms(synonyms, material))
    ensures ExpandQueries(synonyms, material) == [material] + Synonyms(synonyms, material)
  {
    UniqueOfNoDup([material] + Synonyms(synonyms, material));
  }

  /** Upper- and lower-case spellings are different queries: both survive. */
  lemma ExpandQueriesCaseSensitive()
    ensures var syn := map["BEHENTRIMONIUM CHLORIDE" := ["BTAC", "behentrimonium chloride"]];
      ExpandQueries(syn, "BEHENTRIMONIUM CHLORIDE")
        == ["BEHENTRIMONIUM CHLORIDE", "BTAC", "behentrimonium chloride"]
  {
    var syn := map["BEHENTRIMONIUM CHLORIDE" := ["BTAC", "behentrimonium chloride"]];
    var all := ["BEHENTRIMONIUM CHLORIDE", "BTAC", "behentrimonium chloride"];
    assert Synonyms(syn, "BEHENTRIMONIUM CHLORIDE") == all[1..];
    assert all[0][0] != all[2][0];
    assert all[0][0] != all[1][1];
    assert all[1][0] != all[2][0];
    ExpandQueriesOfDistinct(syn, "BEHENTRIMONIUM CHLORIDE");
  }

  // ---------------------------------------------------------------------
  // Google News

  /** The context words OR-ed into every Google News query. */
  const NewsContextTerms: seq<string> := [
    "supply", "shortage", "price", "export", "imports", "logistics", "shipment",
    "factory", "plant", "shutdown", "strike", "regulation", "tariff", "recall"
  ]

  function Quote(s: string): string {
    "\"" + s + "\""
  }

  function QuoteAll(xs: seq<string>): (r: seq<string>)
    ensures |r| == |xs|
    ensures forall i :: 0 <= i < |xs| ==> r[i] == Quote(xs[i])
    decreases |xs|
  {
    if |xs| == 0 then [] else [Quote(xs[0])] + QuoteAll(xs[1..])
  }

  /**
   The search string for query `q`: the quoted query followed by the quoted
   context words joined with `" OR "`, as one literal join (`'" OR "'.join`).
   */
  function NewsQuery(q: string): string {
    WithContext(q, NewsContextTerms)
  }

  function WithContext(q: string, terms: seq<string>): string {
    "\"" + q + "\" (\"" + Join("\" OR \"", terms) + "\")"
  }

  /** Joining with `" OR "` between quotes equals quoting each word and joining with OR. */
  lemma {:induction false} QuotedJoin(terms: seq<string>)
    requires |terms| > 0
    ensures "\"" + Join("\" OR \"", terms) + "\"" == Join(" OR ", QuoteAll(terms))
    decreases |terms|
  {
    if |terms| > 1 {
      var rest := terms[1..];
      QuotedJoin(rest);
      var j := Join("\" OR \"", rest);
      calc {
        "\"" + Join("\" OR \"", terms) + "\"";
        "\"" + (terms[0] + "\" OR \"" + j) + "\"";
        { QuoteAround(terms[0], j); }
        Quote(terms[0]) + " OR " + Join(" OR ", QuoteAll(rest));
        { assert QuoteAll(terms)[1..] == QuoteAll(rest); }
        Join(" OR ", QuoteAll(terms));
      }
    }
  }

  lemma QuoteAround(t: string, j: string)
    ensures "\"" + (t + "\" OR \"" + j) + "\"" == Quote(t) + " OR " + ("\"" + j + "\"")
  {
    assert "\" OR \"" == "\"" + " OR " + "\"";
  }

  /** A query with context is the quoted query and a parenthesised OR-list of the quoted words. */
  lemma WithContextShape(q: string, terms: seq<string>)
    requires |terms| > 0
    ensures WithContext(q, terms) == Quote(q) + " (" + Join(" OR ", QuoteAll(terms)) + ")"
  {
    QuotedJoin(terms);
    Regroup(q, Join("\" OR \"", terms));
  }

  lemma Regroup(q: string, j: string)
    ensures "\"" + q + "\" (\"" + j + "\")" == Quote(q) + " (" + ("\"" + j + "\"") + ")"
  {
    assert "\" (\"" == "\"" + " (" + "\"";
    assert "\")" == "\"" + ")";
  }

  lemma NewsQueryShape(q: string)
    ensures NewsQuery(q) == Quote(q) + " (" + Join(" OR ", QuoteAll(NewsContextTerms)) + ")"
  {
    WithContextShape(q, NewsContextTerms);
  }

  // ---------------------------------------------------------------------
  // GDELT

  /** The two context queries GDELT receives in addition to the expanded ones. */
  function GdeltExtras(first: string): seq<string> {
    [first + " supply OR shortage OR export OR import",
     first + " price OR tariff OR regulation OR logistics"]
  }

  /**
   The GDELT query list: the expanded queries followed by the two context
   queries built from the first of them, each distinct string once.
   */
  function GdeltQueries(synonyms: map<string, seq<string>>, material: string): (qs: seq<string>)
    ensures var base := ExpandQueries(synonyms, material);
      && |base| <= |qs| <= |base| + 2
      && qs[..|base|] == base
      && (forall i :: 0 <= i < |qs| ==> qs[i] in base || qs[i] in GdeltExtras(material))
      && GdeltExtras(material)[0] in qs && GdeltExtras(material)[1] in qs
    ensures var base, e := ExpandQueries(synonyms, material), GdeltExtras(material);
      qs[|base|..] == (if e[0] in base then [] else [e[0]]) + (if e[1] in base then [] else [e[1]])
    ensures NoDup(qs)
  {
    var base := ExpandQueries(synonyms, material);
    var extras := GdeltExtras(base[0]);
    GdeltExtrasDistinct(material);
    AppendNew(base, extras[0], extras[1]);
    assert base + extras == base + [extras[0]] + [extras[1]];
    Unique(base + extras)
  }

  /**
   De-duplicating distinct queries followed by two different ones keeps the
   queries in front and appends each of the two that is new, in order.
   */
  lemma {:induction false} AppendNew(base: seq<string>, x: string, y: string)
    requires NoDup(base) && x != y
    ensures var qs := Unique(base + [x] + [y]);
      && |base| <= |qs| <= |base| + 2
      && qs[..|base|] == base
      && qs[|base|..] == (if x in base then [] else [x]) + (if y in base then [] else [y])
      && (forall i :: 0 <= i < |qs| ==> qs[i] in base || qs[i] == x || qs[i] == y)
      && x in qs && y in qs
  {
    UniqueAfterTwo(base, x, y);
    NewAppended(base, x, y);
  }

  /** The shape of the expanded queries with the new context queries appended. */
  lemma NewAppended(base: seq<string>, x: string, y: string)
    ensures var qs := base + (if x in base then [] else [x]) + (if y in base then [] else [y]);
      && |base| <= |qs| <= |base| + 2
      && qs[..|base|] == base
      && qs[|base|..] == (if x in base then [] else [x]) + (if y in base then [] else [y])
      && (forall i :: 0 <= i < |qs| ==> qs[i] in base || qs[i] == x || qs[i] == y)
      && x in qs && y in qs
  {
    var tx: seq<string> := if x in base then [] else [x];
    var ty: seq<string> := if y in base then [] else [y];
    var qs := base + tx + ty;
    assert qs[..|base|] == base && qs[|base|..] == tx + ty;
    forall i | 0 <= i < |qs|
      ensures qs[i] in base || qs[i] == x || qs[i] == y
    {
      if i >= |base| {
        assert qs[i] in tx + ty;
      }
    }
  }

  /** The two context queries differ: one continues with " supply", the other with " price". */
  lemma GdeltExtrasDistinct(first: string)
    ensures GdeltExtras(first)[0] != GdeltExtras(first)[1]
  {
    var n := |first|;
    assert GdeltExtras(first)[0][n + 1] == 's';
    assert GdeltExtras(first)[1][n + 1] == 'p';
  }
}
