/**
 `relevance_score`: a weighted combination of fuzzy-match similarities
 between the lower-cased article text and the material, its synonyms and
 three keyword lists, minus a penalty for off-topic words, truncated to an
 integer and capped at 100.
 */
module Scoring {
  import opened Text
  import opened Queries
  import opened Items

  /** A similarity value as the fuzzy matcher returns it. */
  type Percent = r: real | 0.0 <= r <= 100.0

  /** A fuzzy matcher; its arguments are (keyword, text), in that order. */
  type Similarity = (string, string) -> Percent

  /** `fuzz.token_set_ratio` and `fuzz.partial_ratio`. */
  datatype Matchers = Matchers(tokenSet: Similarity, partial: Similarity)

  /** The keyword tables the score reads. */
  datatype Config = Config(
    synonyms: map<string, seq<string>>,
    companyTerms: seq<string>,
    regionHints: seq<string>,
    supplyHints: seq<string>,
    ports: seq<string>)

  const CompanyWeight: real := 0.6
  const RegionWeight: real := 0.35
  const GlobalWeight: real := 0.35
  const GenericPenalty: int := 12

  /** Words that mark an article as off-topic. */
  const GenericWords: seq<string> := ["celebrity", "football", "movie", "lottery", "gossip"]

  /** Python's `max(a, b)` on numbers. */
  function Max(a: real, b: real): real {
    if b > a then b else a
  }

  function Min(a: real, b: real): real {
    if b < a then b else a
  }

  /** The weighted similarities `weight * sim(t.lower(), text)` of the keywords `terms`. */
  function Weighted(sim: Similarity, weight: real, terms: seq<string>, text: string): (v: seq<real>)
    ensures |v| == |terms|
    ensures forall i :: 0 <= i < |terms| ==> v[i] == weight * sim(Lower(terms[i]), text)
  {
    seq(|terms|, i requires 0 <= i < |terms| => weight * sim(Lower(terms[i]), text))
  }

  /** The loop `acc = max(acc, v)` over `vals`: the largest of `acc` and the values. */
  function MaxFrom(vals: seq<real>, acc: real): (r: real)
    ensures r >= acc
    ensures forall i :: 0 <= i < |vals| ==> r >= vals[i]
    ensures r == acc || exists i :: 0 <= i < |vals| && r == vals[i]
    decreases |vals|
  {
    if |vals| == 0 then acc
    else
      var r := MaxFrom(vals[1..], Max(acc, vals[0]));
      assert forall i :: 1 <= i < |vals| ==> vals[i] == vals[1..][i - 1];
      r
  }

  /** The maximum is bounded by `acc` and any common bound of the values. */
  lemma MaxFromBound(vals: seq<real>, acc: real, hi: real)
    requires forall i :: 0 <= i < |vals| ==> vals[i] <= hi
    ensures MaxFrom(vals, acc) <= Max(acc, hi)
  {
  }

  /** With a non-negative weight no weighted similarity exceeds `100 * weight`. */
  lemma WeightedBound(sim: Similarity, weight: real, terms: seq<string>, text: string)
    requires weight >= 0.0
    ensures forall i :: 0 <= i < |terms| ==> Weighted(sim, weight, terms, text)[i] <= 100.0 * weight
  {
    var v := Weighted(sim, weight, terms, text);
    forall i | 0 <= i < |terms|
      ensures v[i] <= 100.0 * weight
    {
      var x: Percent := sim(Lower(terms[i]), text);
      MulMonotone(weight, x, 100.0);
      assert v[i] == weight * x;
    }
  }

  /** The best weighted similarity of `terms`, starting from 0, lies in `[0, 100 * weight]`. */
  function BestMatch(sim: Similarity, weight: real, terms: seq<string>, text: string): (r: real)
    requires weight >= 0.0
    ensures 0.0 <= r <= 100.0 * weight
    ensures forall i :: 0 <= i < |terms| ==> r >= weight * sim(Lower(terms[i]), text)
    ensures r == 0.0 || exists i :: 0 <= i < |terms| && r == weight * sim(Lower(terms[i]), text)
  {
    var vals := Weighted(sim, weight, terms, text);
    WeightedBound(sim, weight, terms, text);
    MaxFromBound(vals, 0.0, 100.0 * weight);
    MaxFrom(vals, 0.0)
  }

  lemma MulMonotone(w: real, x: real, y: real)
    requires w >= 0.0 && x <= y
    ensures w * x <= w * y
  {
  }

  /** `f"{title} {summary}"`, the text the score looks at. */
  function ArticleText(row: Candidate): string {
    row.title + " " + row.summary
  }

  /** Python's `any(k in text for k in GenericWords)`. */
  predicate IsGeneric(text: string) {
    exists k :: 0 <= k < |GenericWords| && Contains(text, GenericWords[k])
  }

  /** The parts of the score before they are added up. */
  datatype Breakdown = Breakdown(base: real, company: real, region: real, global: real, penalty: int)

  function ScoreParts(cfg: Config, m: Matchers, row: Candidate): (b: Breakdown)
    ensures 0.0 <= b.base <= 100.0
    ensures 0.0 <= b.company <= 100.0 * CompanyWeight
    ensures 0.0 <= b.region <= 100.0 * RegionWeight
    ensures 0.0 <= b.global <= 100.0 * GlobalWeight
    ensures b.penalty == 0 || b.penalty == GenericPenalty
  {
    var text := Lower(ArticleText(row));
    var queries := ExpandQueries(cfg.synonyms, row.material);
    var base := BestMatch(m.tokenSet, 1.0, queries, text);
    var company := BestMatch(m.partial, CompanyWeight, cfg.companyTerms, text);
    var region := BestMatch(m.partial, RegionWeight, cfg.regionHints, text);
    var global := BestMatch(m.partial, GlobalWeight, cfg.supplyHints + cfg.ports, text);
    Breakdown(base, company, region, global, if IsGeneric(text) then GenericPenalty else 0)
  }

  /** Python's `int(x)` on a float: the integer part, rounding toward zero. */
  function TruncateTowardZero(x: real): (n: int)
    ensures x >= 0.0 ==> n >= 0 && n as real <= x < n as real + 1.0
    ensures x < 0.0 ==> n <= 0 && n as real - 1.0 < x <= n as real
  {
    if x >= 0.0 then x.Floor else -((-x).Floor)
  }

  /** `int(min(100, base + boosts - penalty))`; there is no lower bound of 0. */
  function Combine(b: Breakdown): int {
    TruncateTowardZero(Min(100.0, b.base + b.company + b.region + b.global - b.penalty as real))
  }

  /**
   `relevance_score`: at most 100 (the cap) and at least -12 (non-negative
   parts minus the penalty, truncated toward zero).
   */
  function RelevanceScore(cfg: Config, m: Matchers, row: Candidate): (r: int)
    ensures -GenericPenalty <= r <= 100
  {
    Combine(ScoreParts(cfg, m, row))
  }

  /** The base part is at least the similarity of the material name itself. */
  lemma BaseCoversMaterial(cfg: Config, m: Matchers, row: Candidate)
    ensures ScoreParts(cfg, m, row).base >= m.tokenSet(Lower(row.material), Lower(ArticleText(row)))
  {
    var queries := ExpandQueries(cfg.synonyms, row.material);
    assert queries[0] == row.material;
  }

  /** The base part is at least the similarity of every synonym of the material. */
  lemma BaseCoversSynonyms(cfg: Config, m: Matchers, row: Candidate, k: nat)
    requires k < |Synonyms(cfg.synonyms, row.material)|
    ensures var syn := Synonyms(cfg.synonyms, row.material)[k];
      ScoreParts(cfg, m, row).base >= m.tokenSet(Lower(syn), Lower(ArticleText(row)))
  {
    var queries := ExpandQueries(cfg.synonyms, row.material);
    var syn := Synonyms(cfg.synonyms, row.material)[k];
    assert syn in queries;
    var i :| 0 <= i < |queries| && queries[i] == syn;
  }

  /** The global part covers both the supply hints and the ports, the two lists it concatenates. */
  lemma GlobalCoversHintsAndPorts(cfg: Config, m: Matchers, row: Candidate)
    ensures var text := Lower(ArticleText(row));
      var g := ScoreParts(cfg, m, row).global;
      && (forall i :: 0 <= i < |cfg.supplyHints| ==> g >= GlobalWeight * m.partial(Lower(cfg.supplyHints[i]), text))
      && (forall i :: 0 <= i < |cfg.ports| ==> g >= GlobalWeight * m.partial(Lower(cfg.ports[i]), text))
  {
    var all := cfg.supplyHints + cfg.ports;
    assert forall i :: 0 <= i < |cfg.supplyHints| ==> all[i] == cfg.supplyHints[i];
    assert forall i :: 0 <= i < |cfg.ports| ==> all[|cfg.supplyHints| + i] == cfg.ports[i];
  }

  /** The penalty is 12 exactly when an off-topic word occurs in the lower-cased text. */
  lemma PenaltyIff(cfg: Config, m: Matchers, row: Candidate)
    ensures ScoreParts(cfg, m, row).penalty == GenericPenalty
      <==> exists k :: 0 <= k < |GenericWords| && Contains(Lower(ArticleText(row)), GenericWords[k])
  {
  }

  /**
   With the similarity parts held fixed, the penalty never raises the score
   and lowers it by at most 12.
   */
  lemma PenaltyEffect(b: Breakdown)
    requires b.base >= 0.0 && b.company >= 0.0 && b.region >= 0.0 && b.global >= 0.0
    ensures var penalised := Combine(b.(penalty := GenericPenalty));
      var plain := Combine(b.(penalty := 0));
      plain - GenericPenalty <= penalised <= plain
  {
    var s := b.base + b.company + b.region + b.global;
    var p := Min(100.0, s - 12.0);
    var u := Min(100.0, s);
    assert b.(penalty := GenericPenalty).penalty as real == 12.0;
    assert u - 12.0 <= p <= u;
  }

  /** Capitalised off-topic words count too, because the text is lower-cased first. */
  lemma CapitalisedWordPenalised(cfg: Config, m: Matchers, row: Candidate)
    requires row.title == "Football"
    ensures ScoreParts(cfg, m, row).penalty == GenericPenalty
  {
    var text := Lower(ArticleText(row));
    assert text[..8] == "football";
    assert OccursAt(text, GenericWords[1], 0);
  }
}
