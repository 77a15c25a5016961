/**
 The rows the monitor passes between its stages. Missing fields (`None` in
 the fetched data) are represented by the empty string, which is what every
 consumer of the rows substitutes for them.
 */
module Items {

  /** One fetched article, as built by the two fetchers. */
  datatype Candidate = Candidate(
    material: string,
    queryVariant: string,
    title: string,
    url: string,
    published: string,
    source: string,
    summary: string)

  /** A row together with the relevance score `main` attaches to it. */
  datatype Scored = Scored(row: Candidate, score: int)
}
