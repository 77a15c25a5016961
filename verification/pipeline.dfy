/**
 The assembly in `main`: score each material's fetched rows and keep those
 reaching the threshold, add the pinned rows, de-duplicate everything, turn
 the rows into table records with normalised dates, and sort the table.
 */
module Pipeline {
  import opened Wrappers
  import opened Seqs
  import opened Text
  import opened Items
  import opened Scoring
  import opened Dedup
  import opened Dates
  import opened Ranking

  const MinRelevance: int := 60
  const PinnedMaterial: string := "MULTI / GLOBAL"
  const PinnedVariant: string := "Pinned"
  const PinnedSource: string := "Pinned"
  const PinnedFallbackTitle: string := "Pinned: External insight"
  const PinnedScore: int := 100

  // ---------------------------------------------------------------------
  // Scoring and filtering

  /** How `main` scores a row: `relevance_score` under the configuration and matchers. */
  function ScoreOf(cfg: Config, m: Matchers): Candidate -> int {
    row => RelevanceScore(cfg, m, row)
  }

  /** The rows of one material that reach `MIN_RELEVANCE`, with their scores, in fetch order. */
  function Passing(score: Candidate -> int, rows: seq<Candidate>): (out: seq<Scored>)
    ensures forall i :: 0 <= i < |out| ==>
      && out[i].score >= MinRelevance
      && out[i].score == score(out[i].row)
      && out[i].row in rows
    ensures forall i :: 0 <= i < |rows| && score(rows[i]) >= MinRelevance ==>
      Scored(rows[i], score(rows[i])) in out
    ensures |out| <= |rows|
    decreases |rows|
  {
    if |rows| == 0 then []
    else
      var s := score(rows[0]);
      var rest := Passing(score, rows[1..]);
      assert forall i :: 1 <= i < |rows| ==> rows[i] == rows[1..][i - 1];
      (if s >= MinRelevance then [Scored(rows[0], s)] else []) + rest
  }

  /** Filtering one more row appends it, with its score, exactly when it reaches the threshold. */
  lemma {:induction false} PassingSnoc(score: Candidate -> int, rows: seq<Candidate>, c: Candidate)
    ensures Passing(score, rows + [c])
      == Passing(score, rows) + (if score(c) >= MinRelevance then [Scored(c, score(c))] else [])
    decreases |rows|
  {
    if |rows| == 0 {
      assert rows + [c] == [c] && [c][1..] == [];
    } else {
      var here := if score(rows[0]) >= MinRelevance then [Scored(rows[0], score(rows[0]))] else [];
      assert (rows + [c])[0] == rows[0] && (rows + [c])[1..] == rows[1..] + [c];
      assert Passing(score, rows + [c]) == here + Passing(score, rows[1..] + [c]);
      assert Passing(score, rows) == here + Passing(score, rows[1..]);
      PassingSnoc(score, rows[1..], c);
    }
  }

  /**
   The loop of `main` over the materials: `None` is a material whose fetching
   or scoring raised, which contributes nothing.
   */
  function Collect(score: Candidate -> int, fetches: seq<Option<seq<Candidate>>>): (out: seq<Scored>)
    ensures forall i :: 0 <= i < |out| ==>
      && out[i].score >= MinRelevance
      && out[i].score == score(out[i].row)
      && FetchedRow(fetches, out[i].row)
    decreases |fetches|
  {
    if |fetches| == 0 then []
    else
      var here := match fetches[0] case None => [] case Some(rows) => Passing(score, rows);
      var rest := Collect(score, fetches[1..]);
      assert forall row :: FetchedRow(fetches[1..], row) ==> FetchedRow(fetches, row) by {
        forall row | FetchedRow(fetches[1..], row)
          ensures FetchedRow(fetches, row)
        {
          var k :| 0 <= k < |fetches[1..]| && fetches[1..][k].Some? && row in fetches[1..][k].value;
          assert fetches[k + 1] == fetches[1..][k];
        }
      }
      assert fetches[0].Some? ==> forall row :: row in fetches[0].value ==> FetchedRow(fetches, row);
      here + rest
  }

  /** `row` was fetched for one of the materials whose fetching succeeded. */
  ghost predicate FetchedRow(fetches: seq<Option<seq<Candidate>>>, row: Candidate) {
    exists k :: 0 <= k < |fetches| && fetches[k].Some? && row in fetches[k].value
  }

  /** Collecting two runs of materials one after the other. */
  lemma {:induction false} CollectAppend(score: Candidate -> int, a: seq<Option<seq<Candidate>>>,
                                         b: seq<Option<seq<Candidate>>>)
    ensures Collect(score, a + b) == Collect(score, a) + Collect(score, b)
    decreases |a|
  {
    if |a| == 0 {
      assert a + b == b;
    } else {
      assert (a + b)[0] == a[0] && (a + b)[1..] == a[1..] + b;
      CollectAppend(score, a[1..], b);
    }
  }

  /** One material's contribution: its passing rows, or nothing when it failed. */
  lemma CollectSingle(score: Candidate -> int, f: Option<seq<Candidate>>)
    ensures Collect(score, [f]) == match f case None => [] case Some(rows) => Passing(score, rows)
  {
    assert [f][1..] == [];
  }

  /** Every passing row of a material whose fetch succeeded is collected, with its score. */
  lemma CollectComplete(score: Candidate -> int, fetches: seq<Option<seq<Candidate>>>, k: nat, i: nat)
    requires k < |fetches| && fetches[k].Some? && i < |fetches[k].value|
    requires score(fetches[k].value[i]) >= MinRelevance
    ensures Scored(fetches[k].value[i], score(fetches[k].value[i])) in Collect(score, fetches)
  {
    var before, after := fetches[..k], fetches[k + 1..];
    assert fetches == before + [fetches[k]] + after;
    CollectAppend(score, before + [fetches[k]], after);
    CollectAppend(score, before, [fetches[k]]);
    CollectSingle(score, fetches[k]);
  }

  /** A failed material contributes no rows and leaves the other materials' rows as they are. */
  lemma CollectSkipsFailure(score: Candidate -> int, a: seq<Option<seq<Candidate>>>,
                            b: seq<Option<seq<Candidate>>>)
    ensures Collect(score, a + [None] + b) == Collect(score, a + b)
  {
    var rest: seq<Option<seq<Candidate>>> := [None] + b;
    assert rest[0] == None && rest[1..] == b;
    assert Collect(score, rest) == Collect(score, b);
    assert a + [None] + b == a + rest;
    CollectAppend(score, a, rest);
    CollectAppend(score, a, b);
  }

  // ---------------------------------------------------------------------
  // Pinned rows

  /** A pinned page's row; `meta` is what `fetch_page_meta` returned for it. */
  function PinnedRow(url: string, meta: (string, string), stamp: string): (r: Scored)
    ensures r.score == PinnedScore && r.row.material == PinnedMaterial && r.row.source == PinnedSource
    ensures r.row.url == url && r.row.published == stamp && r.row.summary == meta.1
    ensures |r.row.title| > 0 && (r.row.title == meta.0 || (meta.0 == "" && r.row.title == PinnedFallbackTitle))
  {
    var title := if |meta.0| > 0 then meta.0 else PinnedFallbackTitle;
    Scored(Candidate(PinnedMaterial, PinnedVariant, title, url, stamp, PinnedSource, meta.1), PinnedScore)
  }

  function PinnedRows(urls: seq<string>, pageMeta: string -> (string, string), stamp: string): (rows: seq<Scored>)
    ensures |rows| == |urls|
    ensures forall i :: 0 <= i < |urls| ==> rows[i] == PinnedRow(urls[i], pageMeta(urls[i]), stamp)
  {
    seq(|urls|, i requires 0 <= i < |urls| => PinnedRow(urls[i], pageMeta(urls[i]), stamp))
  }

  /**
   Pinned rows go through `deduplicate` like any other row: a pinned page that
   was also fetched, with the same url and title, is dropped.
   */
  lemma PinnedDroppedAsDuplicate(hash: Hasher, sim: Similarity, collected: seq<Scored>, p: Scored, c: nat)
    requires c < |collected| && collected[c].row.url == p.row.url && collected[c].row.title == p.row.title
    ensures Deduplicate(hash, sim, collected + [p]) == Deduplicate(hash, sim, collected)
  {
    var out := Deduplicate(hash, sim, collected);
    DeduplicateSound(hash, sim, collected);
    DedupSnoc(hash, sim, collected, p);
    var x := collected[c];
    RowKeyOfSameConcat(hash, x, p);
    if x in out {
      var i :| 0 <= i < |out| && out[i] == x;
      assert RowKey(hash, out[i]) == RowKey(hash, p);
    } else if RowKey(hash, x) in Seen(hash, out) {
    } else {
      var i :| 0 <= i < |out| && NearDup(sim, x, out[i]);
      assert NearDup(sim, p, out[i]);
    }
    assert Blocked(hash, sim, out, p);
  }

  // ---------------------------------------------------------------------
  // The pinned rows' timestamp

  /** Neither of the name-based formats reads a `%Y-%m-%d %H:%M:%S` timestamp. */
  ghost predicate RejectsSqlForm(p: Parsers) {
    forall s :: SqlShape(s) ==> p.rss(s).None? && p.isoZ(s).None?
  }

  /** How `normalize_date` reads a timestamp in the form `%Y-%m-%d %H:%M:%S`. */
  lemma NormalizeSqlForm(p: Parsers, offset: int, dt: DateTime)
    requires -MinutesPerDay < offset < MinutesPerDay && Valid(dt)
    requires RejectsSqlForm(p)
    ensures NormalizeDate(p, offset, FormatSql(dt)) == Shift(dt, offset)
  {
    var s := FormatSql(dt);
    ParseFormatSql(dt);
    assert !IsDigit(s[4]);
    assert ParseCompact(s).None?;
    var fmts := Formats(p);
    assert !Accepts(fmts[0], s, offset) && !Accepts(fmts[1], s, offset) && !Accepts(fmts[2], s, offset);
    if Shift(dt, offset).Some? {
      assert Accepts(fmts[3], s, offset);
    }
  }

  /**
   The pinned rows' `published` as the code writes it: the local wall-clock
   time, formatted without a zone.
   */
  function StampAsWritten(now: DateTime): string
    requires Valid(now)
  {
    FormatSql(now)
  }

  /**
   `normalize_date` takes that local time for UTC and shifts it once more:
   away from the calendar's ends, the pinned row's date is `offset` minutes
   after the current time instead of the current time.
   */
  lemma StampAsWrittenShiftedTwice(p: Parsers, offset: int, now: DateTime)
    requires -MinutesPerDay < offset < MinutesPerDay && Valid(now)
    requires RejectsSqlForm(p)
    requires Shift(now, offset).Some?
    ensures NormalizeDate(p, offset, StampAsWritten(now)) == Shift(now, offset)
    ensures var got := NormalizeDate(p, offset, StampAsWritten(now)).value;
      Seconds(got) == Seconds(now) + 60 * offset
    ensures offset != 0 ==> NormalizeDate(p, offset, StampAsWritten(now)) != Some(now)
  {
    NormalizeSqlForm(p, offset, now);
    ShiftSeconds(now, offset);
  }

  /** At UTC+03:00 a pinned row stamped at 09:00 local time is dated 12:00. */
  lemma StampAsWrittenExample(p: Parsers)
    requires RejectsSqlForm(p)
    ensures NormalizeDate(p, 180, StampAsWritten(DateTime(2024, 5, 1, 9, 0, 0)))
      == Some(DateTime(2024, 5, 1, 12, 0, 0))
  {
    var now := DateTime(2024, 5, 1, 9, 0, 0);
    assert Valid(now);
    assert Shift(now, 180) == Some(DateTime(2024, 5, 1, 12, 0, 0)) by {
      assert MinuteOfDay(now) + 180 == 720;
    }
    NormalizeSqlForm(p, 180, now);
  }

  /** The corrected stamp: the current time written in UTC, the zone `normalize_date` assumes. */
  function StampCorrected(now: DateTime, offset: int): string
    requires -MinutesPerDay < offset < MinutesPerDay && Valid(now)
  {
    match Shift(now, -offset)
    case Some(utc) => FormatSql(utc)
    case None => FormatSql(now)
  }

  /** With the corrected stamp, the pinned row's date is the current local time. */
  lemma StampCorrectedNormalizes(p: Parsers, offset: int, now: DateTime)
    requires -MinutesPerDay < offset < MinutesPerDay && Valid(now)
    requires RejectsSqlForm(p)
    requires Shift(now, -offset).Some?
    ensures NormalizeDate(p, offset, StampCorrected(now, offset)) == Some(now)
  {
    var utc := Shift(now, -offset).value;
    NormalizeSqlForm(p, offset, utc);
    ShiftRoundTrip(now, -offset);
    assert - -offset == offset;
  }

  // ---------------------------------------------------------------------
  // Records and the whole run

  /** Everything `main` gets from outside: tables, foreign functions, the zone and the clock. */
  datatype Env = Env(
    cfg: Config,
    matchers: Matchers,
    hash: Hasher,
    parsers: Parsers,
    offset: int,
    now: DateTime,
    pinned: seq<string>,
    pageMeta: string -> (string, string))

  predicate EnvOk(env: Env) {
    -MinutesPerDay < env.offset < MinutesPerDay && Valid(env.now)
  }

  /** One table record: the row's fields, its score, and its normalised date or else the current time. */
  function ToRecord(env: Env, s: Scored): (r: Record)
    requires EnvOk(env)
    ensures Valid(r.published)
    ensures r.relevance == s.score && r.material == s.row.material && r.source == s.row.source
    ensures r.url == s.row.url && r.title == s.row.title
    ensures r.queryVariant == s.row.queryVariant && r.summary == s.row.summary
    ensures match NormalizeDate(env.parsers, env.offset, s.row.published)
      case Some(dt) => r.published == dt
      case None => r.published == env.now
  {
    var published := NormalizeDate(env.parsers, env.offset, s.row.published).GetOr(env.now);
    Record(s.row.material, s.row.queryVariant, s.row.source, s.row.title, s.row.summary, s.row.url,
           published, s.score)
  }

  function Records(env: Env, rows: seq<Scored>): (rs: seq<Record>)
    requires EnvOk(env)
    ensures |rs| == |rows| && forall i :: 0 <= i < |rows| ==> rs[i] == ToRecord(env, rows[i])
  {
    seq(|rows|, i requires 0 <= i < |rows| => ToRecord(env, rows[i]))
  }

  /**
   The rows that survive de-duplication: the passing fetched rows, then the
   pinned rows with `published` set to `stamp`.
   */
  function Kept(env: Env, fetches: seq<Option<seq<Candidate>>>, stamp: string): seq<Scored>
    requires EnvOk(env)
  {
    var collected := Collect(ScoreOf(env.cfg, env.matchers), fetches);
    var pinned := PinnedRows(env.pinned, env.pageMeta, stamp);
    Deduplicate(env.hash, env.matchers.tokenSet, collected + pinned)
  }

  /** A record of a pinned page. */
  predicate IsPinnedRecord(env: Env, r: Record) {
    && r.material == PinnedMaterial && r.source == PinnedSource && r.relevance == PinnedScore
    && r.url in env.pinned
  }

  /** A record of a fetched row, carrying the row's own score. */
  ghost predicate IsFetchedRecord(env: Env, fetches: seq<Option<seq<Candidate>>>, r: Record)
    requires EnvOk(env)
  {
    exists row :: FetchedRow(fetches, row)
      && r == ToRecord(env, Scored(row, RelevanceScore(env.cfg, env.matchers, row)))
  }

  /**
   The table built from the kept rows: their records sorted by material, then
   relevance (highest first), then date (latest first). Every record reaches
   `MIN_RELEVANCE` and is either a pinned page or a fetched row, whatever the
   pinned rows' timestamp.
   */
  function Assemble(env: Env, fetches: seq<Option<seq<Candidate>>>, stamp: string): (table: seq<Record>)
    requires EnvOk(env)
    ensures Sorted(table)
    ensures multiset(table) == multiset(Records(env, Kept(env, fetches, stamp)))
    ensures forall i :: 0 <= i < |table| ==> table[i].relevance >= MinRelevance
    ensures forall i :: 0 <= i < |table| ==>
      IsPinnedRecord(env, table[i]) || IsFetchedRecord(env, fetches, table[i])
  {
    var kept := Kept(env, fetches, stamp);
    if |kept| == 0 then []
    else
      var table := SortRecords(Records(env, kept));
      TableProvenance(env, fetches, stamp, table);
      table
  }

  /** `main`'s table as the program builds it, with the pinned rows stamped in local time. */
  function Run(env: Env, fetches: seq<Option<seq<Candidate>>>): (table: seq<Record>)
    requires EnvOk(env)
    ensures Sorted(table)
    ensures multiset(table) == multiset(Records(env, Kept(env, fetches, StampAsWritten(env.now))))
    ensures forall i :: 0 <= i < |table| ==> table[i].relevance >= MinRelevance
    ensures forall i :: 0 <= i < |table| ==>
      IsPinnedRecord(env, table[i]) || IsFetchedRecord(env, fetches, table[i])
  {
    Assemble(env, fetches, StampAsWritten(env.now))
  }

  /** The same table with the corrected stamp, which dates the pinned rows at the run time. */
  function RunCorrected(env: Env, fetches: seq<Option<seq<Candidate>>>): (table: seq<Record>)
    requires EnvOk(env)
    ensures Sorted(table)
    ensures multiset(table) == multiset(Records(env, Kept(env, fetches, StampCorrected(env.now, env.offset))))
    ensures forall i :: 0 <= i < |table| ==> table[i].relevance >= MinRelevance
    ensures forall i :: 0 <= i < |table| ==>
      IsPinnedRecord(env, table[i]) || IsFetchedRecord(env, fetches, table[i])
  {
    Assemble(env, fetches, StampCorrected(env.now, env.offset))
  }

  /** Any rearrangement of the kept rows' records keeps their provenance. */
  lemma TableProvenance(env: Env, fetches: seq<Option<seq<Candidate>>>, stamp: string, table: seq<Record>)
    requires EnvOk(env)
    requires multiset(table) == multiset(Records(env, Kept(env, fetches, stamp)))
    ensures forall i :: 0 <= i < |table| ==> table[i].relevance >= MinRelevance
    ensures forall i :: 0 <= i < |table| ==>
      IsPinnedRecord(env, table[i]) || IsFetchedRecord(env, fetches, table[i])
  {
    RunProvenance(env, fetches, stamp);
    forall i | 0 <= i < |table|
      ensures table[i] in Records(env, Kept(env, fetches, stamp))
    {
      assert table[i] in multiset(Records(env, Kept(env, fetches, stamp)));
    }
  }

  /** Every kept row's record reaches the threshold and is a pinned page or a fetched row. */
  lemma RunProvenance(env: Env, fetches: seq<Option<seq<Candidate>>>, stamp: string)
    requires EnvOk(env)
    ensures var rs := Records(env, Kept(env, fetches, stamp));
      forall r :: r in rs ==>
        && r.relevance >= MinRelevance
        && (IsPinnedRecord(env, r) || IsFetchedRecord(env, fetches, r))
  {
    var all := Collect(ScoreOf(env.cfg, env.matchers), fetches) + PinnedRows(env.pinned, env.pageMeta, stamp);
    var kept := Kept(env, fetches, stamp);
    DeduplicateSound(env.hash, env.matchers.tokenSet, all);
    SubseqMembers(kept, all);
    var rs := Records(env, kept);
    forall r | r in rs
      ensures r.relevance >= MinRelevance
      ensures IsPinnedRecord(env, r) || IsFetchedRecord(env, fetches, r)
    {
      var j :| 0 <= j < |rs| && rs[j] == r;
      ScoredProvenance(env, fetches, stamp, kept[j]);
    }
  }

  /** A row entering de-duplication is a passing fetched row or a pinned page. */
  lemma ScoredProvenance(env: Env, fetches: seq<Option<seq<Candidate>>>, stamp: string, s: Scored)
    requires EnvOk(env)
    requires s in Collect(ScoreOf(env.cfg, env.matchers), fetches) + PinnedRows(env.pinned, env.pageMeta, stamp)
    ensures s.score >= MinRelevance
    ensures IsPinnedRecord(env, ToRecord(env, s)) || IsFetchedRecord(env, fetches, ToRecord(env, s))
  {
    if s in Collect(ScoreOf(env.cfg, env.matchers), fetches) {
      CollectedProvenance(env, fetches, s);
    } else {
      PinnedProvenance(env, stamp, s);
    }
  }

  lemma CollectedProvenance(env: Env, fetches: seq<Option<seq<Candidate>>>, s: Scored)
    requires EnvOk(env)
    requires s in Collect(ScoreOf(env.cfg, env.matchers), fetches)
    ensures s.score >= MinRelevance
    ensures IsFetchedRecord(env, fetches, ToRecord(env, s))
  {
    var collected := Collect(ScoreOf(env.cfg, env.matchers), fetches);
    var k :| 0 <= k < |collected| && collected[k] == s;
    assert s == Scored(s.row, RelevanceScore(env.cfg, env.matchers, s.row));
    assert FetchedRow(fetches, s.row);
  }

  lemma PinnedProvenance(env: Env, stamp: string, s: Scored)
    requires EnvOk(env)
    requires s in PinnedRows(env.pinned, env.pageMeta, stamp)
    ensures s.score >= MinRelevance
    ensures IsPinnedRecord(env, ToRecord(env, s))
  {
    var pinned := PinnedRows(env.pinned, env.pageMeta, stamp);
    var k :| 0 <= k < |pinned| && pinned[k] == s;
    assert env.pinned[k] == s.row.url;
  }
}
