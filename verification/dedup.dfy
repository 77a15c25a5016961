/**
 `deduplicate`: one left-to-right pass in which the first-seen row wins. A
 row is dropped when its fingerprint `hash_id(url, title)` was recorded for
 an earlier kept row, or when its lower-cased title is a near duplicate of
 the title of an earlier kept row.
 */
module Dedup {
  import opened Seqs
  import opened Text
  import opened Items
  import opened Scoring

  /** SHA-256 of a string, as the hex prefix `hash_id` keeps. */
  type Hasher = string -> string

  /** `hash_id(*parts)`: the hash of the parts written one after another, without separator. */
  function HashId(hash: Hasher, parts: seq<string>): string {
    hash(Flatten(parts))
  }

  /** The fingerprint of a row: `hash_id(url, title)`. */
  function RowKey(hash: Hasher, r: Scored): string {
    HashId(hash, [r.row.url, r.row.title])
  }

  lemma RowKeyConcat(hash: Hasher, r: Scored)
    ensures RowKey(hash, r) == hash(r.row.url + r.row.title)
  {
    assert [r.row.url, r.row.title][1..] == [r.row.title];
    assert [r.row.title][1..] == [];
    assert Flatten([r.row.title]) == r.row.title;
  }

  /** Rows whose url and title spell the same string have the same fingerprint. */
  lemma RowKeyOfSameConcat(hash: Hasher, a: Scored, b: Scored)
    requires a.row.url + a.row.title == b.row.url + b.row.title
    ensures RowKey(hash, a) == RowKey(hash, b)
  {
    RowKeyConcat(hash, a);
    RowKeyConcat(hash, b);
  }

  const NearDupThreshold: real := 92.0

  /** `token_set_ratio(new.title.lower(), kept.title.lower()) >= 92`, arguments in that order. */
  predicate NearDup(sim: Similarity, r: Scored, kept: Scored) {
    sim(Lower(r.row.title), Lower(kept.row.title)) >= NearDupThreshold
  }

  predicate NearDupOfAny(sim: Similarity, r: Scored, keep: seq<Scored>) {
    exists i :: 0 <= i < |keep| && NearDup(sim, r, keep[i])
  }

  /** The fingerprints of the kept rows, which is all the pass records in `seen`. */
  function Seen(hash: Hasher, keep: seq<Scored>): (s: set<string>)
    ensures forall h :: h in s <==> exists i :: 0 <= i < |keep| && RowKey(hash, keep[i]) == h
    decreases |keep|
  {
    if |keep| == 0 then {}
    else
      var front := keep[..|keep| - 1];
      assert forall i :: 0 <= i < |front| ==> front[i] == keep[i];
      Seen(hash, front) + {RowKey(hash, keep[|keep| - 1])}
  }

  /** The loop of `deduplicate`, from the state `(seen, keep)` on. */
  function DedupFrom(hash: Hasher, sim: Similarity, seen: set<string>, keep: seq<Scored>, rows: seq<Scored>): seq<Scored>
    decreases |rows|
  {
    if |rows| == 0 then keep
    else
      var r := rows[0];
      var hid := RowKey(hash, r);
      if hid in seen then DedupFrom(hash, sim, seen, keep, rows[1..])
      else if NearDupOfAny(sim, r, keep) then DedupFrom(hash, sim, seen, keep, rows[1..])
      else DedupFrom(hash, sim, seen + {hid}, keep + [r], rows[1..])
  }

  function Deduplicate(hash: Hasher, sim: Similarity, rows: seq<Scored>): seq<Scored> {
    DedupFrom(hash, sim, {}, [], rows)
  }

  /** A row the kept rows rule out: same fingerprint as one, or a near duplicate of one. */
  predicate Blocked(hash: Hasher, sim: Similarity, keep: seq<Scored>, r: Scored) {
    RowKey(hash, r) in Seen(hash, keep) || NearDupOfAny(sim, r, keep)
  }

  /** The reference step: a row is appended unless the rows kept so far rule it out. */
  function Admit(hash: Hasher, sim: Similarity, keep: seq<Scored>, r: Scored): (k: seq<Scored>)
    ensures Blocked(hash, sim, keep, r) ==> k == keep
    ensures !Blocked(hash, sim, keep, r) ==> k == keep + [r]
  {
    if Blocked(hash, sim, keep, r) then keep else keep + [r]
  }

  /** The pass over `rows + [x]` is the pass over `rows` followed by one reference step. */
  lemma {:induction false} DedupFromSnoc(hash: Hasher, sim: Similarity, seen: set<string>, keep: seq<Scored>,
                                         rows: seq<Scored>, x: Scored)
    requires seen == Seen(hash, keep)
    ensures DedupFrom(hash, sim, seen, keep, rows + [x])
      == Admit(hash, sim, DedupFrom(hash, sim, seen, keep, rows), x)
    decreases |rows|
  {
    if |rows| == 0 {
      assert rows + [x] == [x] && [x][1..] == [];
    } else {
      var r := rows[0];
      assert (rows + [x])[0] == r && (rows + [x])[1..] == rows[1..] + [x];
      var hid := RowKey(hash, r);
      if hid in seen || NearDupOfAny(sim, r, keep) {
        DedupFromSnoc(hash, sim, seen, keep, rows[1..], x);
      } else {
        assert Seen(hash, keep + [r]) == seen + {hid} by {
          assert (keep + [r])[..|keep|] == keep;
        }
        DedupFromSnoc(hash, sim, seen + {hid}, keep + [r], rows[1..], x);
      }
    }
  }

  lemma DedupSnoc(hash: Hasher, sim: Similarity, rows: seq<Scored>, x: Scored)
    ensures Deduplicate(hash, sim, rows + [x]) == Admit(hash, sim, Deduplicate(hash, sim, rows), x)
  {
    DedupFromSnoc(hash, sim, {}, [], rows, x);
  }

  /** No two kept rows share a fingerprint, and no kept row nearly duplicates an earlier one. */
  ghost predicate Admissible(hash: Hasher, sim: Similarity, out: seq<Scored>) {
    forall i, j :: 0 <= i < j < |out| ==>
      RowKey(hash, out[i]) != RowKey(hash, out[j]) && !NearDup(sim, out[j], out[i])
  }

  lemma AdmitAdmissible(hash: Hasher, sim: Similarity, keep: seq<Scored>, r: Scored)
    requires Admissible(hash, sim, keep)
    ensures Admissible(hash, sim, Admit(hash, sim, keep, r))
  {
    if !Blocked(hash, sim, keep, r) {
      var k := keep + [r];
      forall i, j | 0 <= i < j < |k|
        ensures RowKey(hash, k[i]) != RowKey(hash, k[j]) && !NearDup(sim, k[j], k[i])
      {
        if j == |keep| {
          assert k[i] == keep[i];
        } else {
          assert k[i] == keep[i] && k[j] == keep[j];
        }
      }
    }
  }

  /** Every row the kept rows rule out stays ruled out when more rows are kept. */
  lemma BlockedGrows(hash: Hasher, sim: Similarity, keep: seq<Scored>, more: seq<Scored>, r: Scored)
    requires Blocked(hash, sim, keep, r)
    ensures Blocked(hash, sim, keep + more, r)
  {
    if RowKey(hash, r) in Seen(hash, keep) {
      var i :| 0 <= i < |keep| && RowKey(hash, keep[i]) == RowKey(hash, r);
      assert (keep + more)[i] == keep[i];
    } else {
      var i :| 0 <= i < |keep| && NearDup(sim, r, keep[i]);
      assert (keep + more)[i] == keep[i];
    }
  }

  /** The kept rows are an order-preserving subsequence of the input, start with its first row, and are admissible. */
  lemma {:induction false} DedupSubseq(hash: Hasher, sim: Similarity, rows: seq<Scored>)
    ensures var out := Deduplicate(hash, sim, rows);
      && IsSubseq(out, rows)
      && Admissible(hash, sim, out)
      && (|rows| > 0 ==> |out| > 0 && out[0] == rows[0])
    decreases |rows|
  {
    if |rows| > 0 {
      var front := rows[..|rows| - 1];
      var x := rows[|rows| - 1];
      assert rows == front + [x];
      DedupSubseq(hash, sim, front);
      DedupSnoc(hash, sim, front, x);
      var prev := Deduplicate(hash, sim, front);
      AdmitAdmissible(hash, sim, prev, x);
      SubseqExtend(prev, front, x);
      if |front| == 0 {
        assert !Blocked(hash, sim, prev, x);
      }
    }
  }

  /** Every input row is kept or ruled out by the kept rows. */
  lemma {:induction false} DedupCovers(hash: Hasher, sim: Similarity, rows: seq<Scored>)
    ensures var out := Deduplicate(hash, sim, rows);
      forall i :: 0 <= i < |rows| ==> rows[i] in out || Blocked(hash, sim, out, rows[i])
    decreases |rows|
  {
    if |rows| > 0 {
      var out := Deduplicate(hash, sim, rows);
      var front := rows[..|rows| - 1];
      var x := rows[|rows| - 1];
      assert rows == front + [x];
      DedupCovers(hash, sim, front);
      DedupSnoc(hash, sim, front, x);
      var prev := Deduplicate(hash, sim, front);
      var more := out[|prev|..];
      assert prev + more == out;
      forall i | 0 <= i < |rows|
        ensures rows[i] in out || Blocked(hash, sim, out, rows[i])
      {
        if i < |front| {
          assert rows[i] == front[i];
          if rows[i] !in prev {
            BlockedGrows(hash, sim, prev, more, rows[i]);
          }
        }
      }
    }
  }

  /**
   `deduplicate` keeps an order-preserving subsequence of its input, starting
   with the first row, in which no fingerprint repeats and no title nearly
   duplicates an earlier kept title; every dropped row is ruled out by the
   kept rows.
   */
  lemma DeduplicateSound(hash: Hasher, sim: Similarity, rows: seq<Scored>)
    ensures var out := Deduplicate(hash, sim, rows);
      && IsSubseq(out, rows)
      && Admissible(hash, sim, out)
      && (|rows| > 0 ==> |out| > 0 && out[0] == rows[0])
      && (forall i :: 0 <= i < |rows| ==> rows[i] in out || Blocked(hash, sim, out, rows[i]))
  {
    DedupSubseq(hash, sim, rows);
    DedupCovers(hash, sim, rows);
  }

  /** The output over a prefix of the rows is a prefix of the output: the first-seen row wins. */
  lemma {:induction false} DedupPrefix(hash: Hasher, sim: Similarity, rows: seq<Scored>, more: seq<Scored>)
    ensures var out := Deduplicate(hash, sim, rows + more);
      var pre := Deduplicate(hash, sim, rows);
      |pre| <= |out| && out[..|pre|] == pre
    decreases |more|
  {
    if |more| == 0 {
      assert rows + more == rows;
    } else {
      var front := more[..|more| - 1];
      var x := more[|more| - 1];
      assert rows + more == (rows + front) + [x];
      DedupPrefix(hash, sim, rows, front);
      DedupSnoc(hash, sim, rows + front, x);
    }
  }

  /** Rows that are already admissible pass through unchanged. */
  lemma {:induction false} DedupOfAdmissible(hash: Hasher, sim: Similarity, rows: seq<Scored>)
    requires Admissible(hash, sim, rows)
    ensures Deduplicate(hash, sim, rows) == rows
    decreases |rows|
  {
    if |rows| > 0 {
      var front := rows[..|rows| - 1];
      var x := rows[|rows| - 1];
      assert rows == front + [x];
      assert Admissible(hash, sim, front);
      DedupOfAdmissible(hash, sim, front);
      DedupSnoc(hash, sim, front, x);
      forall i | 0 <= i < |front|
        ensures RowKey(hash, front[i]) != RowKey(hash, x) && !NearDup(sim, x, front[i])
      {
        assert rows[i] == front[i];
      }
    }
  }

  /** Applying `deduplicate` to its own output changes nothing. */
  lemma DedupIdempotent(hash: Hasher, sim: Similarity, rows: seq<Scored>)
    ensures Deduplicate(hash, sim, Deduplicate(hash, sim, rows)) == Deduplicate(hash, sim, rows)
  {
    DeduplicateSound(hash, sim, rows);
    DedupOfAdmissible(hash, sim, Deduplicate(hash, sim, rows));
  }

  /**
   Without a separator, url "ab" with title "c" and url "a" with title "bc"
   share a fingerprint, so the second row is dropped whatever the titles' similarity.
   */
  lemma SplitKeyCollision(hash: Hasher, sim: Similarity, a: Scored, b: Scored)
    requires a.row.url == "ab" && a.row.title == "c"
    requires b.row.url == "a" && b.row.title == "bc"
    ensures Deduplicate(hash, sim, [a, b]) == [a]
  {
    RowKeyOfSameConcat(hash, a, b);
    DedupSnoc(hash, sim, [a], b);
    assert [a, b] == [a] + [b];
    DedupSnoc(hash, sim, [], a);
    assert [] + [a] == [a];
    assert RowKey(hash, b) in Seen(hash, [a]);
  }
}
