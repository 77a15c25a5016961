/**
 String handling of the monitor: Python's whitespace class, ASCII
 lower-casing, substring search, code-point ordering, `str.join`, the
 whitespace collapse of `clean_text` and the sentence-greedy truncation of
 `summarize_text`.
 */
module Text {

  /** Python's `str.isspace`, which is also what `\s` matches in a `str` regex. */
  predicate IsSpace(c: char) {
    || c == ' ' || c == '\t' || c == '\n' || c == '\r' || c == '\U{B}' || c == '\U{C}'
    || ('\U{1C}' <= c <= '\U{1F}') || c == '\U{85}' || c == '\U{A0}' || c == '\U{1680}'
    || ('\U{2000}' <= c <= '\U{200A}') || c == '\U{2028}' || c == '\U{2029}'
    || c == '\U{202F}' || c == '\U{205F}' || c == '\U{3000}'
  }

  /** The characters after which `summarize_text` may cut a sentence. */
  predicate IsTerminal(c: char) {
    c == '.' || c == '!' || c == '?'
  }

  function LowerChar(c: char): char {
    if 'A' <= c <= 'Z' then (c as int + 32) as char else c
  }

  /** `str.lower`, restricted to the ASCII letters. */
  function Lower(s: string): (r: string)
    ensures |r| == |s|
    ensures forall i :: 0 <= i < |s| ==> r[i] == LowerChar(s[i])
  {
    seq(|s|, i requires 0 <= i < |s| => LowerChar(s[i]))
  }

  /** Python's `needle in haystack` for two strings. */
  predicate Contains(haystack: string, needle: string) {
    exists i :: 0 <= i <= |haystack| && OccursAt(haystack, needle, i)
  }

  predicate OccursAt(haystack: string, needle: string, i: nat) {
    i + |needle| <= |haystack| && haystack[i..i + |needle|] == needle
  }

  /** Python's `a < b` on strings: lexicographic by code point. */
  predicate StrLess(a: string, b: string)
    decreases |a|
  {
    if |a| == 0 then |b| > 0
    else if |b| == 0 then false
    else if a[0] != b[0] then a[0] < b[0]
    else StrLess(a[1..], b[1..])
  }

  lemma {:induction false} StrLessTotal(a: string, b: string)
    ensures a == b || StrLess(a, b) || StrLess(b, a)
    decreases |a|
  {
    if |a| > 0 && |b| > 0 && a[0] == b[0] {
      StrLessTotal(a[1..], b[1..]);
      if a[1..] == b[1..] {
        assert a == [a[0]] + a[1..] && b == [b[0]] + b[1..];
      }
    }
  }

  lemma {:induction false} StrLessIrreflexive(a: string)
    ensures !StrLess(a, a)
    decreases |a|
  {
    if |a| > 0 {
      StrLessIrreflexive(a[1..]);
    }
  }

  lemma {:induction false} StrLessTransitive(a: string, b: string, c: string)
    requires StrLess(a, b) && StrLess(b, c)
    ensures StrLess(a, c)
    decreases |a|
  {
    if |a| > 0 && a[0] == b[0] && b[0] == c[0] {
      StrLessTransitive(a[1..], b[1..], c[1..]);
    }
  }

  /** Python's `sep.join(xs)`. */
  function Join(sep: string, xs: seq<string>): string
    decreases |xs|
  {
    if |xs| == 0 then ""
    else if |xs| == 1 then xs[0]
    else xs[0] + sep + Join(sep, xs[1..])
  }

  // ---------------------------------------------------------------------
  // Whitespace

  /** Number of whitespace characters that start `s`. */
  function LeadingSpaces(s: string): (n: nat)
    ensures n <= |s|
    ensures forall i :: 0 <= i < n ==> IsSpace(s[i])
    ensures n < |s| ==> !IsSpace(s[n])
    decreases |s|
  {
    if |s| > 0 && IsSpace(s[0]) then 1 + LeadingSpaces(s[1..]) else 0
  }

  /** `s` with its leading whitespace removed (`str.lstrip()`). */
  function DropSpaces(s: string): string {
    s[LeadingSpaces(s)..]
  }

  /** `s` with its trailing whitespace removed (`str.rstrip()`). */
  function DropTrailingSpaces(s: string): (r: string)
    ensures |r| <= |s| && r == s[..|r|]
    ensures |r| > 0 ==> !IsSpace(r[|r| - 1])
    decreases |s|
  {
    if |s| > 0 && IsSpace(s[|s| - 1]) then DropTrailingSpaces(s[..|s| - 1]) else s
  }

  /** Python's `str.strip()`. */
  function Strip(s: string): (r: string)
    ensures |r| <= |s|
  {
    DropTrailingSpaces(DropSpaces(s))
  }

  /** Length of the run of non-whitespace characters that starts `s`. */
  function WordLen(s: string): (n: nat)
    ensures n <= |s|
    ensures forall i :: 0 <= i < n ==> !IsSpace(s[i])
    ensures n < |s| ==> IsSpace(s[n])
    decreases |s|
  {
    if |s| > 0 && !IsSpace(s[0]) then 1 + WordLen(s[1..]) else 0
  }

  /** `re.sub(r"\s+", " ", s)`: every maximal whitespace run becomes one space. */
  function Collapse(s: string): string
    decreases |s|
  {
    if |s| == 0 then ""
    else if IsSpace(s[0]) then " " + Collapse(DropSpaces(s))
    else [s[0]] + Collapse(s[1..])
  }

  predicate IsWord(w: string) {
    |w| > 0 && forall i :: 0 <= i < |w| ==> !IsSpace(w[i])
  }

  /** Python's `s.split()`: the maximal runs of non-whitespace characters. */
  function Words(s: string): seq<string>
    decreases |s|
  {
    var t := DropSpaces(s);
    if |t| == 0 then []
    else
      var n := WordLen(t);
      [t[..n]] + Words(t[n..])
  }

  /** Every piece of the split is a non-empty run of non-whitespace characters. */
  lemma {:induction false} WordsAreWords(s: string)
    ensures forall i :: 0 <= i < |Words(s)| ==> IsWord(Words(s)[i])
    decreases |s|
  {
    var t := DropSpaces(s);
    if |t| > 0 {
      WordsAreWords(t[WordLen(t)..]);
    }
  }

  /**
   A string in the shape `clean_text` produces: no whitespace at either end,
   every whitespace character a plain space, never two of them in a row.
   */
  ghost predicate Tidy(s: string) {
    && (|s| == 0 || (!IsSpace(s[0]) && !IsSpace(s[|s| - 1])))
    && (forall i :: 0 <= i < |s| && IsSpace(s[i]) ==> s[i] == ' ')
    && (forall i :: 1 <= i < |s| && IsSpace(s[i]) ==> !IsSpace(s[i - 1]))
  }

  lemma {:induction false} DropSpacesOfSpaces(p: string, x: string)
    requires forall i :: 0 <= i < |p| ==> IsSpace(p[i])
    requires |x| == 0 || !IsSpace(x[0])
    ensures DropSpaces(p + x) == x
    decreases |p|
  {
    if |p| > 0 {
      assert (p + x)[1..] == p[1..] + x;
      DropSpacesOfSpaces(p[1..], x);
    } else {
      assert p + x == x;
    }
  }

  lemma {:induction false} DropTrailingOfSpaces(x: string, q: string)
    requires forall i :: 0 <= i < |q| ==> IsSpace(q[i])
    requires |x| == 0 || !IsSpace(x[|x| - 1])
    ensures DropTrailingSpaces(x + q) == x
    decreases |q|
  {
    if |q| > 0 {
      assert (x + q)[..|x + q| - 1] == x + q[..|q| - 1];
      DropTrailingOfSpaces(x, q[..|q| - 1]);
    } else {
      assert x + q == x;
    }
  }

  /** Stripping removes exactly the whitespace padding around a trimmed string. */
  lemma StripPadded(p: string, j: string, q: string)
    requires forall i :: 0 <= i < |p| ==> IsSpace(p[i])
    requires forall i :: 0 <= i < |q| ==> IsSpace(q[i])
    requires |j| == 0 || (!IsSpace(j[0]) && !IsSpace(j[|j| - 1]))
    ensures Strip(p + j + q) == j
  {
    if |j| == 0 {
      assert p + j + q == (p + q) + "";
      DropSpacesOfSpaces(p + q, "");
    } else {
      assert p + j + q == p + (j + q);
      DropSpacesOfSpaces(p, j + q);
      DropTrailingOfSpaces(j, q);
    }
  }

  /** Leading whitespace does not change the split. */
  lemma {:induction false} WordsSkipsSpaces(s: string)
    ensures Words(s) == Words(DropSpaces(s))
  {
    var t := DropSpaces(s);
    assert LeadingSpaces(t) == 0;
    assert DropSpaces(t) == t;
  }

  /** A string that starts with a non-space splits into its first word and the rest. */
  lemma {:induction false} WordsStep(t: string)
    requires |t| > 0 && !IsSpace(t[0])
    ensures Words(t) == [t[..WordLen(t)]] + Words(t[WordLen(t)..])
  {
    assert LeadingSpaces(t) == 0;
    assert DropSpaces(t) == t;
  }

  /** A word at the front of `t` is copied unchanged by the collapse. */
  lemma {:induction false} CollapseWord(t: string)
    requires |t| > 0 && !IsSpace(t[0])
    ensures Collapse(t) == t[..WordLen(t)] + Collapse(t[WordLen(t)..])
    decreases |t|
  {
    var n := WordLen(t);
    if n > 1 {
      CollapseWord(t[1..]);
      assert t[1..][..n - 1] == t[1..n];
      assert t[1..][n - 1..] == t[n..];
      assert t[..n] == [t[0]] + t[1..n];
    }
  }

  lemma JoinCons(w: string, ws: seq<string>)
    requires |ws| > 0
    ensures Join(" ", [w] + ws) == w + " " + Join(" ", ws)
  {
    assert ([w] + ws)[1..] == ws;
  }

  /** After the first word, the collapse emits one space and continues past the run. */
  lemma CollapseAfterWord(t: string)
    requires |t| > 0 && !IsSpace(t[0]) && WordLen(t) < |t|
    ensures Collapse(t) == t[..WordLen(t)] + (" " + Collapse(DropSpaces(t[WordLen(t)..])))
  {
    CollapseWord(t);
  }

  lemma {:induction false} WordsAfterWord(t: string)
    requires |t| > 0 && !IsSpace(t[0])
    ensures Words(t) == [t[..WordLen(t)]] + Words(DropSpaces(t[WordLen(t)..]))
  {
    WordsStep(t);
    WordsSkipsSpaces(t[WordLen(t)..]);
  }

  lemma CollapseSingleWord(t: string)
    requires |t| > 0 && !IsSpace(t[0]) && WordLen(t) == |t|
    ensures Collapse(t) == Join(" ", Words(t))
  {
    CollapseWord(t);
    WordsStep(t);
    assert t[WordLen(t)..] == "";
    assert Words("") == [];
    assert Collapse(t) == t[..WordLen(t)] + "";
  }

  lemma CollapseWordThenSpaces(t: string)
    requires |t| > 0 && !IsSpace(t[0]) && WordLen(t) < |t|
    requires |DropSpaces(t[WordLen(t)..])| == 0
    ensures Collapse(t) == Join(" ", Words(t)) + " "
  {
    var n := WordLen(t);
    var t' := DropSpaces(t[n..]);
    CollapseAfterWord(t);
    WordsAfterWord(t);
    assert Words(t') == [];
    assert Words(t) == [t[..n]];
  }

  lemma Assemble(w: string, c: string, j: string, collapsed: string, joined: string)
    requires collapsed == w + (" " + c) && joined == w + " " + j
    requires c == j || c == j + " "
    ensures collapsed == joined || collapsed == joined + " "
  {
    if c != j {
      assert w + (" " + (j + " ")) == (w + " " + j) + " ";
    }
  }

  lemma CollapseWordThenMore(t: string)
    requires |t| > 0 && !IsSpace(t[0]) && WordLen(t) < |t|
    requires var t' := DropSpaces(t[WordLen(t)..]);
      && |t'| > 0
      && (Collapse(t') == Join(" ", Words(t')) || Collapse(t') == Join(" ", Words(t')) + " ")
    ensures Collapse(t) == Join(" ", Words(t)) || Collapse(t) == Join(" ", Words(t)) + " "
  {
    var n := WordLen(t);
    var w, t' := t[..n], DropSpaces(t[n..]);
    CollapseAfterWord(t);
    WordsAfterWord(t);
    WordsStep(t');
    JoinCons(w, Words(t'));
    Assemble(w, Collapse(t'), Join(" ", Words(t')), Collapse(t), Join(" ", Words(t)));
  }

  /**
   Collapsing a string that does not start with whitespace gives its words
   joined by single spaces, possibly followed by one space.
   */
  lemma {:induction false} CollapseShape(t: string)
    requires |t| == 0 || !IsSpace(t[0])
    ensures Collapse(t) == Join(" ", Words(t)) || Collapse(t) == Join(" ", Words(t)) + " "
    decreases |t|
  {
    if |t| > 0 {
      var n := WordLen(t);
      if n == |t| {
        CollapseSingleWord(t);
      } else if |DropSpaces(t[n..])| == 0 {
        CollapseWordThenSpaces(t);
      } else {
        CollapseShape(DropSpaces(t[n..]));
        CollapseWordThenMore(t);
      }
    }
  }

  /** No whitespace at either end. */
  predicate Trimmed(s: string) {
    |s| == 0 || (!IsSpace(s[0]) && !IsSpace(s[|s| - 1]))
  }

  lemma {:induction false} JoinWordsTrimmed(ws: seq<string>)
    requires forall i :: 0 <= i < |ws| ==> IsWord(ws[i])
    ensures Trimmed(Join(" ", ws))
    ensures |ws| == 0 <==> |Join(" ", ws)| == 0
    decreases |ws|
  {
    if |ws| == 1 {
      assert IsWord(ws[0]);
    } else if |ws| > 1 {
      assert IsWord(ws[0]);
      JoinWordsTrimmed(ws[1..]);
    }
  }

  /** Joining words with single spaces yields a tidy string. */
  lemma {:induction false} JoinWordsTidy(ws: seq<string>)
    requires forall i :: 0 <= i < |ws| ==> IsWord(ws[i])
    ensures Tidy(Join(" ", ws))
    decreases |ws|
  {
    if |ws| > 1 {
      var w := ws[0];
      var j' := Join(" ", ws[1..]);
      JoinWordsTidy(ws[1..]);
      JoinWordsTrimmed(ws[1..]);
      assert IsWord(w);
      var j := w + " " + j';
      assert Join(" ", ws) == j;
      forall i | 0 <= i < |j| && IsSpace(j[i])
        ensures j[i] == ' '
      {
        if i > |w| { assert j[i] == j'[i - |w| - 1]; }
      }
      forall i | 1 <= i < |j| && IsSpace(j[i])
        ensures !IsSpace(j[i - 1])
      {
        if i > |w| + 1 {
          assert j[i] == j'[i - |w| - 1] && j[i - 1] == j'[i - |w| - 2];
        }
      }
    }
  }

  lemma StripAssemble(p: string, c: string, j: string)
    requires p == "" || p == " "
    requires c == j || c == j + " "
    requires Trimmed(j)
    ensures Strip(p + c) == j
  {
    if c == j {
      StripPadded(p, j, "");
      assert p + c == p + j + "";
    } else {
      StripPadded(p, j, " ");
      assert p + c == p + j + " ";
    }
  }

  lemma CollapseSplit(s: string)
    ensures Collapse(s) == (if |s| > 0 && IsSpace(s[0]) then " " else "") + Collapse(DropSpaces(s))
  {
    if !(|s| > 0 && IsSpace(s[0])) {
      assert DropSpaces(s) == s;
    }
  }

  /** `re.sub(r"\s+", " ", s).strip()` is `" ".join(s.split())`. */
  lemma StripCollapseIsJoinedWords(s: string)
    ensures Strip(Collapse(s)) == Join(" ", Words(s))
  {
    var t := DropSpaces(s);
    WordsSkipsSpaces(s);
    CollapseShape(t);
    WordsAreWords(s);
    JoinWordsTrimmed(Words(s));
    CollapseSplit(s);
    StripAssemble(if |s| > 0 && IsSpace(s[0]) then " " else "", Collapse(t), Join(" ", Words(s)));
  }

  /** The collapse-and-strip of `clean_text`. */
  function Squash(s: string): (r: string)
    ensures r == Join(" ", Words(s))
    ensures Tidy(r)
  {
    StripCollapseIsJoinedWords(s);
    WordsAreWords(s);
    JoinWordsTidy(Words(s));
    Strip(Collapse(s))
  }

  lemma {:induction false} WordLenOfWord(w: string, x: string)
    requires IsWord(w)
    requires |x| == 0 || IsSpace(x[0])
    ensures WordLen(w + x) == |w|
    decreases |w|
  {
    if |w| > 1 {
      assert (w + x)[1..] == w[1..] + x;
      WordLenOfWord(w[1..], x);
    } else {
      assert (w + x)[1..] == x;
    }
  }

  /** A word followed by whitespace or nothing is the first piece of the split. */
  lemma {:induction false} WordsOfWordThen(w: string, x: string)
    requires IsWord(w) && (|x| == 0 || IsSpace(x[0]))
    ensures Words(w + x) == [w] + Words(x)
  {
    var t := w + x;
    WordLenOfWord(w, x);
    WordsStep(t);
    assert t[..|w|] == w && t[|w|..] == x;
  }

  /** A single space before a word does not change the split. */
  lemma {:induction false} WordsOfSpaceThen(rest: string)
    requires |rest| > 0 && !IsSpace(rest[0])
    ensures Words(" " + rest) == Words(rest)
  {
    DropSpacesOfSpaces(" ", rest);
    WordsSkipsSpaces(" " + rest);
  }

  lemma {:induction false} WordsOfWordThenSpace(w: string, rest: string)
    requires IsWord(w) && |rest| > 0 && !IsSpace(rest[0])
    ensures Words(w + " " + rest) == [w] + Words(rest)
  {
    assert w + " " + rest == w + (" " + rest);
    WordsOfWordThen(w, " " + rest);
    WordsOfSpaceThen(rest);
  }

  lemma {:induction false} SingleWord(w: string)
    requires IsWord(w)
    ensures Words(w) == [w]
  {
    WordsOfWordThen(w, "");
    assert w + "" == w;
    assert Words("") == [];
  }

  /** Splitting words joined by single spaces gives the words back. */
  lemma {:induction false} WordsOfJoin(ws: seq<string>)
    requires forall i :: 0 <= i < |ws| ==> IsWord(ws[i])
    ensures Words(Join(" ", ws)) == ws
    decreases |ws|
  {
    if |ws| == 1 {
      SingleWord(ws[0]);
    } else if |ws| > 1 {
      var w, rest := ws[0], ws[1..];
      assert ws == [w] + rest;
      JoinCons(w, rest);
      JoinWordsTrimmed(rest);
      assert IsWord(w);
      WordsOfWordThenSpace(w, Join(" ", rest));
      WordsOfJoin(rest);
    }
  }

  /** Collapsing and stripping twice is the same as doing it once. */
  lemma SquashIdempotent(s: string)
    ensures Squash(Squash(s)) == Squash(s)
  {
    WordsAreWords(s);
    WordsOfJoin(Words(s));
  }

  /**
   `clean_text`: empty input gives the empty string; otherwise the input
   goes through `unescape` (`html.unescape`, a parameter here) and its words
   are joined by single spaces.
   */
  function CleanText(unescape: string -> string, x: string): (r: string)
    ensures |x| == 0 ==> r == ""
    ensures |x| > 0 ==> r == Join(" ", Words(unescape(x)))
    ensures Tidy(r)
  {
    if |x| == 0 then "" else Squash(unescape(x))
  }

  // ---------------------------------------------------------------------
  // Sentence-greedy truncation

  /** `j` is a cut point of `re.split(r"(?<=[.!?])\s+", s)`. */
  predicate SentenceEnd(s: string, j: int) {
    0 < j < |s| && IsTerminal(s[j - 1]) && IsSpace(s[j])
  }

  /** The first cut point at or after `i`, or `|s|` if there is none. */
  function NextEnd(s: string, i: nat): (b: nat)
    requires i <= |s|
    ensures i <= b <= |s|
    ensures b < |s| ==> SentenceEnd(s, b)
    ensures forall j :: i <= j < b ==> !SentenceEnd(s, j)
    decreases |s| - i
  {
    if i == |s| then i else if SentenceEnd(s, i) then i else NextEnd(s, i + 1)
  }

  /** `re.split(r"(?<=[.!?])\s+", s)`: the cut swallows the whole whitespace run. */
  function SplitSentences(s: string): (parts: seq<string>)
    decreases |s|
  {
    var b := NextEnd(s, 0);
    if b == |s| then [s]
    else
      [s[..b]] + SplitSentences(DropSpaces(s[b..]))
  }

  /**
   The accumulation loop of `summarize_text`: skip empty parts, stop at the
   first part that would push the output (with its trailing space) past
   `maxChars`, otherwise append the part and a space.
   */
  function Accumulate(parts: seq<string>, maxChars: nat, out: string): (r: string)
    ensures |out| <= maxChars ==> |r| <= maxChars
    decreases |parts|
  {
    if |parts| == 0 then out
    else if |parts[0]| == 0 then Accumulate(parts[1..], maxChars, out)
    else if |out| + |parts[0]| + 1 > maxChars then out
    else Accumulate(parts[1..], maxChars, out + parts[0] + " ")
  }

  /** The marker appended when not even one sentence fits. */
  const Ellipsis: string := "…"

  /** `summarize_text` after its HTML-to-text and `clean_text` steps. */
  function Summarize(text: string, maxChars: nat): (r: string)
    ensures |text| <= maxChars ==> r == text
    ensures |text| > maxChars ==> (r == text[..maxChars] + Ellipsis || 0 < |r| <= maxChars)
  {
    if |text| <= maxChars then text
    else
      var out := Strip(Accumulate(SplitSentences(text), maxChars, ""));
      if |out| > 0 then out else text[..maxChars] + Ellipsis
  }

  lemma TidySuffix(s: string, k: nat)
    requires Tidy(s) && k < |s| && !IsSpace(s[k])
    ensures Tidy(s[k..])
  {
    var t := s[k..];
    forall i | 1 <= i < |t| && IsSpace(t[i])
      ensures !IsSpace(t[i - 1])
    {
      assert t[i] == s[k + i] && t[i - 1] == s[k + i - 1];
    }
  }

  /**
   What the accumulation loop, started with `out`, keeps of a tidy text `s`:
   nothing (`J == 0`) when no cut point leaves room for the trailing space,
   otherwise the text up to the last cut point `J` that does.
   */
  ghost predicate Greedy(s: string, maxChars: nat, out: string, acc: string, J: nat) {
    || (&& J == 0 && acc == out
        && forall j :: 0 < j < |s| && |out| + j + 1 <= maxChars ==> !SentenceEnd(s, j))
    || (&& 0 < J < |s| && SentenceEnd(s, J) && |out| + J + 1 <= maxChars
        && acc == out + s[..J] + " "
        && forall j :: J < j < |s| && |out| + j + 1 <= maxChars ==> !SentenceEnd(s, j))
  }

  /** The cut points of `rest` are those of `s` beyond `k`, moved by `k`. */
  ghost predicate EndsShifted(s: string, k: nat, rest: string) {
    forall j :: 0 <= j < |rest| ==> (SentenceEnd(s, k + j) <==> SentenceEnd(rest, j))
  }

  lemma ShiftEnds(s: string, k: nat)
    requires 0 < k <= |s| && !IsTerminal(s[k - 1])
    ensures EndsShifted(s, k, s[k..])
  {
    var rest := s[k..];
    forall j | 0 <= j < |rest|
      ensures SentenceEnd(s, k + j) <==> SentenceEnd(rest, j)
    {
      if j > 0 {
        assert rest[j - 1] == s[k + j - 1] && rest[j] == s[k + j];
      }
    }
  }

  /** In a tidy text a cut point is one space followed by the next sentence. */
  lemma TidyCutChars(s: string, b: nat)
    requires Tidy(s) && SentenceEnd(s, b)
    ensures s[b] == ' ' && b + 1 < |s| && !IsSpace(s[b + 1])
  {
  }

  lemma TidyCut(s: string, b: nat)
    requires Tidy(s) && b == NextEnd(s, 0) && b < |s|
    ensures b > 0 && s[b] == ' ' && b + 1 < |s| && !IsSpace(s[b + 1])
    ensures Tidy(s[b + 1..])
    ensures SplitSentences(s) == [s[..b]] + SplitSentences(s[b + 1..])
    ensures EndsShifted(s, b + 1, s[b + 1..])
  {
    TidyCutChars(s, b);
    SplitAtSpace(s, b);
    TidySuffix(s, b + 1);
    ShiftEnds(s, b + 1);
  }

  lemma SplitAtSpace(s: string, b: nat)
    requires b == NextEnd(s, 0) && b + 1 < |s| && s[b] == ' ' && !IsSpace(s[b + 1])
    ensures SplitSentences(s) == [s[..b]] + SplitSentences(s[b + 1..])
  {
    var rest := s[b + 1..];
    assert s[b..] == " " + rest;
    DropSpacesOfSpaces(" ", rest);
  }

  lemma AccumulateStep(p: string, ps: seq<string>, maxChars: nat, out: string)
    requires |p| > 0
    ensures Accumulate([p] + ps, maxChars, out)
      == if |out| + |p| + 1 > maxChars then out else Accumulate(ps, maxChars, out + p + " ")
  {
    assert ([p] + ps)[1..] == ps;
  }

  /** One sentence taken: the result for the rest shifts to a result for the whole. */
  lemma GreedyShift(s: string, b: nat, maxChars: nat, out: string, acc: string, J': nat) returns (J: nat)
    requires 0 < b && b + 1 < |s| && s[b] == ' ' && SentenceEnd(s, b)
    requires forall j :: 0 < j < b ==> !SentenceEnd(s, j)
    requires EndsShifted(s, b + 1, s[b + 1..])
    requires |out| + b + 1 <= maxChars
    requires Greedy(s[b + 1..], maxChars, out + s[..b] + " ", acc, J')
    ensures Greedy(s, maxChars, out, acc, J)
  {
    var rest := s[b + 1..];
    if J' == 0 {
      J := b;
    } else {
      J := b + 1 + J';
      assert s[..J] == s[..b] + " " + rest[..J'];
      assert SentenceEnd(s, b + 1 + J');
    }
    forall j | J < j < |s| && |out| + j + 1 <= maxChars
      ensures !SentenceEnd(s, j)
    {
      if j > b + 1 {
        assert SentenceEnd(s, b + 1 + (j - b - 1)) <==> SentenceEnd(rest, j - b - 1);
      }
    }
  }

  lemma {:induction false} AccumulateGreedy(s: string, maxChars: nat, out: string) returns (J: nat)
    requires Tidy(s)
    requires |out| + |s| > maxChars
    ensures Greedy(s, maxChars, out, Accumulate(SplitSentences(s), maxChars, out), J)
    decreases |s|
  {
    var b := NextEnd(s, 0);
    if |s| == 0 {
      assert SplitSentences(s) == [s];
      J := 0;
    } else if b == |s| {
      assert SplitSentences(s) == [s];
      J := 0;
    } else {
      TidyCut(s, b);
      var rest := s[b + 1..];
      AccumulateStep(s[..b], SplitSentences(rest), maxChars, out);
      if |out| + b + 1 > maxChars {
        J := 0;
      } else {
        var out' := out + s[..b] + " ";
        var J' := AccumulateGreedy(rest, maxChars, out');
        J := GreedyShift(s, b, maxChars, out, Accumulate(SplitSentences(rest), maxChars, out'), J');
      }
    }
  }

  /**
   On a tidy text longer than `maxChars`, `Summarize` returns the longest
   prefix made of whole sentences that is shorter than `maxChars`, or, when
   no sentence ends before `maxChars`, the first `maxChars` characters and
   an ellipsis.
   */
  lemma SummarizeWholeSentences(text: string, maxChars: nat)
    requires Tidy(text) && |text| > maxChars
    ensures var r := Summarize(text, maxChars);
      || (&& r == text[..maxChars] + Ellipsis && |r| == maxChars + 1
          && forall j :: 0 < j < maxChars ==> !SentenceEnd(text, j))
      || (&& 0 < |r| < maxChars && r == text[..|r|] && SentenceEnd(text, |r|)
          && forall j :: |r| < j < maxChars ==> !SentenceEnd(text, j))
  {
    var J := AccumulateGreedy(text, maxChars, "");
    var acc := Accumulate(SplitSentences(text), maxChars, "");
    if J == 0 {
      assert Strip(acc) == "";
    } else {
      assert acc == text[..J] + " ";
      StripPadded("", text[..J], " ");
      assert "" + text[..J] + " " == acc;
    }
  }

  /** HTML-to-text extraction (BeautifulSoup's `get_text(" ")`) and `html.unescape`. */
  datatype HtmlTools = HtmlTools(getText: string -> string, unescape: string -> string)

  /**
   `summarize_text`: extract the text, clean it, and return it whole when it
   fits, else the longest whole-sentence prefix shorter than `maxChars`, else
   the first `maxChars` characters and an ellipsis.
   */
  function SummarizeText(tools: HtmlTools, markup: string, maxChars: nat): (r: string)
    ensures var text := CleanText(tools.unescape, tools.getText(markup));
      && (|text| <= maxChars ==> r == text)
      && (|text| > maxChars ==>
          || (&& r == text[..maxChars] + Ellipsis && |r| == maxChars + 1
              && forall j :: 0 < j < maxChars ==> !SentenceEnd(text, j))
          || (&& 0 < |r| < maxChars && r == text[..|r|] && SentenceEnd(text, |r|)
              && forall j :: |r| < j < maxChars ==> !SentenceEnd(text, j)))
  {
    var text := CleanText(tools.unescape, tools.getText(markup));
    if |text| > maxChars then SummarizeWholeSentences(text, maxChars); Summarize(text, maxChars)
    else Summarize(text, maxChars)
  }
}
