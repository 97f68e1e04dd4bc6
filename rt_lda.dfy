/** rt_lda_predictor.cpp: the "real-time" predictor. Its LdaModel loads the
    topic rows and word rows of a model file with integer word ids and
    precomputes, for every word, R = the topic with the largest p(w | z)
    and that probability times alpha. RtLdaPredictor assigns each position
    of a document a random topic and then, sweep after sweep, moves every
    position greedily to the topic of largest score (or to R's topic when
    R beats every score). */
module RtLda {
  import opened Tables
  import opened PredictorTables

  /** `_R[w]`: a topic and max p(w | z) (times alpha once calc_r is done). */
  type RValue = (int, real)

  /** `_top2wor`: one row per topic; None where the file has no line (NULL). */
  type TopicRows = seq<Option<map<int, real>>>

  // ---------------------------------------------------------------------
  // The topic rows

  /** The pairs of one line stored into a row, a later pair overwriting an
      earlier one of the same word. */
  function PairsRow(row: map<int, real>, pairs: seq<(int, real)>): map<int, real>
    decreases |pairs|
  {
    if |pairs| == 0 then row
    else
      var n := |pairs| - 1;
      PairsRow(row, pairs[..n])[pairs[n].0 := pairs[n].1]
  }

  /** rt_lda_predictor.cpp:48-80, `_top2wor`: every line gives its topic a
      new row holding the line's pairs, replacing any earlier row. */
  function LoadRows(lines: seq<IdLine>, numTopic: nat): (r: TopicRows)
    requires TopicsInRange(lines, numTopic)
    ensures |r| == numTopic
    decreases |lines|
  {
    if |lines| == 0 then seq(numTopic, _ => None)
    else
      var n := |lines| - 1;
      LoadRows(lines[..n], numTopic)[lines[n].0 := Some(PairsRow(map[], lines[n].1))]
  }

  /** The row of topic `t` exists and holds word `w`. */
  ghost predicate InRow(rows: TopicRows, t: int, w: int)
  {
    0 <= t < |rows| && rows[t].Some? && w in rows[t].value
  }

  /** Every entry of a topic row is also in the word rows, with the same count. */
  ghost predicate RowsMirrorCounts(rows: TopicRows, m: map<int, map<int, real>>)
  {
    forall t, w :: InRow(rows, t, w) ==> HasEntry(m, w, t) && m[w][t] == rows[t].value[w]
  }

  lemma {:induction false} PairsRowKeys(row: map<int, real>, pairs: seq<(int, real)>)
    ensures forall w :: w in PairsRow(row, pairs) <==> w in row || InPairs(pairs, w)
    decreases |pairs|
  {
    if |pairs| > 0 {
      var n := |pairs| - 1;
      PairsRowKeys(row, pairs[..n]);
      forall w | InPairs(pairs, w) && w != pairs[n].0 ensures InPairs(pairs[..n], w) {
        var j :| 0 <= j < |pairs| && pairs[j].0 == w;
        assert pairs[..n][j].0 == w;
      }
      forall w | InPairs(pairs[..n], w) ensures InPairs(pairs, w) {
        var j :| 0 <= j < n && pairs[..n][j].0 == w;
        assert pairs[j].0 == w;
      }
      assert pairs[n].0 == pairs[n].0;
    }
  }

  /** One line stored both ways: the new row of `topic` agrees with the word
      rows, and the rows of other topics keep agreeing. */
  lemma {:induction false} PairsMirror(row: map<int, real>, c: CountTables, topic: nat, pairs: seq<(int, real)>)
    requires topic < |c.topsum|
    requires forall w :: w in row ==> HasEntry(c.wor2top, w, topic) && c.wor2top[w][topic] == row[w]
    ensures var m := AddIdPairs(c, topic, pairs).wor2top;
      && (forall w :: w in PairsRow(row, pairs) ==> HasEntry(m, w, topic) && m[w][topic] == PairsRow(row, pairs)[w])
      && (forall w, t :: t != topic && HasEntry(c.wor2top, w, t) ==> HasEntry(m, w, t) && m[w][t] == c.wor2top[w][t])
    decreases |pairs|
  {
    if |pairs| > 0 {
      PairsMirror(row, c, topic, pairs[..|pairs| - 1]);
    }
  }

  lemma LineMirror(rows: TopicRows, c: CountTables, topic: nat, pairs: seq<(int, real)>)
    requires topic < |c.topsum| && topic < |rows|
    requires RowsMirrorCounts(rows, c.wor2top)
    ensures RowsMirrorCounts(rows[topic := Some(PairsRow(map[], pairs))], AddIdPairs(c, topic, pairs).wor2top)
  {
    PairsMirror(map[], c, topic, pairs);
    var rows' := rows[topic := Some(PairsRow(map[], pairs))];
    var m := AddIdPairs(c, topic, pairs).wor2top;
    forall t, w | InRow(rows', t, w)
      ensures HasEntry(m, w, t) && m[w][t] == rows'[t].value[w]
    {
      if t == topic {
        assert w in PairsRow(map[], pairs);
      } else {
        assert InRow(rows, t, w);
        assert HasEntry(c.wor2top, w, t) && c.wor2top[w][t] == rows[t].value[w];
      }
    }
  }

  /** rt_lda_predictor.cpp:62-78: each count is stored under (topic, word)
      in `_top2wor` and under (word, topic) in `_wor2top`, so every topic
      row entry is mirrored in the word rows. */
  lemma {:induction false} LoadMirror(lines: seq<IdLine>, numTopic: nat)
    requires TopicsInRange(lines, numTopic)
    ensures RowsMirrorCounts(LoadRows(lines, numTopic), LoadCounts(lines, numTopic).wor2top)
    decreases |lines|
  {
    if |lines| > 0 {
      var n := |lines| - 1;
      LoadMirror(lines[..n], numTopic);
      LineMirror(LoadRows(lines[..n], numTopic), LoadCounts(lines[..n], numTopic), lines[n].0, lines[n].1);
    } else {
      assert forall t, w :: !InRow(LoadRows(lines, numTopic), t, w);
    }
  }

  /** Some line of the file is a line of topic `t`. */
  ghost predicate HeadsLine(lines: seq<IdLine>, t: int)
  {
    exists k :: 0 <= k < |lines| && lines[k].0 == t
  }

  /** A topic has a row exactly when some line heads it; a topic without a
      line keeps a NULL pointer. */
  lemma {:induction false} LoadRowsPresent(lines: seq<IdLine>, numTopic: nat, t: int)
    requires TopicsInRange(lines, numTopic) && 0 <= t < numTopic
    ensures LoadRows(lines, numTopic)[t].Some? <==> HeadsLine(lines, t)
    decreases |lines|
  {
    if |lines| > 0 {
      var n := |lines| - 1;
      LoadRowsPresent(lines[..n], numTopic, t);
      if exists k :: 0 <= k < n && lines[k].0 == t {
        var k :| 0 <= k < n && lines[k].0 == t;
        assert lines[..n][k].0 == t;
      }
      if exists k :: 0 <= k < n && lines[..n][k].0 == t {
        var k :| 0 <= k < n && lines[..n][k].0 == t;
        assert lines[k].0 == t;
      }
    }
  }

  /** A topic's row is the one of its last line. */
  lemma {:induction false} LoadRowsLast(lines: seq<IdLine>, numTopic: nat, k: nat)
    requires TopicsInRange(lines, numTopic) && k < |lines|
    requires forall k' :: k < k' < |lines| ==> lines[k'].0 != lines[k].0
    ensures LoadRows(lines, numTopic)[lines[k].0] == Some(PairsRow(map[], lines[k].1))
    decreases |lines|
  {
    var n := |lines| - 1;
    if k < n {
      assert lines[..n][k] == lines[k];
      assert forall k' :: k < k' < n ==> lines[..n][k'].0 != lines[k].0;
      LoadRowsLast(lines[..n], numTopic, k);
    }
  }

  /** No topic heads two lines. */
  ghost predicate UniqueTopics(lines: seq<IdLine>)
  {
    forall k, k' :: 0 <= k < k' < |lines| ==> lines[k].0 != lines[k'].0
  }

  /** With one line per topic the two tables are exact mirrors: every word
      row entry is also in the topic rows. (A topic with two lines keeps
      only the second line in its row, while the word rows keep the
      first line's words too.) */
  lemma LoadMirrorExact(lines: seq<IdLine>, numTopic: nat)
    requires TopicsInRange(lines, numTopic) && UniqueTopics(lines)
    ensures var m := LoadCounts(lines, numTopic).wor2top;
      forall w, t :: HasEntry(m, w, t) <==> InRow(LoadRows(lines, numTopic), t, w)
  {
    var m := LoadCounts(lines, numTopic).wor2top;
    var rows := LoadRows(lines, numTopic);
    LoadMirror(lines, numTopic);
    LoadEntries(lines, numTopic);
    forall w, t | HasEntry(m, w, t) ensures InRow(rows, t, w) {
      assert Listed(lines, t, w);
      var k :| 0 <= k < |lines| && lines[k].0 == t && InPairs(lines[k].1, w);
      LoadRowsLast(lines, numTopic, k);
      PairsRowKeys(map[], lines[k].1);
    }
  }

  // ---------------------------------------------------------------------
  // The R table

  /** Every topic with a non-empty row has a positive total. */
  ghost predicate RowsDivisible(rows: TopicRows, topsum: seq<real>)
  {
    && |rows| == |topsum|
    && forall t :: 0 <= t < |rows| && rows[t].Some? && rows[t].value != map[] ==> topsum[t] > 0.0
  }

  /** p(w | z) of a topic row entry. */
  ghost function Ratio(rows: TopicRows, topsum: seq<real>, t: int, w: int): real
    requires RowsDivisible(rows, topsum) && InRow(rows, t, w)
  {
    rows[t].value[w] / topsum[t]
  }

  /** The first `n` topics all have rows: calc_r dereferences each. */
  ghost predicate RowsPresent(rows: TopicRows, n: nat)
  {
    n <= |rows| && forall t :: 0 <= t < n ==> rows[t].Some?
  }

  /** calc_r, topic `i`: every word of the row takes topic `i` when it had no
      candidate yet or when `i` gives a strictly larger p(w | z). */
  ghost function ScanTopic(best: map<int, RValue>, i: int, row: map<int, real>, total: real): map<int, RValue>
    requires row != map[] ==> total != 0.0
  {
    map w | w in best.Keys + row.Keys ::
      if w in row && (w !in best || best[w].1 < row[w] / total) then (i, row[w] / total) else best[w]
  }

  /** The candidates after the topics 0 .. n-1, in increasing index. */
  ghost function RFold(rows: TopicRows, topsum: seq<real>, n: nat): map<int, RValue>
    requires RowsDivisible(rows, topsum) && RowsPresent(rows, n)
  {
    if n == 0 then map[]
    else
      ScanTopic(RFold(rows, topsum, n - 1), n - 1, rows[n - 1].value, topsum[n - 1])
  }

  /** One R entry times alpha. */
  function WithAlpha(v: RValue, alpha: real): RValue
  {
    (v.0, v.1 * alpha)
  }

  /** The multiplication by alpha that ends calc_r. */
  function TimesAlpha(best: map<int, RValue>, alpha: real): (r: map<int, RValue>)
    ensures r.Keys == best.Keys
    ensures forall w :: w in best ==> r[w] == WithAlpha(best[w], alpha)
  {
    map w | w in best :: WithAlpha(best[w], alpha)
  }

  /** After the topics 0 .. n-1, a word has a candidate exactly when one of
      those topics holds it; the candidate's topic holds it with the
      candidate's p(w | z), no topic holds it with a larger one, and every
      smaller topic holds it with a strictly smaller one. */
  ghost predicate BestCandidates(rows: TopicRows, topsum: seq<real>, n: nat, r: map<int, RValue>)
    requires RowsDivisible(rows, topsum) && RowsPresent(rows, n)
  {
    && (forall w :: w in r <==> exists t :: 0 <= t < n && InRow(rows, t, w))
    && (forall w :: w in r ==> 0 <= r[w].0 < n && InRow(rows, r[w].0, w) && r[w].1 == Ratio(rows, topsum, r[w].0, w))
    && (forall w, t :: w in r && 0 <= t < n && InRow(rows, t, w) ==> Ratio(rows, topsum, t, w) <= r[w].1)
    && (forall w, t :: w in r && 0 <= t < r[w].0 && InRow(rows, t, w) ==> Ratio(rows, topsum, t, w) < r[w].1)
  }

  /** rt_lda_predictor.cpp:85-105: scanning topics in increasing index and
      replacing a candidate only on a strictly larger p(w | z) keeps, for
      every word, the first topic of largest p(w | z). */
  lemma {:induction false} RFoldBest(rows: TopicRows, topsum: seq<real>, n: nat)
    requires RowsDivisible(rows, topsum) && RowsPresent(rows, n)
    ensures BestCandidates(rows, topsum, n, RFold(rows, topsum, n))
    decreases n
  {
    if n > 0 {
      RFoldBest(rows, topsum, n - 1);
      var prev := RFold(rows, topsum, n - 1);
      var r := RFold(rows, topsum, n);
      var i := n - 1;
      var row := rows[i].value;
      assert r == ScanTopic(prev, i, row, topsum[i]);
      forall w | w in r ensures 0 <= r[w].0 < n && InRow(rows, r[w].0, w) && r[w].1 == Ratio(rows, topsum, r[w].0, w) {
        if w in row && (w !in prev || prev[w].1 < row[w] / topsum[i]) {
          assert r[w] == (i, row[w] / topsum[i]);
          assert InRow(rows, i, w);
          assert r[w].1 == Ratio(rows, topsum, i, w);
        } else {
          assert w in prev && r[w] == prev[w];
        }
      }
      forall w, t | w in r && 0 <= t < n && InRow(rows, t, w) ensures Ratio(rows, topsum, t, w) <= r[w].1 {
        if t < i {
          assert w in prev;
        }
      }
      forall w, t | w in r && 0 <= t < r[w].0 && InRow(rows, t, w) ensures Ratio(rows, topsum, t, w) < r[w].1 {
        assert w in prev;
      }
      forall w | exists t :: 0 <= t < n && InRow(rows, t, w) ensures w in r {
        var t :| 0 <= t < n && InRow(rows, t, w);
        if t < i {
          assert w in prev;
        }
      }
    } else {
      assert RFold(rows, topsum, n) == map[];
    }
  }

  // ---------------------------------------------------------------------
  // The greedy choice of predict

  /** The local count of `t` with the position's own assignment taken out. */
  function Theta(doc2top: map<int, int>, t: int, oldTopic: int): int
  {
    Counter(doc2top, t) - (if t == oldTopic then 1 else 0)
  }

  /** rt_lda_predictor.cpp:180-191: a topic of the word is scored only when
      the document counts it and the count without the position is not zero. */
  ghost predicate IsCandidate(row: map<int, real>, doc2top: map<int, int>, oldTopic: int, t: int)
  {
    t in row && Counter(doc2top, t) != 0 && Theta(doc2top, t, oldTopic) != 0
  }

  /** The score of topic `t` of the word's row. */
  ghost function Score(row: map<int, real>, topsum: seq<real>, doc2top: map<int, int>, oldTopic: int, alpha: real, t: int): real
    requires Scorable(row, topsum) && t in row
  {
    Phi(row[t], topsum[t], Theta(doc2top, t, oldTopic), alpha)
  }

  /** `_R[word]` through operator[]: a word without an entry reads (0, 0). */
  function RLookup(r: map<int, RValue>, w: int): RValue
  {
    if w in r then r[w] else (0, 0.0)
  }

  /** rt_lda_predictor.cpp:167-209: R's topic when R is positive and beats
      every score; otherwise a candidate of largest positive score; otherwise
      (no positive score) topic 0. Ties among candidates go to the first in
      the row's iteration order, which this model leaves unspecified. */
  ghost predicate GreedyPick(row: map<int, real>, topsum: seq<real>, doc2top: map<int, int>, oldTopic: int,
                             alpha: real, rv: RValue, chosen: int)
    requires Scorable(row, topsum)
  {
    var beats := rv.1 > 0.0 && forall c :: IsCandidate(row, doc2top, oldTopic, c) ==> Score(row, topsum, doc2top, oldTopic, alpha, c) < rv.1;
    if beats then chosen == rv.0
    else if exists c :: IsCandidate(row, doc2top, oldTopic, c) && Score(row, topsum, doc2top, oldTopic, alpha, c) > 0.0 then
      && IsCandidate(row, doc2top, oldTopic, chosen)
      && (forall c :: IsCandidate(row, doc2top, oldTopic, c) ==>
            Score(row, topsum, doc2top, oldTopic, alpha, c) <= Score(row, topsum, doc2top, oldTopic, alpha, chosen))
    else chosen == 0
  }

  /** With a positive R the chosen topic is R's or a scored candidate, never
      a third one. */
  lemma GreedyNeverThird(row: map<int, real>, topsum: seq<real>, doc2top: map<int, int>, oldTopic: int,
                         alpha: real, rv: RValue, chosen: int)
    requires Scorable(row, topsum) && rv.1 > 0.0
    requires GreedyPick(row, topsum, doc2top, oldTopic, alpha, rv, chosen)
    ensures chosen == rv.0 || IsCandidate(row, doc2top, oldTopic, chosen)
  {
    if chosen != rv.0 {
      var c :| IsCandidate(row, doc2top, oldTopic, c) && Score(row, topsum, doc2top, oldTopic, alpha, c) >= rv.1;
    }
  }

  /** rt_lda_predictor.cpp:175-201: scans the word's topics in the row's
      iteration order, keeping the first of strictly largest positive score;
      the best score starts at 0 and the best topic at 0. */
  method ScoreTopics(row: map<int, real>, topsum: seq<real>, doc2top: map<int, int>, oldTopic: int, alpha: real)
    returns (maxTopic: int, maxPhi: real)
    requires Scorable(row, topsum)
    ensures maxPhi >= 0.0
    ensures forall c :: IsCandidate(row, doc2top, oldTopic, c) ==> Score(row, topsum, doc2top, oldTopic, alpha, c) <= maxPhi
    ensures maxPhi > 0.0 ==> (IsCandidate(row, doc2top, oldTopic, maxTopic) &&
      Score(row, topsum, doc2top, oldTopic, alpha, maxTopic) == maxPhi)
    ensures maxPhi == 0.0 ==> maxTopic == 0
  {
    maxTopic, maxPhi := 0, 0.0;
    var rest := row.Keys;
    ghost var done: set<int> := {};
    while rest != {}
      invariant rest + done == row.Keys && rest * done == {}
      invariant maxPhi >= 0.0
      invariant forall c :: c in done && IsCandidate(row, doc2top, oldTopic, c) ==>
        Score(row, topsum, doc2top, oldTopic, alpha, c) <= maxPhi
      invariant maxPhi > 0.0 ==> (IsCandidate(row, doc2top, oldTopic, maxTopic) &&
        Score(row, topsum, doc2top, oldTopic, alpha, maxTopic) == maxPhi)
      invariant maxPhi == 0.0 ==> maxTopic == 0
      decreases rest
    {
      var t := Choose(rest);
      rest := rest - {t};
      done := done + {t};
      if t !in doc2top || doc2top[t] == 0 {
        continue;
      }
      var theta := Theta(doc2top, t, oldTopic);
      if theta == 0 {
        continue;
      }
      var phi := Phi(row[t], topsum[t], theta, alpha);
      if phi > maxPhi {
        maxPhi := phi;
        maxTopic := t;
      }
    }
  }

  /** rt_lda_predictor.cpp:175-209: the scan, then the comparison with R. */
  method GreedyTopic(row: map<int, real>, topsum: seq<real>, doc2top: map<int, int>, oldTopic: int, alpha: real, rv: RValue)
    returns (chosen: int)
    requires Scorable(row, topsum)
    ensures GreedyPick(row, topsum, doc2top, oldTopic, alpha, rv, chosen)
  {
    var maxTopic, maxPhi := ScoreTopics(row, topsum, doc2top, oldTopic, alpha);
    if rv.1 > maxPhi {
      chosen := rv.0;
    } else {
      chosen := maxTopic;
    }
  }

  /** Where the greedy choice lands: R's topic (when R is positive), a topic
      of the word's row, or the default topic 0. */
  lemma GreedyLands(row: map<int, real>, topsum: seq<real>, doc2top: map<int, int>, oldTopic: int,
                    alpha: real, rv: RValue, chosen: int)
    requires Scorable(row, topsum)
    requires GreedyPick(row, topsum, doc2top, oldTopic, alpha, rv, chosen)
    ensures (chosen == rv.0 && rv.1 > 0.0) || chosen in row || chosen == 0
  {
  }

  /** The greedy choice reads the counters only through their values: maps
      that differ by zero entries allow the same choices. */
  lemma GreedyPickSameCounters(row: map<int, real>, topsum: seq<real>, h: map<int, int>, h': map<int, int>,
                               oldTopic: int, alpha: real, rv: RValue, chosen: int)
    requires Scorable(row, topsum) && SameCounters(h, h')
    requires GreedyPick(row, topsum, h, oldTopic, alpha, rv, chosen)
    ensures GreedyPick(row, topsum, h', oldTopic, alpha, rv, chosen)
  {
    forall c ensures IsCandidate(row, h, oldTopic, c) == IsCandidate(row, h', oldTopic, c)
      ensures c in row ==> Score(row, topsum, h, oldTopic, alpha, c) == Score(row, topsum, h', oldTopic, alpha, c)
    {
      assert Counter(h, c) == Counter(h', c);
    }
  }

  /** A scan of a topic row restricted to the words handled so far, one
      more word at a time. */
  lemma ScanTopicStep(start: map<int, RValue>, i: int, row: map<int, real>, done: set<int>, w: int, total: real)
    requires w in row && w !in done && total != 0.0
    ensures var prev := ScanTopic(start, i, Restrict(row, done), total);
      ScanTopic(start, i, Restrict(row, done + {w}), total) ==
        if w !in prev || prev[w].1 < row[w] / total then prev[w := (i, row[w] / total)] else prev
  {
    var prev := ScanTopic(start, i, Restrict(row, done), total);
    var next := ScanTopic(start, i, Restrict(row, done + {w}), total);
    var wanted := if w !in prev || prev[w].1 < row[w] / total then prev[w := (i, row[w] / total)] else prev;
    MapsEqual(next, wanted);
  }

  // ---------------------------------------------------------------------
  // The model

  /** LdaModel of rt_lda_predictor.cpp, built from the tokenised model file. */
  class LdaModel {
    var numTopic: nat
    var alpha: real
    var top2wor: TopicRows
    var wor2top: map<int, map<int, real>>
    var topsum: seq<real>
    /** `_R`. */
    var rValues: map<int, RValue>
    /** The model file. */
    ghost var lines: seq<IdLine>

    /** The tables are those of the file, every topic has a row, and R is
        the per-word best topic of the rows, times alpha. */
    ghost predicate Valid()
      reads this
    {
      && TopicsInRange(lines, numTopic) && NonNegativeCounts(lines) && PositiveTotals(lines)
      && top2wor == LoadRows(lines, numTopic)
      && CountTables(wor2top, topsum) == LoadCounts(lines, numTopic)
      && RowsPresent(top2wor, numTopic)
      && RowsDivisible(top2wor, topsum)
      && rValues == TimesAlpha(RFold(top2wor, topsum, numTopic), alpha)
    }

    /** rt_lda_predictor.cpp:38-44 (without the model report): load_model,
        then calc_r. calc_r reads the row of every topic below num_topic, so
        every such topic must head a line of the file. */
    constructor (lines: seq<IdLine>, numTopic: nat, alpha: real)
      requires TopicsInRange(lines, numTopic) && NonNegativeCounts(lines) && PositiveTotals(lines)
      requires forall t :: 0 <= t < numTopic ==> HeadsLine(lines, t)
      ensures Valid() && this.lines == lines && this.numTopic == numTopic && this.alpha == alpha
    {
      this.alpha := alpha;
      this.lines := lines;
      top2wor, wor2top, topsum, rValues := [], map[], [], map[];
      new;
      LoadModel(lines, numTopic);
      forall t | 0 <= t < numTopic ensures top2wor[t].Some? {
        LoadRowsPresent(lines, numTopic, t);
      }
      LoadDivisible();
      CalcR();
    }

    /** A file whose listing topics have positive totals gives every
        non-empty topic row a positive total. */
    lemma LoadDivisible()
      requires TopicsInRange(lines, numTopic) && NonNegativeCounts(lines) && PositiveTotals(lines)
      requires top2wor == LoadRows(lines, numTopic) && CountTables(wor2top, topsum) == LoadCounts(lines, numTopic)
      ensures RowsDivisible(top2wor, topsum)
    {
      LoadMirror(lines, numTopic);
      LoadUsable(lines, numTopic);
      forall t | 0 <= t < |top2wor| && top2wor[t].Some? && top2wor[t].value != map[] ensures topsum[t] > 0.0 {
        var w := Pick(top2wor[t].value.Keys);
        assert InRow(top2wor, t, w);
      }
    }

    /** rt_lda_predictor.cpp:48-80: num_topic empty rows and zero totals,
        then every line of the file in order. The source declares a bool
        result but flows off the end without returning one, which C++ leaves
        undefined; the model returns nothing. */
    method LoadModel(lines: seq<IdLine>, numTopic: nat)
      requires TopicsInRange(lines, numTopic)
      requires top2wor == [] && wor2top == map[] && topsum == []
      modifies this`numTopic, this`top2wor, this`wor2top, this`topsum
      ensures this.numTopic == numTopic
      ensures top2wor == LoadRows(lines, numTopic)
      ensures CountTables(wor2top, topsum) == LoadCounts(lines, numTopic)
    {
      this.numTopic := numTopic;
      top2wor := seq(numTopic, _ => None);
      topsum := seq(numTopic, _ => 0.0);
      var k := 0;
      while k < |lines|
        invariant 0 <= k <= |lines| && this.numTopic == numTopic
        invariant top2wor == LoadRows(lines[..k], numTopic)
        invariant CountTables(wor2top, topsum) == LoadCounts(lines[..k], numTopic)
      {
        assert lines[..k + 1][..k] == lines[..k];
        ReadLine(lines[k].0, lines[k].1);
        k := k + 1;
      }
      assert lines[..k] == lines;
    }

    /** rt_lda_predictor.cpp:59-78, one line: a new row for the topic, then
        every pair into the row, the topic's total and the word's row. */
    method ReadLine(topic: nat, pairs: seq<(int, real)>)
      requires topic < |top2wor| && topic < |topsum|
      modifies this`top2wor, this`wor2top, this`topsum
      ensures top2wor == old(top2wor)[topic := Some(PairsRow(map[], pairs))]
      ensures CountTables(wor2top, topsum) == AddIdPairs(old(CountTables(wor2top, topsum)), topic, pairs)
    {
      var row := map[];
      var j := 0;
      while j < |pairs|
        invariant 0 <= j <= |pairs| && |topsum| == |old(topsum)| && top2wor == old(top2wor)
        invariant row == PairsRow(map[], pairs[..j])
        invariant CountTables(wor2top, topsum) == AddIdPairs(old(CountTables(wor2top, topsum)), topic, pairs[..j])
      {
        assert pairs[..j + 1][..j] == pairs[..j];
        var (word, count) := pairs[j];
        row := row[word := count];
        topsum := topsum[topic := topsum[topic] + count];
        var wordRow := if word in wor2top then wor2top[word] else map[];
        wor2top := wor2top[word := wordRow[topic := count]];
        j := j + 1;
      }
      assert pairs[..j] == pairs;
      top2wor := top2wor[topic := Some(row)];
    }

    /** rt_lda_predictor.cpp:82-113: topic by topic in increasing index, then
        every candidate's probability times alpha. */
    method CalcR()
      requires numTopic == |top2wor| && RowsPresent(top2wor, numTopic) && RowsDivisible(top2wor, topsum)
      requires rValues == map[]
      modifies this`rValues
      ensures rValues == TimesAlpha(RFold(top2wor, topsum, numTopic), alpha)
    {
      var i := 0;
      while i < numTopic
        invariant 0 <= i <= numTopic
        invariant rValues == RFold(top2wor, topsum, i)
      {
        ScanRow(i);
        i := i + 1;
      }
      MultiplyAlpha();
    }

    /** rt_lda_predictor.cpp:87-104: one topic's row, in any order. */
    method ScanRow(i: nat)
      requires i < |top2wor| && top2wor[i].Some? && RowsDivisible(top2wor, topsum)
      modifies this`rValues
      ensures rValues == ScanTopic(old(rValues), i, top2wor[i].value, topsum[i])
    {
      var sumCount := topsum[i];
      var oneTopic := top2wor[i].value;
      ghost var start := rValues;
      var rest := oneTopic.Keys;
      ghost var done: set<int> := {};
      assert Restrict(oneTopic, done) == map[];
      while rest != {}
        invariant rest + done == oneTopic.Keys && rest * done == {}
        invariant rValues == ScanTopic(start, i, Restrict(oneTopic, done), sumCount)
        decreases rest
      {
        var w := Choose(rest);
        ScanTopicStep(start, i, oneTopic, done, w, sumCount);
        var p := oneTopic[w] / sumCount;
        if w !in rValues {
          rValues := rValues[w := (i, p)];
        } else if rValues[w].1 < p {
          rValues := rValues[w := (i, p)];
        }
        rest := rest - {w};
        done := done + {w};
      }
      assert Restrict(oneTopic, done) == oneTopic;
    }

    /** rt_lda_predictor.cpp:106-111. */
    method MultiplyAlpha()
      modifies this`rValues
      ensures rValues == TimesAlpha(old(rValues), alpha)
    {
      ghost var start := rValues;
      var rest := rValues.Keys;
      ghost var done: set<int> := {};
      while rest != {}
        invariant rest + done == start.Keys && rest * done == {}
        invariant rValues.Keys == start.Keys
        invariant forall w :: w in done ==> rValues[w] == WithAlpha(start[w], alpha)
        invariant forall w :: w in rest ==> rValues[w] == start[w]
        decreases rest
      {
        var w := Choose(rest);
        rValues := rValues[w := WithAlpha(rValues[w], alpha)];
        rest := rest - {w};
        done := done + {w};
      }
      assert done == start.Keys;
      forall w | w in rValues ensures rValues[w] == TimesAlpha(start, alpha)[w] {
        assert w in done;
      }
      MapsEqual(rValues, TimesAlpha(start, alpha));
    }

    /** Every topic of a word's row can be scored. */
    lemma RowScorable(w: int)
      requires Valid() && w in wor2top
      ensures Scorable(wor2top[w], topsum)
    {
      LoadUsable(lines, numTopic);
      assert forall t :: t in wor2top[w] ==> HasEntry(wor2top, w, t);
    }

    /** R's topic of a word is one of the word's topics. */
    lemma RTopicHeld(w: int)
      requires Valid() && w in rValues
      ensures HasEntry(wor2top, w, rValues[w].0)
    {
      RFoldBest(top2wor, topsum, numTopic);
      LoadMirror(lines, numTopic);
      assert InRow(top2wor, rValues[w].0, w);
    }
  }

  /** The inputs of a greedy sweep that no step changes: the words of the
      document and the model's rows, totals, alpha and R values. */
  datatype Scoring = Scoring(doc: seq<int>, rows: map<int, map<int, real>>, topsum: seq<real>, alpha: real,
                             rValues: map<int, RValue>)

  /** Position `i` goes from the assignment `before` to `after`: it takes a
      GreedyPick topic of the counters `base` plus `before`, the state the
      positions before it left, and no other position changes. */
  ghost predicate GreedyStep(s: Scoring, base: map<int, int>, before: seq<int>, i: int, after: seq<int>)
  {
    && 0 <= i < |before| == |after| && i < |s.doc| && s.doc[i] in s.rows
    && Scorable(s.rows[s.doc[i]], s.topsum)
    && after == before[i := after[i]]
    && GreedyPick(s.rows[s.doc[i]], s.topsum, Counted(base, before), before[i], s.alpha,
                  RLookup(s.rValues, s.doc[i]), after[i])
  }

  /** Step k of a sweep: the trace goes from entry k to entry k + 1 by
      position k. */
  ghost predicate GreedyAt(s: Scoring, base: map<int, int>, trace: seq<seq<int>>, k: nat)
  {
    k + 1 < |trace| && GreedyStep(s, base, trace[k], k, trace[k + 1])
  }

  /** One greedy sweep over the document, as the trace of the assignment
      before each position and after the last. */
  ghost predicate GreedySweep(s: Scoring, base: map<int, int>, trace: seq<seq<int>>)
  {
    |trace| == |s.doc| + 1 && forall k: nat :: k < |s.doc| ==> GreedyAt(s, base, trace, k)
  }

  /** A trace whose first i steps are greedy, extended by a greedy step at
      position i, has its first i + 1 steps greedy. */
  lemma GreedySnoc(s: Scoring, base: map<int, int>, trace: seq<seq<int>>, i: nat, before: seq<int>, after: seq<int>)
    requires |trace| == i + 1 && trace[i] == before
    requires forall k: nat :: k < i ==> GreedyAt(s, base, trace, k)
    requires GreedyStep(s, base, before, i, after)
    ensures forall k: nat :: k < i + 1 ==> GreedyAt(s, base, trace + [after], k)
  {
    var next := trace + [after];
    forall k: nat | k < i + 1 ensures GreedyAt(s, base, next, k) {
      if k == i {
        assert next[k] == trace[i] && next[k + 1] == after;
      } else {
        assert GreedyAt(s, base, trace, k);
        assert next[k] == trace[k] && next[k + 1] == trace[k + 1];
      }
    }
  }

  // ---------------------------------------------------------------------
  // The predictor

  /** RtLdaPredictor: the words of the document, their topics, their number
      and the per-topic counts. None of them is reset between calls. */
  class RtLdaPredictor {
    const model: LdaModel
    var doc: seq<int>
    var wor2top: seq<int>
    var len: nat
    var doc2top: map<int, int>

    /** The model is loaded and every word of the document has a row in it
        (predict dereferences the row of each word). */
    ghost predicate Valid()
      reads this`doc, model
    {
      model.Valid() && forall i :: 0 <= i < |doc| ==> doc[i] in model.wor2top
    }

    /** rt_lda_predictor.cpp:150. `_len`, left uninitialised by the source,
        starts at 0 here. */
    constructor (model: LdaModel)
      requires model.Valid()
      ensures Valid() && this.model == model
      ensures doc == [] && wor2top == [] && len == 0 && doc2top == map[]
    {
      this.model := model;
      doc, wor2top, len, doc2top := [], [], 0, map[];
    }

    /** What a sweep reads and never changes: the document and the
        model's tables. */
    ghost function Inputs(): Scoring
      reads this`doc, model
    {
      Scoring(doc, model.wor2top, model.topsum, model.alpha, model.rValues)
    }

    /** rt_lda_predictor.cpp:154-240: appends the words to the document, draws
        a topic for every position of the whole document, runs `maxStep`
        greedy sweeps and appends the final topics to `topicVector`. Every
        word must be a word of the model. The ghost `runs` holds the trace of
        every sweep: they lead from the drawn topics to the final ones. */
    method Predict(wordVector: seq<int>, maxStep: int, topicVector: seq<int>, rng: RandomSource)
      returns (out: seq<int>, ghost runs: seq<seq<seq<int>>>)
      requires Valid() && rng.Valid()
      requires forall i :: 0 <= i < |wordVector| ==> wordVector[i] in model.wor2top
      modifies this`doc, this`wor2top, this`len, this`doc2top, rng`used
      ensures Valid() && rng.Valid()
      ensures doc == old(doc) + wordVector && len == |doc| && |wor2top| == len
      ensures Extends(doc2top, old(doc2top), wor2top)
      ensures Sum(AsReal(doc2top)) == Sum(AsReal(old(doc2top))) + len as real
      ensures |runs| == (if maxStep > 0 then maxStep else 0)
      ensures Chained(InitialTopics(rng.draws, old(rng.used), len, model.numTopic), runs, wor2top)
      ensures forall k :: 0 <= k < |runs| ==> GreedySweep(Inputs(), old(doc2top), runs[k])
      ensures maxStep > 0 ==> forall i :: 0 <= i < len ==> wor2top[i] == 0 || HasEntry(model.wor2top, doc[i], wor2top[i])
      ensures out == topicVector + wor2top
      ensures rng.used == old(rng.used) + len
    {
      doc := doc + wordVector;
      len := |doc|;
      InitPredictor(rng);
      assert wor2top == InitialTopics(rng.draws, old(rng.used), len, model.numTopic);
      runs := RunSweeps(maxStep, old(doc2top));
      out := topicVector + wor2top;
    }

    /** rt_lda_predictor.cpp:160-234: `maxStep` greedy sweeps over the
        document. The ghost `runs` holds the trace of every sweep, chained
        from the assignment on entry to the final one. */
    method RunSweeps(maxStep: int, ghost base: map<int, int>) returns (ghost runs: seq<seq<seq<int>>>)
      requires Valid() && |wor2top| == len == |doc|
      requires Extends(doc2top, base, wor2top)
      modifies this`wor2top, this`doc2top
      ensures |wor2top| == len
      ensures Extends(doc2top, base, wor2top)
      ensures Sum(AsReal(doc2top)) == old(Sum(AsReal(doc2top)))
      ensures |runs| == (if maxStep > 0 then maxStep else 0)
      ensures Chained(old(wor2top), runs, wor2top)
      ensures forall k :: 0 <= k < |runs| ==> GreedySweep(Inputs(), base, runs[k])
      ensures maxStep > 0 ==> forall i :: 0 <= i < len ==> wor2top[i] == 0 || HasEntry(model.wor2top, doc[i], wor2top[i])
    {
      runs := [];
      var step := 0;
      while step < maxStep
        invariant 0 <= step <= (if maxStep > 0 then maxStep else 0)
        invariant |wor2top| == len
        invariant Extends(doc2top, base, wor2top)
        invariant Sum(AsReal(doc2top)) == old(Sum(AsReal(doc2top)))
        invariant |runs| == step && Chained(old(wor2top), runs, wor2top)
        invariant forall k :: 0 <= k < |runs| ==> GreedySweep(Inputs(), base, runs[k])
        invariant step > 0 ==> forall i :: 0 <= i < len ==> wor2top[i] == 0 || HasEntry(model.wor2top, doc[i], wor2top[i])
      {
        ghost var trace := Sweep(base);
        ChainedSnoc(old(wor2top), runs, trace[0], trace);
        runs := runs + [trace];
        step := step + 1;
      }
    }

    /** rt_lda_predictor.cpp:162-233: one greedy sweep over the positions,
        each taking its greedy choice in turn. */
    method Sweep(ghost base: map<int, int>) returns (ghost trace: seq<seq<int>>)
      requires Valid() && |wor2top| == len == |doc|
      requires Extends(doc2top, base, wor2top)
      modifies this`wor2top, this`doc2top
      ensures |wor2top| == len
      ensures GreedySweep(Inputs(), base, trace) && trace[0] == old(wor2top) && Last(trace) == wor2top
      ensures Extends(doc2top, base, wor2top)
      ensures Sum(AsReal(doc2top)) == old(Sum(AsReal(doc2top)))
      ensures forall i :: 0 <= i < len ==> wor2top[i] == 0 || HasEntry(model.wor2top, doc[i], wor2top[i])
    {
      trace := [wor2top];
      var i := 0;
      while i < len
        invariant 0 <= i <= len && |wor2top| == len
        invariant |trace| == i + 1 && trace[0] == old(wor2top) && trace[i] == wor2top
        invariant forall k: nat :: k < i ==> GreedyAt(Inputs(), base, trace, k)
        invariant Extends(doc2top, base, wor2top)
        invariant Sum(AsReal(doc2top)) == old(Sum(AsReal(doc2top)))
        invariant forall k :: 0 <= k < i ==> wor2top[k] == 0 || HasEntry(model.wor2top, doc[k], wor2top[k])
      {
        ghost var inputs, before := Inputs(), wor2top;
        UpdatePosition(i, base);
        GreedySnoc(inputs, base, trace, i, before, wor2top);
        trace := trace + [wor2top];
        i := i + 1;
      }
    }

    /** rt_lda_predictor.cpp:164-231, position `i`: the greedy choice; when
        it differs from the old topic, the position moves and the counts
        follow (the old topic loses one, the new one gains one). */
    method UpdatePosition(i: nat, ghost base: map<int, int>)
      requires Valid() && i < |wor2top| == len == |doc|
      requires Extends(doc2top, base, wor2top)
      modifies this`wor2top, this`doc2top
      ensures |wor2top| == |old(wor2top)| && wor2top == old(wor2top)[i := wor2top[i]]
      ensures Scorable(model.wor2top[doc[i]], model.topsum)
      ensures GreedyPick(model.wor2top[doc[i]], model.topsum, old(doc2top), old(wor2top)[i], model.alpha,
                         RLookup(model.rValues, doc[i]), wor2top[i])
      ensures GreedyStep(Inputs(), base, old(wor2top), i, wor2top)
      ensures wor2top[i] == 0 || HasEntry(model.wor2top, doc[i], wor2top[i])
      ensures Extends(doc2top, base, wor2top)
      ensures Sum(AsReal(doc2top)) == old(Sum(AsReal(doc2top)))
    {
      var oldTopic := wor2top[i];
      var word := doc[i];
      model.RowScorable(word);
      var rv := RLookup(model.rValues, word);
      var chosen := GreedyTopic(model.wor2top[word], model.topsum, doc2top, oldTopic, model.alpha, rv);
      GreedyStepOf(base, doc2top, wor2top, i, model.wor2top[word], rv, oldTopic, chosen, wor2top[i := chosen]);
      GreedyLands(model.wor2top[word], model.topsum, doc2top, oldTopic, model.alpha, rv, chosen);
      if chosen == rv.0 && rv.1 > 0.0 {
        model.RTopicHeld(word);
      }
      if oldTopic != chosen {
        MoveTopic(i, chosen, base);
      } else {
        assert wor2top[i := chosen] == wor2top;
      }
    }

    /** A position that takes a greedy choice against counters that extend
        `base` by `before` makes a GreedyStep. */
    lemma GreedyStepOf(base: map<int, int>, h: map<int, int>, before: seq<int>, i: nat, row: map<int, real>,
                       rv: RValue, oldTopic: int, chosen: int, after: seq<int>)
      requires i < |before| && i < |doc| && doc[i] in model.wor2top
      requires row == model.wor2top[doc[i]] && rv == RLookup(model.rValues, doc[i]) && oldTopic == before[i]
      requires Scorable(row, model.topsum) && Extends(h, base, before)
      requires GreedyPick(row, model.topsum, h, oldTopic, model.alpha, rv, chosen)
      requires after == before[i := chosen]
      ensures GreedyStep(Inputs(), base, before, i, after)
    {
      ExtendsCounted(h, base, before);
      GreedyPickSameCounters(row, model.topsum, h, Counted(base, before), oldTopic, model.alpha, rv, chosen);
    }

    /** rt_lda_predictor.cpp:218-231: position `i` moves to `topic`. */
    method MoveTopic(i: nat, topic: int, ghost base: map<int, int>)
      requires i < |wor2top| && Extends(doc2top, base, wor2top)
      modifies this`wor2top, this`doc2top
      ensures wor2top == old(wor2top)[i := topic]
      ensures doc2top == AddCount(AddCount(old(doc2top), old(wor2top)[i], -1), topic, 1)
      ensures Extends(doc2top, base, wor2top)
      ensures Sum(AsReal(doc2top)) == old(Sum(AsReal(doc2top)))
    {
      var oldTopic := wor2top[i];
      ExtendsMove(doc2top, base, wor2top, i, topic);
      CounterSum(doc2top, oldTopic, -1);
      CounterSum(AddCount(doc2top, oldTopic, -1), topic, 1);
      wor2top := wor2top[i := topic];
      doc2top := AddCount(doc2top, oldTopic, -1);
      doc2top := AddCount(doc2top, topic, 1);
    }

    /** rt_lda_predictor.cpp:243-261: a random topic for every position of
        the document, each counted. The draw rand() == RAND_MAX gives
        num_topic itself. */
    method InitPredictor(rng: RandomSource)
      requires rng.Valid() && len == |doc|
      modifies this`wor2top, this`doc2top, rng`used
      ensures |wor2top| == len
      ensures forall i :: 0 <= i < len ==> wor2top[i] == RandomTopic(rng.draws(old(rng.used) + i), model.numTopic)
      ensures Extends(doc2top, old(doc2top), wor2top)
      ensures Sum(AsReal(doc2top)) == Sum(AsReal(old(doc2top))) + len as real
      ensures rng.used == old(rng.used) + len
    {
      var kept := wor2top;
      wor2top := seq(len, k => if 0 <= k < |kept| then kept[k] else 0);
      var i := 0;
      while i < len
        invariant 0 <= i <= len && |wor2top| == len && rng.Valid()
        invariant forall k :: 0 <= k < i ==> wor2top[k] == RandomTopic(rng.draws(old(rng.used) + k), model.numTopic)
        invariant Extends(doc2top, old(doc2top), wor2top[..i])
        invariant Sum(AsReal(doc2top)) == Sum(AsReal(old(doc2top))) + i as real
        invariant rng.used == old(rng.used) + i
      {
        DrawPosition(i, old(doc2top), rng);
        i := i + 1;
      }
      assert wor2top[..i] == wor2top;
    }

    /** One position of init_predictor: a random topic, counted. */
    method DrawPosition(i: nat, ghost base: map<int, int>, rng: RandomSource)
      requires i < |wor2top| && rng.Valid()
      requires Extends(doc2top, base, wor2top[..i])
      modifies this`wor2top, this`doc2top, rng`used
      ensures wor2top == old(wor2top)[i := RandomTopic(rng.draws(old(rng.used)), model.numTopic)]
      ensures Extends(doc2top, base, wor2top[..i + 1])
      ensures Sum(AsReal(doc2top)) == old(Sum(AsReal(doc2top))) + 1.0
      ensures rng.used == old(rng.used) + 1
    {
      var u := rng.Next();
      var topic := RandomTopic(u, model.numTopic);
      assert wor2top[i := topic][..i + 1] == wor2top[..i] + [topic];
      ExtendsAppend(doc2top, base, wor2top[..i], topic);
      CounterSum(doc2top, topic, 1);
      wor2top := wor2top[i := topic];
      doc2top := AddCount(doc2top, topic, 1);
    }
  }
}
