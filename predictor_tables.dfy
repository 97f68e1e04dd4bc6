/** What the two stand-alone predictors (rt_lda_predictor.cpp and
    sparse_lda_predictor.cpp) share: the model file with integer word ids,
    the word -> (topic -> count) and topic -> total tables it loads into, and
    the per-document topic counters they keep as unordered_map<int, int>. */
module PredictorTables {
  import opened Tables

  /** One line of a predictor model file: a topic id and its wordid:count pairs. */
  type IdLine = (int, seq<(int, real)>)

  /** Every topic id of the file indexes the num_topic-long topic vectors;
      the loaders write to `_topsum[topic_id]` unchecked. */
  ghost predicate TopicsInRange(lines: seq<IdLine>, numTopic: nat)
  {
    forall k :: 0 <= k < |lines| ==> 0 <= lines[k].0 < numTopic
  }

  /** Every count of the file is non-negative, as a trained model's counts are. */
  ghost predicate NonNegativeCounts(lines: seq<IdLine>)
  {
    forall k, j :: 0 <= k < |lines| && 0 <= j < |lines[k].1| ==> lines[k].1[j].1 >= 0.0
  }

  /** `_wor2top` and `_topsum` of either predictor's LdaModel. */
  datatype CountTables = CountTables(wor2top: map<int, map<int, real>>, topsum: seq<real>)

  // ---------------------------------------------------------------------
  // Loading, as a fold over the file

  /** One wordid:count pair of a line of `topic`: the count is added to the
      topic's total and stored (overwriting) under (word, topic). */
  function AddIdPair(c: CountTables, topic: nat, word: int, count: real): (r: CountTables)
    requires topic < |c.topsum|
    ensures |r.topsum| == |c.topsum|
  {
    var row := if word in c.wor2top then c.wor2top[word] else map[];
    CountTables(c.wor2top[word := row[topic := count]], c.topsum[topic := c.topsum[topic] + count])
  }

  /** The pairs of one line, left to right. */
  function AddIdPairs(c: CountTables, topic: nat, pairs: seq<(int, real)>): (r: CountTables)
    requires topic < |c.topsum|
    ensures |r.topsum| == |c.topsum|
    decreases |pairs|
  {
    if |pairs| == 0 then c
    else
      var n := |pairs| - 1;
      AddIdPair(AddIdPairs(c, topic, pairs[..n]), topic, pairs[n].0, pairs[n].1)
  }

  /** The tables after the whole file: `_topsum` starts as num_topic zeros
      and `_wor2top` empty. */
  function LoadCounts(lines: seq<IdLine>, numTopic: nat): (r: CountTables)
    requires TopicsInRange(lines, numTopic)
    ensures |r.topsum| == numTopic
    decreases |lines|
  {
    if |lines| == 0 then CountTables(map[], seq(numTopic, _ => 0.0))
    else
      var n := |lines| - 1;
      AddIdPairs(LoadCounts(lines[..n], numTopic), lines[n].0, lines[n].1)
  }

  // ---------------------------------------------------------------------
  // What the loaded tables hold

  /** The word has a row and the row has the topic. */
  ghost predicate HasEntry(m: map<int, map<int, real>>, w: int, t: int)
  {
    w in m && t in m[w]
  }

  /** Some pair of the line names `w`. */
  ghost predicate InPairs(pairs: seq<(int, real)>, w: int)
  {
    exists j :: 0 <= j < |pairs| && pairs[j].0 == w
  }

  /** Some line of topic `t` lists word `w`. */
  ghost predicate Listed(lines: seq<IdLine>, t: int, w: int)
  {
    exists k :: 0 <= k < |lines| && lines[k].0 == t && InPairs(lines[k].1, w)
  }

  /** Some line of topic `t` lists word `w` with count `v`. */
  ghost predicate Lists(lines: seq<IdLine>, t: int, w: int, v: real)
  {
    exists k :: 0 <= k < |lines| && lines[k].0 == t && (w, v) in lines[k].1
  }

  /** The counts of every line of topic `t`, added line by line. */
  function TopicTotal(lines: seq<IdLine>, t: int): real
  {
    if |lines| == 0 then 0.0
    else
      var n := |lines| - 1;
      TopicTotal(lines[..n], t) + (if lines[n].0 == t then LineTotal(lines[n].1) else 0.0)
  }

  /** Every topic that lists a word has a positive total over the file, so
      each p(w|z) the predictors compute divides by a positive `_topsum`. */
  ghost predicate PositiveTotals(lines: seq<IdLine>)
  {
    forall k :: 0 <= k < |lines| && |lines[k].1| > 0 ==> TopicTotal(lines, lines[k].0) > 0.0
  }

  lemma {:induction false} PairsEntries(c: CountTables, topic: nat, pairs: seq<(int, real)>)
    requires topic < |c.topsum|
    ensures var r := AddIdPairs(c, topic, pairs).wor2top;
      && (forall w, t :: HasEntry(r, w, t) <==> HasEntry(c.wor2top, w, t) || (t == topic && InPairs(pairs, w)))
      && (forall w, t :: HasEntry(r, w, t) ==>
            (HasEntry(c.wor2top, w, t) && r[w][t] == c.wor2top[w][t]) || (t == topic && (w, r[w][t]) in pairs))
    decreases |pairs|
  {
    if |pairs| > 0 {
      var n := |pairs| - 1;
      PairsEntries(c, topic, pairs[..n]);
      forall w | InPairs(pairs, w) ensures InPairs(pairs[..n], w) || pairs[n].0 == w {
        var j :| 0 <= j < |pairs| && pairs[j].0 == w;
        if j < n {
          assert pairs[..n][j].0 == w;
        }
      }
      forall w | InPairs(pairs[..n], w) ensures InPairs(pairs, w) {
        var j :| 0 <= j < n && pairs[..n][j].0 == w;
        assert pairs[j].0 == w;
      }
      assert pairs[n] in pairs;
      forall p | p in pairs[..n] ensures p in pairs {
        var j :| 0 <= j < n && pairs[..n][j] == p;
        assert pairs[j] == p;
      }
    }
  }

  lemma {:induction false} PairsTopsum(c: CountTables, topic: nat, pairs: seq<(int, real)>)
    requires topic < |c.topsum|
    ensures AddIdPairs(c, topic, pairs).topsum == c.topsum[topic := c.topsum[topic] + LineTotal(pairs)]
    decreases |pairs|
  {
    if |pairs| > 0 {
      PairsTopsum(c, topic, pairs[..|pairs| - 1]);
    }
  }

  /** load_model: `_topsum[t]` is the sum of every count listed for `t`, over
      all lines of `t`. */
  lemma {:induction false} LoadTopsum(lines: seq<IdLine>, numTopic: nat)
    requires TopicsInRange(lines, numTopic)
    ensures forall t :: 0 <= t < numTopic ==> LoadCounts(lines, numTopic).topsum[t] == TopicTotal(lines, t)
    decreases |lines|
  {
    if |lines| > 0 {
      var n := |lines| - 1;
      LoadTopsum(lines[..n], numTopic);
      PairsTopsum(LoadCounts(lines[..n], numTopic), lines[n].0, lines[n].1);
    }
  }

  /** load_model: a word has a topic in `_wor2top` exactly when a line of that
      topic lists the word, and the count stored is one the file lists for
      the pair. */
  lemma {:induction false} LoadEntries(lines: seq<IdLine>, numTopic: nat)
    requires TopicsInRange(lines, numTopic)
    ensures var m := LoadCounts(lines, numTopic).wor2top;
      && (forall w, t :: HasEntry(m, w, t) <==> Listed(lines, t, w))
      && (forall w, t :: HasEntry(m, w, t) ==> Lists(lines, t, w, m[w][t]))
    decreases |lines|
  {
    if |lines| > 0 {
      var n := |lines| - 1;
      var prev := LoadCounts(lines[..n], numTopic);
      LoadEntries(lines[..n], numTopic);
      PairsEntries(prev, lines[n].0, lines[n].1);
      var m := LoadCounts(lines, numTopic).wor2top;
      forall w, t ensures HasEntry(m, w, t) <==> Listed(lines, t, w) {
        if Listed(lines, t, w) {
          var k :| 0 <= k < |lines| && lines[k].0 == t && InPairs(lines[k].1, w);
          if k < n {
            assert lines[..n][k] == lines[k];
          }
        }
        if Listed(lines[..n], t, w) {
          var k :| 0 <= k < n && lines[..n][k].0 == t && InPairs(lines[..n][k].1, w);
          assert lines[k] == lines[..n][k];
        }
      }
      forall w, t | HasEntry(m, w, t) ensures Lists(lines, t, w, m[w][t]) {
        if HasEntry(prev.wor2top, w, t) && m[w][t] == prev.wor2top[w][t] {
          var k :| 0 <= k < n && lines[..n][k].0 == t && (w, m[w][t]) in lines[..n][k].1;
          assert lines[k] == lines[..n][k];
        }
      }
    }
  }

  /** Every stored topic indexes `_topsum`, no total and no stored count is
      negative, and every word that has a row has at least one topic in it. */
  ghost predicate Stored(c: CountTables)
  {
    && (forall t :: 0 <= t < |c.topsum| ==> c.topsum[t] >= 0.0)
    && (forall w :: w in c.wor2top ==> c.wor2top[w] != map[])
    && (forall w, t :: HasEntry(c.wor2top, w, t) ==> 0 <= t < |c.topsum| && c.wor2top[w][t] >= 0.0)
  }

  /** Stored tables in which every topic that has a stored count has a
      positive total: each score the predictors compute divides by a
      positive total. */
  ghost predicate Usable(c: CountTables)
  {
    && Stored(c)
    && (forall w, t :: HasEntry(c.wor2top, w, t) ==> 0 <= t < |c.topsum| && c.topsum[t] > 0.0)
  }

  lemma {:induction false} PairsStored(c: CountTables, topic: nat, pairs: seq<(int, real)>)
    requires topic < |c.topsum| && Stored(c)
    requires forall j :: 0 <= j < |pairs| ==> pairs[j].1 >= 0.0
    ensures Stored(AddIdPairs(c, topic, pairs))
    decreases |pairs|
  {
    if |pairs| > 0 {
      var n := |pairs| - 1;
      PairsStored(c, topic, pairs[..n]);
      PairStored(AddIdPairs(c, topic, pairs[..n]), topic, pairs[n].0, pairs[n].1);
    }
  }

  lemma PairStored(c: CountTables, topic: nat, word: int, count: real)
    requires topic < |c.topsum| && Stored(c) && count >= 0.0
    ensures Stored(AddIdPair(c, topic, word, count))
  {
    var r := AddIdPair(c, topic, word, count);
    forall w, t | HasEntry(r.wor2top, w, t) ensures 0 <= t < |r.topsum| && r.wor2top[w][t] >= 0.0 {
      if t != topic || w != word {
        assert HasEntry(c.wor2top, w, t);
      }
    }
    assert topic in r.wor2top[word];
  }

  /** A file of non-negative counts loads into stored tables. */
  lemma {:induction false} LoadStored(lines: seq<IdLine>, numTopic: nat)
    requires TopicsInRange(lines, numTopic) && NonNegativeCounts(lines)
    ensures Stored(LoadCounts(lines, numTopic))
    decreases |lines|
  {
    if |lines| > 0 {
      var n := |lines| - 1;
      LoadStored(lines[..n], numTopic);
      PairsStored(LoadCounts(lines[..n], numTopic), lines[n].0, lines[n].1);
    }
  }

  /** A file of non-negative counts whose listing topics have positive
      totals loads into usable tables. */
  lemma LoadUsable(lines: seq<IdLine>, numTopic: nat)
    requires TopicsInRange(lines, numTopic) && NonNegativeCounts(lines) && PositiveTotals(lines)
    ensures Usable(LoadCounts(lines, numTopic))
  {
    var c := LoadCounts(lines, numTopic);
    LoadStored(lines, numTopic);
    LoadTopsum(lines, numTopic);
    LoadEntries(lines, numTopic);
    forall w, t | HasEntry(c.wor2top, w, t) ensures 0 <= t < |c.topsum| && c.topsum[t] > 0.0 {
      assert Listed(lines, t, w);
      var k :| 0 <= k < |lines| && lines[k].0 == t && InPairs(lines[k].1, w);
      assert |lines[k].1| > 0;
    }
  }

  /** Every topic of the row has a non-negative count, indexes `_topsum`
      and has a positive total. */
  ghost predicate Scorable(row: map<int, real>, topsum: seq<real>)
  {
    forall t :: t in row ==> row[t] >= 0.0 && 0 <= t < |topsum| && topsum[t] > 0.0
  }

  /** The score both predictors give a topic of a word: p(w | z), the
      word's count in the topic over the topic's total, times
      (theta + alpha), theta being the document's count of the topic. */
  function Phi(count: real, total: real, theta: int, alpha: real): real
    requires total != 0.0
  {
    count / total * (theta as real + alpha)
  }

  // ---------------------------------------------------------------------
  // Per-document topic counters (_doc2top)

  /** `_doc2top[t]` read without inserting: an absent topic counts zero. */
  function Counter(m: map<int, int>, t: int): int
  {
    if t in m then m[t] else 0
  }

  /** `h` is `base` plus one count per position of the assignment `s`. A
      fresh predictor starts from an empty `base`, so `h` then tallies `s`;
      a predictor used before keeps its earlier counts in `base`. */
  ghost predicate Extends(h: map<int, int>, base: map<int, int>, s: seq<int>)
  {
    forall t :: Counter(h, t) == Counter(base, t) + Count(s, t)
  }

  /** Every counter is non-negative. */
  ghost predicate NonNegative(m: map<int, int>)
  {
    forall t :: t in m ==> m[t] >= 0
  }

  /** Counters that extend a non-negative base by an assignment are
      non-negative. */
  lemma ExtendsNonNegative(h: map<int, int>, base: map<int, int>, s: seq<int>)
    requires Extends(h, base, s) && NonNegative(base)
    ensures NonNegative(h)
    ensures forall t :: Counter(h, t) >= 0
  {
    forall t ensures Counter(h, t) >= 0 {
      assert Counter(h, t) == Counter(base, t) + Count(s, t);
    }
    forall t | t in h ensures h[t] >= 0 {
      assert h[t] == Counter(h, t);
    }
  }

  /** init_predictor, one position: the drawn topic is counted. */
  lemma ExtendsAppend(h: map<int, int>, base: map<int, int>, s: seq<int>, y: int)
    requires Extends(h, base, s)
    ensures Extends(AddCount(h, y, 1), base, s + [y])
  {
    forall t ensures Counter(AddCount(h, y, 1), t) == Counter(base, t) + Count(s + [y], t) {
      CountAppend(s, y, t);
    }
  }

  /** The update of a position: one count leaves the old topic, one reaches
      the new one. */
  lemma ExtendsMove(h: map<int, int>, base: map<int, int>, s: seq<int>, i: nat, y: int)
    requires Extends(h, base, s) && i < |s|
    ensures Extends(AddCount(AddCount(h, s[i], -1), y, 1), base, s[i := y])
  {
    forall t ensures Counter(AddCount(AddCount(h, s[i], -1), y, 1), t) == Counter(base, t) + Count(s[i := y], t) {
      CountUpdate(s, i, y, t);
    }
  }

  /** The two counter maps read the same at every topic: they differ at
      most by zero counters that operator[] inserted. */
  ghost predicate SameCounters(a: map<int, int>, b: map<int, int>)
  {
    forall t :: Counter(a, t) == Counter(b, t)
  }

  /** Reading a counter through operator[] inserts a zero when absent:
      every counter reads as before, and the sum is unchanged. */
  lemma TouchKeepsCounters(h: map<int, int>, h0: map<int, int>, t: int)
    requires SameCounters(h, h0)
    ensures SameCounters(AddCount(h, t, 0), h0)
    ensures Sum(AsReal(AddCount(h, t, 0))) == Sum(AsReal(h))
  {
    assert forall u :: Counter(AddCount(h, t, 0), u) == Counter(h, u);
    CounterSum(h, t, 0);
  }

  /** Counters that read the same at every topic extend the same base by
      the same assignment. */
  lemma ExtendsSameCounters(h: map<int, int>, h': map<int, int>, base: map<int, int>, s: seq<int>)
    requires Extends(h, base, s) && SameCounters(h', h)
    ensures Extends(h', base, s)
  {
    forall t ensures Counter(h', t) == Counter(base, t) + Count(s, t) {
      assert Counter(h', t) == Counter(h, t);
    }
  }

  /** The topic of an assigned position is counted at least once, so its
      decrement never goes below the base. */
  lemma AssignedCounted(h: map<int, int>, base: map<int, int>, s: seq<int>, i: nat)
    requires Extends(h, base, s) && NonNegative(base) && i < |s|
    ensures Counter(h, s[i]) >= 1
  {
    CountPositive(s, i);
    assert Counter(h, s[i]) == Counter(base, s[i]) + Count(s, s[i]);
  }

  /** Adding `delta` to one counter adds it to the sum of all counters. */
  lemma CounterSum(m: map<int, int>, key: int, delta: int)
    ensures Sum(AsReal(AddCount(m, key, delta))) == Sum(AsReal(m)) + delta as real
  {
    AsRealAddCount(m, key, delta);
    SumIncrease(AsReal(m), key, delta as real);
  }

  /** The topics that some position of `s` holds. */
  ghost function Assigned(s: seq<int>): set<int>
  {
    set k | 0 <= k < |s| :: s[k]
  }

  /** The counters `base` plus one count per position of `s`, as one map. */
  ghost function Counted(base: map<int, int>, s: seq<int>): map<int, int>
  {
    map t | t in base.Keys + Assigned(s) :: Counter(base, t) + Count(s, t)
  }

  /** Counters that extend `base` by `s` read, at every topic, as Counted
      does: the assignment determines them up to zero entries. */
  lemma ExtendsCounted(h: map<int, int>, base: map<int, int>, s: seq<int>)
    requires Extends(h, base, s)
    ensures SameCounters(h, Counted(base, s))
  {
    forall t ensures Counter(h, t) == Counter(Counted(base, s), t) {
      if t !in base.Keys + Assigned(s) {
        CountAbsent(s, t);
      }
    }
  }

  /** The last assignment of a trace. */
  function Last(trace: seq<seq<int>>): seq<int>
    requires |trace| > 0
  {
    trace[|trace| - 1]
  }

  /** The sweeps `runs`, each the trace of the assignments it passes
      through, lead from `start` to `end`: the first begins at `start`, each
      begins where the one before it ended and the last ends at `end`; with
      no sweep, `end` is `start`. */
  ghost predicate Chained(start: seq<int>, runs: seq<seq<seq<int>>>, end: seq<int>)
  {
    && (forall k :: 0 <= k < |runs| ==> |runs[k]| > 0)
    && (if |runs| == 0 then end == start
        else
          && runs[0][0] == start && Last(runs[|runs| - 1]) == end
          && forall k :: 0 < k < |runs| ==> runs[k][0] == Last(runs[k - 1]))
  }

  /** A sweep that begins where the chain ends extends the chain. */
  lemma ChainedSnoc(start: seq<int>, runs: seq<seq<seq<int>>>, mid: seq<int>, trace: seq<seq<int>>)
    requires Chained(start, runs, mid) && |trace| > 0 && trace[0] == mid
    ensures Chained(start, runs + [trace], Last(trace))
  {
    var next := runs + [trace];
    forall k | 0 < k < |next| ensures next[k][0] == Last(next[k - 1]) {
      if k == |runs| {
        assert next[k] == trace && next[k - 1] == runs[|runs| - 1];
      } else {
        assert next[k] == runs[k] && next[k - 1] == runs[k - 1];
      }
    }
  }
}
