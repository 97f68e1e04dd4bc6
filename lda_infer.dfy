/** LdaInfer of model.h: exact collapsed Gibbs sampling of the topics of one
    query against a loaded Model. Known tokens get a random initial topic,
    every sweep resamples each position from its posterior, and the sweeps
    after burn-in add their normalised histogram to an accumulated
    distribution. */
module LdaInfer {
  import opened Tables
  import opened TopicModel

  /** model.h:34-42: the per-query inference state. */
  class Document {
    var stringDocument: seq<string>
    var document: seq<int>
    var topic: seq<int>
    var topicDist: map<int, real>
    var accumulateTopicDist: map<int, real>
    var unknownWord: seq<string>

    /** One entry per known token in each parallel vector, and a histogram
        that tallies the topic assignment. */
    ghost predicate Valid()
      reads this
    {
      && |stringDocument| == |document| == |topic|
      && Tallies(topicDist, topic)
    }

    constructor ()
      ensures Valid()
      ensures stringDocument == [] && document == [] && topic == [] && unknownWord == []
      ensures topicDist == map[] && accumulateTopicDist == map[]
    {
      stringDocument, document, topic, unknownWord := [], [], [], [];
      topicDist, accumulateTopicDist := map[], map[];
    }
  }

  /** The dictionary ids of known words. */
  function IdsOf(dict: map<string, int>, words: seq<string>): seq<int>
    requires forall i :: 0 <= i < |words| ==> words[i] in dict
  {
    seq(|words|, i requires 0 <= i < |words| => dict[words[i]])
  }

  lemma IdsOfSnoc(dict: map<string, int>, words: seq<string>, w: string)
    requires forall i :: 0 <= i < |words| ==> words[i] in dict
    requires w in dict
    ensures IdsOf(dict, words + [w]) == IdsOf(dict, words) + [dict[w]]
  {
  }

  lemma InitialTopicsSnoc(draws: nat -> real, from: nat, n: nat, numTopic: nat)
    requires forall k: nat :: 0.0 <= draws(k) <= 1.0
    ensures InitialTopics(draws, from, n + 1, numTopic) ==
      InitialTopics(draws, from, n, numTopic) + [RandomTopic(draws(from + n), numTopic)]
  {
  }

  /** The histogram `hist` after IncreaseKeyCount(+1) of every topic of
      `topics`, in order. */
  function CountInto(hist: map<int, real>, topics: seq<int>): map<int, real>
    decreases |topics|
  {
    if |topics| == 0 then hist
    else IncreaseKeyCount(CountInto(hist, topics[..|topics| - 1]), topics[|topics| - 1], 1.0)
  }

  lemma CountIntoSnoc(hist: map<int, real>, topics: seq<int>, t: int)
    ensures CountInto(hist, topics + [t]) == IncreaseKeyCount(CountInto(hist, topics), t, 1.0)
  {
    assert (topics + [t])[..|topics|] == topics;
  }

  /** Counting more topics into a histogram that tallies an assignment
      tallies the longer assignment. */
  lemma {:induction false} TalliesCountInto(hist: map<int, real>, s: seq<int>, topics: seq<int>)
    requires Tallies(hist, s)
    ensures Tallies(CountInto(hist, topics), s + topics)
    decreases |topics|
  {
    if |topics| > 0 {
      var n := |topics| - 1;
      TalliesCountInto(hist, s, topics[..n]);
      TalliesAppend(CountInto(hist, topics[..n]), s + topics[..n], topics[n]);
      assert topics[..n] + [topics[n]] == topics;
      CountIntoSnoc(hist, topics[..n], topics[n]);
      assert s + topics[..n] + [topics[n]] == s + topics;
    } else {
      assert s + topics == s;
    }
  }

  // ---------------------------------------------------------------------
  // The posterior and the candidates it is drawn from

  /** Every topic of a word's table has a non-negative count and a positive total. */
  ghost predicate UsableRow(row: map<int, real>, totals: map<int, real>)
  {
    forall t :: t in row ==> row[t] >= 0.0 && t in totals && totals[t] > 0.0
  }

  /** Every topic of a word's table has a non-zero total to divide by. */
  ghost predicate DividesRow(row: map<int, real>, totals: map<int, real>)
  {
    forall t :: t in row ==> t in totals && totals[t] != 0.0
  }

  /** Every topic a word of the model names has a non-zero total. */
  ghost predicate DivisibleTotals(s: ModelState)
  {
    forall id, t :: id in s.wor2top && t in s.wor2top[id] ==> t in s.topTotal && s.topTotal[t] != 0.0
  }

  /** p(z = t | w) for every topic t of the word's table `row`: count / total
      times the local count of t, less the position's own assignment, plus alpha. */
  function Posterior(row: map<int, real>, totals: map<int, real>, oldTopic: int, hist: map<int, real>, alpha: real): map<int, real>
    requires DividesRow(row, totals)
  {
    map t | t in row :: row[t] / totals[t] * (Lookup(hist, t) - (if t == oldTopic then 1.0 else 0.0) + alpha)
  }

  /** The posterior is defined on exactly the word's topics and is never
      negative: the position's own topic has a local count of at least one.
      With alpha > 0 every topic with a positive count gets a positive mass. */
  lemma PosteriorMasses(row: map<int, real>, totals: map<int, real>, topics: seq<int>, i: nat, hist: map<int, real>, alpha: real)
    requires UsableRow(row, totals)
    requires Tallies(hist, topics) && i < |topics| && alpha >= 0.0
    ensures Posterior(row, totals, topics[i], hist, alpha).Keys == row.Keys
    ensures forall t :: t in row ==> Posterior(row, totals, topics[i], hist, alpha)[t] >= 0.0
    ensures alpha > 0.0 ==> forall t :: t in row && row[t] > 0.0 ==>
      Posterior(row, totals, topics[i], hist, alpha)[t] > 0.0
  {
    forall t | t in row
      ensures Posterior(row, totals, topics[i], hist, alpha)[t] >= 0.0
      ensures alpha > 0.0 && row[t] > 0.0 ==> Posterior(row, totals, topics[i], hist, alpha)[t] > 0.0
    {
      PosteriorEntrySign(row, totals, topics, i, hist, alpha, t);
    }
  }

  /** The sign of one topic's mass: the local count less the position's own
      assignment is never negative. */
  lemma PosteriorEntrySign(row: map<int, real>, totals: map<int, real>, topics: seq<int>, i: nat, hist: map<int, real>,
                           alpha: real, t: int)
    requires UsableRow(row, totals) && t in row
    requires Tallies(hist, topics) && i < |topics| && alpha >= 0.0
    ensures Posterior(row, totals, topics[i], hist, alpha)[t] >= 0.0
    ensures alpha > 0.0 && row[t] > 0.0 ==> Posterior(row, totals, topics[i], hist, alpha)[t] > 0.0
  {
    var local := LocalCount(hist, topics, i, t);
    PosteriorEntry(row, totals, topics[i], hist, alpha, t);
    MassSign(row[t], totals[t], local + alpha);
  }

  /** The count of topic t in the document, less the position's own assignment. */
  lemma LocalCount(hist: map<int, real>, topics: seq<int>, i: nat, t: int) returns (local: real)
    requires Tallies(hist, topics) && i < |topics|
    ensures local == Lookup(hist, t) - (if t == topics[i] then 1.0 else 0.0)
    ensures local >= 0.0
  {
    TalliesAtLeastOne(hist, topics, i);
    local := Lookup(hist, t) - (if t == topics[i] then 1.0 else 0.0);
  }

  /** One entry of the posterior map. */
  lemma PosteriorEntry(row: map<int, real>, totals: map<int, real>, oldTopic: int, hist: map<int, real>,
                       alpha: real, t: int)
    requires UsableRow(row, totals) && t in row
    ensures Posterior(row, totals, oldTopic, hist, alpha)[t] ==
      row[t] / totals[t] * (Lookup(hist, t) - (if t == oldTopic then 1.0 else 0.0) + alpha)
  {
  }

  /** A count over a positive total, times a non-negative weight. */
  lemma MassSign(count: real, total: real, weight: real)
    requires count >= 0.0 && total > 0.0 && weight >= 0.0
    ensures count / total * weight >= 0.0
    ensures count > 0.0 && weight > 0.0 ==> count / total * weight > 0.0
  {
    var p := count / total;
    assert p * total == count;
    ProductSign(p, weight);
  }

  lemma EnumeratedKeys(order: seq<int>, keys: set<int>)
    requires Enumerates(order, keys)
    ensures forall t :: t in order <==> t in keys
  {
  }

  /** The (topic, mass) vector the sampler scans, in the given topic order. */
  function Masses(order: seq<int>, dist: map<int, real>): (r: seq<(int, real)>)
    requires forall k :: 0 <= k < |order| ==> order[k] in dist
    ensures |r| == |order|
    ensures forall k :: 0 <= k < |order| ==> r[k] == (order[k], dist[order[k]])
  {
    seq(|order|, k requires 0 <= k < |order| => (order[k], dist[order[k]]))
  }

  /** The topic position i of an assignment is resampled to, for the uniform
      draw u: the posterior masses laid out in the table's topic order and
      scanned for the first running sum that reaches u times the total. It is
      always one of the word's topics. */
  ghost function Resampled(s: ModelState, wordId: int, topics: seq<int>, i: nat,
                           hist: map<int, real>, alpha: real, u: real): (t: int)
    requires WellFormed(s) && UsableCounts(s) && wordId in s.wor2top && s.wor2top[wordId] != map[]
    requires Tallies(hist, topics) && i < |topics| && alpha >= 0.0 && 0.0 <= u <= 1.0
    ensures t in s.wor2top[wordId]
  {
    OrderOfRow(s, wordId);
    RowUsable(s, wordId);
    var row := s.wor2top[wordId];
    var post := Posterior(row, s.topTotal, topics[i], hist, alpha);
    PosteriorMasses(row, s.topTotal, topics, i, hist, alpha);
    var pairs := Masses(s.topicOrder[wordId], post);
    DrawInRange(pairs, u);
    pairs[DrawIndex(pairs, u)].0
  }

  /** Usable counts make every row of the model usable for the posterior. */
  lemma RowUsable(s: ModelState, wordId: int)
    requires UsableCounts(s) && wordId in s.wor2top
    ensures UsableRow(s.wor2top[wordId], s.topTotal)
  {
  }

  /** A word's topic order lists its non-empty table. */
  lemma OrderOfRow(s: ModelState, wordId: int)
    requires WellFormed(s) && wordId in s.wor2top && s.wor2top[wordId] != map[]
    ensures wordId in s.topicOrder
    ensures Enumerates(s.topicOrder[wordId], s.wor2top[wordId].Keys) && |s.topicOrder[wordId]| > 0
  {
    var t := Pick(s.wor2top[wordId].Keys);
    assert t in s.topicOrder[wordId];
  }

  /** The loop of model.h:195-210 over the word's topics, in table order. */
  method PosteriorOver(row: map<int, real>, order: seq<int>, totals: map<int, real>, hist: map<int, real>,
                       oldTopicId: int, alpha: real) returns (dist: map<int, real>)
    requires Enumerates(order, row.Keys) && DividesRow(row, totals)
    ensures dist == Posterior(row, totals, oldTopicId, hist, alpha)
  {
    ghost var post := Posterior(row, totals, oldTopicId, hist, alpha);
    dist := map[];
    var j := 0;
    while j < |order|
      invariant 0 <= j <= |order|
      invariant forall t :: t in dist <==> t in order[..j]
      invariant forall t :: t in dist ==> t in post && dist[t] == post[t]
    {
      var topicId := order[j];
      var topicCount := row[topicId];
      var topicTotalCount := totals[topicId];
      var pWZ := topicCount / topicTotalCount;
      var adjust := if topicId == oldTopicId then 1.0 else 0.0;
      var docTopicCount := if topicId in hist then hist[topicId] else 0.0;
      docTopicCount := docTopicCount - adjust;
      dist := dist[topicId := pWZ * (docTopicCount + alpha)];
      assert order[..j + 1] == order[..j] + [topicId];
      j := j + 1;
    }
    assert order[..j] == order;
    EnumeratedKeys(order, row.Keys);
    forall t ensures t in dist <==> t in post {
      assert t in dist <==> t in order[..j];
    }
  }

  // ---------------------------------------------------------------------
  // Burn-in and accumulation

  function Max(a: int, b: int): int
  {
    if a < b then b else a
  }

  /** How many of the sweeps 0 .. upTo-1 come after burn-in. */
  function AccumulatingSweeps(burnin: int, upTo: int): nat
  {
    if upTo > Max(burnin, 0) then upTo - Max(burnin, 0) else 0
  }

  /** The mass the sweeps 0 .. upTo-1 add to the accumulated distribution:
      one histogram divided by (maxIter - burnin) * docLen per accumulating
      sweep. It is 1 exactly when 0 <= burnin < maxIter; a negative burn-in
      leaves it below 1, and no sweep after burn-in leaves it 0. */
  function AccumulatedMass(burnin: int, maxIter: int, upTo: int): (m: real)
    ensures upTo == maxIter && 0 <= burnin < maxIter ==> m == 1.0
    ensures upTo == maxIter && burnin < 0 < maxIter ==> 0.0 < m < 1.0
    ensures AccumulatingSweeps(burnin, upTo) == 0 ==> m == 0.0
  {
    var k := AccumulatingSweeps(burnin, upTo);
    if k == 0 || maxIter <= burnin then 0.0
    else
      var m := k as real / (maxIter - burnin) as real;
      assert upTo == maxIter && 0 <= burnin ==> m == 1.0 by {
        if upTo == maxIter && 0 <= burnin {
          assert k == maxIter - burnin;
        }
      }
      assert upTo == maxIter && burnin < 0 ==> 0.0 < m < 1.0 by {
        if upTo == maxIter && burnin < 0 {
          Fraction(k as real, (maxIter - burnin) as real);
        }
      }
      m
  }

  lemma Fraction(k: real, d: real)
    requires 0.0 < k < d
    ensures 0.0 < k / d < 1.0
  {
    var rest := d - k;
    assert d / d == 1.0;
    assert k / d + rest / d == (k + rest) / d;
    assert rest / d > 0.0;
  }

  lemma AccumulatedMassStep(burnin: int, maxIter: int, n: int, len: nat)
    requires 0 <= n < maxIter && n >= burnin && len > 0
    ensures (maxIter - burnin) * len > 0
    ensures AccumulatedMass(burnin, maxIter, n + 1) ==
      AccumulatedMass(burnin, maxIter, n) + (len as real) / (((maxIter - burnin) * len) as real)
  {
    var acc := (maxIter - burnin) as real;
    assert ((maxIter - burnin) * len) as real == acc * len as real;
    assert (len as real) / (acc * len as real) == 1.0 / acc;
  }

  /** model.h:156-165, after sweep n: from burn-in on, the histogram
      divided by (maxIter - burnin) * len is added into `acc`; before it,
      `acc` is left alone. */
  function Accumulate(acc: map<int, real>, hist: map<int, real>, burnin: int, maxIter: int, n: int, len: nat)
    : (r: map<int, real>)
    requires 0 <= n < maxIter && len > 0
    ensures n < burnin ==> r == acc
    ensures n >= burnin ==> (maxIter - burnin) * len > 0 && r == AddDivided(acc, hist, ((maxIter - burnin) * len) as real)
  {
    if n >= burnin then
      AccumulatedMassStep(burnin, maxIter, n, len);
      AddDivided(acc, hist, ((maxIter - burnin) * len) as real)
    else acc
  }

  // ---------------------------------------------------------------------
  // Sweeps, as folds over the positions and over the iterations

  /** What resampling needs: a well-formed model with usable counts, a
      non-negative alpha, every word with a non-empty topic table and every
      draw in [0, 1]. */
  ghost predicate Sampleable(s: ModelState, words: seq<int>, alpha: real, draws: nat -> real)
  {
    && WellFormed(s) && UsableCounts(s) && alpha >= 0.0
    && (forall k :: 0 <= k < |words| ==> words[k] in s.wor2top && s.wor2top[words[k]] != map[])
    && (forall k: nat :: 0.0 <= draws(k) <= 1.0)
  }

  /** model.h:171-186 from position i on, with the next draw at index
      `at`: position i is resampled with draws(at) against the histogram the
      earlier positions left, moved (-1 on its old topic, +1 on the new), and
      the sweep goes on with position i + 1 and draw at + 1. */
  ghost function Resweep(s: ModelState, words: seq<int>, alpha: real, draws: nat -> real, at: nat,
                         i: nat, topics: seq<int>, hist: map<int, real>): (r: (seq<int>, map<int, real>))
    requires Sampleable(s, words, alpha, draws)
    requires |topics| == |words| && i <= |words| && Tallies(hist, topics)
    ensures |r.0| == |words| && Tallies(r.1, r.0)
    decreases |words| - i
  {
    if i == |words| then (topics, hist)
    else
      var t := Resampled(s, words[i], topics, i, hist, alpha, draws(at));
      TalliesMove(hist, topics, i, t);
      Resweep(s, words, alpha, draws, at + 1, i + 1, topics[i := t],
              IncreaseKeyCount(IncreaseKeyCount(hist, topics[i], -1.0), t, 1.0))
  }

  /** Resweep keeps the positions before i, and every position from i on
      ends on one of its word's topics. */
  lemma {:induction false} ResweepInRows(s: ModelState, words: seq<int>, alpha: real, draws: nat -> real, at: nat,
                                         i: nat, topics: seq<int>, hist: map<int, real>)
    requires Sampleable(s, words, alpha, draws)
    requires |topics| == |words| && i <= |words| && Tallies(hist, topics)
    ensures var r := Resweep(s, words, alpha, draws, at, i, topics, hist);
      && (forall k :: 0 <= k < i ==> r.0[k] == topics[k])
      && (forall k :: i <= k < |words| ==> r.0[k] in s.wor2top[words[k]])
    decreases |words| - i
  {
    if i < |words| {
      var t := Resampled(s, words[i], topics, i, hist, alpha, draws(at));
      TalliesMove(hist, topics, i, t);
      ResweepInRows(s, words, alpha, draws, at + 1, i + 1, topics[i := t],
                    IncreaseKeyCount(IncreaseKeyCount(hist, topics[i], -1.0), t, 1.0));
    }
  }

  /** Resweep at position i is position i resampled and moved, then
      Resweep at position i + 1. */
  lemma ResweepStep(s: ModelState, words: seq<int>, alpha: real, draws: nat -> real, at: nat,
                    i: nat, topics: seq<int>, hist: map<int, real>, t: int)
    requires Sampleable(s, words, alpha, draws)
    requires |topics| == |words| && i < |words| && Tallies(hist, topics)
    requires t == Resampled(s, words[i], topics, i, hist, alpha, draws(at))
    ensures (TalliesMove(hist, topics, i, t);
      Resweep(s, words, alpha, draws, at, i, topics, hist) ==
      Resweep(s, words, alpha, draws, at + 1, i + 1, topics[i := t],
              IncreaseKeyCount(IncreaseKeyCount(hist, topics[i], -1.0), t, 1.0)))
  {
  }

  /** model.h:149-167 from iteration n on: nothing once n reaches maxIter,
      otherwise one sweep and the iterations after it (GibbsSweep). The
      result is (topics, histogram, accumulated). */
  ghost function Gibbs(s: ModelState, words: seq<int>, alpha: real, draws: nat -> real, burnin: int, maxIter: int,
                       n: nat, from: nat, topics: seq<int>, hist: map<int, real>, acc: map<int, real>)
    : (r: (seq<int>, map<int, real>, map<int, real>))
    requires Sampleable(s, words, alpha, draws) && |words| > 0
    requires |topics| == |words| && Tallies(hist, topics)
    ensures |r.0| == |words| && Tallies(r.1, r.0)
    ensures n < maxIter ==> forall k :: 0 <= k < |words| ==> r.0[k] in s.wor2top[words[k]]
    decreases maxIter - n, 1
  {
    if n >= maxIter then (topics, hist, acc)
    else GibbsSweep(s, words, alpha, draws, burnin, maxIter, n, from, topics, hist, acc)
  }

  /** Iteration n < maxIter of model.h:149-167: one sweep with the next
      |words| draws; from burn-in on, the histogram divided by
      (maxIter - burnin) * |words| is added into the accumulated
      distribution; then Gibbs from iteration n + 1. */
  ghost function GibbsSweep(s: ModelState, words: seq<int>, alpha: real, draws: nat -> real, burnin: int,
                            maxIter: int, n: nat, from: nat, topics: seq<int>, hist: map<int, real>,
                            acc: map<int, real>)
    : (r: (seq<int>, map<int, real>, map<int, real>))
    requires Sampleable(s, words, alpha, draws) && |words| > 0 && n < maxIter
    requires |topics| == |words| && Tallies(hist, topics)
    ensures |r.0| == |words| && Tallies(r.1, r.0)
    ensures forall k :: 0 <= k < |words| ==> r.0[k] in s.wor2top[words[k]]
    decreases maxIter - n, 0
  {
    var swept := Resweep(s, words, alpha, draws, from, 0, topics, hist);
    ResweepInRows(s, words, alpha, draws, from, 0, topics, hist);
    Gibbs(s, words, alpha, draws, burnin, maxIter, n + 1, DrawsAfter(from, words), swept.0, swept.1,
          Accumulate(acc, swept.1, burnin, maxIter, n, |words|))
  }

  /** The index of the first draw after one draw per element of `xs`,
      starting at draw `from`. */
  function DrawsAfter(from: nat, xs: seq<int>): nat
  {
    from + |xs|
  }

  /** Gibbs from iteration n is one sweep, its accumulation, and Gibbs from
      iteration n + 1. */
  lemma GibbsStep(s: ModelState, words: seq<int>, alpha: real, draws: nat -> real, burnin: int, maxIter: int,
                  n: nat, from: nat, topics: seq<int>, hist: map<int, real>, acc: map<int, real>)
    requires Sampleable(s, words, alpha, draws) && |words| > 0 && n < maxIter
    requires |topics| == |words| && Tallies(hist, topics)
    ensures var swept := Resweep(s, words, alpha, draws, from, 0, topics, hist);
      Gibbs(s, words, alpha, draws, burnin, maxIter, n, from, topics, hist, acc) ==
      Gibbs(s, words, alpha, draws, burnin, maxIter, n + 1, DrawsAfter(from, words), swept.0, swept.1,
            Accumulate(acc, swept.1, burnin, maxIter, n, |words|))
  {
  }

  /** One accumulation adds one sweep's share of mass: none before burn-in,
      the histogram's sum |topics| divided by (maxIter - burnin) * |topics|
      from burn-in on. */
  lemma AccumulateSum(acc: map<int, real>, hist: map<int, real>, topics: seq<int>, burnin: int, maxIter: int, n: int,
                      len: nat)
    requires 0 <= n < maxIter && len == |topics| > 0 && Tallies(hist, topics)
    ensures Sum(Accumulate(acc, hist, burnin, maxIter, n, len)) + AccumulatedMass(burnin, maxIter, n) ==
      Sum(acc) + AccumulatedMass(burnin, maxIter, n + 1)
  {
    if n >= burnin {
      AccumulatedMassStep(burnin, maxIter, n, len);
      SumAddDivided(acc, hist, ((maxIter - burnin) * len) as real);
      TalliesSum(hist, topics);
    } else {
      assert AccumulatingSweeps(burnin, n + 1) == 0;
    }
  }

  /** The histogram of an assignment in which every position holds one of
      its word's topics has weight only on topics of the model. */
  lemma HistogramInModel(s: ModelState, words: seq<int>, topics: seq<int>, hist: map<int, real>)
    requires WellFormed(s) && |topics| == |words| && Tallies(hist, topics)
    requires forall k :: 0 <= k < |words| ==> words[k] in s.wor2top && topics[k] in s.wor2top[words[k]]
    ensures Supported(hist, s.topTotal.Keys)
  {
    forall k | 0 <= k < |topics| ensures topics[k] in s.topTotal.Keys {
      assert forall id, t :: id in s.wor2top && t in s.wor2top[id] ==> t in s.topTotal;
      assert words[k] in s.wor2top && topics[k] in s.wor2top[words[k]];
    }
    TalliesSupported(hist, topics, s.topTotal.Keys);
  }

  /** Accumulating a histogram on `keys` into a distribution on `keys`
      keeps it on `keys`. */
  lemma AccumulateSupported(acc: map<int, real>, hist: map<int, real>, burnin: int, maxIter: int, n: int, len: nat,
                            keys: set<int>)
    requires 0 <= n < maxIter && len > 0 && Supported(acc, keys) && Supported(hist, keys)
    ensures Supported(Accumulate(acc, hist, burnin, maxIter, n, len), keys)
  {
    if n >= burnin {
      AccumulatedMassStep(burnin, maxIter, n, len);
      AddDividedSupported(acc, hist, ((maxIter - burnin) * len) as real, keys);
    }
  }

  /** An accumulated distribution with weight only on the model's topics
      keeps that property through every later sweep. */
  lemma {:induction false} GibbsSupported(s: ModelState, words: seq<int>, alpha: real, draws: nat -> real,
                                          burnin: int, maxIter: int, n: nat, from: nat, topics: seq<int>,
                                          hist: map<int, real>, acc: map<int, real>)
    requires Sampleable(s, words, alpha, draws) && |words| > 0
    requires |topics| == |words| && Tallies(hist, topics) && Supported(acc, s.topTotal.Keys)
    ensures Supported(Gibbs(s, words, alpha, draws, burnin, maxIter, n, from, topics, hist, acc).2, s.topTotal.Keys)
    decreases maxIter - n
  {
    if n < maxIter {
      var swept := Resweep(s, words, alpha, draws, from, 0, topics, hist);
      ResweepInRows(s, words, alpha, draws, from, 0, topics, hist);
      HistogramInModel(s, words, swept.0, swept.1);
      AccumulateSupported(acc, swept.1, burnin, maxIter, n, |words|, s.topTotal.Keys);
      GibbsSupported(s, words, alpha, draws, burnin, maxIter, n + 1, DrawsAfter(from, words), swept.0, swept.1,
                     Accumulate(acc, swept.1, burnin, maxIter, n, |words|));
      GibbsStep(s, words, alpha, draws, burnin, maxIter, n, from, topics, hist, acc);
    }
  }

  /** Inference on a fresh document (model.h:143-168 with no earlier
      topics): the known words draw their initial topics from draw `from`
      on, and (topics, histogram, accumulated) are what Gibbs computes from
      them with the draws that follow. */
  ghost predicate InferredFresh(s: ModelState, words: seq<int>, alpha: real, draws: nat -> real, burnin: int,
                                maxIter: int, numTopic: nat, from: nat,
                                topics: seq<int>, hist: map<int, real>, acc: map<int, real>)
  {
    && Sampleable(s, words, alpha, draws) && |words| > 0
    && var init := InitialTopics(draws, from, |words|, numTopic);
       TalliesCountInto(map[], [], init);
       assert [] + init == init;
       (topics, hist, acc) ==
         Gibbs(s, words, alpha, draws, burnin, maxIter, 0, DrawsAfter(from, init), init, CountInto(map[], init), map[])
  }

  /** The result Infer states, for a document that held no topics, is a
      fresh inference. */
  lemma InferredFreshOf(s: ModelState, words: seq<int>, alpha: real, draws: nat -> real, burnin: int,
                        maxIter: int, numTopic: nat, from: nat, known: nat,
                        t0: seq<int>, h0: map<int, real>, a0: map<int, real>,
                        topics: seq<int>, hist: map<int, real>, acc: map<int, real>)
    requires Sampleable(s, words, alpha, draws) && |words| > 0 && known == |words|
    requires t0 == [] && h0 == map[] && a0 == map[]
    requires var init := InitialTopics(draws, from, known, numTopic);
      |t0 + init| == |words| &&
      (TalliesCountInto(h0, t0, init);
       (topics, hist, acc) ==
         Gibbs(s, words, alpha, draws, burnin, maxIter, 0, DrawsAfter(from, init), t0 + init, CountInto(h0, init), a0))
    ensures InferredFresh(s, words, alpha, draws, burnin, maxIter, numTopic, from, topics, hist, acc)
  {
    var init := InitialTopics(draws, from, known, numTopic);
    assert t0 + init == init;
  }

  // ---------------------------------------------------------------------
  // The inferencer

  /** model.h:136-250, the inferencer bound to one loaded model. */
  class LdaInfer {
    const model: Model
    const numTopic: nat
    const alpha: real
    const beta: real
    const burninIter: int
    const maxIter: int

    /** model.h:138-141: loads the model and records its number of topics. */
    constructor (lines: seq<Line>, alpha: real, beta: real, burninIter: int, maxIter: int)
      ensures fresh(model) && model.State() == Load(lines)
      ensures numTopic == |Load(lines).topTotal|
      ensures this.alpha == alpha && this.beta == beta
      ensures this.burninIter == burninIter && this.maxIter == maxIter
    {
      var m := new Model(lines);
      model := m;
      numTopic := m.GetTopicNum();
      this.alpha := alpha;
      this.beta := beta;
      this.burninIter := burninIter;
      this.maxIter := maxIter;
    }

    /** A loaded, well-formed model. */
    ghost predicate Loaded()
      reads this, model
    {
      WellFormed(model.State())
    }

    /** A loaded model with usable counts and a non-negative alpha: what
        sampling needs. */
    ghost predicate Ready()
      reads this, model
    {
      Loaded() && UsableCounts(model.State()) && alpha >= 0.0
    }

    /** What stays fixed during a sweep: the model is ready, the document's
        words are its own and are the snapshot `words`, `st` is the model's
        state, and the draws are uniform. */
    ghost predicate Resampling(st: ModelState, words: seq<int>, doc: Document, rng: RandomSource)
      reads this, model, doc`document, doc`stringDocument
    {
      && Ready() && Aligned(doc) && rng.Valid()
      && st == model.State() && words == doc.document && Sampleable(st, words, alpha, rng.draws)
    }

    /** The document's known words are the model's: each string has the id
        recorded for it, and that id has a topic table. */
    ghost predicate Aligned(doc: Document)
      reads this, model, doc`document, doc`stringDocument
    {
      && |doc.document| <= |doc.stringDocument|
      && forall i :: 0 <= i < |doc.document| ==>
           doc.stringDocument[i] in model.word2id && model.word2id[doc.stringDocument[i]] == doc.document[i] &&
           doc.document[i] in model.wor2top && model.wor2top[doc.document[i]] != map[]
    }

    /** model.h:225-243: known tokens go, in order, into the parallel vectors
        with a random initial topic each (counted into the histogram); unknown
        tokens go into unknownWord. The source declares an int result but
        flows off the end without returning one, which C++ leaves undefined;
        the model returns nothing. */
    method InitTopicAssignment(stringDoc: seq<string>, doc: Document, rng: RandomSource)
      requires Loaded() && doc.Valid() && Aligned(doc) && rng.Valid()
      modifies doc`stringDocument, doc`document, doc`topic, doc`topicDist, doc`unknownWord, rng`used
      ensures doc.Valid() && Aligned(doc) && rng.Valid()
      ensures doc.stringDocument == old(doc.stringDocument) + Known(model.word2id, stringDoc)
      ensures doc.unknownWord == old(doc.unknownWord) + Unknown(model.word2id, stringDoc)
      ensures doc.document == old(doc.document) + IdsOf(model.word2id, Known(model.word2id, stringDoc))
      ensures doc.topic == old(doc.topic) +
        InitialTopics(rng.draws, old(rng.used), |Known(model.word2id, stringDoc)|, numTopic)
      ensures doc.topicDist ==
        CountInto(old(doc.topicDist), InitialTopics(rng.draws, old(rng.used), |Known(model.word2id, stringDoc)|, numTopic))
      ensures rng.used == old(rng.used) + |Known(model.word2id, stringDoc)|
    {
      SplitTokens(stringDoc, model.word2id, doc, rng);
    }

    /** The loop of model.h:227-242, over the dictionary `dict` of the model. */
    method SplitTokens(stringDoc: seq<string>, dict: map<string, int>, doc: Document, rng: RandomSource)
      requires Loaded() && doc.Valid() && Aligned(doc) && rng.Valid() && dict == model.word2id
      modifies doc`stringDocument, doc`document, doc`topic, doc`topicDist, doc`unknownWord, rng`used
      ensures doc.Valid() && Aligned(doc) && rng.Valid()
      ensures doc.stringDocument == old(doc.stringDocument) + Known(dict, stringDoc)
      ensures doc.unknownWord == old(doc.unknownWord) + Unknown(dict, stringDoc)
      ensures doc.document == old(doc.document) + IdsOf(dict, Known(dict, stringDoc))
      ensures doc.topic == old(doc.topic) + InitialTopics(rng.draws, old(rng.used), |Known(dict, stringDoc)|, numTopic)
      ensures doc.topicDist == CountInto(old(doc.topicDist), InitialTopics(rng.draws, old(rng.used), |Known(dict, stringDoc)|, numTopic))
      ensures rng.used == old(rng.used) + |Known(dict, stringDoc)|
    {
      ghost var used0 := rng.used;
      ghost var s0, d0, t0, h0, u0 := doc.stringDocument, doc.document, doc.topic, doc.topicDist, doc.unknownWord;
      ghost var known: seq<string> := [];
      var i := 0;
      while i < |stringDoc|
        invariant 0 <= i <= |stringDoc|
        invariant known == Known(dict, stringDoc[..i])
        invariant doc.Valid() && Aligned(doc) && rng.Valid()
        invariant doc.stringDocument == s0 + known
        invariant doc.unknownWord == u0 + Unknown(dict, stringDoc[..i])
        invariant doc.document == d0 + IdsOf(dict, known)
        invariant doc.topic == t0 + InitialTopics(rng.draws, used0, |known|, numTopic)
        invariant doc.topicDist == CountInto(h0, InitialTopics(rng.draws, used0, |known|, numTopic))
        invariant rng.used == used0 + |known|
      {
        var word := stringDoc[i];
        KnownSnoc(dict, stringDoc, i);
        if word !in dict {
          assert Known(dict, stringDoc[..i + 1]) == known;
          AppendSnoc(u0, Unknown(dict, stringDoc[..i]), word);
          AddUnknownWord(word, doc);
        } else {
          assert Unknown(dict, stringDoc[..i + 1]) == Unknown(dict, stringDoc[..i]);
          ExtendKnown(word, dict, known, used0, s0, d0, t0, h0, doc, rng);
          known := known + [word];
        }
        i := i + 1;
      }
      assert stringDoc[..i] == stringDoc;
    }

    /** One more known token, stated against the tokens known so far. */
    method ExtendKnown(word: string, dict: map<string, int>, ghost known: seq<string>, ghost used0: nat,
                       ghost s0: seq<string>, ghost d0: seq<int>, ghost t0: seq<int>, ghost h0: map<int, real>,
                       doc: Document, rng: RandomSource)
      requires Loaded() && doc.Valid() && Aligned(doc) && rng.Valid() && dict == model.word2id && word in dict
      requires forall i :: 0 <= i < |known| ==> known[i] in dict
      requires doc.stringDocument == s0 + known && doc.document == d0 + IdsOf(dict, known)
      requires doc.topic == t0 + InitialTopics(rng.draws, used0, |known|, numTopic) && rng.used == used0 + |known|
      requires doc.topicDist == CountInto(h0, InitialTopics(rng.draws, used0, |known|, numTopic))
      modifies doc`stringDocument, doc`document, doc`topic, doc`topicDist, rng`used
      ensures doc.Valid() && Aligned(doc) && rng.Valid()
      ensures doc.stringDocument == s0 + (known + [word]) && doc.document == d0 + IdsOf(dict, known + [word])
      ensures doc.topic == t0 + InitialTopics(rng.draws, used0, |known + [word]|, numTopic)
      ensures doc.topicDist == CountInto(h0, InitialTopics(rng.draws, used0, |known + [word]|, numTopic))
      ensures rng.used == used0 + |known + [word]|
      ensures doc.unknownWord == old(doc.unknownWord)
    {
      ghost var init, drawn := InitialTopics(rng.draws, used0, |known|, numTopic), RandomTopic(rng.draws(rng.used), numTopic);
      IdsOfSnoc(dict, known, word);
      InitialTopicsSnoc(rng.draws, used0, |known|, numTopic);
      assert InitialTopics(rng.draws, used0, |known + [word]|, numTopic) == init + [drawn];
      AppendSnoc(s0, known, word);
      AppendSnoc(d0, IdsOf(dict, known), dict[word]);
      AppendSnoc(t0, init, drawn);
      CountIntoSnoc(h0, init, drawn);
      AddKnownWord(word, doc, rng);
    }

    /** model.h:230-233, one unknown token: it is set aside. */
    method AddUnknownWord(word: string, doc: Document)
      modifies doc`unknownWord
      ensures doc.unknownWord == old(doc.unknownWord) + [word]
    {
      doc.unknownWord := doc.unknownWord + [word];
    }

    /** model.h:235-241, one known token: its string, its id and a random
        initial topic are appended, and the topic is counted. */
    method AddKnownWord(word: string, doc: Document, rng: RandomSource)
      requires doc.Valid() && Aligned(doc) && rng.Valid() && word in model.word2id
      requires model.word2id[word] in model.wor2top && model.wor2top[model.word2id[word]] != map[]
      modifies doc`stringDocument, doc`document, doc`topic, doc`topicDist, rng`used
      ensures doc.Valid() && Aligned(doc) && rng.Valid()
      ensures doc.stringDocument == old(doc.stringDocument) + [word]
      ensures doc.document == old(doc.document) + [model.word2id[word]]
      ensures doc.topic == old(doc.topic) + [RandomTopic(rng.draws(old(rng.used)), numTopic)]
      ensures doc.topicDist == IncreaseKeyCount(old(doc.topicDist), RandomTopic(rng.draws(old(rng.used)), numTopic), 1.0)
      ensures rng.used == old(rng.used) + 1
    {
      doc.stringDocument := doc.stringDocument + [word];
      var wordId := model.word2id[word];
      doc.document := doc.document + [wordId];
      var u := rng.Next();
      var randomTopic := RandomTopic(u, numTopic);
      TalliesAppend(doc.topicDist, doc.topic, randomTopic);
      doc.topic := doc.topic + [randomTopic];
      doc.topicDist := IncreaseKeyCount(doc.topicDist, randomTopic, 1.0);
    }

    /** model.h:189-211: the posterior of position i, computed over the
        word's topic table. */
    method CalcTopicPosterior(i: nat, doc: Document) returns (dist: map<int, real>)
      requires Loaded() && DivisibleTotals(model.State())
      requires doc.Valid() && Aligned(doc) && i < |doc.document|
      ensures DividesRow(model.wor2top[doc.document[i]], model.topTotal)
      ensures dist == Posterior(model.wor2top[doc.document[i]], model.topTotal, doc.topic[i], doc.topicDist, alpha)
    {
      var wordId := doc.document[i];
      var oldTopicId := doc.topic[i];
      var row := model.wor2top[wordId];
      var order := model.topicOrder[wordId];
      var totals := model.topTotal;
      var hist := doc.topicDist;
      OrderOfRow(model.State(), wordId);
      dist := PosteriorOver(row, order, totals, hist, oldTopicId, alpha);
    }

    /** model.h:213-223: a draw from the candidate masses, scanned in the
        given order; it always lands on a candidate. */
    method SampleTopic(dist: map<int, real>, order: seq<int>, rng: RandomSource) returns (sampled: int)
      requires rng.Valid() && Enumerates(order, dist.Keys) && |order| > 0
      requires forall t :: t in dist ==> dist[t] >= 0.0
      modifies rng`used
      ensures rng.Valid() && rng.used == old(rng.used) + 1
      ensures sampled in dist
      ensures DrawIndex(Masses(order, dist), rng.draws(old(rng.used))) < |order|
      ensures sampled == order[DrawIndex(Masses(order, dist), rng.draws(old(rng.used)))]
    {
      var pairs := Masses(order, dist);
      var u := rng.Next();
      sampled := CumulativeSample(pairs, u);
    }

    /** model.h:176-180, one position: its posterior is computed and a
        topic drawn from it. */
    method DrawTopic(i: nat, doc: Document, rng: RandomSource) returns (sampled: int)
      requires Ready() && doc.Valid() && Aligned(doc) && rng.Valid() && i < |doc.document|
      modifies rng`used
      ensures rng.Valid() && rng.used == old(rng.used) + 1
      ensures sampled == Resampled(model.State(), doc.document[i], doc.topic, i, doc.topicDist, alpha, rng.draws(old(rng.used)))
    {
      var wordId := doc.document[i];
      OrderOfRow(model.State(), wordId);
      var order := model.topicOrder[wordId];
      var topicCountDist := CalcTopicPosterior(i, doc);
      RowUsable(model.State(), wordId);
      PosteriorMasses(model.wor2top[wordId], model.topTotal, doc.topic, i, doc.topicDist, alpha);
      sampled := SampleTopic(topicCountDist, order, rng);
    }

    /** model.h:182-184: position i moves to the sampled topic; one count
        leaves the old topic and one joins the new, so the histogram keeps
        tallying the assignment. */
    method MoveTopic(i: nat, sampled: int, doc: Document)
      requires doc.Valid() && i < |doc.topic|
      modifies doc`topic, doc`topicDist
      ensures doc.Valid()
      ensures doc.topic == old(doc.topic)[i := sampled]
      ensures doc.topicDist == IncreaseKeyCount(IncreaseKeyCount(old(doc.topicDist), old(doc.topic)[i], -1.0), sampled, 1.0)
    {
      TalliesMove(doc.topicDist, doc.topic, i, sampled);
      doc.topicDist := IncreaseKeyCount(doc.topicDist, doc.topic[i], -1.0);
      doc.topic := doc.topic[i := sampled];
      doc.topicDist := IncreaseKeyCount(doc.topicDist, sampled, 1.0);
    }

    /** model.h:171-186: one sweep over the document `words` of the model
        `st`; every position is resampled in turn, and the result is the
        fold Resweep over the draws the sweep consumes. */
    method UpdateTopicForDocument(ghost st: ModelState, ghost words: seq<int>, doc: Document, rng: RandomSource)
      requires Resampling(st, words, doc, rng) && doc.Valid()
      modifies doc`topic, doc`topicDist, rng`used
      ensures Resampling(st, words, doc, rng) && doc.Valid() && rng.used == old(rng.used) + |words|
      ensures (doc.topic, doc.topicDist) ==
        Resweep(st, words, alpha, rng.draws, old(rng.used), 0, old(doc.topic), old(doc.topicDist))
      ensures forall k :: 0 <= k < |doc.topic| ==> doc.topic[k] in st.wor2top[words[k]]
    {
      ghost var swept := Resweep(st, words, alpha, rng.draws, rng.used, 0, doc.topic, doc.topicDist);
      ResweepInRows(st, words, alpha, rng.draws, rng.used, 0, doc.topic, doc.topicDist);
      var docSize := |doc.document|;
      var i := 0;
      while i < docSize
        invariant 0 <= i <= docSize
        invariant Resampling(st, words, doc, rng) && doc.Valid() && rng.used == old(rng.used) + i
        invariant Resweep(st, words, alpha, rng.draws, rng.used, i, doc.topic, doc.topicDist) == swept
      {
        ResamplePosition(i, st, words, swept, doc, rng);
        i := i + 1;
      }
    }

    /** model.h:174-184, position i of a sweep: one step of the fold
        Resweep, whose result `swept` stays the same. */
    method ResamplePosition(i: nat, ghost st: ModelState, ghost words: seq<int>,
                            ghost swept: (seq<int>, map<int, real>), doc: Document, rng: RandomSource)
      requires Resampling(st, words, doc, rng) && doc.Valid() && i < |words|
      requires Resweep(st, words, alpha, rng.draws, rng.used, i, doc.topic, doc.topicDist) == swept
      modifies doc`topic, doc`topicDist, rng`used
      ensures Resampling(st, words, doc, rng) && doc.Valid() && rng.used == old(rng.used) + 1
      ensures Resweep(st, words, alpha, rng.draws, rng.used, i + 1, doc.topic, doc.topicDist) == swept
    {
      ghost var topics := doc.topic;
      ghost var hist := doc.topicDist;
      var sampledTopic := DrawTopic(i, doc, rng);
      MoveTopic(i, sampledTopic, doc);
      ResweepStep(st, words, alpha, rng.draws, old(rng.used), i, topics, hist, sampledTopic);
    }

    /** model.h:156-164: adds every histogram entry, divided by `d`, into
        the accumulated distribution, in any order. */
    method AccumulateTopicDist(doc: Document, d: real)
      requires d != 0.0
      modifies doc`accumulateTopicDist
      ensures doc.accumulateTopicDist == AddDivided(old(doc.accumulateTopicDist), doc.topicDist, d)
    {
      ghost var base := doc.accumulateTopicDist;
      var rest := doc.topicDist.Keys;
      ghost var done: set<int> := {};
      while rest != {}
        invariant rest + done == doc.topicDist.Keys && rest * done == {}
        invariant doc.accumulateTopicDist == AddDivided(base, Restrict(doc.topicDist, done), d)
        decreases rest
      {
        var t := Choose(rest);
        AddDividedRestrictStep(base, doc.topicDist, done, t, d);
        doc.accumulateTopicDist := IncreaseKeyCount(doc.accumulateTopicDist, t, doc.topicDist[t] / d);
        rest := rest - {t};
        done := done + {t};
      }
      assert Restrict(doc.topicDist, done) == doc.topicDist;
    }

    /** model.h:143-168: initial assignment, then maxIter sweeps; each sweep
        from burnin on adds the histogram divided by (maxIter - burnin) times
        the document length. The result is the fold Gibbs started on the
        initial assignment; a document with no known word is left as the
        initial assignment made it. */
    method Infer(stringDoc: seq<string>, doc: Document, rng: RandomSource)
      requires Ready() && doc.Valid() && Aligned(doc) && rng.Valid()
      modifies doc, rng`used
      ensures doc.Valid() && Aligned(doc)
      ensures doc.stringDocument == old(doc.stringDocument) + Known(model.word2id, stringDoc)
      ensures doc.unknownWord == old(doc.unknownWord) + Unknown(model.word2id, stringDoc)
      ensures doc.document == old(doc.document) + IdsOf(model.word2id, Known(model.word2id, stringDoc))
      ensures |doc.document| == 0 ==>
        doc.topic == old(doc.topic) && doc.topicDist == old(doc.topicDist) &&
        doc.accumulateTopicDist == old(doc.accumulateTopicDist)
      ensures |doc.document| > 0 ==>
        var init := InitialTopics(rng.draws, old(rng.used), |Known(model.word2id, stringDoc)|, numTopic);
        Sampleable(model.State(), doc.document, alpha, rng.draws) &&
        |old(doc.topic) + init| == |doc.document| &&
        (TalliesCountInto(old(doc.topicDist), old(doc.topic), init);
         (doc.topic, doc.topicDist, doc.accumulateTopicDist) ==
           Gibbs(model.State(), doc.document, alpha, rng.draws, burninIter, maxIter, 0, DrawsAfter(old(rng.used), init),
                 old(doc.topic) + init, CountInto(old(doc.topicDist), init), old(doc.accumulateTopicDist)))
      ensures |doc.document| > 0 ==>
        Sum(doc.accumulateTopicDist) == Sum(old(doc.accumulateTopicDist)) + AccumulatedMass(burninIter, maxIter, maxIter)
      ensures 0 < maxIter ==> forall k :: 0 <= k < |doc.topic| ==> doc.topic[k] in model.wor2top[doc.document[k]]
      ensures old(Supported(doc.accumulateTopicDist, model.topTotal.Keys)) ==>
        Supported(doc.accumulateTopicDist, model.topTotal.Keys)
      ensures rng.used == old(rng.used) + |Known(model.word2id, stringDoc)| +
        if |doc.document| > 0 then Draws(maxIter, |doc.document|) else 0
    {
      InitTopicAssignment(stringDoc, doc, rng);
      if |doc.document| == 0 {
        return;
      }
      ghost var strings, unknown, words := doc.stringDocument, doc.unknownWord, doc.document;
      ghost var init := InitialTopics(rng.draws, old(rng.used), |Known(model.word2id, stringDoc)|, numTopic);
      assert rng.used == DrawsAfter(old(rng.used), init);
      RunSweeps(model.State(), words, doc, rng);
      assert doc.stringDocument == strings && doc.unknownWord == unknown && doc.document == words;
    }

    /** The sweep loop of model.h:149-167, on a document with known words:
        the fold Gibbs from iteration 0. */
    method RunSweeps(ghost st: ModelState, ghost words: seq<int>, doc: Document, rng: RandomSource)
      requires Resampling(st, words, doc, rng) && doc.Valid() && |words| > 0
      modifies doc`topic, doc`topicDist, doc`accumulateTopicDist, rng`used
      ensures Resampling(st, words, doc, rng) && doc.Valid()
      ensures (doc.topic, doc.topicDist, doc.accumulateTopicDist) ==
        Gibbs(st, words, alpha, rng.draws, burninIter, maxIter, 0, old(rng.used),
              old(doc.topic), old(doc.topicDist), old(doc.accumulateTopicDist))
      ensures Sum(doc.accumulateTopicDist) == Sum(old(doc.accumulateTopicDist)) + AccumulatedMass(burninIter, maxIter, maxIter)
      ensures 0 < maxIter ==> forall k :: 0 <= k < |doc.topic| ==> doc.topic[k] in st.wor2top[words[k]]
      ensures old(Supported(doc.accumulateTopicDist, st.topTotal.Keys)) ==>
        Supported(doc.accumulateTopicDist, st.topTotal.Keys)
      ensures rng.used == old(rng.used) + Draws(maxIter, |words|)
      ensures doc.unknownWord == old(doc.unknownWord)
    {
      ghost var run := Gibbs(st, words, alpha, rng.draws, burninIter, maxIter, 0, rng.used,
                             doc.topic, doc.topicDist, doc.accumulateTopicDist);
      ghost var mass0 := Sum(doc.accumulateTopicDist);
      assert AccumulatingSweeps(burninIter, 0) == 0;
      if Supported(doc.accumulateTopicDist, st.topTotal.Keys) {
        GibbsSupported(st, words, alpha, rng.draws, burninIter, maxIter, 0, rng.used,
                       doc.topic, doc.topicDist, doc.accumulateTopicDist);
      }
      ghost var at: nat := rng.used;
      var n := 0;
      while n < maxIter
        invariant 0 <= n && (n <= maxIter || n == 0)
        invariant Sweeping(n, at, st, words, mass0, doc, rng)
        invariant Gibbs(st, words, alpha, rng.draws, burninIter, maxIter, n, at,
                        doc.topic, doc.topicDist, doc.accumulateTopicDist) == run
        invariant at == old(rng.used) + Draws(n, |words|)
      {
        n, at := AdvanceSweep(n, at, old(rng.used), st, words, run, mass0, doc, rng);
      }
      assert (doc.topic, doc.topicDist, doc.accumulateTopicDist) == run;
      assert AccumulatingSweeps(burninIter, n) == AccumulatingSweeps(burninIter, maxIter);
    }

    /** The state of RunSweeps before sweep n, whose first draw is at index
        `at`: the rest of the fold Gibbs from iteration n ends in `run`, and
        the accumulated distribution has gained the mass of the sweeps so
        far. */
    ghost predicate Sweeping(n: int, at: nat, st: ModelState, words: seq<int>, mass0: real,
                             doc: Document, rng: RandomSource)
      reads this, model, doc, rng
    {
      && Resampling(st, words, doc, rng) && doc.Valid() && |words| > 0 && 0 <= n && rng.used == at
      && Sum(doc.accumulateTopicDist) == mass0 + AccumulatedMass(burninIter, maxIter, n)
    }

    /** One turn of the loop of RunSweeps: sweep n takes the remaining fold
        Gibbs from iteration n to iteration n + 1 and adds the mass of
        iteration n to the accumulated distribution. */
    method AdvanceSweep(n: int, ghost at: nat, ghost from: nat, ghost st: ModelState, ghost words: seq<int>,
                        ghost run: (seq<int>, map<int, real>, map<int, real>), ghost mass0: real,
                        doc: Document, rng: RandomSource) returns (next: int, ghost nextAt: nat)
      requires Sweeping(n, at, st, words, mass0, doc, rng) && n < maxIter && at == from + Draws(n, |words|)
      requires Gibbs(st, words, alpha, rng.draws, burninIter, maxIter, n, at,
                     doc.topic, doc.topicDist, doc.accumulateTopicDist) == run
      modifies doc`topic, doc`topicDist, doc`accumulateTopicDist, rng`used
      ensures next == n + 1 && nextAt == DrawsAfter(at, words) && nextAt == from + Draws(next, |words|)
      ensures Sweeping(next, nextAt, st, words, mass0, doc, rng)
      ensures Gibbs(st, words, alpha, rng.draws, burninIter, maxIter, next, nextAt,
                    doc.topic, doc.topicDist, doc.accumulateTopicDist) == run
    {
      ghost var topics, hist, acc := doc.topic, doc.topicDist, doc.accumulateTopicDist;
      Sweep(n, at, st, words, doc, rng);
      AccumulateSum(acc, doc.topicDist, doc.topic, burninIter, maxIter, n, |words|);
      GibbsStep(st, words, alpha, rng.draws, burninIter, maxIter, n, at, topics, hist, acc);
      next, nextAt := n + 1, DrawsAfter(at, words);
      assert AccumulatedMass(burninIter, maxIter, next) == AccumulatedMass(burninIter, maxIter, n + 1);
    }

    /** model.h:154-166, sweep n, with the next draw at index `at`: every
        position is resampled (the fold Resweep), then the histogram is
        accumulated (Accumulate). */
    method Sweep(n: int, ghost at: nat, ghost st: ModelState, ghost words: seq<int>, doc: Document, rng: RandomSource)
      requires Resampling(st, words, doc, rng) && doc.Valid() && |words| > 0 && 0 <= n < maxIter && rng.used == at
      modifies doc`topic, doc`topicDist, doc`accumulateTopicDist, rng`used
      ensures Resampling(st, words, doc, rng) && doc.Valid() && rng.used == at + |words|
      ensures (doc.topic, doc.topicDist) ==
        Resweep(st, words, alpha, rng.draws, at, 0, old(doc.topic), old(doc.topicDist))
      ensures doc.accumulateTopicDist ==
        Accumulate(old(doc.accumulateTopicDist), doc.topicDist, burninIter, maxIter, n, |words|)
    {
      UpdateTopicForDocument(st, words, doc, rng);
      AccumulateSweep(n, doc);
    }

    /** model.h:155-166, after sweep n: from burn-in on, the histogram,
        divided by (maxIter - burnin) times the document length, is added
        into the accumulated distribution; before burn-in nothing changes. */
    method AccumulateSweep(n: int, doc: Document)
      requires doc.Valid() && |doc.document| > 0 && 0 <= n < maxIter
      modifies doc`accumulateTopicDist
      ensures doc.accumulateTopicDist ==
        Accumulate(old(doc.accumulateTopicDist), doc.topicDist, burninIter, maxIter, n, |doc.document|)
    {
      if n >= burninIter {
        var accumulateCount := maxIter - burninIter;
        var docLen := |doc.document|;
        AccumulatedMassStep(burninIter, maxIter, n, docLen);
        AccumulateTopicDist(doc, (accumulateCount * docLen) as real);
      }
    }
  }
}
