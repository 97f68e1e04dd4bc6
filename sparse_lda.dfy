/** sparse_lda_predictor.cpp: an LDA topic predictor that, like the real-time
    one, loads a model file of wordid:count pairs, but then samples each
    position's topic from the posterior over the word's topics (a collapsed
    Gibbs step restricted to the word's own topics) instead of choosing
    greedily. */
module SparseLda {
  import opened Tables
  import opened PredictorTables

  // ---------------------------------------------------------------------
  // The posterior of one position

  /** The document's count of `t` with the position's own assignment taken
      out: one less for the old topic, unless its counter is not positive. */
  ghost function SparseTheta(h: map<int, int>, t: int, oldTopic: int): int
  {
    Counter(h, t) - (if t == oldTopic && Counter(h, t) > 0 then 1 else 0)
  }

  /** sparse_lda_predictor.cpp:139-159: every topic of the word's row gets
      mass p(w | z) * (theta + alpha). */
  ghost function Posterior(row: map<int, real>, topsum: seq<real>, h: map<int, int>, oldTopic: int, alpha: real): map<int, real>
    requires Scorable(row, topsum)
  {
    map t | t in row :: Phi(row[t], topsum[t], SparseTheta(h, t, oldTopic), alpha)
  }

  /** When the counters extend a non-negative base by the assignment `s`,
      theta is the count of `t` over the base and every OTHER position: the
      position's own topic is always counted, so it is always taken out. */
  lemma ThetaExcludesSelf(h: map<int, int>, base: map<int, int>, s: seq<int>, i: nat, t: int)
    requires Extends(h, base, s) && NonNegative(base) && i < |s|
    ensures SparseTheta(h, t, s[i]) == Counter(base, t) + Count(s, t) - (if t == s[i] then 1 else 0)
    ensures SparseTheta(h, t, s[i]) >= 0
  {
    AssignedCounted(h, base, s, i);
    if t == s[i] {
      CountPositive(s, i);
    }
  }

  /** The posterior covers exactly the word's topics; with non-negative
      counters and alpha it is a non-negative mass, and a positive alpha
      gives every topic with a positive count a positive mass. */
  lemma PosteriorMasses(row: map<int, real>, topsum: seq<real>, h: map<int, int>, oldTopic: int, alpha: real)
    requires Scorable(row, topsum) && alpha >= 0.0
    requires forall t :: Counter(h, t) >= 0
    ensures Posterior(row, topsum, h, oldTopic, alpha).Keys == row.Keys
    ensures forall t :: t in row ==> Posterior(row, topsum, h, oldTopic, alpha)[t] >= 0.0
    ensures alpha > 0.0 ==> forall t :: t in row && row[t] > 0.0 ==> Posterior(row, topsum, h, oldTopic, alpha)[t] > 0.0
  {
    var prob := Posterior(row, topsum, h, oldTopic, alpha);
    forall t | t in row
      ensures prob[t] >= 0.0
      ensures alpha > 0.0 && row[t] > 0.0 ==> prob[t] > 0.0
    {
      var theta := SparseTheta(h, t, oldTopic);
      assert theta >= 0;
      ProductSign(row[t] / topsum[t], theta as real + alpha);
    }
  }

  /** The posterior reads the counters only through their values: maps
      that differ by zero entries give the same posterior. */
  lemma PosteriorSameCounters(row: map<int, real>, topsum: seq<real>, h: map<int, int>, h': map<int, int>,
                              oldTopic: int, alpha: real)
    requires Scorable(row, topsum) && SameCounters(h, h')
    ensures Posterior(row, topsum, h, oldTopic, alpha) == Posterior(row, topsum, h', oldTopic, alpha)
  {
    var p, p' := Posterior(row, topsum, h, oldTopic, alpha), Posterior(row, topsum, h', oldTopic, alpha);
    forall t | t in row ensures p[t] == p'[t] {
      assert Counter(h, t) == Counter(h', t);
    }
    MapsEqual(p, p');
  }

  // ---------------------------------------------------------------------
  // random_sparse_multinomial

  /** The (topic, mass) vector of `prob` in the order `order`. */
  function ProbVec(order: seq<int>, prob: map<int, real>): (v: seq<(int, real)>)
    requires forall k :: 0 <= k < |order| ==> order[k] in prob
    ensures |v| == |order|
    ensures forall k :: 0 <= k < |v| ==> v[k] == (order[k], prob[order[k]])
  {
    seq(|order|, k requires 0 <= k < |order| => (order[k], prob[order[k]]))
  }

  /** `sample` is the topic drawn by `u` from the entries of `prob` taken
      in the order `order`, which lists every topic of `prob` once. */
  ghost predicate SampledFrom(prob: map<int, real>, order: seq<int>, u: real, sample: int)
  {
    && Enumerates(order, prob.Keys)
    && DrawIndex(ProbVec(order, prob), u) < |order|
    && sample == order[DrawIndex(ProbVec(order, prob), u)]
  }

  /** Whatever the order of the map's entries, the draw lands on a topic of
      the map, and a positive draw against a positive total lands on a topic
      of positive mass. */
  lemma DrawnTopicIsKey(order: seq<int>, prob: map<int, real>, u: real)
    requires Enumerates(order, prob.Keys) && prob != map[]
    requires forall t :: t in prob ==> prob[t] >= 0.0
    requires 0.0 <= u <= 1.0
    ensures DrawIndex(ProbVec(order, prob), u) < |order|
    ensures order[DrawIndex(ProbVec(order, prob), u)] in prob
    ensures Scaled(u, Cumulative(ProbVec(order, prob), |order|)) > 0.0 ==>
              prob[order[DrawIndex(ProbVec(order, prob), u)]] > 0.0
  {
    var t := Pick(prob.Keys);
    assert t in order;
    var v := ProbVec(order, prob);
    DrawInRange(v, u);
    if Scaled(u, Cumulative(v, |order|)) > 0.0 {
      DrawPositive(v, u);
    }
  }

  /** sparse_lda_predictor.cpp:208-218: the entries of `prob` in the map's
      iteration order (which the model leaves open), their running sums, one
      draw scaled by the total, and the topic of the first running sum that
      reaches it. */
  method RandomSparseMultinomial(prob: map<int, real>, rng: RandomSource) returns (sample: int, ghost order: seq<int>)
    requires rng.Valid() && prob != map[]
    requires forall t :: t in prob ==> prob[t] >= 0.0
    modifies rng`used
    ensures rng.used == old(rng.used) + 1
    ensures SampledFrom(prob, order, rng.draws(old(rng.used)), sample)
    ensures sample in prob
  {
    var keys: seq<int> := [];
    var rest := prob.Keys;
    while rest != {}
      invariant rest <= prob.Keys && rng.used == old(rng.used)
      invariant Enumerates(keys, prob.Keys - rest)
      decreases rest
    {
      var t := Choose(rest);
      EnumeratesAppend(keys, prob.Keys - rest, t);
      assert prob.Keys - (rest - {t}) == (prob.Keys - rest) + {t};
      keys := keys + [t];
      rest := rest - {t};
    }
    assert prob.Keys - rest == prob.Keys;
    order := keys;
    var probVec := ProbVec(keys, prob);
    var u := rng.Next();
    DrawnTopicIsKey(keys, prob, u);
    sample := CumulativeSample(probVec, u);
  }

  /** The inputs of a sampling sweep that no step changes: the kept words
      of the document and the model's rows, totals and alpha. */
  datatype Sampling = Sampling(doc: seq<int>, rows: map<int, map<int, real>>, topsum: seq<real>, alpha: real)

  /** Position `i` goes from the assignment `before` to `after`: it takes
      the topic that the draw `u` picks, in some order of the topics, from
      the posterior of the counters `base` plus `before` (the state the
      positions before it left), and no other position changes. */
  ghost predicate SampledStep(s: Sampling, base: map<int, int>, before: seq<int>, i: int, u: real, after: seq<int>)
  {
    && 0 <= i < |before| == |after| && i < |s.doc| && s.doc[i] in s.rows
    && Scorable(s.rows[s.doc[i]], s.topsum)
    && after == before[i := after[i]]
    && exists order :: SampledFrom(Posterior(s.rows[s.doc[i]], s.topsum, Counted(base, before), before[i], s.alpha),
                                   order, u, after[i])
  }

  /** Step k of a sweep whose draws start at index `from`: the trace goes
      from entry k to entry k + 1 by position k and draw from + k. */
  ghost predicate SampledAt(s: Sampling, base: map<int, int>, draws: nat -> real, from: nat, trace: seq<seq<int>>, k: nat)
  {
    k + 1 < |trace| && SampledStep(s, base, trace[k], k, draws(from + k), trace[k + 1])
  }

  /** One sampling sweep over the document with the draws from index
      `from` on, as the trace of the assignment before each position and
      after the last. */
  ghost predicate SampledSweep(s: Sampling, base: map<int, int>, draws: nat -> real, from: nat, trace: seq<seq<int>>)
  {
    |trace| == |s.doc| + 1 && forall k: nat :: k < |s.doc| ==> SampledAt(s, base, draws, from, trace, k)
  }

  /** Sweep k of a run whose draws start at index `from`: it uses the
      draws from from + Draws(k, |s.doc|) on. */
  ghost predicate SweepAt(s: Sampling, base: map<int, int>, draws: nat -> real, from: nat, runs: seq<seq<seq<int>>>, k: nat)
  {
    k < |runs| && SampledSweep(s, base, draws, from + Draws(k, |s.doc|), runs[k])
  }

  /** A trace whose first i steps are sampled, extended by a sampled step
      at position i, has its first i + 1 steps sampled. */
  lemma SampledSnoc(s: Sampling, base: map<int, int>, draws: nat -> real, from: nat, trace: seq<seq<int>>, i: nat,
                    before: seq<int>, u: real, after: seq<int>)
    requires |trace| == i + 1 && trace[i] == before && u == draws(from + i)
    requires forall k: nat :: k < i ==> SampledAt(s, base, draws, from, trace, k)
    requires SampledStep(s, base, before, i, u, after)
    ensures forall k: nat :: k < i + 1 ==> SampledAt(s, base, draws, from, trace + [after], k)
  {
    var next := trace + [after];
    forall k: nat | k < i + 1 ensures SampledAt(s, base, draws, from, next, k) {
      if k == i {
        assert next[k] == trace[i] && next[k + 1] == after;
      } else {
        assert SampledAt(s, base, draws, from, trace, k);
        assert next[k] == trace[k] && next[k + 1] == trace[k + 1];
      }
    }
  }

  /** A run whose sweeps are sampled, extended by a sweep sampled with the
      draws that follow them, has all its sweeps sampled. */
  lemma SweepsSnoc(s: Sampling, base: map<int, int>, draws: nat -> real, from: nat, runs: seq<seq<seq<int>>>,
                   start: nat, trace: seq<seq<int>>)
    requires forall k: nat :: k < |runs| ==> SweepAt(s, base, draws, from, runs, k)
    requires start == from + Draws(|runs|, |s.doc|) && SampledSweep(s, base, draws, start, trace)
    ensures forall k: nat :: k < |runs| + 1 ==> SweepAt(s, base, draws, from, runs + [trace], k)
  {
    var next := runs + [trace];
    forall k: nat | k < |runs| + 1 ensures SweepAt(s, base, draws, from, next, k) {
      if k == |runs| {
        assert next[k] == trace;
      } else {
        assert SweepAt(s, base, draws, from, runs, k);
        assert next[k] == runs[k];
      }
    }
  }

  /** The first draw of the sweeps, after init_predictor's one draw per
      position of the document, starting at draw `from`. */
  function SweepsStart(from: nat, len: nat): nat
  {
    from + len
  }

  // ---------------------------------------------------------------------
  // The model

  /** LdaModel of sparse_lda_predictor.cpp: the word -> (topic -> count)
      table and the topic totals of the model file. */
  class LdaModel {
    var numTopic: nat
    var alpha: real
    var wor2top: map<int, map<int, real>>
    var topsum: seq<real>
    /** The model file. */
    ghost var lines: seq<IdLine>

    ghost predicate Valid()
      reads this
    {
      && TopicsInRange(lines, numTopic) && NonNegativeCounts(lines) && PositiveTotals(lines)
      && CountTables(wor2top, topsum) == LoadCounts(lines, numTopic)
    }

    /** sparse_lda_predictor.cpp:55-59: load_model of the file. */
    constructor (lines: seq<IdLine>, numTopic: nat, alpha: real)
      requires TopicsInRange(lines, numTopic) && NonNegativeCounts(lines) && PositiveTotals(lines)
      ensures Valid() && this.lines == lines && this.numTopic == numTopic && this.alpha == alpha
    {
      this.alpha := alpha;
      this.lines := lines;
      wor2top, topsum := map[], [];
      new;
      LoadModel(lines, numTopic);
    }

    /** sparse_lda_predictor.cpp:63-92: num_topic zero totals, then every
        line of the file in order. */
    method LoadModel(lines: seq<IdLine>, numTopic: nat)
      requires TopicsInRange(lines, numTopic)
      requires wor2top == map[] && topsum == []
      modifies this`numTopic, this`wor2top, this`topsum
      ensures this.numTopic == numTopic
      ensures CountTables(wor2top, topsum) == LoadCounts(lines, numTopic)
    {
      this.numTopic := numTopic;
      topsum := seq(numTopic, _ => 0.0);
      var k := 0;
      while k < |lines|
        invariant 0 <= k <= |lines| && this.numTopic == numTopic
        invariant CountTables(wor2top, topsum) == LoadCounts(lines[..k], numTopic)
      {
        assert lines[..k + 1][..k] == lines[..k];
        ReadLine(lines[k].0, lines[k].1);
        k := k + 1;
      }
      assert lines[..k] == lines;
    }

    /** sparse_lda_predictor.cpp:77-90, one line: every pair into the
        topic's total and the word's row. */
    method ReadLine(topic: nat, pairs: seq<(int, real)>)
      requires topic < |topsum|
      modifies this`wor2top, this`topsum
      ensures CountTables(wor2top, topsum) == AddIdPairs(old(CountTables(wor2top, topsum)), topic, pairs)
    {
      var j := 0;
      while j < |pairs|
        invariant 0 <= j <= |pairs| && |topsum| == |old(topsum)|
        invariant CountTables(wor2top, topsum) == AddIdPairs(old(CountTables(wor2top, topsum)), topic, pairs[..j])
      {
        assert pairs[..j + 1][..j] == pairs[..j];
        var (word, count) := pairs[j];
        topsum := topsum[topic := topsum[topic] + count];
        var wordRow := if word in wor2top then wor2top[word] else map[];
        wor2top := wor2top[word := wordRow[topic := count]];
        j := j + 1;
      }
      assert pairs[..j] == pairs;
    }

    /** Every word of the model has at least one topic, and every topic of
        its row can be scored. */
    lemma RowScorable(w: int)
      requires Valid() && w in wor2top
      ensures Scorable(wor2top[w], topsum) && wor2top[w] != map[]
    {
      LoadUsable(lines, numTopic);
      assert forall t :: t in wor2top[w] ==> HasEntry(wor2top, w, t);
    }
  }

  // ---------------------------------------------------------------------
  // The predictor

  /** SparseLdaPredictor: the kept words of the document, their topics,
      their number and the per-topic counts. None of them is reset between
      calls. */
  class SparseLdaPredictor {
    const model: LdaModel
    var doc: seq<int>
    var wor2top: seq<int>
    var len: nat
    var doc2top: map<int, int>

    /** The model is loaded, every kept word has a row in it and no counter
        is negative. */
    ghost predicate Valid()
      reads this`doc, this`doc2top, model
    {
      && model.Valid()
      && (forall i :: 0 <= i < |doc| ==> doc[i] in model.wor2top)
      && NonNegative(doc2top)
    }

    /** sparse_lda_predictor.cpp:113. `_len`, left uninitialised by the
        source, starts at 0 here. */
    constructor (model: LdaModel)
      requires model.Valid()
      ensures Valid() && this.model == model
      ensures doc == [] && wor2top == [] && len == 0 && doc2top == map[]
    {
      this.model := model;
      doc, wor2top, len, doc2top := [], [], 0, map[];
    }

    /** What a sweep reads and never changes: the kept words and the
        model's tables. */
    ghost function Inputs(): Sampling
      reads this`doc, model
    {
      Sampling(doc, model.wor2top, model.topsum, model.alpha)
    }

    /** sparse_lda_predictor.cpp:117-184: keeps the words the model knows,
        draws a topic for every position of the whole document, runs
        `maxStep` sampling sweeps and returns every (word, topic) pair of the
        document. The sampler needs non-negative masses, hence alpha >= 0.
        The ghost `runs` holds the trace of every sweep: they lead from the
        drawn topics to the final ones. */
    method Predict(wordVector: seq<int>, maxStep: int, rng: RandomSource)
      returns (topicVector: seq<(int, int)>, ghost runs: seq<seq<seq<int>>>)
      requires Valid() && rng.Valid() && model.alpha >= 0.0
      modifies this`doc, this`wor2top, this`len, this`doc2top, rng`used
      ensures Valid() && rng.Valid()
      ensures doc == old(doc) + Known(model.wor2top, wordVector) && len == |doc| && |wor2top| == len
      ensures Extends(doc2top, old(doc2top), wor2top)
      ensures Sum(AsReal(doc2top)) == Sum(AsReal(old(doc2top))) + len as real
      ensures |runs| == (if maxStep > 0 then maxStep else 0)
      ensures Chained(InitialTopics(rng.draws, old(rng.used), len, model.numTopic), runs, wor2top)
      ensures forall k: nat :: k < |runs| ==> SweepAt(Inputs(), old(doc2top), rng.draws, SweepsStart(old(rng.used), len), runs, k)
      ensures maxStep > 0 ==> forall i :: 0 <= i < len ==> HasEntry(model.wor2top, doc[i], wor2top[i])
      ensures |topicVector| == len
      ensures forall i :: 0 <= i < len ==> topicVector[i] == (doc[i], wor2top[i])
      ensures rng.used == old(rng.used) + len + (if maxStep > 0 then maxStep * len else 0)
    {
      KeepKnown(wordVector);
      len := |doc|;
      InitPredictor(rng);
      assert wor2top == InitialTopics(rng.draws, old(rng.used), len, model.numTopic);
      assert rng.used == SweepsStart(old(rng.used), len);
      ExtendsNonNegative(doc2top, old(doc2top), wor2top);
      runs := RunSweeps(maxStep, old(doc2top), rng);
      DrawsProduct(maxStep, len);
      topicVector := DocumentTopics();
    }

    /** sparse_lda_predictor.cpp:129-180: `maxStep` sweeps, each drawing
        once per position. The ghost `runs` holds the trace of every sweep,
        chained from the assignment on entry to the final one; sweep k
        starts at draw Draws(k, len). */
    method RunSweeps(maxStep: int, ghost base: map<int, int>, rng: RandomSource) returns (ghost runs: seq<seq<seq<int>>>)
      requires Valid() && |wor2top| == len == |doc| && rng.Valid() && model.alpha >= 0.0
      requires Extends(doc2top, base, wor2top) && NonNegative(base)
      modifies this`wor2top, this`doc2top, rng`used
      ensures Valid() && |wor2top| == len
      ensures Extends(doc2top, base, wor2top)
      ensures Sum(AsReal(doc2top)) == old(Sum(AsReal(doc2top)))
      ensures |runs| == (if maxStep > 0 then maxStep else 0)
      ensures Chained(old(wor2top), runs, wor2top)
      ensures forall k: nat :: k < |runs| ==> SweepAt(Inputs(), base, rng.draws, old(rng.used), runs, k)
      ensures maxStep > 0 ==> forall i :: 0 <= i < len ==> HasEntry(model.wor2top, doc[i], wor2top[i])
      ensures rng.used == old(rng.used) + Draws(maxStep, len)
    {
      runs := [];
      var step := 0;
      while step < maxStep
        invariant 0 <= step <= (if maxStep > 0 then maxStep else 0)
        invariant |wor2top| == len && Valid()
        invariant Extends(doc2top, base, wor2top)
        invariant Sum(AsReal(doc2top)) == old(Sum(AsReal(doc2top)))
        invariant |runs| == step && Chained(old(wor2top), runs, wor2top)
        invariant forall k: nat :: k < |runs| ==> SweepAt(Inputs(), base, rng.draws, old(rng.used), runs, k)
        invariant step > 0 ==> forall i :: 0 <= i < len ==> HasEntry(model.wor2top, doc[i], wor2top[i])
        invariant rng.Valid() && rng.used == old(rng.used) + Draws(step, len)
      {
        ghost var start := rng.used;
        ghost var trace := Sweep(base, rng);
        ChainedSnoc(old(wor2top), runs, trace[0], trace);
        SweepsSnoc(Inputs(), base, rng.draws, old(rng.used), runs, start, trace);
        runs := runs + [trace];
        step := step + 1;
      }
    }

    /** sparse_lda_predictor.cpp:182-183: every word of the document paired
        with its topic. */
    method DocumentTopics() returns (topicVector: seq<(int, int)>)
      requires |wor2top| == |doc|
      ensures |topicVector| == |doc|
      ensures forall i :: 0 <= i < |doc| ==> topicVector[i] == (doc[i], wor2top[i])
    {
      var words, topics := doc, wor2top;
      topicVector := seq(|words|, k requires 0 <= k < |words| => (words[k], if k < |topics| then topics[k] else 0));
    }

    /** sparse_lda_predictor.cpp:119-123: the words of the model, appended
        to the document in input order. */
    method KeepKnown(wordVector: seq<int>)
      requires Valid()
      modifies this`doc
      ensures Valid()
      ensures doc == old(doc) + Known(model.wor2top, wordVector)
    {
      var i := 0;
      while i < |wordVector|
        invariant 0 <= i <= |wordVector| && Valid()
        invariant doc == old(doc) + Known(model.wor2top, wordVector[..i])
      {
        KnownSnoc(model.wor2top, wordVector, i);
        if wordVector[i] in model.wor2top {
          doc := doc + [wordVector[i]];
        }
        i := i + 1;
      }
      assert wordVector[..i] == wordVector;
    }

    /** sparse_lda_predictor.cpp:132-178: one sampling sweep over the
        positions, one draw per position, each position sampled in turn. */
    method Sweep(ghost base: map<int, int>, rng: RandomSource) returns (ghost trace: seq<seq<int>>)
      requires Valid() && |wor2top| == len == |doc| && rng.Valid() && model.alpha >= 0.0
      requires Extends(doc2top, base, wor2top) && NonNegative(base)
      modifies this`wor2top, this`doc2top, rng`used
      ensures Valid() && |wor2top| == len
      ensures SampledSweep(Inputs(), base, rng.draws, old(rng.used), trace) && trace[0] == old(wor2top) && Last(trace) == wor2top
      ensures Extends(doc2top, base, wor2top)
      ensures Sum(AsReal(doc2top)) == old(Sum(AsReal(doc2top)))
      ensures forall i :: 0 <= i < len ==> HasEntry(model.wor2top, doc[i], wor2top[i])
      ensures rng.used == old(rng.used) + len
    {
      trace := [wor2top];
      var i := 0;
      while i < len
        invariant 0 <= i <= len && |wor2top| == len && Valid()
        invariant |trace| == i + 1 && trace[0] == old(wor2top) && trace[i] == wor2top
        invariant forall k: nat :: k < i ==> SampledAt(Inputs(), base, rng.draws, old(rng.used), trace, k)
        invariant Extends(doc2top, base, wor2top)
        invariant Sum(AsReal(doc2top)) == old(Sum(AsReal(doc2top)))
        invariant forall k :: 0 <= k < i ==> HasEntry(model.wor2top, doc[k], wor2top[k])
        invariant rng.used == old(rng.used) + i
      {
        trace := Advance(i, base, rng, old(rng.used), trace);
        i := i + 1;
      }
    }

    /** Position `i` of a sweep whose draws start at index `from`: the
        trace of the first i positions grows by the new assignment. */
    method Advance(i: nat, ghost base: map<int, int>, rng: RandomSource, ghost from: nat, ghost trace: seq<seq<int>>)
      returns (ghost next: seq<seq<int>>)
      requires Valid() && i < |wor2top| == len == |doc| && rng.Valid() && model.alpha >= 0.0
      requires Extends(doc2top, base, wor2top) && NonNegative(base)
      requires |trace| == i + 1 && trace[i] == wor2top && rng.used == from + i
      requires forall k: nat :: k < i ==> SampledAt(Inputs(), base, rng.draws, from, trace, k)
      modifies this`wor2top, this`doc2top, rng`used
      ensures Valid() && |wor2top| == |old(wor2top)| && wor2top == old(wor2top)[i := wor2top[i]]
      ensures next == trace + [wor2top]
      ensures forall k: nat :: k < i + 1 ==> SampledAt(Inputs(), base, rng.draws, from, next, k)
      ensures HasEntry(model.wor2top, doc[i], wor2top[i])
      ensures Extends(doc2top, base, wor2top)
      ensures Sum(AsReal(doc2top)) == old(Sum(AsReal(doc2top)))
      ensures rng.used == old(rng.used) + 1
    {
      ghost var inputs, before, u := Inputs(), wor2top, rng.draws(rng.used);
      assert u == rng.draws(from + i);
      ghost var order := UpdatePosition(i, base, rng);
      SampledSnoc(inputs, base, rng.draws, from, trace, i, before, u, wor2top);
      next := trace + [wor2top];
    }

    /** sparse_lda_predictor.cpp:134-176, position `i`: the posterior over
        the word's topics, one draw from it in the map's order, and, when
        the draw differs from the old topic, the move of the position. */
    method UpdatePosition(i: nat, ghost base: map<int, int>, rng: RandomSource) returns (ghost order: seq<int>)
      requires Valid() && i < |wor2top| == len == |doc| && rng.Valid() && model.alpha >= 0.0
      requires Extends(doc2top, base, wor2top) && NonNegative(base)
      modifies this`wor2top, this`doc2top, rng`used
      ensures Valid()
      ensures |wor2top| == |old(wor2top)| && wor2top == old(wor2top)[i := wor2top[i]]
      ensures Scorable(model.wor2top[doc[i]], model.topsum)
      ensures SampledFrom(Posterior(model.wor2top[doc[i]], model.topsum, old(doc2top), old(wor2top)[i], model.alpha),
                          order, rng.draws(old(rng.used)), wor2top[i])
      ensures SampledStep(Inputs(), base, old(wor2top), i, rng.draws(old(rng.used)), wor2top)
      ensures HasEntry(model.wor2top, doc[i], wor2top[i])
      ensures Extends(doc2top, base, wor2top)
      ensures Sum(AsReal(doc2top)) == old(Sum(AsReal(doc2top)))
      ensures rng.used == old(rng.used) + 1
    {
      ghost var h, before, u := doc2top, wor2top, rng.draws(rng.used);
      var prob := ScorePosition(i, base);
      order := Resample(i, prob, base, rng);
      SampledStepOf(base, h, before, i, model.wor2top[doc[i]], prob, order, u, wor2top);
      ExtendsNonNegative(doc2top, base, wor2top);
    }

    /** A position that takes the draw `u` from the posterior of counters
        that extend `base` by `before` makes a SampledStep. */
    lemma SampledStepOf(base: map<int, int>, h: map<int, int>, before: seq<int>, i: nat, row: map<int, real>,
                        prob: map<int, real>, order: seq<int>, u: real, after: seq<int>)
      requires i < |before| == |after| && i < |doc| && doc[i] in model.wor2top && row == model.wor2top[doc[i]]
      requires Scorable(row, model.topsum) && Extends(h, base, before)
      requires prob == Posterior(row, model.topsum, h, before[i], model.alpha)
      requires SampledFrom(prob, order, u, after[i]) && after == before[i := after[i]]
      ensures SampledStep(Inputs(), base, before, i, u, after)
    {
      ExtendsCounted(h, base, before);
      PosteriorSameCounters(row, model.topsum, h, Counted(base, before), before[i], model.alpha);
    }

    /** sparse_lda_predictor.cpp:134-159: the posterior of position `i`,
        a non-empty map of non-negative masses over the word's topics. */
    method ScorePosition(i: nat, ghost base: map<int, int>) returns (prob: map<int, real>)
      requires Valid() && i < |wor2top| == |doc| && model.alpha >= 0.0
      requires Extends(doc2top, base, wor2top) && NonNegative(base)
      modifies this`doc2top
      ensures Scorable(model.wor2top[doc[i]], model.topsum)
      ensures prob == Posterior(model.wor2top[doc[i]], model.topsum, old(doc2top), wor2top[i], model.alpha)
      ensures prob.Keys == model.wor2top[doc[i]].Keys && prob != map[]
      ensures forall t :: t in prob ==> prob[t] >= 0.0
      ensures Extends(doc2top, base, wor2top)
      ensures Sum(AsReal(doc2top)) == old(Sum(AsReal(doc2top)))
    {
      var word := doc[i];
      var row := model.wor2top[word];
      model.RowScorable(word);
      ExtendsNonNegative(doc2top, base, wor2top);
      PosteriorMasses(row, model.topsum, doc2top, wor2top[i], model.alpha);
      ghost var before := doc2top;
      prob := ScoreTopics(row, model.topsum, wor2top[i], model.alpha);
      ExtendsSameCounters(before, doc2top, base, wor2top);
    }

    /** sparse_lda_predictor.cpp:160-176: one draw from `prob`; when it
        differs from the position's topic the position moves to it. */
    method Resample(i: nat, prob: map<int, real>, ghost base: map<int, int>, rng: RandomSource) returns (ghost order: seq<int>)
      requires i < |wor2top| && rng.Valid() && prob != map[]
      requires forall t :: t in prob ==> prob[t] >= 0.0
      requires Extends(doc2top, base, wor2top) && NonNegative(base)
      modifies this`wor2top, this`doc2top, rng`used
      ensures |wor2top| == |old(wor2top)| && wor2top == old(wor2top)[i := wor2top[i]]
      ensures SampledFrom(prob, order, rng.draws(old(rng.used)), wor2top[i]) && wor2top[i] in prob
      ensures doc2top.Keys == old(doc2top).Keys + {wor2top[i]}
      ensures Extends(doc2top, base, wor2top)
      ensures Sum(AsReal(doc2top)) == old(Sum(AsReal(doc2top)))
      ensures rng.used == old(rng.used) + 1
    {
      var oldTopic := wor2top[i];
      var sample;
      sample, order := RandomSparseMultinomial(prob, rng);
      AssignedCounted(doc2top, base, wor2top, i);
      if oldTopic != sample {
        MoveTopic(i, sample, base);
      }
    }

    /** sparse_lda_predictor.cpp:139-159: the posterior of a position whose
        word has the row `row` and whose topic is `oldTopic`. Reading
        `_doc2top[t]` through operator[] inserts a zero counter for every
        topic of the word the document does not count yet. */
    method ScoreTopics(row: map<int, real>, topsum: seq<real>, oldTopic: int, alpha: real) returns (prob: map<int, real>)
      requires Scorable(row, topsum)
      modifies this`doc2top
      ensures prob == Posterior(row, topsum, old(doc2top), oldTopic, alpha)
      ensures doc2top.Keys == old(doc2top).Keys + row.Keys
      ensures SameCounters(doc2top, old(doc2top))
      ensures Sum(AsReal(doc2top)) == old(Sum(AsReal(doc2top)))
    {
      prob := map[];
      var rest := row.Keys;
      ghost var done: set<int> := {};
      while rest != {}
        invariant rest + done == row.Keys && rest * done == {}
        invariant prob.Keys == done
        invariant forall t :: t in done ==> prob[t] == Phi(row[t], topsum[t], SparseTheta(old(doc2top), t, oldTopic), alpha)
        invariant doc2top.Keys == old(doc2top).Keys + done
        invariant SameCounters(doc2top, old(doc2top))
        invariant Sum(AsReal(doc2top)) == old(Sum(AsReal(doc2top)))
        decreases rest
      {
        var t := Choose(rest);
        var adjust := if oldTopic == t && t in doc2top && doc2top[t] > 0 then 1 else 0;
        TouchKeepsCounters(doc2top, old(doc2top), t);
        doc2top := AddCount(doc2top, t, 0);
        var theta := doc2top[t] - adjust;
        prob := prob[t := Phi(row[t], topsum[t], theta, alpha)];
        rest := rest - {t};
        done := done + {t};
      }
      MapsEqual(prob, Posterior(row, topsum, old(doc2top), oldTopic, alpha));
    }

    /** sparse_lda_predictor.cpp:163-176: position `i` moves to `topic`. */
    method MoveTopic(i: nat, topic: int, ghost base: map<int, int>)
      requires i < |wor2top| && Extends(doc2top, base, wor2top)
      modifies this`wor2top, this`doc2top
      ensures wor2top == old(wor2top)[i := topic]
      ensures doc2top == AddCount(AddCount(old(doc2top), old(wor2top)[i], -1), topic, 1)
      ensures Extends(doc2top, base, wor2top)
      ensures Sum(AsReal(doc2top)) == old(Sum(AsReal(doc2top)))
    {
      var oldTopic := wor2top[i];
      ExtendsMove(doc2top, base, wor2top, i, topic);
      CounterSum(doc2top, oldTopic, -1);
      CounterSum(AddCount(doc2top, oldTopic, -1), topic, 1);
      wor2top := wor2top[i := topic];
      doc2top := AddCount(doc2top, oldTopic, -1);
      doc2top := AddCount(doc2top, topic, 1);
    }

    /** sparse_lda_predictor.cpp:188-206: a random topic for every position
        of the document, each counted. The draw rand() == RAND_MAX gives
        num_topic itself. */
    method InitPredictor(rng: RandomSource)
      requires rng.Valid() && len == |doc|
      modifies this`wor2top, this`doc2top, rng`used
      ensures |wor2top| == len
      ensures forall i :: 0 <= i < len ==> wor2top[i] == RandomTopic(rng.draws(old(rng.used) + i), model.numTopic)
      ensures Extends(doc2top, old(doc2top), wor2top)
      ensures Sum(AsReal(doc2top)) == Sum(AsReal(old(doc2top))) + len as real
      ensures rng.used == old(rng.used) + len
    {
      var kept := wor2top;
      wor2top := seq(len, k => if 0 <= k < |kept| then kept[k] else 0);
      var i := 0;
      while i < len
        invariant 0 <= i <= len && |wor2top| == len && rng.Valid()
        invariant forall k :: 0 <= k < i ==> wor2top[k] == RandomTopic(rng.draws(old(rng.used) + k), model.numTopic)
        invariant Extends(doc2top, old(doc2top), wor2top[..i])
        invariant Sum(AsReal(doc2top)) == Sum(AsReal(old(doc2top))) + i as real
        invariant rng.used == old(rng.used) + i
      {
        DrawPosition(i, old(doc2top), rng);
        i := i + 1;
      }
      assert wor2top[..i] == wor2top;
    }

    /** One position of init_predictor: a random topic, counted. */
    method DrawPosition(i: nat, ghost base: map<int, int>, rng: RandomSource)
      requires i < |wor2top| && rng.Valid()
      requires Extends(doc2top, base, wor2top[..i])
      modifies this`wor2top, this`doc2top, rng`used
      ensures wor2top == old(wor2top)[i := RandomTopic(rng.draws(old(rng.used)), model.numTopic)]
      ensures Extends(doc2top, base, wor2top[..i + 1])
      ensures Sum(AsReal(doc2top)) == old(Sum(AsReal(doc2top))) + 1.0
      ensures rng.used == old(rng.used) + 1
    {
      var u := rng.Next();
      var topic := RandomTopic(u, model.numTopic);
      assert wor2top[i := topic][..i + 1] == wor2top[..i] + [topic];
      ExtendsAppend(doc2top, base, wor2top[..i], topic);
      CounterSum(doc2top, topic, 1);
      wor2top := wor2top[i := topic];
      doc2top := AddCount(doc2top, topic, 1);
    }
  }
}
