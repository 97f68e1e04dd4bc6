/** LDAQueryExtend of model.h: a topic -> (term, probability) table read from
    the model file, and the expansion of a query into weighted terms that
    blends the terms of the inferred topics with the query's own tokens. */
module QueryExtend {
  import opened Tables
  import opened TopicModel
  import opened LdaInfer

  /** A term and its probability within one topic. */
  type WordProb = (string, real)

  /** model.h:258: the table starts with this many topic slots. */
  const InitialSlots: nat := 6000

  /** model.h:307: the share of the expansion that comes from topics. */
  const TopicDistWeight: real := 0.5

  /** model.h:316: topics with less accumulated weight are not expanded. */
  const MinTopicWeight: real := 0.0001

  // ---------------------------------------------------------------------
  // Growing the table

  /** model.h:269-272 as written: a topic id that does not fit doubles the
      table once. */
  function DoubledOnce(size: nat, topic: int): (r: nat)
    ensures size <= r
  {
    if size <= topic then size * 2 else size
  }

  /** A topic id of twice the size or more still does not fit after the
      single doubling, so the line writes past the end of the table; the id
      12000 against the initial 6000 slots is the first such input. */
  lemma DoubledOnceOverruns(size: nat, topic: int)
    requires 2 * size <= topic
    ensures DoubledOnce(size, topic) <= topic
    ensures DoubledOnce(InitialSlots, 12000) == 12000
  {
  }

  /** The intended growth: keep doubling until the topic id fits. Where the
      source is defined (topic below twice the size) this is its single
      doubling; otherwise it is the smallest power-of-two multiple that fits. */
  function GrownSize(size: nat, topic: int): (r: nat)
    requires size > 0
    ensures topic < r && size <= r
    ensures r == size || r / 2 <= topic
    ensures topic < 2 * size ==> r == DoubledOnce(size, topic)
    decreases if topic < size then 0 else topic - size + 1
  {
    if topic < size then size else GrownSize(size * 2, topic)
  }

  // ---------------------------------------------------------------------
  // The normalised topic table

  /** model.h:286-287: every entry's probability divided by `total`. */
  function Normalised(entries: seq<WordProb>, total: real): (r: seq<WordProb>)
    requires total != 0.0 || entries == []
    ensures |r| == |entries|
    ensures forall i :: 0 <= i < |r| ==> r[i].0 == entries[i].0 && r[i].1 * total == entries[i].1
  {
    seq(|entries|, i requires 0 <= i < |entries| => (entries[i].0, entries[i].1 / total))
  }

  /** Number of term:count pairs on the lines of `topic`. */
  function PairCount(lines: seq<Line>, topic: int): nat
  {
    if |lines| == 0 then 0
    else
      var n := |lines| - 1;
      PairCount(lines[..n], topic) + (if lines[n].0 == topic then |lines[n].1| else 0)
  }

  /** Every division the constructor makes has a non-zero divisor: a line
      whose counts sum to zero, a line without pairs included, is allowed only
      while its topic's list is still empty after it, since model.h:287
      divides the whole list by the line's total. */
  predicate Divisible(lines: seq<Line>)
  {
    |lines| == 0 ||
    var n := |lines| - 1;
    Divisible(lines[..n]) && (LineTotal(lines[n].1) != 0.0 || PairCount(lines, lines[n].0) == 0)
  }

  /** model.h:263-288: the list of `topic` after reading the lines. Each line
      of the topic appends its pairs and then divides every entry of the
      list, those of earlier lines of the topic included, by its own total. */
  function TopicWords(lines: seq<Line>, topic: int): (r: seq<WordProb>)
    requires Divisible(lines)
    ensures |r| == PairCount(lines, topic)
  {
    if |lines| == 0 then []
    else
      var n := |lines| - 1;
      var prev := TopicWords(lines[..n], topic);
      if lines[n].0 == topic then Normalised(prev + lines[n].1, LineTotal(lines[n].1)) else prev
  }

  lemma {:induction false} DivisiblePrefix(lines: seq<Line>, k: nat)
    requires Divisible(lines) && k <= |lines|
    ensures Divisible(lines[..k])
    decreases |lines|
  {
    if k < |lines| {
      var n := |lines| - 1;
      assert lines[..n][..k] == lines[..k];
      DivisiblePrefix(lines[..n], k);
    } else {
      assert lines[..k] == lines;
    }
  }

  /** Reading one more line changes only the list of its topic. */
  lemma TopicWordsSnoc(lines: seq<Line>, n: nat, t: int)
    requires n < |lines| && Divisible(lines[..n + 1])
    ensures Divisible(lines[..n])
    ensures LineTotal(lines[n].1) != 0.0 || PairCount(lines[..n], lines[n].0) + |lines[n].1| == 0
    ensures TopicWords(lines[..n + 1], t) ==
      if lines[n].0 == t then Normalised(TopicWords(lines[..n], t) + lines[n].1, LineTotal(lines[n].1))
      else TopicWords(lines[..n], t)
  {
    assert lines[..n + 1][..n] == lines[..n];
  }

  /** A topic that heads no line has an empty list. */
  lemma {:induction false} TopicWordsAbsent(lines: seq<Line>, topic: int)
    requires Divisible(lines)
    requires forall k :: 0 <= k < |lines| ==> lines[k].0 != topic
    ensures TopicWords(lines, topic) == []
    decreases |lines|
  {
    if |lines| > 0 {
      TopicWordsAbsent(lines[..|lines| - 1], topic);
    }
  }

  /** Dividing entries by a total divides their sum by it. */
  lemma {:induction false} NormalisedTotal(entries: seq<WordProb>, total: real)
    requires total != 0.0
    ensures LineTotal(Normalised(entries, total)) == LineTotal(entries) / total
    decreases |entries|
  {
    if |entries| > 0 {
      var n := |entries| - 1;
      assert Normalised(entries, total)[..n] == Normalised(entries[..n], total);
      NormalisedTotal(entries[..n], total);
      DivideSum(LineTotal(entries[..n]), entries[n].1, total);
    }
  }

  /** A topic on exactly one line keeps that line's terms, in order, each
      divided by the line's total. */
  lemma {:induction false} UniqueTopicWords(lines: seq<Line>, k: nat)
    requires Divisible(lines) && k < |lines|
    requires forall j :: 0 <= j < |lines| && j != k ==> lines[j].0 != lines[k].0
    ensures LineTotal(lines[k].1) != 0.0 || lines[k].1 == []
    ensures TopicWords(lines, lines[k].0) == Normalised(lines[k].1, LineTotal(lines[k].1))
    decreases |lines|
  {
    var n := |lines| - 1;
    assert lines[..n + 1] == lines;
    TopicWordsSnoc(lines, n, lines[k].0);
    if n == k {
      TopicWordsAbsent(lines[..n], lines[k].0);
      assert [] + lines[k].1 == lines[k].1;
    } else {
      UniqueTopicWords(lines[..n], k);
    }
  }

  /** model.h:275-287: the weights of a topic on exactly one line, whose
      counts do not sum to zero, sum to one. */
  lemma UniqueTopicSumsToOne(lines: seq<Line>, k: nat)
    requires Divisible(lines) && k < |lines|
    requires forall j :: 0 <= j < |lines| && j != k ==> lines[j].0 != lines[k].0
    requires LineTotal(lines[k].1) != 0.0
    ensures LineTotal(TopicWords(lines, lines[k].0)) == 1.0
  {
    var total := LineTotal(lines[k].1);
    UniqueTopicWords(lines, k);
    NormalisedTotal(lines[k].1, total);
    DivideSelf(total);
  }

  lemma DivideSelf(x: real)
    requires x != 0.0
    ensures x / x == 1.0
  {
  }

  /** A topic on two lines: the second line divides the first line's entry a
      second time, and the weights sum to 1.5, not 1. */
  lemma RepeatedTopicDividedTwice()
    ensures Divisible([(0, [("a", 2.0)]), (0, [("b", 2.0)])])
    ensures TopicWords([(0, [("a", 2.0)]), (0, [("b", 2.0)])], 0) == [("a", 0.5), ("b", 1.0)]
    ensures LineTotal([("a", 0.5), ("b", 1.0)]) == 1.5
  {
    var lines := [(0, [("a", 2.0)]), (0, [("b", 2.0)])];
    assert lines[..1] == [(0, [("a", 2.0)])];
    assert LineTotal([("a", 2.0)]) == 2.0;
    assert LineTotal([("b", 2.0)]) == 2.0;
    assert TopicWords(lines[..1], 0) == [("a", 1.0)];
    assert [("a", 1.0)] + [("b", 2.0)] == [("a", 1.0), ("b", 2.0)];
  }

  // ---------------------------------------------------------------------
  // Query expansion, as a closed form

  /** Every accumulated topic heavy enough to be expanded has a slot. */
  ghost predicate Expandable(table: seq<seq<WordProb>>, acc: map<int, real>)
  {
    forall t :: t in acc && acc[t] >= MinTopicWeight ==> 0 <= t < |table|
  }

  /** The weight a topic of weight `probTopic` gives `word`: probTopic * p *
      TopicDistWeight for every entry (word, p) of the topic. */
  function TopicMass(entries: seq<WordProb>, word: string, probTopic: real): real
  {
    if |entries| == 0 then 0.0
    else
      var n := |entries| - 1;
      TopicMass(entries[..n], word, probTopic) +
        (if entries[n].0 == word then probTopic * entries[n].1 * TopicDistWeight else 0.0)
  }

  /** `word` is the term of some entry. */
  predicate HasTerm(entries: seq<WordProb>, word: string)
  {
    exists i :: 0 <= i < |entries| && entries[i].0 == word
  }

  /** Each expanded topic among `topics` with what it gives `word`. */
  ghost function Contributions(table: seq<seq<WordProb>>, acc: map<int, real>, topics: set<int>, word: string): map<int, real>
    requires Expandable(table, acc)
  {
    map t | t in topics && t in acc && acc[t] >= MinTopicWeight :: TopicMass(table[t], word, acc[t])
  }

  /** `word` is a term of an expanded topic among `topics`. */
  ghost predicate TopicTerm(table: seq<seq<WordProb>>, acc: map<int, real>, topics: set<int>, word: string)
    requires Expandable(table, acc)
  {
    exists t :: t in topics && t in acc && acc[t] >= MinTopicWeight && HasTerm(table[t], word)
  }

  /** model.h:333, 340: the weight of one query token, 1 / len of the
      non-topic share; a query without tokens adds nothing. */
  function TokenWeight(len: nat): real
  {
    if len == 0 then 0.0 else 1.0 / len as real * (1.0 - TopicDistWeight)
  }

  /** The terms of the expanded query: those already there, the terms of
      every expanded topic, and every known and unknown token. */
  ghost predicate ExpandedTerm(query: map<string, real>, table: seq<seq<WordProb>>, acc: map<int, real>,
                               known: seq<string>, unknown: seq<string>, word: string)
    requires Expandable(table, acc)
  {
    word in query || TopicTerm(table, acc, acc.Keys, word) || word in known || word in unknown
  }

  /** The weight of `word` in the expanded query: its earlier weight, plus
      weight(topic) * p(word | topic) * TopicDistWeight over the expanded
      topics, plus one token weight per occurrence among the query tokens. */
  ghost function ExpandedWeight(query: map<string, real>, table: seq<seq<WordProb>>, acc: map<int, real>,
                                known: seq<string>, unknown: seq<string>, word: string): real
    requires Expandable(table, acc)
  {
    Lookup(query, word) + Sum(Contributions(table, acc, acc.Keys, word))
      + Times(multiset(known)[word] + multiset(unknown)[word], TokenWeight(|known| + |unknown|))
  }

  /** A worked example: a query "cat" whose document is
      entirely topic 0, where topic 0 is cat 0.6 and dog 0.4, expands to
      cat 0.8 and dog 0.2 and nothing else. */
  lemma CatDogExample()
    ensures var table := [[("cat", 0.6), ("dog", 0.4)]];
            var acc := map[0 := 1.0];
            && Expandable(table, acc)
            && ExpandedWeight(map[], table, acc, ["cat"], [], "cat") == 0.8
            && ExpandedWeight(map[], table, acc, ["cat"], [], "dog") == 0.2
            && (forall w :: ExpandedTerm(map[], table, acc, ["cat"], [], w) <==> w == "cat" || w == "dog")
  {
    var table := [[("cat", 0.6), ("dog", 0.4)]];
    var acc := map[0 := 1.0];
    assert acc.Keys == {0};
    SumSingleton(0, TopicMass(table[0], "cat", 1.0));
    SumSingleton(0, TopicMass(table[0], "dog", 1.0));
    assert Contributions(table, acc, acc.Keys, "cat") == map[0 := TopicMass(table[0], "cat", 1.0)];
    assert Contributions(table, acc, acc.Keys, "dog") == map[0 := TopicMass(table[0], "dog", 1.0)];
    assert table[0][..1] == [("cat", 0.6)];
    assert multiset(["cat"])["dog"] == 0;
    forall w ensures ExpandedTerm(map[], table, acc, ["cat"], [], w) <==> w == "cat" || w == "dog" {
      if TopicTerm(table, acc, acc.Keys, w) {
        var t :| t in acc.Keys && t in acc && acc[t] >= MinTopicWeight && HasTerm(table[t], w);
        var i :| 0 <= i < |table[t]| && table[t][i].0 == w;
      }
      if w == "dog" {
        assert table[0][1].0 == w;
      }
    }
  }

  /** A query without known words: no topic is accumulated, so every
      token, known or not, gets the same share of the non-topic weight. */
  lemma NoTopicsWeight(query: map<string, real>, table: seq<seq<WordProb>>, known: seq<string>, unknown: seq<string>,
                       tokens: seq<string>, w: string)
    requires multiset(known) + multiset(unknown) == multiset(tokens) && |known| + |unknown| == |tokens|
    ensures ExpandedWeight(query, table, map[], known, unknown, w) ==
      Lookup(query, w) + Times(multiset(tokens)[w], TokenWeight(|tokens|))
  {
    var none: map<int, real> := map[];
    assert Contributions(table, none, none.Keys, w) == map[];
  }

  lemma SumSingleton<K>(k: K, v: real)
    ensures Sum(map[k := v]) == v
  {
    SumRemove(map[k := v], k);
    assert map[k := v] - {k} == map[];
  }

  lemma HasTermSnoc(entries: seq<WordProb>, i: nat, word: string)
    requires i < |entries|
    ensures HasTerm(entries[..i + 1], word) <==> HasTerm(entries[..i], word) || entries[i].0 == word
  {
    if HasTerm(entries[..i + 1], word) && entries[i].0 != word {
      var j :| 0 <= j < i + 1 && entries[..i + 1][j].0 == word;
      assert entries[..i][j].0 == word;
    }
    if HasTerm(entries[..i], word) {
      var j :| 0 <= j < i && entries[..i][j].0 == word;
      assert entries[..i + 1][j].0 == word;
    }
    if entries[i].0 == word {
      assert entries[..i + 1][i].0 == word;
    }
  }

  lemma TopicMassSnoc(entries: seq<WordProb>, i: nat, word: string, probTopic: real)
    requires i < |entries|
    ensures TopicMass(entries[..i + 1], word, probTopic) ==
      TopicMass(entries[..i], word, probTopic) + (if entries[i].0 == word then probTopic * entries[i].1 * TopicDistWeight else 0.0)
  {
    assert entries[..i + 1][..i] == entries[..i];
  }

  /** Taking one more accumulated topic into account adds its share. */
  lemma ContributionsStep(table: seq<seq<WordProb>>, acc: map<int, real>, done: set<int>, t: int, word: string)
    requires Expandable(table, acc) && t in acc && t !in done
    ensures Sum(Contributions(table, acc, done + {t}, word)) ==
      Sum(Contributions(table, acc, done, word)) + (if acc[t] >= MinTopicWeight then TopicMass(table[t], word, acc[t]) else 0.0)
  {
    var before := Contributions(table, acc, done, word);
    var after := Contributions(table, acc, done + {t}, word);
    if acc[t] >= MinTopicWeight {
      var mass := TopicMass(table[t], word, acc[t]);
      MapsEqual(after, IncreaseKeyCount(before, t, mass));
      SumIncrease(before, t, mass);
    } else {
      MapsEqual(after, before);
    }
  }

  lemma TopicTermStep(table: seq<seq<WordProb>>, acc: map<int, real>, done: set<int>, t: int, word: string)
    requires Expandable(table, acc) && t in acc
    ensures TopicTerm(table, acc, done + {t}, word) <==>
      TopicTerm(table, acc, done, word) || (acc[t] >= MinTopicWeight && HasTerm(table[t], word))
  {
    if TopicTerm(table, acc, done + {t}, word) && !TopicTerm(table, acc, done, word) {
      var u :| u in done + {t} && u in acc && acc[u] >= MinTopicWeight && HasTerm(table[u], word);
      assert u == t;
    }
  }

  /** `weight` added `n` times, as the loops over the query tokens add it
      once per occurrence. */
  function Times(n: nat, weight: real): real
  {
    if n == 0 then 0.0 else Times(n - 1, weight) + weight
  }

  /** ... which is `n` times `weight`. */
  lemma {:induction false} TimesIsProduct(n: nat, weight: real)
    ensures Times(n, weight) == n as real * weight
  {
    if n > 0 {
      TimesIsProduct(n - 1, weight);
    }
  }

  lemma {:induction false} TimesAdd(a: nat, b: nat, weight: real)
    ensures Times(a, weight) + Times(b, weight) == Times(a + b, weight)
  {
    if b > 0 {
      TimesAdd(a, b - 1, weight);
    }
  }

  lemma Occurrence(tokens: seq<string>, i: nat, word: string, weight: real)
    requires i < |tokens|
    ensures Times(multiset(tokens[..i + 1])[word], weight) ==
      Times(multiset(tokens[..i])[word], weight) + (if tokens[i] == word then weight else 0.0)
  {
    assert tokens[..i + 1] == tokens[..i] + [tokens[i]];
  }

  /** `q` is `query` with `weight` added for every occurrence of a token. */
  ghost predicate TokensAdded(query: map<string, real>, q: map<string, real>, tokens: seq<string>, weight: real)
  {
    && (forall w :: w in q <==> w in query || w in tokens)
    && (forall w :: Lookup(q, w) == Lookup(query, w) + Times(multiset(tokens)[w], weight))
  }

  /** One more token adds one token weight to its term. */
  lemma AddTokenStep(query: map<string, real>, prev: map<string, real>, q: map<string, real>,
                     tokens: seq<string>, i: nat, weight: real)
    requires i < |tokens| && q == IncreaseKeyCount(prev, tokens[i], weight)
    requires TokensAdded(query, prev, tokens[..i], weight)
    ensures TokensAdded(query, q, tokens[..i + 1], weight)
  {
    assert tokens[..i + 1] == tokens[..i] + [tokens[i]];
    forall w ensures Lookup(q, w) == Lookup(query, w) + Times(multiset(tokens[..i + 1])[w], weight) {
      Occurrence(tokens, i, w, weight);
    }
  }

  /** `q` is `query` with the expanded topics among `acc` added. */
  ghost predicate TopicsAdded(query: map<string, real>, q: map<string, real>, table: seq<seq<WordProb>>, acc: map<int, real>)
    requires Expandable(table, acc)
  {
    && (forall w :: w in q <==> w in query || TopicTerm(table, acc, acc.Keys, w))
    && (forall w :: Lookup(q, w) == Lookup(query, w) + Sum(Contributions(table, acc, acc.Keys, w)))
  }

  /** The topics, then the known tokens, then the unknown tokens: together
      they give the closed form of the expansion. */
  lemma ExpansionComposes(query: map<string, real>, byTopics: map<string, real>, byKnown: map<string, real>,
                          extended: map<string, real>, table: seq<seq<WordProb>>, acc: map<int, real>,
                          known: seq<string>, unknown: seq<string>, weight: real)
    requires Expandable(table, acc) && weight == TokenWeight(|known| + |unknown|)
    requires TopicsAdded(query, byTopics, table, acc)
    requires TokensAdded(byTopics, byKnown, known, weight)
    requires TokensAdded(byKnown, extended, unknown, weight)
    ensures forall w :: (w in extended <==> ExpandedTerm(query, table, acc, known, unknown, w))
    ensures forall w :: (Lookup(extended, w) == ExpandedWeight(query, table, acc, known, unknown, w))
  {
    forall w ensures Lookup(extended, w) == ExpandedWeight(query, table, acc, known, unknown, w) {
      ExpandedWeightAt(query, byTopics, byKnown, extended, table, acc, known, unknown, weight, w);
    }
  }

  lemma ExpandedWeightAt(query: map<string, real>, byTopics: map<string, real>, byKnown: map<string, real>,
                         extended: map<string, real>, table: seq<seq<WordProb>>, acc: map<int, real>,
                         known: seq<string>, unknown: seq<string>, weight: real, w: string)
    requires Expandable(table, acc)
    requires Lookup(byTopics, w) == Lookup(query, w) + Sum(Contributions(table, acc, acc.Keys, w))
    requires Lookup(byKnown, w) == Lookup(byTopics, w) + Times(multiset(known)[w], weight)
    requires Lookup(extended, w) == Lookup(byKnown, w) + Times(multiset(unknown)[w], weight)
    ensures Lookup(extended, w) == Lookup(query, w) + Sum(Contributions(table, acc, acc.Keys, w))
      + Times(multiset(known)[w] + multiset(unknown)[w], weight)
  {
    TimesAdd(multiset(known)[w], multiset(unknown)[w], weight);
  }

  // ---------------------------------------------------------------------
  // The loops of build_extended_query

  /** One more entry of a topic adds its term and its share of the mass. */
  lemma AddTermStep(entries: seq<WordProb>, i: nat, probTopic: real, query: map<string, real>,
                    before: map<string, real>, after: map<string, real>)
    requires i < |entries|
    requires forall w :: w in before <==> w in query || HasTerm(entries[..i], w)
    requires forall w :: Lookup(before, w) == Lookup(query, w) + TopicMass(entries[..i], w, probTopic)
    requires after == IncreaseKeyCount(before, entries[i].0, probTopic * entries[i].1 * TopicDistWeight)
    ensures forall w :: w in after <==> w in query || HasTerm(entries[..i + 1], w)
    ensures forall w :: Lookup(after, w) == Lookup(query, w) + TopicMass(entries[..i + 1], w, probTopic)
  {
    forall w ensures (w in after <==> w in query || HasTerm(entries[..i + 1], w))
      && Lookup(after, w) == Lookup(query, w) + TopicMass(entries[..i + 1], w, probTopic)
    {
      HasTermSnoc(entries, i, w);
      TopicMassSnoc(entries, i, w, probTopic);
    }
  }


  /** model.h:317-324: adds probTopic * p * TopicDistWeight to the weight of
      the term of each entry (term, p) of one topic. */
  method AddTopicTerms(entries: seq<WordProb>, probTopic: real, query: map<string, real>) returns (q: map<string, real>)
    ensures forall w :: w in q <==> w in query || HasTerm(entries, w)
    ensures forall w :: Lookup(q, w) == Lookup(query, w) + TopicMass(entries, w, probTopic)
  {
    q := query;
    var i := 0;
    while i < |entries|
      invariant 0 <= i <= |entries|
      invariant forall w :: w in q <==> w in query || HasTerm(entries[..i], w)
      invariant forall w :: Lookup(q, w) == Lookup(query, w) + TopicMass(entries[..i], w, probTopic)
    {
      ghost var before := q;
      q := IncreaseKeyCount(q, entries[i].0, probTopic * entries[i].1 * TopicDistWeight);
      AddTermStep(entries, i, probTopic, query, before, q);
      i := i + 1;
    }
    assert entries[..i] == entries;
  }

  /** model.h:310-325: every accumulated topic, in any order; a topic under
      MinTopicWeight is skipped, the others add their terms. */
  method AddTopics(table: seq<seq<WordProb>>, acc: map<int, real>, query: map<string, real>) returns (q: map<string, real>)
    requires Expandable(table, acc)
    ensures TopicsAdded(query, q, table, acc)
  {
    q := query;
    var rest := acc.Keys;
    ghost var done: set<int> := {};
    forall w ensures Contributions(table, acc, done, w) == map[] {
    }
    while rest != {}
      invariant rest + done == acc.Keys && rest !! done
      invariant forall w :: w in q <==> w in query || TopicTerm(table, acc, done, w)
      invariant forall w :: Lookup(q, w) == Lookup(query, w) + Sum(Contributions(table, acc, done, w))
      decreases rest
    {
      var topicId := Choose(rest);
      var probTopic := acc[topicId];
      ghost var before := q;
      if probTopic >= MinTopicWeight {
        q := AddTopicTerms(table[topicId], probTopic, q);
      }
      forall w ensures (w in q <==> w in query || TopicTerm(table, acc, done + {topicId}, w))
        && Lookup(q, w) == Lookup(query, w) + Sum(Contributions(table, acc, done + {topicId}, w))
      {
        TopicTermStep(table, acc, done, topicId, w);
        ContributionsStep(table, acc, done, topicId, w);
      }
      rest := rest - {topicId};
      done := done + {topicId};
    }
  }

  /** model.h:328-341: adds one token weight, 1 / docLen of the non-topic
      share, to the entry of every token, once per occurrence. */
  method AddTokens(tokens: seq<string>, docLen: nat, query: map<string, real>) returns (q: map<string, real>)
    requires |tokens| <= docLen
    ensures TokensAdded(query, q, tokens, TokenWeight(docLen))
  {
    q := query;
    var i := 0;
    while i < |tokens|
      invariant 0 <= i <= |tokens|
      invariant TokensAdded(query, q, tokens[..i], TokenWeight(docLen))
    {
      var word := tokens[i];
      ghost var prev := q;
      q := IncreaseKeyCount(q, word, 1.0 / docLen as real * (1.0 - TopicDistWeight));
      AddTokenStep(query, prev, q, tokens, i, TokenWeight(docLen));
      i := i + 1;
    }
    assert tokens[..i] == tokens;
  }

  /** model.h:286-287: every entry of a topic's list divided by `total`,
      in place. */
  method DivideAll(entries: seq<WordProb>, total: real) returns (r: seq<WordProb>)
    requires total != 0.0 || entries == []
    ensures r == Normalised(entries, total)
  {
    r := entries;
    var i := 0;
    while i < |r|
      invariant |r| == |entries| && 0 <= i <= |r|
      invariant forall k :: 0 <= k < i ==> r[k] == (entries[k].0, entries[k].1 / total)
      invariant forall k :: i <= k < |r| ==> r[k] == entries[k]
    {
      var (word, prob) := r[i];
      r := r[i := (word, prob / total)];
      i := i + 1;
    }
  }

  // ---------------------------------------------------------------------
  // The query extender

  class LdaQueryExtend {
    var topic2word: seq<seq<WordProb>>
    const infer: LdaInfer
    /** The model file, as tokenised lines. */
    ghost const lines: seq<Line>

    /** The inferencer holds the model of the file, and the table holds, for
        every topic id of the file, its normalised list. */
    ghost predicate Valid()
      reads this, infer, infer.model
    {
      && infer.model.State() == Load(lines)
      && Divisible(lines)
      && InitialSlots <= |topic2word|
      && (forall k :: 0 <= k < |lines| ==> 0 <= lines[k].0 < |topic2word|)
      && (forall t :: 0 <= t < |topic2word| ==> topic2word[t] == TopicWords(lines, t))
    }

    /** model.h:257-289: loads the inferencer from the file, then reads the
        file again into the topic table; a topic id that does not fit grows
        the table by doubling until it does. */
    constructor (lines: seq<Line>, alpha: real, beta: real, burninIter: int, maxIter: int)
      requires forall k :: 0 <= k < |lines| ==> lines[k].0 >= 0
      requires Divisible(lines)
      ensures Valid() && this.lines == lines
      ensures fresh(infer) && fresh(infer.model)
      ensures infer.alpha == alpha && infer.beta == beta
      ensures infer.burninIter == burninIter && infer.maxIter == maxIter
    {
      infer := new LdaInfer(lines, alpha, beta, burninIter, maxIter);
      this.lines := lines;
      topic2word := seq(InitialSlots, _ => []);
      new;
      var n := 0;
      while n < |lines|
        invariant 0 <= n <= |lines|
        invariant infer.model.State() == Load(lines)
        invariant Divisible(lines[..n])
        invariant InitialSlots <= |topic2word|
        invariant forall k :: 0 <= k < n ==> lines[k].0 < |topic2word|
        invariant forall t :: 0 <= t < |topic2word| ==> topic2word[t] == TopicWords(lines[..n], t)
      {
        DivisiblePrefix(lines, n + 1);
        ReadLine(lines[n].0, lines[n].1, n);
        n := n + 1;
      }
      assert lines[..n] == lines;
    }

    /** One line of the file, model.h:265-287. */
    method ReadLine(topic: int, pairs: seq<WordProb>, ghost n: nat)
      requires n < |lines| && lines[n] == (topic, pairs) && topic >= 0
      requires Divisible(lines[..n]) && Divisible(lines[..n + 1])
      requires InitialSlots <= |topic2word|
      requires forall k :: 0 <= k < n ==> lines[k].0 < |topic2word|
      requires forall t :: 0 <= t < |topic2word| ==> topic2word[t] == TopicWords(lines[..n], t)
      modifies this`topic2word
      ensures InitialSlots <= |topic2word|
      ensures forall k :: 0 <= k < n + 1 ==> lines[k].0 < |topic2word|
      ensures forall t :: 0 <= t < |topic2word| ==> topic2word[t] == TopicWords(lines[..n + 1], t)
    {
      TopicWordsSnoc(lines, n, topic);
      var size := |topic2word|;
      Fit(topic);
      forall t | size <= t < |topic2word| ensures topic2word[t] == TopicWords(lines[..n], t) {
        TopicWordsAbsent(lines[..n], t);
      }
      ReadTopicLine(topic, pairs);
      forall t | 0 <= t < |topic2word| ensures topic2word[t] == TopicWords(lines[..n + 1], t) {
        TopicWordsSnoc(lines, n, t);
      }
    }

    /** model.h:269-272 with the intended growth: doubles the table until
        `topic` fits; the new slots hold empty lists. */
    method Fit(topic: int)
      requires |topic2word| > 0
      modifies this`topic2word
      ensures |topic2word| == GrownSize(old(|topic2word|), topic)
      ensures forall t :: 0 <= t < old(|topic2word|) ==> topic2word[t] == old(topic2word)[t]
      ensures forall t :: old(|topic2word|) <= t < |topic2word| ==> topic2word[t] == []
    {
      while |topic2word| <= topic
        invariant old(|topic2word|) <= |topic2word|
        invariant GrownSize(|topic2word|, topic) == GrownSize(old(|topic2word|), topic)
        invariant forall t :: 0 <= t < old(|topic2word|) ==> topic2word[t] == old(topic2word)[t]
        invariant forall t :: old(|topic2word|) <= t < |topic2word| ==> topic2word[t] == []
        decreases topic - |topic2word|
      {
        topic2word := topic2word + seq(|topic2word|, _ => []);
      }
    }

    /** model.h:274-287: appends a line's pairs to its topic's list while
        summing their counts, then divides the whole list by that sum. */
    method ReadTopicLine(topic: nat, pairs: seq<WordProb>)
      requires topic < |topic2word|
      requires LineTotal(pairs) != 0.0 || topic2word[topic] + pairs == []
      modifies this`topic2word
      ensures topic2word == old(topic2word)[topic := Normalised(old(topic2word)[topic] + pairs, LineTotal(pairs))]
    {
      var oneTopic := topic2word[topic];
      var totalCount := 0.0;
      var j := 0;
      while j < |pairs|
        invariant 0 <= j <= |pairs|
        invariant totalCount == LineTotal(pairs[..j])
        invariant oneTopic == topic2word[topic] + pairs[..j]
      {
        totalCount := totalCount + pairs[j].1;
        oneTopic := oneTopic + [pairs[j]];
        assert pairs[..j + 1] == pairs[..j] + [pairs[j]];
        assert pairs[..j + 1][..j] == pairs[..j];
        j := j + 1;
      }
      assert pairs[..j] == pairs;
      oneTopic := DivideAll(oneTopic, totalCount);
      topic2word := topic2word[topic := oneTopic];
    }

    /** model.h:305-342: expands `query` (the caller's map, extended in
        place by the source) by the document's accumulated topics and then
        by its known and unknown tokens. */
    method BuildExtendedQuery(doc: Document, query: map<string, real>) returns (extended: map<string, real>)
      requires Expandable(topic2word, doc.accumulateTopicDist)
      ensures forall w :: (w in extended <==>
        ExpandedTerm(query, topic2word, doc.accumulateTopicDist, doc.stringDocument, doc.unknownWord, w))
      ensures forall w :: (Lookup(extended, w) ==
        ExpandedWeight(query, topic2word, doc.accumulateTopicDist, doc.stringDocument, doc.unknownWord, w))
    {
      var byTopics := AddTopics(topic2word, doc.accumulateTopicDist, query);
      var docLen := |doc.stringDocument| + |doc.unknownWord|;
      var byKnown := AddTokens(doc.stringDocument, docLen, byTopics);
      extended := AddTokens(doc.unknownWord, docLen, byKnown);
      ExpansionComposes(query, byTopics, byKnown, extended, topic2word, doc.accumulateTopicDist,
                        doc.stringDocument, doc.unknownWord, TokenWeight(docLen));
    }

    /** model.h:291-303: infers the topic mixture of a fresh document for
        `tokens`, then expands `query` by it. The document is returned too:
        the source reports its accumulated mixture. */
    method ExtendQuery(tokens: seq<string>, query: map<string, real>, rng: RandomSource)
      returns (extended: map<string, real>, doc: Document)
      requires Valid() && infer.Ready() && rng.Valid()
      modifies rng`used
      ensures fresh(doc)
      ensures doc.stringDocument == Known(infer.model.word2id, tokens)
      ensures doc.unknownWord == Unknown(infer.model.word2id, tokens)
      ensures doc.document == IdsOf(infer.model.word2id, Known(infer.model.word2id, tokens))
      ensures |doc.document| == |doc.stringDocument|
      ensures Sum(doc.accumulateTopicDist) ==
        if doc.stringDocument == [] then 0.0 else AccumulatedMass(infer.burninIter, infer.maxIter, infer.maxIter)
      ensures Expandable(topic2word, doc.accumulateTopicDist)
      ensures forall w :: (w in extended <==>
        ExpandedTerm(query, topic2word, doc.accumulateTopicDist, doc.stringDocument, doc.unknownWord, w))
      ensures forall w :: (Lookup(extended, w) ==
        ExpandedWeight(query, topic2word, doc.accumulateTopicDist, doc.stringDocument, doc.unknownWord, w))
      ensures doc.stringDocument == [] ==> doc.accumulateTopicDist == map[]
      ensures doc.stringDocument == [] ==> forall w :: (Lookup(extended, w) ==
        Lookup(query, w) + Times(multiset(tokens)[w], TokenWeight(|tokens|)))
      ensures |doc.document| > 0 ==>
        InferredFresh(infer.model.State(), doc.document, infer.alpha, rng.draws, infer.burninIter, infer.maxIter,
                      infer.numTopic, old(rng.used), doc.topic, doc.topicDist, doc.accumulateTopicDist)
      ensures rng.used == old(rng.used) + |Known(infer.model.word2id, tokens)| +
        if |doc.document| > 0 then Draws(infer.maxIter, |doc.document|) else 0
    {
      doc := new Document();
      ghost var from, t0, h0, a0 := rng.used, doc.topic, doc.topicDist, doc.accumulateTopicDist;
      infer.Infer(tokens, doc, rng);
      if |doc.document| > 0 {
        InferredFreshOf(infer.model.State(), doc.document, infer.alpha, rng.draws, infer.burninIter, infer.maxIter,
                        infer.numTopic, from, |Known(infer.model.word2id, tokens)|, t0, h0, a0,
                        doc.topic, doc.topicDist, doc.accumulateTopicDist);
      }
      ModelTopicsFit(doc.accumulateTopicDist);
      extended := BuildExtendedQuery(doc, query);
      if doc.stringDocument == [] {
        KnownUnknownLength(infer.model.word2id, tokens);
        KnownUnknownSplit(infer.model.word2id, tokens);
        forall w ensures Lookup(extended, w) == Lookup(query, w) + Times(multiset(tokens)[w], TokenWeight(|tokens|)) {
          NoTopicsWeight(query, topic2word, doc.stringDocument, doc.unknownWord, tokens, w);
        }
      }
    }

    /** A mixture over the model's topics only weights topics that have a
        slot in the table. */
    lemma ModelTopicsFit(acc: map<int, real>)
      requires Valid() && Supported(acc, infer.model.topTotal.Keys)
      ensures Expandable(topic2word, acc)
    {
      LoadTopicIds(lines);
      forall t | t in acc && acc[t] >= MinTopicWeight ensures 0 <= t < |topic2word| {
        assert t in TopicIds(lines);
        var k :| 0 <= k < |lines| && lines[k].0 == t;
      }
    }
  }
}
