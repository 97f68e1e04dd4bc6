/** The trained topic model of model.h (class Model): the term dictionary,
    the word -> (topic -> count) table and the topic -> total table, filled
    from the model file one line at a time. A line is already tokenised into
    its topic id and its term:count pairs. */
module TopicModel {
  import opened Tables

  /** One line of the model file: a topic id and its term:count pairs. */
  type Line = (int, seq<(string, real)>)

  /** The three tables of Model, plus the order in which each word's topics were
      first inserted (the iteration order this model gives the word's table). */
  datatype ModelState = ModelState(
    word2id: map<string, int>,
    wor2top: map<int, map<int, real>>,
    topicOrder: map<int, seq<int>>,
    topTotal: map<int, real>)

  const EmptyState := ModelState(map[], map[], map[], map[])

  // ---------------------------------------------------------------------
  // Invariants of the loaded tables

  /** Ids are dense: exactly 0 .. |d|-1, each used by one term. */
  ghost predicate DenseIds(d: map<string, int>)
  {
    && (forall w :: w in d ==> 0 <= d[w] < |d|)
    && (forall w1, w2 :: w1 in d && w2 in d && d[w1] == d[w2] ==> w1 == w2)
    && (forall i :: 0 <= i < |d| ==> i in d.Values)
  }

  /** Every known id has a non-empty topic table. */
  ghost predicate KnownHaveRows(s: ModelState)
  {
    forall w :: w in s.word2id ==> s.word2id[w] in s.wor2top && s.wor2top[s.word2id[w]] != map[]
  }

  /** Every topic table belongs to a known id. */
  ghost predicate RowsAreKnown(s: ModelState)
  {
    forall id :: id in s.wor2top ==> 0 <= id < |s.word2id|
  }

  /** Each table's order lists its topics. */
  ghost predicate OrdersEnumerate(s: ModelState)
  {
    && s.topicOrder.Keys == s.wor2top.Keys
    && (forall id :: id in s.wor2top ==> Enumerates(s.topicOrder[id], s.wor2top[id].Keys))
  }

  /** Dictionary and word table agree. */
  ghost predicate RowsWellFormed(s: ModelState)
  {
    DenseIds(s.word2id) && KnownHaveRows(s) && RowsAreKnown(s) && OrdersEnumerate(s)
  }

  /** ... and every topic that a word refers to has a total. */
  ghost predicate WellFormed(s: ModelState)
  {
    && RowsWellFormed(s)
    && (forall id, t :: id in s.wor2top && t in s.wor2top[id] ==> t in s.topTotal)
  }

  /** Counts are non-negative and every topic a word names has a positive
      total, so that count / total is defined and non-negative. */
  ghost predicate UsableCounts(s: ModelState)
  {
    forall id, t :: id in s.wor2top && t in s.wor2top[id] ==>
      s.wor2top[id][t] >= 0.0 && t in s.topTotal && s.topTotal[t] > 0.0
  }

  // ---------------------------------------------------------------------
  // Loading, one pair, one line, one file at a time

  /** model.h:71-81, one term:count pair on a line of `topic`: a term seen for
      the first time gets the current dictionary size as its id, and the
      word's table maps `topic` to `count` (its order gains `topic` when new). */
  function AddPair(s: ModelState, topic: int, word: string, count: real): (r: ModelState)
    ensures word in r.word2id
    ensures r.topTotal == s.topTotal
  {
    var d := if word in s.word2id then s.word2id else s.word2id[word := |s.word2id|];
    var id := d[word];
    var row := if id in s.wor2top then s.wor2top[id] else map[];
    var order := if id in s.topicOrder then s.topicOrder[id] else [];
    ModelState(d, s.wor2top[id := row[topic := count]],
               s.topicOrder[id := if topic in row then order else order + [topic]],
               s.topTotal)
  }

  /** The pairs of one line, left to right. */
  function AddPairs(s: ModelState, topic: int, pairs: seq<(string, real)>): (r: ModelState)
    ensures r.topTotal == s.topTotal
    decreases |pairs|
  {
    if |pairs| == 0 then s
    else AddPair(AddPairs(s, topic, pairs[..|pairs| - 1]), topic, pairs[|pairs| - 1].0, pairs[|pairs| - 1].1)
  }

  /** model.h:59-86, one line: its pairs, then the topic's total is overwritten
      with the line's sum. */
  function AddLine(s: ModelState, line: Line): (r: ModelState)
    ensures line.0 in r.topTotal && r.topTotal[line.0] == LineTotal(line.1)
  {
    var s' := AddPairs(s, line.0, line.1);
    s'.(topTotal := s'.topTotal[line.0 := LineTotal(line.1)])
  }

  /** model.h:49-90, the whole file. */
  function Load(lines: seq<Line>): (s: ModelState)
    ensures |lines| > 0 ==> lines[|lines| - 1].0 in s.topTotal
    decreases |lines|
  {
    if |lines| == 0 then EmptyState
    else AddLine(Load(lines[..|lines| - 1]), lines[|lines| - 1])
  }

  /** The terms of a line. */
  ghost function PairTerms(pairs: seq<(string, real)>): set<string>
  {
    set i | 0 <= i < |pairs| :: pairs[i].0
  }

  /** Every term that occurs on some line. */
  ghost function Terms(lines: seq<Line>): set<string>
  {
    set i, j | 0 <= i < |lines| && 0 <= j < |lines[i].1| :: lines[i].1[j].0
  }

  /** Every topic id that heads some line. */
  ghost function TopicIds(lines: seq<Line>): set<int>
  {
    set i | 0 <= i < |lines| :: lines[i].0
  }

  // ---------------------------------------------------------------------
  // One pair

  /** Adding a pair keeps the tables well formed. */
  lemma AddPairWellFormed(s: ModelState, topic: int, word: string, count: real)
    requires RowsWellFormed(s)
    ensures RowsWellFormed(AddPair(s, topic, word, count))
  {
    NewWordKeepsIdsDense(s.word2id, word);
    AddPairKnownHaveRows(s, topic, word, count);
    var r := AddPair(s, topic, word, count);
    var rows, orders := RowUpdate(s.wor2top, s.topicOrder, r.word2id[word], topic, count);
    assert r.wor2top == rows && r.topicOrder == orders;
  }

  lemma AddPairKnownHaveRows(s: ModelState, topic: int, word: string, count: real)
    requires DenseIds(s.word2id) && KnownHaveRows(s) && RowsAreKnown(s)
    ensures KnownHaveRows(AddPair(s, topic, word, count)) && RowsAreKnown(AddPair(s, topic, word, count))
  {
    var r := AddPair(s, topic, word, count);
    var d := r.word2id;
    forall w | w in d ensures d[w] in r.wor2top && r.wor2top[d[w]] != map[] {
      if w != word {
        assert w in s.word2id;
      }
    }
  }

  /** Writing (id, topic) into the word table, and appending `topic` to the id's
      order when it is new there, keeps every order an enumeration of its table. */
  lemma RowUpdate(wor2top: map<int, map<int, real>>, topicOrder: map<int, seq<int>>, id: int, topic: int, count: real)
    returns (rows: map<int, map<int, real>>, orders: map<int, seq<int>>)
    requires topicOrder.Keys == wor2top.Keys
    requires forall i :: i in wor2top ==> Enumerates(topicOrder[i], wor2top[i].Keys)
    ensures var row := if id in wor2top then wor2top[id] else map[];
      var order := if id in topicOrder then topicOrder[id] else [];
      rows == wor2top[id := row[topic := count]] &&
      orders == topicOrder[id := if topic in row then order else order + [topic]]
    ensures orders.Keys == rows.Keys
    ensures forall i :: i in rows ==> Enumerates(orders[i], rows[i].Keys)
  {
    var row := if id in wor2top then wor2top[id] else map[];
    var order := if id in topicOrder then topicOrder[id] else [];
    rows := wor2top[id := row[topic := count]];
    orders := topicOrder[id := if topic in row then order else order + [topic]];
    if topic !in row {
      EnumeratesAppend(order, row.Keys, topic);
    }
    assert rows[id].Keys == row.Keys + {topic};
  }

  lemma NewWordKeepsIdsDense(d: map<string, int>, word: string)
    requires DenseIds(d)
    ensures DenseIds(if word in d then d else d[word := |d|])
  {
    if word !in d {
      var d' := d[word := |d|];
      forall i | 0 <= i < |d'| ensures i in d'.Values {
        if i < |d| {
          assert i in d.Values;
          var w :| w in d && d[w] == i;
          assert d'[w] == i;
        } else {
          assert d'[word] == i;
        }
      }
    }
  }

  /** One pair never renumbers a term, and a new term gets the dictionary size. */
  lemma AddPairIds(s: ModelState, topic: int, word: string, count: real)
    ensures AddPair(s, topic, word, count).word2id.Keys == s.word2id.Keys + {word}
    ensures forall w :: w in s.word2id ==> AddPair(s, topic, word, count).word2id[w] == s.word2id[w]
    ensures word !in s.word2id ==> AddPair(s, topic, word, count).word2id[word] == |s.word2id|
  {
  }

  /** One pair writes its own entry, leaves every other entry as it was and
      adds no other entry. */
  lemma AddPairEntries(s: ModelState, topic: int, word: string, count: real, id: int)
    requires id == AddPair(s, topic, word, count).word2id[word]
    ensures id in AddPair(s, topic, word, count).wor2top
    ensures topic in AddPair(s, topic, word, count).wor2top[id]
    ensures AddPair(s, topic, word, count).wor2top[id][topic] == count
    ensures forall i, t :: i in s.wor2top && t in s.wor2top[i] && (i != id || t != topic) ==>
      i in AddPair(s, topic, word, count).wor2top && t in AddPair(s, topic, word, count).wor2top[i] &&
      AddPair(s, topic, word, count).wor2top[i][t] == s.wor2top[i][t]
    ensures forall i, t :: i in AddPair(s, topic, word, count).wor2top && t in AddPair(s, topic, word, count).wor2top[i] ==>
      (i == id && t == topic) || (i in s.wor2top && t in s.wor2top[i])
  {
  }

  // ---------------------------------------------------------------------
  // One line

  lemma {:induction false} AddPairsWellFormed(s: ModelState, topic: int, pairs: seq<(string, real)>)
    requires RowsWellFormed(s)
    ensures RowsWellFormed(AddPairs(s, topic, pairs))
    decreases |pairs|
  {
    if |pairs| > 0 {
      var n := |pairs| - 1;
      AddPairsWellFormed(s, topic, pairs[..n]);
      AddPairWellFormed(AddPairs(s, topic, pairs[..n]), topic, pairs[n].0, pairs[n].1);
    }
  }

  lemma PairTermsSnoc(pairs: seq<(string, real)>)
    requires |pairs| > 0
    ensures PairTerms(pairs) == PairTerms(pairs[..|pairs| - 1]) + {pairs[|pairs| - 1].0}
  {
    var n := |pairs| - 1;
    forall w | w in PairTerms(pairs) ensures w in PairTerms(pairs[..n]) + {pairs[n].0} {
      var i :| 0 <= i < |pairs| && pairs[i].0 == w;
      if i < n {
        assert pairs[..n][i] == pairs[i];
      }
    }
    forall w | w in PairTerms(pairs[..n]) ensures w in PairTerms(pairs) {
      var i :| 0 <= i < n && pairs[..n][i].0 == w;
      assert pairs[i] == pairs[..n][i];
    }
  }

  /** One line's pairs grow the dictionary by exactly the line's terms. */
  lemma {:induction false} AddPairsKeys(s: ModelState, topic: int, pairs: seq<(string, real)>)
    ensures AddPairs(s, topic, pairs).word2id.Keys == s.word2id.Keys + PairTerms(pairs)
    decreases |pairs|
  {
    if |pairs| > 0 {
      var n := |pairs| - 1;
      var prev := AddPairs(s, topic, pairs[..n]);
      assert AddPairs(s, topic, pairs) == AddPair(prev, topic, pairs[n].0, pairs[n].1);
      AddPairsKeys(s, topic, pairs[..n]);
      AddPairIds(prev, topic, pairs[n].0, pairs[n].1);
      PairTermsSnoc(pairs);
      GrowBy(AddPairs(s, topic, pairs).word2id.Keys, prev.word2id.Keys, s.word2id.Keys,
             PairTerms(pairs), PairTerms(pairs[..n]), pairs[n].0);
    }
  }

  /** A set that grew by one element on top of base + terms is base plus the grown terms. */
  lemma GrowBy<T>(grown: set<T>, prev: set<T>, base: set<T>, terms: set<T>, prevTerms: set<T>, e: T)
    requires grown == prev + {e} && prev == base + prevTerms && terms == prevTerms + {e}
    ensures grown == base + terms
  {
  }

  /** One line's pairs never renumber a term already in the dictionary. */
  lemma {:induction false} AddPairsIds(s: ModelState, topic: int, pairs: seq<(string, real)>)
    ensures forall w :: w in s.word2id ==>
      w in AddPairs(s, topic, pairs).word2id && AddPairs(s, topic, pairs).word2id[w] == s.word2id[w]
    decreases |pairs|
  {
    if |pairs| > 0 {
      var n := |pairs| - 1;
      var prev := AddPairs(s, topic, pairs[..n]);
      assert AddPairs(s, topic, pairs) == AddPair(prev, topic, pairs[n].0, pairs[n].1);
      AddPairsIds(s, topic, pairs[..n]);
      AddPairIds(prev, topic, pairs[n].0, pairs[n].1);
    }
  }

  /** One line's pairs write only entries of the line's topic. */
  lemma {:induction false} AddPairsOtherTopics(s: ModelState, topic: int, pairs: seq<(string, real)>)
    ensures forall i, t :: i in s.wor2top && t in s.wor2top[i] && t != topic ==>
      i in AddPairs(s, topic, pairs).wor2top && t in AddPairs(s, topic, pairs).wor2top[i] &&
      AddPairs(s, topic, pairs).wor2top[i][t] == s.wor2top[i][t]
    ensures forall i, t :: i in AddPairs(s, topic, pairs).wor2top && t in AddPairs(s, topic, pairs).wor2top[i] && t != topic ==>
      i in s.wor2top && t in s.wor2top[i]
    decreases |pairs|
  {
    if |pairs| > 0 {
      var n := |pairs| - 1;
      var prev := AddPairs(s, topic, pairs[..n]);
      var (word, count) := pairs[n];
      assert AddPairs(s, topic, pairs) == AddPair(prev, topic, word, count);
      AddPairsOtherTopics(s, topic, pairs[..n]);
      AddPairEntries(prev, topic, word, count, AddPair(prev, topic, word, count).word2id[word]);
    }
  }

  lemma AddLineWellFormed(s: ModelState, line: Line)
    requires WellFormed(s)
    ensures WellFormed(AddLine(s, line))
  {
    AddPairsWellFormed(s, line.0, line.1);
    AddPairsOtherTopics(s, line.0, line.1);
    var p := AddPairs(s, line.0, line.1);
    var r := AddLine(s, line);
    assert r.wor2top == p.wor2top && r.topTotal == p.topTotal[line.0 := LineTotal(line.1)];
    forall id, t | id in r.wor2top && t in r.wor2top[id] ensures t in r.topTotal {
      if t != line.0 {
        assert id in s.wor2top && t in s.wor2top[id];
      }
    }
  }

  // ---------------------------------------------------------------------
  // The whole file

  /** The loaded tables are well formed: dense ids, a non-empty topic table for
      every known id and for no other, and a total for every topic a word names. */
  lemma {:induction false} LoadWellFormed(lines: seq<Line>)
    ensures WellFormed(Load(lines))
    decreases |lines|
  {
    if |lines| > 0 {
      LoadWellFormed(lines[..|lines| - 1]);
      AddLineWellFormed(Load(lines[..|lines| - 1]), lines[|lines| - 1]);
    }
  }

  lemma TermsSnoc(lines: seq<Line>)
    requires |lines| > 0
    ensures Terms(lines) == Terms(lines[..|lines| - 1]) + PairTerms(lines[|lines| - 1].1)
  {
    var n := |lines| - 1;
    forall w | w in Terms(lines) ensures w in Terms(lines[..n]) + PairTerms(lines[n].1) {
      var i, j :| 0 <= i < |lines| && 0 <= j < |lines[i].1| && lines[i].1[j].0 == w;
      if i < n {
        assert lines[..n][i] == lines[i];
      }
    }
    forall w | w in Terms(lines[..n]) ensures w in Terms(lines) {
      var i, j :| 0 <= i < n && 0 <= j < |lines[..n][i].1| && lines[..n][i].1[j].0 == w;
      assert lines[i] == lines[..n][i];
    }
  }

  lemma TopicIdsSnoc(lines: seq<Line>)
    requires |lines| > 0
    ensures TopicIds(lines) == TopicIds(lines[..|lines| - 1]) + {lines[|lines| - 1].0}
  {
    var n := |lines| - 1;
    forall t | t in TopicIds(lines) ensures t in TopicIds(lines[..n]) + {lines[n].0} {
      var i :| 0 <= i < |lines| && lines[i].0 == t;
      if i < n {
        assert lines[..n][i] == lines[i];
      }
    }
  }

  /** The dictionary holds exactly the terms of the file. */
  lemma {:induction false} LoadTerms(lines: seq<Line>)
    ensures Load(lines).word2id.Keys == Terms(lines)
    decreases |lines|
  {
    if |lines| > 0 {
      var n := |lines| - 1;
      LoadTerms(lines[..n]);
      AddPairsKeys(Load(lines[..n]), lines[n].0, lines[n].1);
      TermsSnoc(lines);
    }
  }

  /** The totals table holds exactly the file's topic ids. */
  lemma {:induction false} LoadTopicIds(lines: seq<Line>)
    ensures Load(lines).topTotal.Keys == TopicIds(lines)
    decreases |lines|
  {
    if |lines| > 0 {
      LoadTopicIds(lines[..|lines| - 1]);
      TopicIdsSnoc(lines);
    }
  }

  /** First-seen order: loading more lines never renumbers a term. */
  lemma {:induction false} LoadKeepsIds(lines: seq<Line>, k: nat)
    requires k <= |lines|
    ensures forall w :: w in Load(lines[..k]).word2id ==>
      w in Load(lines).word2id && Load(lines).word2id[w] == Load(lines[..k]).word2id[w]
    decreases |lines|
  {
    if k < |lines| {
      var n := |lines| - 1;
      assert lines[..n][..k] == lines[..k];
      LoadKeepsIds(lines[..n], k);
      AddPairsIds(Load(lines[..n]), lines[n].0, lines[n].1);
    } else {
      assert lines[..k] == lines;
    }
  }

  // ---------------------------------------------------------------------
  // What a line leaves behind

  /** No line after line k has the same topic id. */
  ghost predicate LastOfTopic(lines: seq<Line>, k: nat)
    requires k < |lines|
  {
    forall j :: k < j < |lines| ==> lines[j].0 != lines[k].0
  }

  /** The total of a topic is the sum of the counts on the topic's last line. */
  lemma {:induction false} LoadLastTotal(lines: seq<Line>, k: nat)
    requires k < |lines| && LastOfTopic(lines, k)
    ensures lines[k].0 in Load(lines).topTotal
    ensures Load(lines).topTotal[lines[k].0] == LineTotal(lines[k].1)
    decreases |lines|
  {
    var n := |lines| - 1;
    if k < n {
      assert LastOfTopic(lines[..n], k) by {
        forall j | k < j < n ensures lines[..n][j].0 != lines[..n][k].0 {
          assert lines[..n][j] == lines[j];
        }
      }
      LoadLastTotal(lines[..n], k);
      assert lines[..n][k] == lines[k];
    }
  }

  /** The term at position j of a line, when no later pair of the line names it,
      holds its count under the line's topic once the line is read. */
  lemma {:induction false} AddPairsEntry(s: ModelState, topic: int, pairs: seq<(string, real)>, j: nat)
    requires RowsWellFormed(s)
    requires j < |pairs|
    requires forall k :: j < k < |pairs| ==> pairs[k].0 != pairs[j].0
    ensures pairs[j].0 in AddPairs(s, topic, pairs).word2id
    ensures AddPairs(s, topic, pairs).word2id[pairs[j].0] in AddPairs(s, topic, pairs).wor2top
    ensures topic in AddPairs(s, topic, pairs).wor2top[AddPairs(s, topic, pairs).word2id[pairs[j].0]]
    ensures AddPairs(s, topic, pairs).wor2top[AddPairs(s, topic, pairs).word2id[pairs[j].0]][topic] == pairs[j].1
    decreases |pairs|
  {
    var n := |pairs| - 1;
    var prev := AddPairs(s, topic, pairs[..n]);
    var (word, count) := pairs[n];
    var r := AddPair(prev, topic, word, count);
    assert AddPairs(s, topic, pairs) == r;
    AddPairEntries(prev, topic, word, count, r.word2id[word]);
    if j < n {
      assert pairs[..n][j] == pairs[j];
      AddPairsEntry(s, topic, pairs[..n], j);
      AddPairsWellFormed(s, topic, pairs[..n]);
      AddPairWellFormed(prev, topic, word, count);
      AddPairIds(prev, topic, word, count);
      var w := pairs[j].0;
      assert w != word;
      assert r.word2id[w] != r.word2id[word];
    }
  }

  /** Every term on a topic's last line, at its last position on that line,
      holds that position's count under the topic in the loaded table. */
  lemma {:induction false} LoadEntry(lines: seq<Line>, k: nat, j: nat)
    requires k < |lines| && LastOfTopic(lines, k)
    requires j < |lines[k].1|
    requires forall i :: j < i < |lines[k].1| ==> lines[k].1[i].0 != lines[k].1[j].0
    ensures lines[k].1[j].0 in Load(lines).word2id
    ensures Load(lines).word2id[lines[k].1[j].0] in Load(lines).wor2top
    ensures lines[k].0 in Load(lines).wor2top[Load(lines).word2id[lines[k].1[j].0]]
    ensures Load(lines).wor2top[Load(lines).word2id[lines[k].1[j].0]][lines[k].0] == lines[k].1[j].1
    decreases |lines|
  {
    var n := |lines| - 1;
    var prev := Load(lines[..n]);
    LoadWellFormed(lines[..n]);
    if k == n {
      AddLineEntry(prev, lines[n], j);
    } else {
      assert lines[..n][k] == lines[k];
      assert LastOfTopic(lines[..n], k) by {
        forall i | k < i < n ensures lines[..n][i].0 != lines[..n][k].0 {
          assert lines[..n][i] == lines[i];
        }
      }
      LoadEntry(lines[..n], k, j);
      AddLineKeepsEntry(prev, lines[n], lines[k].1[j].0, lines[k].0);
    }
  }

  /** AddPairsEntry, for a whole line. */
  lemma AddLineEntry(s: ModelState, line: Line, j: nat)
    requires RowsWellFormed(s)
    requires j < |line.1|
    requires forall i :: j < i < |line.1| ==> line.1[i].0 != line.1[j].0
    ensures line.1[j].0 in AddLine(s, line).word2id
    ensures AddLine(s, line).word2id[line.1[j].0] in AddLine(s, line).wor2top
    ensures line.0 in AddLine(s, line).wor2top[AddLine(s, line).word2id[line.1[j].0]]
    ensures AddLine(s, line).wor2top[AddLine(s, line).word2id[line.1[j].0]][line.0] == line.1[j].1
  {
    AddPairsEntry(s, line.0, line.1, j);
  }

  /** A line of another topic leaves an existing entry as it was. */
  lemma AddLineKeepsEntry(s: ModelState, line: Line, w: string, t: int)
    requires w in s.word2id && s.word2id[w] in s.wor2top && t in s.wor2top[s.word2id[w]] && t != line.0
    ensures w in AddLine(s, line).word2id && AddLine(s, line).word2id[w] == s.word2id[w]
    ensures s.word2id[w] in AddLine(s, line).wor2top && t in AddLine(s, line).wor2top[s.word2id[w]]
    ensures AddLine(s, line).wor2top[s.word2id[w]][t] == s.wor2top[s.word2id[w]][t]
  {
    AddPairsIds(s, line.0, line.1);
    AddPairsOtherTopics(s, line.0, line.1);
  }

  /** In well-formed tables exactly the ids 0 .. V-1 have a table, and none is empty. */
  lemma KnownIdsHaveRows(s: ModelState, id: int)
    ensures RowsWellFormed(s) ==> (id in s.wor2top <==> 0 <= id < |s.word2id|)
    ensures RowsWellFormed(s) && id in s.wor2top ==> s.wor2top[id] != map[]
  {
    if RowsWellFormed(s) && 0 <= id < |s.word2id| {
      assert id in s.word2id.Values;
      var w :| w in s.word2id && s.word2id[w] == id;
    }
  }

  // ---------------------------------------------------------------------
  // Totals against the word table

  /** The counts that the word table holds for topic t, by word id. */
  ghost function Column(s: ModelState, t: int): map<int, real>
  {
    map id | id in s.wor2top && t in s.wor2top[id] :: s.wor2top[id][t]
  }

  /** No term occurs twice on the line. */
  ghost predicate DistinctTerms(pairs: seq<(string, real)>)
  {
    forall i, j :: 0 <= i < j < |pairs| ==> pairs[i].0 != pairs[j].0
  }

  /** No topic id heads two lines. */
  ghost predicate DistinctTopics(lines: seq<Line>)
  {
    forall i, j :: 0 <= i < j < |lines| ==> lines[i].0 != lines[j].0
  }

  /** Every term whose id has an entry under `topic` is one of `terms`. */
  ghost predicate ColumnTermsIn(s: ModelState, topic: int, terms: set<string>)
  {
    forall w :: w in s.word2id && s.word2id[w] in Column(s, topic) ==> w in terms
  }

  /** One pair whose term has nothing yet under the topic adds exactly its
      own entry to the topic's column. */
  lemma AddPairColumn(s: ModelState, topic: int, word: string, count: real, terms: set<string>)
    requires RowsWellFormed(s) && ColumnTermsIn(s, topic, terms) && word !in terms
    ensures AddPair(s, topic, word, count).word2id[word] !in Column(s, topic)
    ensures Column(AddPair(s, topic, word, count), topic) ==
      Column(s, topic)[AddPair(s, topic, word, count).word2id[word] := count]
  {
    var r := AddPair(s, topic, word, count);
    var id := r.word2id[word];
    AddPairIds(s, topic, word, count);
    if word in s.word2id {
      assert id == s.word2id[word];
    } else {
      assert id !in s.wor2top;
    }
    assert id !in Column(s, topic);
    AddPairEntries(s, topic, word, count, id);
    var after, before := Column(r, topic), Column(s, topic)[id := count];
    forall i ensures (i in after <==> i in before) && (i in after ==> after[i] == before[i]) {
      if i != id && i in s.wor2top && topic in s.wor2top[i] {
        assert i in r.wor2top && topic in r.wor2top[i];
      }
    }
    MapsEqual(after, before);
  }

  /** The terms a line files under its topic, in tables with nothing yet
      under it, are the line's own. */
  lemma {:induction false} AddPairsColumnTerms(s: ModelState, topic: int, pairs: seq<(string, real)>)
    requires RowsWellFormed(s) && Column(s, topic) == map[]
    ensures ColumnTermsIn(AddPairs(s, topic, pairs), topic, PairTerms(pairs))
    decreases |pairs|
  {
    if |pairs| > 0 {
      var n := |pairs| - 1;
      AddPairsColumnTerms(s, topic, pairs[..n]);
      AddPairsWellFormed(s, topic, pairs[..n]);
      var prev := AddPairs(s, topic, pairs[..n]);
      var (word, count) := pairs[n];
      var r := AddPair(prev, topic, word, count);
      assert AddPairs(s, topic, pairs) == r;
      PairTermsSnoc(pairs);
      AddPairIds(prev, topic, word, count);
      AddPairEntries(prev, topic, word, count, r.word2id[word]);
      forall w | w in r.word2id && r.word2id[w] in Column(r, topic) ensures w in PairTerms(pairs) {
        if w != word {
          assert w in prev.word2id && r.word2id[w] == prev.word2id[w];
        }
      }
    }
  }

  /** A line with distinct terms, read into tables with nothing yet under its
      topic, puts exactly its own counts under the topic: they sum to the
      line's total. */
  lemma {:induction false} AddPairsColumn(s: ModelState, topic: int, pairs: seq<(string, real)>)
    requires RowsWellFormed(s) && Column(s, topic) == map[]
    requires DistinctTerms(pairs)
    ensures Sum(Column(AddPairs(s, topic, pairs), topic)) == LineTotal(pairs)
    decreases |pairs|
  {
    if |pairs| == 0 {
      SumZero(Column(s, topic));
    } else {
      var n := |pairs| - 1;
      assert DistinctTerms(pairs[..n]);
      AddPairsColumn(s, topic, pairs[..n]);
      AddPairsColumnTerms(s, topic, pairs[..n]);
      AddPairsWellFormed(s, topic, pairs[..n]);
      AddPairsColumnStep(s, topic, pairs);
    }
  }

  /** The last pair of a line with distinct terms adds its own count to the
      topic's column. */
  lemma AddPairsColumnStep(s: ModelState, topic: int, pairs: seq<(string, real)>)
    requires |pairs| > 0 && DistinctTerms(pairs)
    requires RowsWellFormed(AddPairs(s, topic, pairs[..|pairs| - 1]))
    requires ColumnTermsIn(AddPairs(s, topic, pairs[..|pairs| - 1]), topic, PairTerms(pairs[..|pairs| - 1]))
    requires Sum(Column(AddPairs(s, topic, pairs[..|pairs| - 1]), topic)) == LineTotal(pairs[..|pairs| - 1])
    ensures Sum(Column(AddPairs(s, topic, pairs), topic)) == LineTotal(pairs)
  {
    var n := |pairs| - 1;
    var prev := AddPairs(s, topic, pairs[..n]);
    var (word, count) := pairs[n];
    var r := AddPair(prev, topic, word, count);
    assert AddPairs(s, topic, pairs) == r;
    assert word !in PairTerms(pairs[..n]) by {
      forall i | 0 <= i < n ensures pairs[..n][i].0 != word {
        assert pairs[..n][i] == pairs[i];
      }
    }
    AddPairColumn(prev, topic, word, count, PairTerms(pairs[..n]));
    var before := Column(prev, topic);
    var id := r.word2id[word];
    assert IncreaseKeyCount(before, id, count) == Column(r, topic);
    SumIncrease(before, id, count);
  }

  /** Lines of other topics leave a topic's column as it was. */
  lemma AddPairsKeepsColumn(s: ModelState, topic: int, pairs: seq<(string, real)>, t: int)
    requires t != topic
    ensures Column(AddPairs(s, topic, pairs), t) == Column(s, t)
  {
    AddPairsOtherTopics(s, topic, pairs);
    var after, before := Column(AddPairs(s, topic, pairs), t), Column(s, t);
    forall i ensures (i in after <==> i in before) && (i in after ==> after[i] == before[i]) {
    }
    MapsEqual(after, before);
  }

  /** Nothing in the loaded table is filed under a topic that heads no line. */
  lemma LoadColumnOutside(lines: seq<Line>, t: int)
    requires t !in TopicIds(lines)
    ensures Column(Load(lines), t) == map[]
  {
    LoadWellFormed(lines);
    LoadTopicIds(lines);
    var s := Load(lines);
    forall id | id in s.wor2top ensures t !in s.wor2top[id] {
      assert t !in s.topTotal;
    }
  }

  /** When no topic heads two lines and no term repeats on a line, a topic's
      total equals the sum of the counts the word table holds for it. */
  lemma {:induction false} LoadColumnSum(lines: seq<Line>, k: nat)
    requires k < |lines| && DistinctTopics(lines) && DistinctTerms(lines[k].1)
    ensures lines[k].0 in Load(lines).topTotal
    ensures Sum(Column(Load(lines), lines[k].0)) == Load(lines).topTotal[lines[k].0]
    decreases |lines|
  {
    var n := |lines| - 1;
    var t := lines[k].0;
    var prev := Load(lines[..n]);
    assert Load(lines).wor2top == AddPairs(prev, lines[n].0, lines[n].1).wor2top;
    assert Column(Load(lines), t) == Column(AddPairs(prev, lines[n].0, lines[n].1), t);
    LoadLastTotal(lines, k);
    if k == n {
      assert t !in TopicIds(lines[..n]) by {
        forall i | 0 <= i < n ensures lines[..n][i].0 != t {
          assert lines[..n][i] == lines[i];
        }
      }
      LoadColumnOutside(lines[..n], t);
      LoadWellFormed(lines[..n]);
      AddPairsColumn(prev, t, lines[n].1);
    } else {
      assert lines[..n][k] == lines[k];
      assert DistinctTopics(lines[..n]);
      LoadColumnSum(lines[..n], k);
      AddPairsKeepsColumn(prev, lines[n].0, lines[n].1, t);
      LoadLastTotal(lines[..n], k);
    }
  }

  // ---------------------------------------------------------------------
  // The model object

  /** model.h:45-133. The tables are filled once, by the constructor, and then
      only read (GetTopicTotalCount can add a zero total for an unknown topic). */
  class Model {
    var word2id: map<string, int>
    var wor2top: map<int, map<int, real>>
    var topicOrder: map<int, seq<int>>
    var topTotal: map<int, real>

    function State(): ModelState
      reads this
    {
      ModelState(word2id, wor2top, topicOrder, topTotal)
    }

    /** model.h:49-90: every line, and on it every term:count pair, in file order. */
    constructor (lines: seq<Line>)
      ensures State() == Load(lines)
    {
      word2id, wor2top, topicOrder, topTotal := map[], map[], map[], map[];
      new;
      var n := 0;
      while n < |lines|
        invariant 0 <= n <= |lines|
        invariant State() == Load(lines[..n])
      {
        var (topic, pairs) := lines[n];
        var total := ReadLine(topic, pairs);
        topTotal := topTotal[topic := total];
        assert lines[..n + 1][..n] == lines[..n];
        n := n + 1;
      }
      assert lines[..n] == lines;
    }

    /** model.h:63-84: the pairs of one line, left to right, and their sum. */
    method ReadLine(topic: int, pairs: seq<(string, real)>) returns (total: real)
      modifies this`word2id, this`wor2top, this`topicOrder
      ensures State() == AddPairs(old(State()), topic, pairs)
      ensures total == LineTotal(pairs)
    {
      total := 0.0;
      var j := 0;
      while j < |pairs|
        invariant 0 <= j <= |pairs|
        invariant State() == AddPairs(old(State()), topic, pairs[..j])
        invariant total == LineTotal(pairs[..j])
      {
        var (word, count) := pairs[j];
        ReadPair(topic, word, count);
        total := total + count;
        assert pairs[..j + 1][..j] == pairs[..j];
        j := j + 1;
      }
      assert pairs[..j] == pairs;
    }

    /** model.h:71-81: one term:count pair of a line of `topic`. */
    method ReadPair(topic: int, word: string, count: real)
      modifies this`word2id, this`wor2top, this`topicOrder
      ensures State() == AddPair(old(State()), topic, word, count)
    {
      if word !in word2id {
        word2id := word2id[word := |word2id|];
      }
      var id := word2id[word];
      var row := if id in wor2top then wor2top[id] else map[];
      var order := if id in topicOrder then topicOrder[id] else [];
      if topic !in row {
        order := order + [topic];
      }
      wor2top := wor2top[id := row[topic := count]];
      topicOrder := topicOrder[id := order];
    }

    /** model.h:92-95: the topic table of a word id, absent (a null table in the
        source) for an id the model does not know. The source reads through
        operator[], which would also insert that null entry into `_wor2top`;
        the insertion is not modelled, since the inferencer asks only for ids
        of the dictionary, all of which have a table. In a loaded model exactly
        the ids 0 .. V-1 have a table, and every table is non-empty. */
    function GetWordTopicCountDist(wordId: int): (r: Option<map<int, real>>)
      reads this
      ensures RowsWellFormed(State()) ==> (r.Some? <==> 0 <= wordId < |word2id|)
      ensures RowsWellFormed(State()) && r.Some? ==> r.value != map[]
    {
      KnownIdsHaveRows(State(), wordId);
      if wordId in wor2top then Some(wor2top[wordId]) else None
    }

    /** model.h:97-100: a topic's total. Looking up an unknown topic inserts a
        zero total for it, so afterwards the model counts one topic more. */
    method GetTopicTotalCount(topic: int) returns (c: real)
      modifies this`topTotal
      ensures topic in old(topTotal) ==> topTotal == old(topTotal) && c == topTotal[topic]
      ensures topic !in old(topTotal) ==> topTotal == old(topTotal)[topic := 0.0] && c == 0.0
    {
      if topic !in topTotal {
        topTotal := topTotal[topic := 0.0];
      }
      c := topTotal[topic];
    }

    /** model.h:102-105: the number of topics with a total. */
    function GetTopicNum(): nat
      reads this
    {
      |topTotal|
    }

    /** model.h:107-115: the dictionary and its size; in a loaded model the ids
        in use are exactly 0 .. size-1. */
    function GetVocalNum(): (n: nat)
      reads this
      ensures DenseIds(word2id) ==> forall i :: 0 <= i < n <==> i in word2id.Values
    {
      |word2id|
    }
  }
}
