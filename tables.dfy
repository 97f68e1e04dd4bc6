/** Shared building blocks of the three inferencers: the add-or-insert helper on
    count tables, the sum of a table's values, histograms that tally a topic
    assignment, the cumulative-sum sampler and the process-wide random source. */
module Tables {

  datatype Option<T> = None | Some(value: T)

  /** IncreaseKeyCount: adds `value` to the entry of `key`, inserting it when absent. */
  function IncreaseKeyCount<K>(m: map<K, real>, key: K, value: real): (r: map<K, real>)
    ensures r.Keys == m.Keys + {key}
    ensures r[key] == (if key in m then m[key] else 0.0) + value
    ensures forall k :: k in m && k != key ==> r[k] == m[k]
  {
    if key in m then m[key := m[key] + value] else m[key := value]
  }

  // ---------------------------------------------------------------------
  // Sum of the values of a table

  ghost function Pick<K>(s: set<K>): (k: K)
    requires s != {}
    ensures k in s
  {
    var k :| k in s; k
  }

  /** Some element of a non-empty set, for loops that visit a set in no
      particular order. */
  method Choose<K>(s: set<K>) returns (k: K)
    requires s != {}
    ensures k in s
  {
    k :| k in s;
  }

  /** `order` lists every key of `keys` exactly once. */
  ghost predicate Enumerates<K>(order: seq<K>, keys: set<K>)
  {
    && (forall i :: 0 <= i < |order| ==> order[i] in keys)
    && (forall t :: t in keys ==> t in order)
    && (forall i, j :: 0 <= i < j < |order| ==> order[i] != order[j])
  }

  /** A new key appended to an enumeration. */
  lemma EnumeratesAppend<K>(order: seq<K>, keys: set<K>, t: K)
    requires Enumerates(order, keys) && t !in keys
    ensures Enumerates(order + [t], keys + {t})
  {
  }

  /** Two maps with the same keys and the same value at every key are equal. */
  lemma MapsEqual<K, V>(a: map<K, V>, b: map<K, V>)
    requires forall k :: k in a <==> k in b
    requires forall k :: k in a ==> a[k] == b[k]
    ensures a == b
  {
  }

  /** Sum of all values of `m`, in no particular order. */
  ghost function Sum<K>(m: map<K, real>): real
    decreases |m|
  {
    if m == map[] then 0.0
    else
      var k := Pick(m.Keys);
      assert (m - {k}).Keys < m.Keys;
      m[k] + Sum(m - {k})
  }

  /** Any key can be taken out first: the sum does not depend on the order. */
  lemma {:induction false} SumRemove<K>(m: map<K, real>, k: K)
    requires k in m
    ensures Sum(m) == m[k] + Sum(m - {k})
    decreases |m|
  {
    var j := Pick(m.Keys);
    assert (m - {j}).Keys < m.Keys;
    if j != k {
      assert (m - {k}).Keys < m.Keys;
      SumRemove(m - {j}, k);
      SumRemove(m - {k}, j);
      assert m - {j} - {k} == m - {k} - {j};
    }
  }

  /** IncreaseKeyCount changes the sum of the table by exactly `value`. */
  lemma SumIncrease<K>(m: map<K, real>, key: K, value: real)
    ensures Sum(IncreaseKeyCount(m, key, value)) == Sum(m) + value
  {
    var r := IncreaseKeyCount(m, key, value);
    SumRemove(r, key);
    if key in m {
      SumRemove(m, key);
      assert r - {key} == m - {key};
    } else {
      assert r - {key} == m;
    }
  }

  /** A table whose values are all zero sums to zero. */
  lemma {:induction false} SumZero<K>(m: map<K, real>)
    requires forall k :: k in m ==> m[k] == 0.0
    ensures Sum(m) == 0.0
    decreases |m|
  {
    if m != map[] {
      var k := Pick(m.Keys);
      assert (m - {k}).Keys < m.Keys;
      SumZero(m - {k});
    }
  }

  /** A table whose values are all non-negative has a non-negative sum. */
  lemma {:induction false} SumNonNegative<K>(m: map<K, real>)
    requires forall k :: k in m ==> m[k] >= 0.0
    ensures Sum(m) >= 0.0
    decreases |m|
  {
    if m != map[] {
      var k := Pick(m.Keys);
      assert (m - {k}).Keys < m.Keys;
      SumNonNegative(m - {k});
    }
  }

  // ---------------------------------------------------------------------
  // Histograms of a topic assignment

  /** Number of positions of `s` holding `x`. */
  function Count(s: seq<int>, x: int): (n: nat)
    ensures n <= |s|
  {
    if |s| == 0 then 0 else Count(s[..|s| - 1], x) + (if s[|s| - 1] == x then 1 else 0)
  }

  lemma CountAppend(s: seq<int>, y: int, x: int)
    ensures Count(s + [y], x) == Count(s, x) + (if y == x then 1 else 0)
  {
    assert (s + [y])[..|s|] == s;
  }

  /** Overwriting one position moves one occurrence from the old value to the new one. */
  lemma {:induction false} CountUpdate(s: seq<int>, i: nat, y: int, x: int)
    requires i < |s|
    ensures Count(s[i := y], x) == Count(s, x) - (if s[i] == x then 1 else 0) + (if y == x then 1 else 0)
    decreases |s|
  {
    var n := |s| - 1;
    if i == n {
      assert s[i := y][..n] == s[..n];
    } else {
      assert s[i := y][..n] == s[..n][i := y];
      CountUpdate(s[..n], i, y, x);
    }
  }

  /** A value that occurs at some position is counted at least once. */
  lemma {:induction false} CountPositive(s: seq<int>, i: nat)
    requires i < |s|
    ensures Count(s, s[i]) >= 1
    decreases |s|
  {
    if i < |s| - 1 {
      CountPositive(s[..|s| - 1], i);
    }
  }

  /** A value that occurs nowhere is counted zero times. */
  lemma {:induction false} CountAbsent(s: seq<int>, x: int)
    requires forall i :: 0 <= i < |s| ==> s[i] != x
    ensures Count(s, x) == 0
    decreases |s|
  {
    if |s| > 0 {
      CountAbsent(s[..|s| - 1], x);
    }
  }

  /** `h` tallies `s`: each key holds the number of positions assigned to it
      (possibly zero), and every value in `s` is a key. */
  ghost predicate Tallies(h: map<int, real>, s: seq<int>)
  {
    && (forall t :: t in h ==> h[t] == Count(s, t) as real)
    && (forall i :: 0 <= i < |s| ==> s[i] in h)
  }

  /** A histogram that tallies an assignment sums to its length. */
  lemma {:induction false} TalliesSum(h: map<int, real>, s: seq<int>)
    requires Tallies(h, s)
    ensures Sum(h) == |s| as real
    decreases |s|
  {
    if |s| == 0 {
      forall t | t in h ensures h[t] == 0.0 {
        assert Count(s, t) == 0;
      }
      SumZero(h);
    } else {
      var n := |s| - 1;
      var x := s[n];
      var s' := s[..n];
      assert s == s' + [x];
      var h' := IncreaseKeyCount(h, x, -1.0);
      forall t | t in h' ensures h'[t] == Count(s', t) as real {
        CountAppend(s', x, t);
      }
      SumIncrease(h, x, -1.0);
      TalliesSum(h', s');
    }
  }

  /** Appending a topic and adding one to its entry keeps the histogram exact. */
  lemma TalliesAppend(h: map<int, real>, s: seq<int>, y: int)
    requires Tallies(h, s)
    ensures Tallies(IncreaseKeyCount(h, y, 1.0), s + [y])
  {
    var h' := IncreaseKeyCount(h, y, 1.0);
    var s' := s + [y];
    forall t | t in h' ensures h'[t] == Count(s', t) as real {
      CountAppend(s, y, t);
      if t == y && y !in h {
        CountAbsent(s, y);
      }
    }
    forall i | 0 <= i < |s'| ensures s'[i] in h' {
      if i < |s| {
        assert s'[i] == s[i];
      }
    }
  }

  /** Moving position `i` from its topic to `y` (-1 on the old, +1 on the new)
      keeps the histogram exact. */
  lemma TalliesMove(h: map<int, real>, s: seq<int>, i: nat, y: int)
    requires Tallies(h, s) && i < |s|
    ensures Tallies(IncreaseKeyCount(IncreaseKeyCount(h, s[i], -1.0), y, 1.0), s[i := y])
  {
    var h' := IncreaseKeyCount(IncreaseKeyCount(h, s[i], -1.0), y, 1.0);
    forall t | t in h' ensures h'[t] == Count(s[i := y], t) as real {
      CountUpdate(s, i, y, t);
      if t == y && y !in h {
        CountAbsent(s, y);
      }
    }
  }

  /** The local count of the topic at a position is at least one. */
  lemma TalliesAtLeastOne(h: map<int, real>, s: seq<int>, i: nat)
    requires Tallies(h, s) && i < |s|
    ensures s[i] in h && h[s[i]] >= 1.0
  {
    CountPositive(s, i);
  }

  /** The value of `key`, or zero when the table has no entry for it. */
  function Lookup<K>(m: map<K, real>, key: K): real
  {
    if key in m then m[key] else 0.0
  }

  /** The entries of `m` whose keys lie in `keys`. */
  function Restrict<K>(m: map<K, real>, keys: set<K>): (r: map<K, real>)
    ensures r.Keys == m.Keys * keys
  {
    map k | k in m && k in keys :: m[k]
  }

  /** `a` with every entry of `h`, divided by `d`, added in (IncreaseKeyCount
      once per key of `h`). */
  function AddDivided<K>(a: map<K, real>, h: map<K, real>, d: real): map<K, real>
    requires d != 0.0
  {
    map k | k in a.Keys + h.Keys :: Lookup(a, k) + Lookup(h, k) / d
  }

  /** Adding a histogram divided by `d` adds its sum divided by `d`. */
  lemma {:induction false} SumAddDivided<K>(a: map<K, real>, h: map<K, real>, d: real)
    requires d != 0.0
    ensures Sum(AddDivided(a, h, d)) == Sum(a) + Sum(h) / d
    decreases |h|
  {
    if h == map[] {
      SumAddDividedEmpty(a, h, d);
    } else {
      var k :| k in h;
      assert |h - {k}| < |h|;
      SumAddDivided(a, h - {k}, d);
      SumAddDividedStep(a, h, k, d);
    }
  }

  lemma SumAddDividedStep<K>(a: map<K, real>, h: map<K, real>, k: K, d: real)
    requires d != 0.0 && k in h
    requires Sum(AddDivided(a, h - {k}, d)) == Sum(a) + Sum(h - {k}) / d
    ensures Sum(AddDivided(a, h, d)) == Sum(a) + Sum(h) / d
  {
    var prev := AddDivided(a, h - {k}, d);
    AddDividedStep(a, h, k, d);
    SumIncrease(prev, k, h[k] / d);
    SumRemove(h, k);
    Regroup(Sum(a), Sum(h), Sum(h - {k}), Sum(prev), Sum(AddDivided(a, h, d)), h[k], d);
  }

  lemma Regroup(sumA: real, sumH: real, sumRest: real, sumPrev: real, sumNew: real, x: real, d: real)
    requires d != 0.0
    requires sumPrev == sumA + sumRest / d
    requires sumNew == sumPrev + x / d
    requires sumH == x + sumRest
    ensures sumNew == sumA + sumH / d
  {
    DivideSum(x, sumRest, d);
  }

  /** Taking one more key of `h` into the restriction adds its entry once. */
  lemma AddDividedRestrictStep<K>(a: map<K, real>, h: map<K, real>, done: set<K>, k: K, d: real)
    requires d != 0.0 && k in h && k !in done
    ensures AddDivided(a, Restrict(h, done + {k}), d) ==
      IncreaseKeyCount(AddDivided(a, Restrict(h, done), d), k, h[k] / d)
  {
    var r := IncreaseKeyCount(AddDivided(a, Restrict(h, done), d), k, h[k] / d);
    forall j | j in r ensures j in AddDivided(a, Restrict(h, done + {k}), d) && AddDivided(a, Restrict(h, done + {k}), d)[j] == r[j] {
      if j != k {
        assert Lookup(Restrict(h, done + {k}), j) == Lookup(Restrict(h, done), j);
      }
    }
  }

  lemma SumAddDividedEmpty<K>(a: map<K, real>, h: map<K, real>, d: real)
    requires d != 0.0 && h == map[]
    ensures Sum(AddDivided(a, h, d)) == Sum(a) + Sum(h) / d
  {
    assert AddDivided(a, h, d) == a;
  }

  lemma AddDividedStep<K>(a: map<K, real>, h: map<K, real>, k: K, d: real)
    requires d != 0.0 && k in h
    ensures AddDivided(a, h, d) == IncreaseKeyCount(AddDivided(a, h - {k}, d), k, h[k] / d)
  {
    var r := IncreaseKeyCount(AddDivided(a, h - {k}, d), k, h[k] / d);
    forall j | j in r ensures j in AddDivided(a, h, d) && AddDivided(a, h, d)[j] == r[j] {
      if j != k {
        assert Lookup(h - {k}, j) == Lookup(h, j);
      }
    }
  }

  /** Every key whose value is not zero lies in `keys`. */
  ghost predicate Supported<K>(m: map<K, real>, keys: set<K>)
  {
    forall k :: k in m && m[k] != 0.0 ==> k in keys
  }

  /** Adding a divided histogram puts non-zero weight only where one of the
      two tables had it. */
  lemma AddDividedSupported<K>(a: map<K, real>, h: map<K, real>, d: real, keys: set<K>)
    requires d != 0.0 && Supported(a, keys) && Supported(h, keys)
    ensures Supported(AddDivided(a, h, d), keys)
  {
  }

  /** A histogram of an assignment drawn from `keys` has non-zero entries
      only at `keys`. */
  lemma TalliesSupported(h: map<int, real>, s: seq<int>, keys: set<int>)
    requires Tallies(h, s)
    requires forall i :: 0 <= i < |s| ==> s[i] in keys
    ensures Supported(h, keys)
  {
    forall t | t in h && h[t] != 0.0 ensures t in keys {
      if t !in keys {
        CountAbsent(s, t);
      }
    }
  }

  lemma DivideSum(x: real, y: real, d: real)
    requires d != 0.0
    ensures (x + y) / d == x / d + y / d
  {
  }

  /** The sum of the counts of a model-file line's pairs, accumulated left
      to right (topic_total_count of model.h, _topsum of the predictors). */
  function LineTotal<K>(pairs: seq<(K, real)>): real
  {
    if |pairs| == 0 then 0.0 else LineTotal(pairs[..|pairs| - 1]) + pairs[|pairs| - 1].1
  }

  // ---------------------------------------------------------------------
  // Splitting tokens by a dictionary into known and unknown ones

  /** The tokens the dictionary knows, in input order. */
  function Known<K, V>(dict: map<K, V>, tokens: seq<K>): (r: seq<K>)
    ensures forall i :: 0 <= i < |r| ==> r[i] in dict
    decreases |tokens|
  {
    if |tokens| == 0 then []
    else
      var n := |tokens| - 1;
      Known(dict, tokens[..n]) + (if tokens[n] in dict then [tokens[n]] else [])
  }

  /** The tokens the dictionary does not know, in input order. */
  function Unknown<K, V>(dict: map<K, V>, tokens: seq<K>): (r: seq<K>)
    ensures forall i :: 0 <= i < |r| ==> r[i] !in dict
    decreases |tokens|
  {
    if |tokens| == 0 then []
    else
      var n := |tokens| - 1;
      Unknown(dict, tokens[..n]) + (if tokens[n] in dict then [] else [tokens[n]])
  }

  lemma KnownSnoc<K, V>(dict: map<K, V>, tokens: seq<K>, i: nat)
    requires i < |tokens|
    ensures Known(dict, tokens[..i + 1]) == Known(dict, tokens[..i]) + (if tokens[i] in dict then [tokens[i]] else [])
    ensures Unknown(dict, tokens[..i + 1]) == Unknown(dict, tokens[..i]) + (if tokens[i] in dict then [] else [tokens[i]])
  {
    assert tokens[..i + 1][..i] == tokens[..i];
  }

  /** Every token is either known or unknown: the two counts add up. */
  lemma {:induction false} KnownUnknownLength<K, V>(dict: map<K, V>, tokens: seq<K>)
    ensures |Known(dict, tokens)| + |Unknown(dict, tokens)| == |tokens|
    decreases |tokens|
  {
    if |tokens| > 0 {
      KnownUnknownLength(dict, tokens[..|tokens| - 1]);
    }
  }

  /** ... and together they hold each token exactly as often as the input does. */
  lemma {:induction false} KnownUnknownSplit<K, V>(dict: map<K, V>, tokens: seq<K>)
    ensures multiset(Known(dict, tokens)) + multiset(Unknown(dict, tokens)) == multiset(tokens)
    decreases |tokens|
  {
    if |tokens| > 0 {
      var n := |tokens| - 1;
      KnownUnknownSplit(dict, tokens[..n]);
      MultisetSnoc(tokens);
      var last := tokens[n];
      var k := Known(dict, tokens[..n]);
      var u := Unknown(dict, tokens[..n]);
      assert Known(dict, tokens) == k + (if last in dict then [last] else []);
      assert Unknown(dict, tokens) == u + (if last in dict then [] else [last]);
      RegroupTokens(k, u, multiset(tokens[..n]), last, last in dict);
    }
  }

  lemma RegroupTokens<K>(k: seq<K>, u: seq<K>, prefix: multiset<K>, last: K, known: bool)
    requires multiset(k) + multiset(u) == prefix
    ensures multiset(k + (if known then [last] else [])) + multiset(u + (if known then [] else [last])) ==
      prefix + multiset{last}
  {
    if known {
      assert multiset(k + [last]) == multiset(k) + multiset{last};
      assert u + [] == u;
    } else {
      assert multiset(u + [last]) == multiset(u) + multiset{last};
      assert k + [] == k;
    }
  }

  /** Appending to a concatenation appends to its second part. */
  lemma AppendSnoc<T>(a: seq<T>, b: seq<T>, x: T)
    ensures a + b + [x] == a + (b + [x])
  {
  }

  lemma MultisetSnoc<T>(s: seq<T>)
    requires |s| > 0
    ensures multiset(s) == multiset(s[..|s| - 1]) + multiset{s[|s| - 1]}
  {
    assert s == s[..|s| - 1] + [s[|s| - 1]];
  }

  // ---------------------------------------------------------------------
  // Integer-valued topic counters (the predictors' unordered_map<int, int>)

  /** Adds `delta` to the counter of `key`; an absent counter starts from zero. */
  function AddCount(m: map<int, int>, key: int, delta: int): (r: map<int, int>)
    ensures r.Keys == m.Keys + {key}
    ensures r[key] == (if key in m then m[key] else 0) + delta
    ensures forall k :: k in m && k != key ==> r[k] == m[k]
  {
    m[key := (if key in m then m[key] else 0) + delta]
  }

  /** The counters read as reals, so that the lemmas on real tables apply. */
  function AsReal(m: map<int, int>): (r: map<int, real>)
    ensures r.Keys == m.Keys
    ensures forall t :: t in m ==> r[t] == m[t] as real
  {
    map t | t in m :: m[t] as real
  }

  lemma AsRealAddCount(m: map<int, int>, key: int, delta: int)
    ensures AsReal(AddCount(m, key, delta)) == IncreaseKeyCount(AsReal(m), key, delta as real)
  {
  }

  // ---------------------------------------------------------------------
  // Drawing from a categorical distribution by a cumulative-sum scan

  /** Total mass of the first `k` (topic, mass) pairs. */
  function Cumulative(pairs: seq<(int, real)>, k: nat): real
    requires k <= |pairs|
  {
    if k == 0 then 0.0 else Cumulative(pairs, k - 1) + pairs[k - 1].1
  }

  ghost predicate NonNegativeMasses(pairs: seq<(int, real)>)
  {
    forall i :: 0 <= i < |pairs| ==> pairs[i].1 >= 0.0
  }

  /** With non-negative masses the running sums never decrease. */
  lemma {:induction false} CumulativeMonotone(pairs: seq<(int, real)>, i: nat, j: nat)
    requires NonNegativeMasses(pairs)
    requires i <= j <= |pairs|
    ensures 0.0 <= Cumulative(pairs, i) <= Cumulative(pairs, j)
    decreases j
  {
    if j > 0 {
      CumulativeMonotone(pairs, if i == j then j - 1 else i, j - 1);
    }
  }

  /** Index of the first pair, from `from` on, whose running sum reaches `rdm`;
      `|pairs|` when none does. */
  function FirstReaching(pairs: seq<(int, real)>, rdm: real, from: nat): (i: nat)
    requires from <= |pairs|
    ensures from <= i <= |pairs|
    ensures i < |pairs| ==> Cumulative(pairs, i + 1) >= rdm
    ensures forall k :: from < k <= i ==> Cumulative(pairs, k) < rdm
    decreases |pairs| - from
  {
    if from == |pairs| then from
    else if rdm <= Cumulative(pairs, from + 1) then from
    else FirstReaching(pairs, rdm, from + 1)
  }

  /** The index drawn for a uniform `u` in [0, 1]: the draw is `u` times the total mass. */
  function DrawIndex(pairs: seq<(int, real)>, u: real): nat
  {
    FirstReaching(pairs, Scaled(u, Cumulative(pairs, |pairs|)), 0)
  }

  /** The uniform draw `u` scaled to the total mass. */
  function Scaled(u: real, total: real): real
  {
    u * total
  }

  /** A draw always lands on one of the pairs: the last running sum is the
      total, which every draw in [0, total] reaches. */
  lemma DrawInRange(pairs: seq<(int, real)>, u: real)
    requires |pairs| > 0 && NonNegativeMasses(pairs)
    requires 0.0 <= u <= 1.0
    ensures DrawIndex(pairs, u) < |pairs|
  {
    var total := Cumulative(pairs, |pairs|);
    CumulativeMonotone(pairs, 0, |pairs|);
    ScaledBelow(u, total);
  }

  /** A pair of zero mass is drawn only by a draw that scales to zero: a
      positive scaled draw lands on a pair of positive mass. */
  lemma DrawPositive(pairs: seq<(int, real)>, u: real)
    requires |pairs| > 0 && NonNegativeMasses(pairs)
    requires 0.0 <= u <= 1.0
    requires Scaled(u, Cumulative(pairs, |pairs|)) > 0.0
    ensures DrawIndex(pairs, u) < |pairs|
    ensures pairs[DrawIndex(pairs, u)].1 > 0.0
  {
    DrawInRange(pairs, u);
    var j := DrawIndex(pairs, u);
    var rdm := Scaled(u, Cumulative(pairs, |pairs|));
    assert Cumulative(pairs, j + 1) >= rdm;
    if j > 0 {
      assert Cumulative(pairs, j) < rdm;
    }
  }

  /** Scaling a non-negative total by a fraction in [0, 1] does not exceed it. */
  lemma ScaledBelow(u: real, total: real)
    requires 0.0 <= u <= 1.0 && total >= 0.0
    ensures 0.0 <= Scaled(u, total) <= total
  {
    ProductSign(u, total);
    ProductSign(1.0 - u, total);
    assert (1.0 - u) * total == total - u * total;
  }

  /** Signs of a product of non-negative reals. */
  lemma ProductSign(x: real, y: real)
    requires x >= 0.0 && y >= 0.0
    ensures x * y >= 0.0
    ensures x > 0.0 && y > 0.0 ==> x * y > 0.0
  {
  }

  /** The scaled draw never exceeds the total mass, the last running sum. */
  lemma ScaledDrawReachesTotal(pairs: seq<(int, real)>, u: real, total: real, rdm: real)
    requires NonNegativeMasses(pairs)
    requires 0.0 <= u <= 1.0
    requires total == Cumulative(pairs, |pairs|) && rdm == Scaled(u, total)
    ensures rdm <= total
    ensures DrawIndex(pairs, u) == FirstReaching(pairs, rdm, 0)
  {
    CumulativeMonotone(pairs, 0, |pairs|);
    ScaledBelow(u, total);
  }

  /** The scan's stopping index is the one FirstReaching names. */
  lemma FirstReachingIsFirst(pairs: seq<(int, real)>, rdm: real, j: nat)
    requires j < |pairs| && rdm <= Cumulative(pairs, j + 1)
    requires forall k :: 0 < k <= j ==> Cumulative(pairs, k) < rdm
    ensures FirstReaching(pairs, rdm, 0) == j
  {
    var d := FirstReaching(pairs, rdm, 0);
  }

  /** SampleTopic / random_sparse_multinomial: copies the pairs into a vector,
      turns the masses into running sums in place, scales the uniform draw by
      the total and returns the topic of the first running sum that reaches it. */
  method CumulativeSample(pairs: seq<(int, real)>, u: real) returns (pick: int)
    requires |pairs| > 0 && NonNegativeMasses(pairs)
    requires 0.0 <= u <= 1.0
    ensures DrawIndex(pairs, u) < |pairs|
    ensures pick == pairs[DrawIndex(pairs, u)].0
  {
    var n := |pairs|;
    var cum := RunningSums(pairs);
    var total := cum[n - 1].1;
    var rdm := Scaled(u, total);
    var j := FindFirstReaching(cum, rdm);
    ScaledDrawReachesTotal(pairs, u, total, rdm);
    if j == n {
      assert false;
    }
    forall k | 0 < k <= j ensures Cumulative(pairs, k) < rdm {
      assert cum[k - 1].1 < rdm;
    }
    FirstReachingIsFirst(pairs, rdm, j);
    pick := cum[j].0;
  }

  /** The in-place pass of SampleTopic / random_sparse_multinomial: each
      entry's mass becomes the running sum up to and including it. */
  method RunningSums(pairs: seq<(int, real)>) returns (cum: seq<(int, real)>)
    ensures |cum| == |pairs|
    ensures forall k :: 0 <= k < |cum| ==> cum[k] == (pairs[k].0, Cumulative(pairs, k + 1))
  {
    var n := |pairs|;
    var vec := new (int, real)[n](k requires 0 <= k < n => pairs[k]);
    var i := 1;
    while i < n
      invariant 1 <= i <= n || n == 0
      invariant forall k :: 0 <= k < i && k < n ==> vec[k] == (pairs[k].0, Cumulative(pairs, k + 1))
      invariant forall k :: i <= k < n ==> vec[k] == pairs[k]
    {
      vec[i] := (vec[i].0, vec[i].1 + vec[i - 1].1);
      i := i + 1;
    }
    cum := vec[..];
  }

  /** The find_if scan: the first index whose running sum reaches `rdm`,
      or `|cum|` when none does. */
  method FindFirstReaching(cum: seq<(int, real)>, rdm: real) returns (j: nat)
    ensures j <= |cum|
    ensures forall k :: 0 <= k < j ==> cum[k].1 < rdm
    ensures j < |cum| ==> rdm <= cum[j].1
  {
    j := 0;
    while j < |cum| && !(rdm <= cum[j].1)
      invariant j <= |cum|
      invariant forall k :: 0 <= k < j ==> cum[k].1 < rdm
    {
      j := j + 1;
    }
  }

  // ---------------------------------------------------------------------
  // The process-wide pseudo-random source

  /** rand() / RAND_MAX: an injected stream of draws in [0, 1] and a cursor
      that counts the draws taken so far. */
  class RandomSource {
    const draws: nat -> real
    var used: nat

    ghost predicate Valid()
    {
      forall k: nat :: 0.0 <= draws(k) <= 1.0
    }

    constructor (draws: nat -> real)
      requires forall k: nat :: 0.0 <= draws(k) <= 1.0
      ensures Valid() && this.draws == draws && used == 0
    {
      this.draws := draws;
      used := 0;
    }

    method Next() returns (u: real)
      requires Valid()
      modifies this`used
      ensures used == old(used) + 1 && u == draws(old(used))
      ensures 0.0 <= u <= 1.0
    {
      u := draws(used);
      used := used + 1;
    }
  }

  /** random_topic: static_cast<int>(rand() / RAND_MAX * num_topic). The top
      draw u = 1 (rand() == RAND_MAX) yields num_topic itself. */
  function RandomTopic(u: real, numTopic: nat): (t: int)
    requires 0.0 <= u <= 1.0
    ensures 0 <= t <= numTopic
    ensures t == numTopic <==> (u == 1.0 || numTopic == 0)
  {
    ScaledDraw(u, numTopic as real);
    (u * numTopic as real).Floor
  }

  /** A draw in [0, 1] scales `n` to a value in [0, n], below n unless the
      draw is 1. */
  lemma ScaledDraw(u: real, n: real)
    requires 0.0 <= u <= 1.0 && n >= 0.0
    ensures 0.0 <= u * n <= n
    ensures u == 1.0 ==> u * n == n
    ensures u < 1.0 && n > 0.0 ==> u * n < n
  {
    assert (1.0 - u) * n >= 0.0;
    if u < 1.0 && n > 0.0 {
      assert (1.0 - u) * n > 0.0;
    }
  }

  /** The topics drawn for `n` positions, one RandomTopic per draw,
      starting at draw `from`. */
  function InitialTopics(draws: nat -> real, from: nat, n: nat, numTopic: nat): seq<int>
    requires forall k: nat :: 0.0 <= draws(k) <= 1.0
  {
    seq(n, k requires 0 <= k < n => RandomTopic(draws(from + k), numTopic))
  }

  /** The draws of `steps` sweeps over `len` positions, one per position. */
  function Draws(steps: int, len: nat): nat
    decreases steps
  {
    if steps <= 0 then 0 else Draws(steps - 1, len) + len
  }

  lemma {:induction false} DrawsProduct(steps: int, len: nat)
    ensures Draws(steps, len) == if steps > 0 then steps * len else 0
    decreases steps
  {
    if steps > 0 {
      DrawsProduct(steps - 1, len);
    }
  }
}
