/** The binary, depth-bounded learner of KaranDecisionTrees/decisionTree.py.
    A data set is a numpy table of strings whose last column is the label and
    whose header names the columns. Shannon's log2 is a parameter: only the
    branches and sums that surround it are modelled. */
module Binary {
  import opened Outcomes
  import opened Text

  /** One row of the table: the attribute values, then the label. */
  type Row = seq<string>

  /** A numpy array of strings: every row has width w. */
  predicate Rect(data: seq<Row>, w: nat) {
    forall i :: 0 <= i < |data| ==> |data[i]| == w
  }

  /** Every row has a column idx. */
  predicate Wide(data: seq<Row>, idx: nat) {
    forall i :: 0 <= i < |data| ==> idx < |data[i]|
  }

  /** data[:, idx] */
  function Col(data: seq<Row>, idx: nat): (c: seq<string>)
    requires Wide(data, idx)
    ensures |c| == |data|
    ensures forall i :: 0 <= i < |data| ==> c[i] == data[i][idx]
  {
    seq(|data|, i requires 0 <= i < |data| => data[i][idx])
  }

  /** data[:, -1], the labels. */
  function LabelsOf(data: seq<Row>): (c: seq<string>)
    requires forall i :: 0 <= i < |data| ==> |data[i]| > 0
    ensures |c| == |data|
    ensures forall i :: 0 <= i < |data| ==> c[i] == data[i][|data[i]| - 1]
  {
    seq(|data|, i requires 0 <= i < |data| => data[i][|data[i]| - 1])
  }

  ghost predicate AllSame(s: seq<string>) {
    forall i, j :: 0 <= i < |s| && 0 <= j < |s| ==> s[i] == s[j]
  }

  lemma StrictlySortedDistinct(s: seq<string>)
    requires StrictlySorted(s)
    ensures NoDuplicates(s)
  {
    forall i, j | 0 <= i < j < |s| ensures s[i] != s[j] {
      if s[i] == s[j] {
        LessIrreflexive(s[i]);
      }
    }
  }

  /** numpy.unique finds at most one class exactly when all entries agree. */
  lemma {:induction false} SameUnique(s: seq<string>)
    ensures AllSame(s) <==> |Unique(s)| <= 1
  {
    var u := Unique(s);
    if |u| >= 2 {
      UniqueStrict(s);
      StrictlySortedDistinct(u);
      assert u[0] in s && u[1] in s;
      var i :| 0 <= i < |s| && s[i] == u[0];
      var j :| 0 <= j < |s| && s[j] == u[1];
      assert s[i] != s[j];
    } else {
      forall i, j | 0 <= i < |s| && 0 <= j < |s| ensures s[i] == s[j] {
        assert s[i] in u && s[j] in u;
      }
    }
  }

  /** The label shared by every entry of s is counted |s| times. */
  lemma {:induction false} CountAllSame(s: seq<string>, v: string)
    requires AllSame(s)
    requires |s| > 0 && s[0] == v
    ensures CountIn(s, v) == |s|
  {
    if |s| > 1 {
      assert AllSame(s[1..]);
      CountAllSame(s[1..], v);
    }
  }

  // ---------------------------------------------------------------------------
  // splitData (decisionTree.py:70-78)
  // ---------------------------------------------------------------------------

  /** data[data[:, idx] == v]: the rows whose column idx holds v, in order. */
  function Select(data: seq<Row>, idx: nat, v: string): (s: seq<Row>)
    requires Wide(data, idx)
    ensures Wide(s, idx)
    ensures forall i :: 0 <= i < |s| ==> s[i] in data && s[i][idx] == v
  {
    if data == [] then []
    else (if data[0][idx] == v then [data[0]] else []) + Select(data[1..], idx, v)
  }

  lemma {:induction false} SelectCount(data: seq<Row>, idx: nat, v: string)
    requires Wide(data, idx)
    ensures |Select(data, idx, v)| == CountIn(Col(data, idx), v)
  {
    if data != [] {
      assert Col(data, idx)[1..] == Col(data[1..], idx);
      SelectCount(data[1..], idx, v);
    }
  }

  lemma {:induction false} SelectKeeps(data: seq<Row>, idx: nat, v: string)
    requires Wide(data, idx)
    ensures forall i :: 0 <= i < |data| && data[i][idx] == v ==> data[i] in Select(data, idx, v)
  {
    if data != [] {
      SelectKeeps(data[1..], idx, v);
      assert forall i :: 1 <= i < |data| ==> data[i] == data[1..][i - 1];
    }
  }

  lemma SelectRect(data: seq<Row>, idx: nat, v: string, w: nat)
    requires Wide(data, idx) && Rect(data, w)
    ensures Rect(Select(data, idx, v), w)
  {
    var s := Select(data, idx, v);
    forall i | 0 <= i < |s| ensures |s[i]| == w {
      assert s[i] in data;
    }
  }

  /** The subsets for the values vs, one each, in the order of vs. */
  function Parts(data: seq<Row>, idx: nat, vs: seq<string>): (parts: seq<seq<Row>>)
    requires Wide(data, idx)
    ensures |parts| == |vs|
    ensures forall k :: 0 <= k < |vs| ==> parts[k] == Select(data, idx, vs[k])
  {
    if vs == [] then [] else [Select(data, idx, vs[0])] + Parts(data, idx, vs[1..])
  }

  function SplitData(data: seq<Row>, idx: nat): (parts: seq<seq<Row>>)
    requires Wide(data, idx)
  {
    Parts(data, idx, Unique(Col(data, idx)))
  }

  function Total(parts: seq<seq<Row>>): nat {
    if parts == [] then 0 else |parts[0]| + Total(parts[1..])
  }

  lemma {:induction false} PartsTotal(data: seq<Row>, idx: nat, vs: seq<string>)
    requires Wide(data, idx)
    ensures Total(Parts(data, idx, vs)) == SumCounts(Col(data, idx), vs)
  {
    if vs != [] {
      PartsTotal(data, idx, vs[1..]);
      SelectCount(data, idx, vs[0]);
      assert Parts(data, idx, vs)[1..] == Parts(data, idx, vs[1..]);
    }
  }

  lemma TotalOfTwo(parts: seq<seq<Row>>)
    requires |parts| == 2
    ensures Total(parts) == |parts[0]| + |parts[1]|
  {
    assert Total(parts[1..]) == |parts[1]| + Total(parts[1..][1..]);
    assert parts[1..][1..] == [];
  }

  /** A split into exactly two parts: each part is a non-empty, proper
      subset of the rows, of the same width, holding its value in the column. */
  lemma TwoParts(data: seq<Row>, col: nat, w: nat)
    requires Rect(data, w) && col < w
    requires |SplitData(data, col)| == 2
    ensures var parts, vals := SplitData(data, col), Unique(Col(data, col));
      && |vals| == 2
      && 0 < |parts[0]| && 0 < |parts[1]| && |parts[0]| + |parts[1]| == |data|
      && Rect(parts[0], w) && Rect(parts[1], w)
      && (forall i :: 0 <= i < |parts[0]| ==> parts[0][i][col] == vals[0])
      && (forall i :: 0 <= i < |parts[1]| ==> parts[1][i][col] == vals[1])
  {
    var parts, vals := SplitData(data, col), Unique(Col(data, col));
    SplitPartitions(data, col);
    TotalOfTwo(parts);
    SelectRect(data, col, vals[0], w);
    SelectRect(data, col, vals[1], w);
  }

  /** Each value found in the column selects at least one row. */
  lemma PartsNonEmpty(data: seq<Row>, idx: nat)
    requires Wide(data, idx)
    ensures forall k :: 0 <= k < |SplitData(data, idx)| ==> |SplitData(data, idx)[k]| > 0
  {
    var col, vals := Col(data, idx), Unique(Col(data, idx));
    var parts := SplitData(data, idx);
    forall k | 0 <= k < |parts| ensures |parts[k]| > 0 {
      assert vals[k] in col;
      var i :| 0 <= i < |data| && col[i] == vals[k];
      SelectKeeps(data, idx, vals[k]);
      assert data[i] in parts[k];
    }
  }

  /** Every row lands in the subset of its value. */
  lemma PartsCover(data: seq<Row>, idx: nat)
    requires Wide(data, idx)
    ensures forall i :: 0 <= i < |data| ==>
      exists k :: 0 <= k < |SplitData(data, idx)| && data[i] in SplitData(data, idx)[k]
  {
    var col, vals := Col(data, idx), Unique(Col(data, idx));
    var parts := SplitData(data, idx);
    forall i | 0 <= i < |data| ensures exists k :: 0 <= k < |parts| && data[i] in parts[k] {
      assert col[i] in vals;
      var k :| 0 <= k < |vals| && vals[k] == col[i];
      SelectKeeps(data, idx, vals[k]);
      assert data[i] in parts[k];
    }
  }

  /** The subsets' sizes add up to the table's. */
  lemma PartsSize(data: seq<Row>, idx: nat)
    requires Wide(data, idx)
    ensures Total(SplitData(data, idx)) == |data|
  {
    var col, vals := Col(data, idx), Unique(Col(data, idx));
    UniqueStrict(col);
    StrictlySortedDistinct(vals);
    CountsPartition(col, vals);
    PartsTotal(data, idx, vals);
  }

  /** splitData gives one non-empty subset per distinct value of the column,
      in ascending value order; each holds only rows with its value, every
      row lands in one of them, and their sizes add up to the table's. */
  lemma SplitPartitions(data: seq<Row>, idx: nat)
    requires Wide(data, idx)
    ensures var parts, vals := SplitData(data, idx), Unique(Col(data, idx));
      && |parts| == |vals|
      && StrictlySorted(vals)
      && (forall k :: 0 <= k < |parts| ==> |parts[k]| > 0)
      && (forall k, i :: 0 <= k < |parts| && 0 <= i < |parts[k]| ==>
            parts[k][i] in data && parts[k][i][idx] == vals[k])
      && (forall i :: 0 <= i < |data| ==> exists k :: 0 <= k < |parts| && data[i] in parts[k])
      && Total(parts) == |data|
  {
    UniqueStrict(Col(data, idx));
    PartsNonEmpty(data, idx);
    PartsCover(data, idx);
    PartsSize(data, idx);
  }

  // ---------------------------------------------------------------------------
  // entropy and mutualInfo (decisionTree.py:25-67)
  // ---------------------------------------------------------------------------

  /** The sum of p * log2(p) over the classes, p being each class's share of
      the labels; with guard set a share of 0 adds nothing, as mutualInfo
      writes it (line 58), while entropy has no such test (line 36). */
  function PLogPSum(labels: seq<string>, classes: seq<string>, log2: real -> real, guard: bool): real
    requires |labels| > 0 || classes == []
  {
    if classes == [] then 0.0
    else
      var p := CountIn(labels, classes[0]) as real / |labels| as real;
      (if guard && p == 0.0 then 0.0 else p * log2(p)) + PLogPSum(labels, classes[1..], log2, guard)
  }

  /** entropy(labels): 0 when there is at most one class. */
  function Entropy(labels: seq<string>, log2: real -> real): (h: real)
    ensures AllSame(labels) ==> h == 0.0
  {
    var classes := Unique(labels);
    SameUnique(labels);
    if |classes| <= 1 then 0.0
    else -PLogPSum(labels, classes, log2, false)
  }

  /** The specific conditional entropy of one value subset. */
  function SpecCondEnt(subset: seq<Row>, log2: real -> real): real
    requires forall i :: 0 <= i < |subset| ==> |subset[i]| > 0
  {
    var ls := LabelsOf(subset);
    -PLogPSum(ls, Unique(ls), log2, true)
  }

  /** The conditional entropy: each value's share times its specific
      conditional entropy, summed over the values cs. */
  function CondEntropy(data: seq<Row>, position: nat, cs: seq<string>, log2: real -> real): real
    requires Wide(data, position) && |data| > 0
  {
    if cs == [] then 0.0
    else
      var p := CountIn(Col(data, position), cs[0]) as real / |data| as real;
      p * SpecCondEnt(Select(data, position, cs[0]), log2) + CondEntropy(data, position, cs[1..], log2)
  }

  /** mutualInfo(data, position): 0 when the column holds one value at most. */
  function MutualInfo(data: seq<Row>, position: nat, log2: real -> real): (g: real)
    requires Wide(data, position)
    ensures AllSame(Col(data, position)) ==> g == 0.0
  {
    var ent := Entropy(LabelsOf(data), log2);
    var classes := Unique(Col(data, position));
    SameUnique(Col(data, position));
    if |classes| <= 1 then 0.0
    else ent - CondEntropy(data, position, classes, log2)
  }

  lemma SelectSameLabels(data: seq<Row>, position: nat, v: string)
    requires Wide(data, position)
    requires AllSame(LabelsOf(data))
    ensures AllSame(LabelsOf(Select(data, position, v)))
  {
    var s := Select(data, position, v);
    if s != [] {
      var ls := LabelsOf(data);
      forall i | 0 <= i < |s| ensures LabelsOf(s)[i] == ls[0] {
        assert s[i] in data;
        var a :| 0 <= a < |data| && data[a] == s[i];
        assert ls[a] == ls[0];
      }
    }
  }

  lemma RatioOne(k: nat, n: nat)
    requires n > 0 && k == n
    ensures k as real / n as real == 1.0
  {
  }

  /** A class that every label carries contributes 1 * log2(1) = 0. */
  lemma PLogPSumWhole(ls: seq<string>, c: string, log2: real -> real)
    requires |ls| > 0 && CountIn(ls, c) == |ls|
    requires log2(1.0) == 0.0
    ensures PLogPSum(ls, [c], log2, true) == 0.0
  {
    var p := CountIn(ls, c) as real / |ls| as real;
    RatioOne(CountIn(ls, c), |ls|);
    assert [c][1..] == [];
    assert PLogPSum(ls, [c], log2, true) == p * log2(p) + PLogPSum(ls, [], log2, true);
  }

  lemma SpecCondEntPure(subset: seq<Row>, log2: real -> real)
    requires forall i :: 0 <= i < |subset| ==> |subset[i]| > 0
    requires AllSame(LabelsOf(subset))
    requires log2(1.0) == 0.0
    ensures SpecCondEnt(subset, log2) == 0.0
  {
    var ls := LabelsOf(subset);
    SameUnique(ls);
    if |ls| > 0 {
      var u := Unique(ls);
      assert ls[0] in u;
      assert u == [ls[0]];
      CountAllSame(ls, ls[0]);
      PLogPSumWhole(ls, ls[0], log2);
    }
  }

  lemma {:induction false} CondEntropyPure(data: seq<Row>, position: nat, cs: seq<string>, log2: real -> real)
    requires Wide(data, position) && |data| > 0
    requires AllSame(LabelsOf(data))
    requires log2(1.0) == 0.0
    ensures CondEntropy(data, position, cs, log2) == 0.0
  {
    if cs != [] {
      SelectSameLabels(data, position, cs[0]);
      SpecCondEntPure(Select(data, position, cs[0]), log2);
      CondEntropyPure(data, position, cs[1..], log2);
    }
  }

  /** When every row has the same label, no attribute carries information
      (given log2(1) = 0). */
  lemma PureGainIsZero(data: seq<Row>, position: nat, log2: real -> real)
    requires Wide(data, position)
    requires AllSame(LabelsOf(data))
    requires log2(1.0) == 0.0
    ensures MutualInfo(data, position, log2) == 0.0
  {
    if |data| > 0 {
      CondEntropyPure(data, position, Unique(Col(data, position)), log2);
    }
  }

  /** How much a column tells about the labels. The learner below takes the
      measure as a parameter; decisionTree.py uses Info(log2). */
  type Measure = (seq<Row>, nat) -> real

  /** mutualInfo as a measure; a position outside the rows never occurs. */
  function Info(log2: real -> real): Measure {
    (data: seq<Row>, position: nat) => if Wide(data, position) then MutualInfo(data, position, log2) else 0.0
  }

  // ---------------------------------------------------------------------------
  // bestMutualInfo (decisionTree.py:81-97)
  // ---------------------------------------------------------------------------

  /** The information of the first n columns. */
  function Gains(data: seq<Row>, n: nat, info: Measure): (gs: seq<real>)
    ensures |gs| == n
  {
    seq(n, (j: nat) => info(data, j))
  }

  /** Where a scan that keeps a candidate whenever it is >= the best so far
      ends: the last position of the maximum. */
  function LastBest(gs: seq<real>): (k: nat)
    requires |gs| > 0
    ensures k < |gs|
  {
    if |gs| == 1 then 0
    else
      var k := LastBest(gs[..|gs| - 1]);
      if gs[|gs| - 1] >= gs[k] then |gs| - 1 else k
  }

  /** The scan ends on a maximum that no later value reaches. */
  lemma {:induction false} LastBestIsMax(gs: seq<real>)
    requires |gs| > 0
    ensures forall j :: 0 <= j < |gs| ==> gs[j] <= gs[LastBest(gs)]
    ensures forall j :: LastBest(gs) < j < |gs| ==> gs[j] < gs[LastBest(gs)]
  {
    if |gs| > 1 {
      var init := gs[..|gs| - 1];
      LastBestIsMax(init);
      assert forall j :: 0 <= j < |init| ==> init[j] == gs[j];
    }
  }

  lemma LastBestNext(gs: seq<real>, i: nat)
    requires 0 < i < |gs|
    ensures LastBest(gs[..i + 1]) ==
      if gs[i] >= gs[LastBest(gs[..i])] then i else LastBest(gs[..i])
  {
    assert gs[..i + 1][..i] == gs[..i];
  }

  /** What bestMutualInfo returns: None, a bare attribute, or a pair. */
  datatype Choice = NoAttribute | Bare(att: string) | Pair(gain: real, att: string)

  /** bestMutualInfo(data, attributes): nothing for no attribute, the bare
      attribute for one, and otherwise, over every attribute but the last
      (the label column), the largest information together with the last
      attribute that reaches it. */
  function Best(data: seq<Row>, attributes: seq<string>, info: Measure): (c: Choice)
    requires Rect(data, |attributes|)
    ensures |attributes| == 0 ==> c == NoAttribute
    ensures |attributes| == 1 ==> c == Bare(attributes[0])
    ensures |attributes| >= 2 ==> c.Pair?
  {
    if |attributes| == 1 then Bare(attributes[0])
    else if |attributes| == 0 then NoAttribute
    else
      var gs := Gains(data, |attributes| - 1, info);
      var k := LastBest(gs);
      Pair(gs[k], attributes[k])
  }

  /** With two attributes or more, the pair holds the largest information
      of any column but the last, and the last attribute that reaches it. */
  lemma BestIsLastMaximum(data: seq<Row>, attributes: seq<string>, info: Measure)
    requires Rect(data, |attributes|) && |attributes| >= 2
    ensures var c := Best(data, attributes, info);
      exists k :: (0 <= k < |attributes| - 1 && c.att == attributes[k] && c.gain == info(data, k) &&
        (forall j :: 0 <= j < |attributes| - 1 ==> info(data, j) <= c.gain) &&
        (forall j :: k < j < |attributes| - 1 ==> info(data, j) < c.gain))
  {
    var n := |attributes| - 1;
    var gs := Gains(data, n, info);
    var k := LastBest(gs);
    LastBestIsMax(gs);
    forall j | 0 <= j < n ensures gs[j] == info(data, j) { }
    assert 0 <= k < n && Best(data, attributes, info).att == attributes[k];
  }

  method BestMutualInfo(data: seq<Row>, attributes: seq<string>, info: Measure) returns (c: Choice)
    requires Rect(data, |attributes|)
    ensures c == Best(data, attributes, info)
  {
    if |attributes| == 1 {
      return Bare(attributes[0]);
    } else if |attributes| == 0 {
      return NoAttribute;
    }
    var atts := attributes[..|attributes| - 1];
    ghost var gs := Gains(data, |atts|, info);
    // None stands for -inf, which every information value reaches
    var bestInfoGain: Option<real> := None;
    var bestatt: Option<string> := None;
    for idx := 0 to |atts|
      invariant idx == 0 ==> bestInfoGain.None?
      invariant idx > 0 ==> bestInfoGain == Some(gs[LastBest(gs[..idx])])
      invariant idx > 0 ==> bestatt == Some(atts[LastBest(gs[..idx])])
    {
      if idx > 0 {
        LastBestNext(gs, idx);
      }
      if bestInfoGain.None? || info(data, idx) >= bestInfoGain.value {
        bestInfoGain := Some(info(data, idx));
        bestatt := Some(atts[idx]);
      }
    }
    assert gs[..|atts|] == gs;
    return Pair(bestInfoGain.value, bestatt.value);
  }

  // ---------------------------------------------------------------------------
  // maj_classifer (decisionTree.py:100-114)
  // ---------------------------------------------------------------------------

  /** r is what maj_classifer returns for labels: nothing for no labels, and
      otherwise a present label of maximal count that no larger label ties. */
  ghost predicate IsMajority(labels: seq<string>, r: Option<string>) {
    && (r.None? <==> |labels| == 0)
    && (r.Some? ==> r.value in labels)
    && (r.Some? ==>
         forall d :: d in labels ==>
           (CountIn(labels, d) <= CountIn(labels, r.value) &&
            (Less(r.value, d) ==> CountIn(labels, d) < CountIn(labels, r.value))))
  }

  /** The majority label is determined by the labels. */
  lemma MajorityUnique(labels: seq<string>, r1: Option<string>, r2: Option<string>)
    requires IsMajority(labels, r1) && IsMajority(labels, r2)
    ensures r1 == r2
  {
    if r1.Some? && r2.Some? {
      // each count is at most the other, so neither name is the larger
      LessTotal(r1.value, r2.value);
    }
  }

  /** Among classes, the position of the last one of maximal count. */
  function LastMajor(labels: seq<string>, classes: seq<string>): (k: nat)
    requires |classes| > 0
    ensures k < |classes|
  {
    if |classes| == 1 then 0
    else
      var k := LastMajor(labels, classes[..|classes| - 1]);
      if CountIn(labels, classes[|classes| - 1]) >= CountIn(labels, classes[k]) then |classes| - 1 else k
  }

  lemma {:induction false} LastMajorIsMax(labels: seq<string>, classes: seq<string>)
    requires |classes| > 0
    ensures forall j :: 0 <= j < |classes| ==>
      CountIn(labels, classes[j]) <= CountIn(labels, classes[LastMajor(labels, classes)])
    ensures forall j :: LastMajor(labels, classes) < j < |classes| ==>
      CountIn(labels, classes[j]) < CountIn(labels, classes[LastMajor(labels, classes)])
  {
    if |classes| > 1 {
      var init := classes[..|classes| - 1];
      LastMajorIsMax(labels, init);
      assert forall j :: 0 <= j < |init| ==> init[j] == classes[j];
    }
  }

  /** The majority label, as a function of the labels: the last class, in
      ascending order, of maximal count. */
  function Majority(labels: seq<string>): (r: Option<string>) {
    var classes := Unique(labels);
    if |classes| == 0 then None else Some(classes[LastMajor(labels, classes)])
  }

  /** Majority picks the majority label. */
  lemma MajorityIsMajority(labels: seq<string>)
    ensures IsMajority(labels, Majority(labels))
  {
    var classes := Unique(labels);
    assert |labels| > 0 ==> labels[0] in classes;
    if |classes| > 0 {
      LastMajorIsMax(labels, classes);
      MajorityOfCounts(labels, classes, LastMajor(labels, classes));
    }
  }

  method MajClassifier(labels: seq<string>) returns (r: Option<string>)
    ensures r == Majority(labels)
  {
    var classes := Unique(labels);
    var countOfClasses := seq(|classes|, i requires 0 <= i < |classes| => CountIn(labels, classes[i]));
    if |classes| == 1 {
      assert classes[0] in labels;
      forall d | d in labels ensures d == classes[0] {
        assert d in classes;
      }
      LessIrreflexive(classes[0]);
      r := Some(classes[0]);
      MajorityIsMajority(labels);
      MajorityUnique(labels, r, Majority(labels));
      return;
    }
    var counter := 0;
    var maxValue := -1;  // below every count, as -inf is
    var bestLabel: Option<string> := None;
    ghost var bk := 0;
    while counter < |classes|
      invariant counter == 0 || counter == |classes|
      invariant counter == 0 ==> bestLabel.None? && maxValue == -1
      invariant counter > 0 ==> bk < |classes| && bestLabel == Some(classes[bk])
      invariant counter > 0 ==> forall j :: 0 <= j < |classes| ==> countOfClasses[j] <= countOfClasses[bk]
      invariant counter > 0 ==> forall j :: bk < j < |classes| ==> countOfClasses[j] < countOfClasses[bk]
    {
      for idx := 0 to |countOfClasses|
        invariant counter == idx
        invariant idx == 0 ==> bestLabel.None? && maxValue == -1
        invariant idx > 0 ==> bk < idx && bestLabel == Some(classes[bk]) && maxValue == countOfClasses[bk]
        invariant idx > 0 ==> forall j :: 0 <= j < idx ==> countOfClasses[j] <= countOfClasses[bk]
        invariant idx > 0 ==> forall j :: bk < j < idx ==> countOfClasses[j] < countOfClasses[bk]
      {
        if countOfClasses[idx] >= maxValue {
          maxValue := countOfClasses[idx];
          bestLabel := Some(classes[idx]);
          bk := idx;
        }
        counter := counter + 1;
      }
    }
    assert |labels| > 0 ==> labels[0] in classes;
    if |classes| > 0 {
      assert forall j :: 0 <= j < |classes| ==> countOfClasses[j] == CountIn(labels, classes[j]);
      MajorityOfCounts(labels, classes, bk);
    }
    MajorityIsMajority(labels);
    MajorityUnique(labels, bestLabel, Majority(labels));
    return bestLabel;
  }

  /** The last class of maximal count, in ascending class order, is the
      majority label. */
  lemma MajorityOfCounts(labels: seq<string>, classes: seq<string>, bk: nat)
    requires classes == Unique(labels)
    requires bk < |classes|
    requires forall j :: 0 <= j < |classes| ==> CountIn(labels, classes[j]) <= CountIn(labels, classes[bk])
    requires forall j :: bk < j < |classes| ==> CountIn(labels, classes[j]) < CountIn(labels, classes[bk])
    ensures IsMajority(labels, Some(classes[bk]))
  {
    var c := classes[bk];
    UniqueStrict(labels);
    assert c in labels;
    forall d | d in labels
      ensures CountIn(labels, d) <= CountIn(labels, c)
      ensures Less(c, d) ==> CountIn(labels, d) < CountIn(labels, c)
    {
      assert d in classes;
      var j :| 0 <= j < |classes| && classes[j] == d;
      if Less(c, d) && j <= bk {
        if j == bk {
          LessIrreflexive(c);
        } else {
          assert Less(d, c);
          LessAsymmetric(c, d);
        }
      }
    }
  }

  // ---------------------------------------------------------------------------
  // The tree (decisionTree.py:117-164)
  // ---------------------------------------------------------------------------

  /** A node of the tree: its rows, depth budget, split attribute (or
      "leaf"), information, majority label, children, the split attribute of
      its parent and the value of that attribute that leads here. */
  class Node {
    var data: seq<Row>
    var maxdepth: int
    var key: Option<string>
    var infogain: Option<real>
    var classLabel: Option<string>
    var left: Node?
    var right: Node?
    var parent: Option<string>
    var value: Option<string>
    ghost var Repr: set<Node>

    /** The nodes below form a tree: each child owns a part of Repr that
        holds neither this node nor its sibling's part. */
    ghost predicate Valid()
      reads this`Repr, Repr`left, Repr`right, Repr`Repr
      decreases Repr
    {
      && this in Repr
      && (left != null ==>
            left in Repr && left.Repr <= Repr && this !in left.Repr && left.Valid())
      && (right != null ==>
            right in Repr && right.Repr <= Repr && this !in right.Repr && right.Valid())
      && (left != null && right != null ==> left.Repr !! right.Repr)
    }

    constructor(data: seq<Row>, maxdepth: int)
      ensures this.data == data && this.maxdepth == maxdepth
      ensures key.None? && infogain.None? && classLabel.None?
      ensures left == null && right == null && parent.None? && value.None?
      ensures Repr == {this} && Valid()
    {
      this.data := data;
      this.maxdepth := maxdepth;
      key := None;
      infogain := None;
      classLabel := None;
      left := null;
      right := null;
      parent := None;
      value := None;
      Repr := {this};
    }
  }

  /** buildTree's depth budget: never more than one level per column. */
  function Clamp(maxdepth: int, feats: seq<string>): (m: int)
    ensures m <= |feats| + 1
    ensures m == maxdepth || m == |feats| + 1
    ensures maxdepth <= |feats| + 1 ==> m == maxdepth
  {
    if maxdepth > |feats| + 1 then |feats| + 1 else maxdepth
  }

  /** feats.index(a): the first column named a. */
  function Position(feats: seq<string>, a: string): (i: nat)
    requires a in feats
    ensures i < |feats| && feats[i] == a
    ensures forall j :: 0 <= j < i ==> feats[j] != a
  {
    if feats[0] == a then 0 else 1 + Position(feats[1..], a)
  }

  /** A node as a value: its fields, each child in turn as a value, Nil
      for None. */
  datatype View =
    | Nil
    | View(data: seq<Row>, maxdepth: int, key: Option<string>, infogain: Option<real>,
           classLabel: Option<string>, left: View, right: View,
           parent: Option<string>, value: Option<string>)

  /** The tree below n, as a value. */
  function Abs(n: Node?): (t: View)
    requires n != null ==> n.Valid()
    reads if n == null then {} else {n} + n.Repr
    decreases if n == null then {} else n.Repr
    ensures t.Nil? <==> n == null
  {
    if n == null then Nil
    else View(n.data, n.maxdepth, n.key, n.infogain, n.classLabel, Abs(n.left), Abs(n.right), n.parent, n.value)
  }

  /** t is the tree buildTree(data, feats, maxdepth) returns, for a non-zero
      maxdepth, down to its leaves: the depth budget clamped, the majority
      label, a "leaf" when no attribute carries positive information, and
      otherwise the best attribute with, unless the budget is 1, a left
      child for the larger and a right child for the smaller of the split
      column's two values, each built from the rows holding its value with
      one level less and linked to the attribute and the value. */
  ghost predicate Grown(t: View, data: seq<Row>, feats: seq<string>, maxdepth: int, info: Measure)
    requires |feats| >= 2 && Rect(data, |feats|)
    decreases t, 1
  {
    t.View? && GrownNode(t, data, feats, maxdepth, info)
  }

  /** Grown, for a node. */
  ghost predicate GrownNode(t: View, data: seq<Row>, feats: seq<string>, maxdepth: int, info: Measure)
    requires |feats| >= 2 && Rect(data, |feats|) && t.View?
    decreases t, 0
  {
    var m := Clamp(maxdepth, feats);
    var c := Best(data, feats, info);
    && t.data == data && t.maxdepth == m
    && t.classLabel == Majority(LabelsOf(data))
    && if c.gain <= 0.0 then
         t.key == Some("leaf") && t.infogain.None? && t.left.Nil? && t.right.Nil?
       else
         var col := Position(feats, c.att);
         var parts, vals := SplitData(data, col), Unique(Col(data, col));
         && t.key == Some(c.att) && t.infogain == Some(c.gain)
         && |parts| == 2
         && (m == 1 ==> t.left.Nil? && t.right.Nil?)
         && (m != 1 ==>
               && t.left.View? && t.right.View?
               && t.left.value == Some(vals[1]) && t.left.parent == Some(c.att)
               && t.right.value == Some(vals[0]) && t.right.parent == Some(c.att)
               && (SelectRect(data, col, vals[1], |feats|);
                   Grown(t.left, parts[1], feats, m - 1, info))
               && (SelectRect(data, col, vals[0], |feats|);
                   Grown(t.right, parts[0], feats, m - 1, info)))
  }

  /** A split node whose children were grown from its two parts was grown
      from its rows. */
  lemma Assemble(t: View, data: seq<Row>, feats: seq<string>, maxdepth: int, info: Measure,
                  c: Choice, col: nat, vals: seq<string>, parts: seq<seq<Row>>)
    requires |feats| >= 2 && Rect(data, |feats|) && t.View?
    requires c == Best(data, feats, info) && c.gain > 0.0
    requires c.att in feats && col == Position(feats, c.att)
    requires vals == Unique(Col(data, col)) && parts == SplitData(data, col)
    requires |parts| == 2 && |vals| == 2 && Rect(parts[0], |feats|) && Rect(parts[1], |feats|)
    requires t.data == data && t.maxdepth == Clamp(maxdepth, feats)
    requires t.classLabel == Majority(LabelsOf(data))
    requires t.key == Some(c.att) && t.infogain == Some(c.gain)
    requires t.maxdepth == 1 ==> t.left.Nil? && t.right.Nil?
    requires t.maxdepth != 1 ==>
      && Child(t.left, parts[1], feats, t.maxdepth - 1, vals[1], c.att, info)
      && Child(t.right, parts[0], feats, t.maxdepth - 1, vals[0], c.att, info)
    ensures Grown(t, data, feats, maxdepth, info)
  {
  }

  /** Whether a tree was grown from some rows does not depend on the link
      that records its parent's attribute and value. */
  lemma Relink(t: View, data: seq<Row>, feats: seq<string>, maxdepth: int, info: Measure,
               parent: Option<string>, value: Option<string>)
    requires |feats| >= 2 && Rect(data, |feats|) && t.View?
    requires Grown(t, data, feats, maxdepth, info)
    ensures Grown(t.(parent := parent, value := value), data, feats, maxdepth, info)
  {
  }

  /** buildTree(data, feats, maxdepth), for a non-zero maxdepth, returns a
      tree rather than raising: every node it reaches with positive
      information splits its column into exactly two parts, and unless the
      clamped budget is 1 both parts build with one level less. */
  ghost predicate Builds(data: seq<Row>, feats: seq<string>, maxdepth: int, info: Measure)
    requires |feats| >= 2 && Rect(data, |feats|)
    decreases |data|, 1
  {
    var c := Best(data, feats, info);
    c.gain <= 0.0 || SplitBuilds(data, feats, Clamp(maxdepth, feats), Position(feats, c.att), info)
  }

  /** Builds, past a node with positive information that splits on column
      col with budget m. */
  ghost predicate SplitBuilds(data: seq<Row>, feats: seq<string>, m: int, col: nat, info: Measure)
    requires |feats| >= 2 && Rect(data, |feats|) && col < |feats|
    decreases |data|, 0
  {
    && |SplitData(data, col)| == 2
    && (m != 1 ==>
          (TwoParts(data, col, |feats|);
           Builds(SplitData(data, col)[1], feats, m - 1, info) &&
           Builds(SplitData(data, col)[0], feats, m - 1, info)))
  }

  /** A node with positive information whose column does not split in
      two does not build. */
  lemma BuildsNoSplit(data: seq<Row>, feats: seq<string>, maxdepth: int, info: Measure, c: Choice, col: nat)
    requires |feats| >= 2 && Rect(data, |feats|)
    requires c == Best(data, feats, info) && c.gain > 0.0 && c.att in feats && col == Position(feats, c.att)
    requires |SplitData(data, col)| != 2
    ensures !Builds(data, feats, maxdepth, info)
  {
  }

  /** A node with positive information that splits in two builds on its
      last level, and otherwise exactly when both parts build. */
  lemma BuildsSplit(data: seq<Row>, feats: seq<string>, maxdepth: int, info: Measure, c: Choice, col: nat,
                    parts: seq<seq<Row>>, m: int)
    requires |feats| >= 2 && Rect(data, |feats|)
    requires c == Best(data, feats, info) && c.gain > 0.0 && c.att in feats && col == Position(feats, c.att)
    requires parts == SplitData(data, col) && |parts| == 2 && m == Clamp(maxdepth, feats)
    ensures Rect(parts[0], |feats|) && Rect(parts[1], |feats|)
    ensures m == 1 ==> Builds(data, feats, maxdepth, info)
    ensures m != 1 ==>
      (Builds(data, feats, maxdepth, info) <==>
         Builds(parts[1], feats, m - 1, info) && Builds(parts[0], feats, m - 1, info))
  {
    TwoParts(data, col, |feats|);
  }

  /** Rows from which a tree is grown are rows that build. */
  lemma {:induction false} GrownBuilds(t: View, data: seq<Row>, feats: seq<string>, maxdepth: int, info: Measure)
    requires |feats| >= 2 && Rect(data, |feats|) && Grown(t, data, feats, maxdepth, info)
    ensures Builds(data, feats, maxdepth, info)
    decreases t
  {
    assert GrownNode(t, data, feats, maxdepth, info);
    var m := Clamp(maxdepth, feats);
    var c := Best(data, feats, info);
    if c.gain > 0.0 && m != 1 {
      var col := Position(feats, c.att);
      var parts := SplitData(data, col);
      TwoParts(data, col, |feats|);
      GrownBuilds(t.left, parts[1], feats, m - 1, info);
      GrownBuilds(t.right, parts[0], feats, m - 1, info);
    }
  }

  /** What buildTree returns: a label when maxdepth is 0, a node otherwise. */
  datatype Built = Label(name: Option<string>) | Tree(node: Node)

  method BuildTree(traindata: seq<Row>, feats: seq<string>, maxdepth: int, info: Measure)
    returns (r: Result<Built>)
    requires Rect(traindata, |feats|)
    ensures |feats| == 0 ==> r == Err(if maxdepth == 0 then IndexError else TypeError)
    ensures maxdepth == 0 && |feats| >= 1 ==> r.Ok? && r.value.Label? && r.value.name == Majority(LabelsOf(traindata))
    ensures maxdepth != 0 && |feats| == 1 ==> r == Err(if |feats[0]| == 2 then TypeError else ValueError)
    ensures maxdepth != 0 && |feats| >= 2 ==>
      var c := Best(traindata, feats, info);
      && (r.Err? ==> r.error == ValueError)
      && (c.gain <= 0.0 ==> r.Ok?)
      && (c.gain > 0.0 && |SplitData(traindata, Position(feats, c.att))| != 2 ==> r == Err(ValueError))
      && (r.Ok? <==> Builds(traindata, feats, maxdepth, info))
      && (r.Ok? ==>
            && r.value.Tree? && fresh(r.value.node.Repr) && r.value.node.Valid()
            && var t := Abs(r.value.node);
            && t.parent.None? && t.value.None?
            && Grown(t, traindata, feats, maxdepth, info))
    decreases |traindata|, 4
  {
    if maxdepth == 0 {
      if |feats| == 0 {
        // traindata[:, -1] on rows without a column
        return Err(IndexError);
      }
      var l := MajClassifier(LabelsOf(traindata));
      return Ok(Label(l));
    }
    var m := Clamp(maxdepth, feats);
    var root := new Node(traindata, m);
    var c := BestMutualInfo(root.data, feats, info);
    if c.NoAttribute? {
      // unpacking None
      return Err(TypeError);
    }
    if c.Bare? {
      // unpacking a bare name: two characters unpack, and comparing the
      // first with 0 then fails
      return Err(if |c.att| == 2 then TypeError else ValueError);
    }
    if c.gain <= 0.0 {
      r := MakeLeaf(root, feats, maxdepth, c, info);
      return;
    }
    r := Grow(root, feats, maxdepth, c, info);
  }

  /** buildTree when no attribute carries positive information: the root
      becomes a "leaf" carrying the majority label. */
  method MakeLeaf(root: Node, feats: seq<string>, maxdepth: int, c: Choice, info: Measure)
    returns (r: Result<Built>)
    requires |feats| >= 2 && Rect(root.data, |feats|)
    requires root.Repr == {root} && root.left == null && root.right == null
    requires root.maxdepth == Clamp(maxdepth, feats)
    requires c == Best(root.data, feats, info) && c.gain <= 0.0 && root.infogain.None?
    modifies root`key, root`classLabel
    ensures r == Ok(Tree(root)) && root.Valid()
    ensures Grown(Abs(root), root.data, feats, maxdepth, info)
  {
    root.key := Some("leaf");
    root.classLabel := MajClassifier(LabelsOf(root.data));
    return Ok(Tree(root));
  }

  /** buildTree once the best attribute carries positive information: label
      the root with the attribute, its majority label and the information,
      then split it. */
  method Grow(root: Node, feats: seq<string>, maxdepth: int, c: Choice, info: Measure)
    returns (r: Result<Built>)
    requires |feats| >= 2 && Rect(root.data, |feats|)
    requires root.Repr == {root} && root.left == null && root.right == null
    requires root.maxdepth == Clamp(maxdepth, feats)
    requires c == Best(root.data, feats, info) && c.gain > 0.0
    modifies root`key, root`classLabel, root`infogain, root`left, root`right, root`Repr
    ensures r.Err? ==> r.error == ValueError
    ensures |SplitData(root.data, Position(feats, c.att))| != 2 ==> r == Err(ValueError)
    ensures r.Ok? <==> Builds(root.data, feats, maxdepth, info)
    ensures r.Ok? ==>
      && r == Ok(Tree(root)) && fresh(root.Repr - {root}) && root in root.Repr && root.Valid()
      && Grown(Abs(root), root.data, feats, maxdepth, info)
    decreases |root.data|, 3
  {
    var infoGainVal, bestAtt := c.gain, c.att;
    root.key := Some(bestAtt);
    root.classLabel := MajClassifier(LabelsOf(root.data));
    root.infogain := Some(infoGainVal);
    r := Split(root, feats, maxdepth, c, info);
  }

  /** Splits a labelled root's rows on the best attribute's column, which
      must give exactly two parts, and, unless the budget is 1, grows both
      children. */
  method Split(root: Node, feats: seq<string>, maxdepth: int, c: Choice, info: Measure)
    returns (r: Result<Built>)
    requires |feats| >= 2 && Rect(root.data, |feats|)
    requires root.Repr == {root} && root.left == null && root.right == null
    requires root.maxdepth == Clamp(maxdepth, feats)
    requires c == Best(root.data, feats, info) && c.gain > 0.0
    requires root.key == Some(c.att) && root.infogain == Some(c.gain)
    requires root.classLabel == Majority(LabelsOf(root.data))
    modifies root`left, root`right, root`Repr
    ensures r.Err? ==> r.error == ValueError
    ensures |SplitData(root.data, Position(feats, c.att))| != 2 ==> r == Err(ValueError)
    ensures r.Ok? <==> Builds(root.data, feats, maxdepth, info)
    ensures r.Ok? ==>
      && r == Ok(Tree(root)) && fresh(root.Repr - {root}) && root in root.Repr && root.Valid()
      && Grown(Abs(root), root.data, feats, maxdepth, info)
    decreases |root.data|, 2
  {
    var col := Position(feats, c.att);
    var parts := SplitData(root.data, col);
    ghost var data := root.data;
    ghost var builds := Builds(data, feats, maxdepth, info);
    if |parts| != 2 {
      BuildsNoSplit(data, feats, maxdepth, info, c, col);
      assert !builds;
      return Err(ValueError);
    }
    var rightData, leftData := parts[0], parts[1];
    assert parts == [rightData, leftData];
    ghost var vals := Unique(Col(data, col));
    TwoParts(data, col, |feats|);
    // root.left and root.right are still None here
    if root.maxdepth != 1 {
      var hung, tl, tr := Hang(root, leftData, rightData, feats, col, vals[1], vals[0], c.att, info, data, maxdepth);
      assert root.data == data && (hung.Pass? <==> builds);
      if hung.Fail? {
        return Err(hung.error);
      }
      ghost var t := Abs(root);
      assert t.data == data && t.maxdepth == root.maxdepth && t.left == tl && t.right == tr;
      Assemble(t, data, feats, maxdepth, info, c, col, vals, parts);
    } else {
      BuildsSplit(data, feats, maxdepth, info, c, col, parts, root.maxdepth);
      assert builds;
      Assemble(Abs(root), data, feats, maxdepth, info, c, col, vals, parts);
    }
    return Ok(Tree(root));
  }

  /** t is a child grown from the rows holding v in the split column of a
      parent that splits on att. */
  ghost predicate Child(t: View, data: seq<Row>, feats: seq<string>, maxdepth: int, v: string, att: string,
                        info: Measure)
    requires |feats| >= 2 && Rect(data, |feats|)
  {
    t.View? && t.value == Some(v) && t.parent == Some(att) && Grown(t, data, feats, maxdepth, info)
  }

  /** Grows both children of a split root with one level less and hangs
      them under it. The root's rows are data, split on column col of the
      attribute att that buildTree(data, feats, maxdepth) chose. */
  method Hang(root: Node, leftData: seq<Row>, rightData: seq<Row>, feats: seq<string>, col: nat,
              ghost lv: string, ghost rv: string, att: string, info: Measure,
              ghost data: seq<Row>, ghost maxdepth: int)
    returns (r: Outcome, ghost tl: View, ghost tr: View)
    requires root.Repr == {root} && root.left == null && root.right == null && root.maxdepth != 1
    requires |feats| >= 2 && Rect(leftData, |feats|) && Rect(rightData, |feats|)
    requires col < |feats| && |leftData| > 0 && |rightData| > 0
    requires forall i :: 0 <= i < |leftData| ==> leftData[i][col] == lv
    requires forall i :: 0 <= i < |rightData| ==> rightData[i][col] == rv
    requires Rect(data, |feats|) && att in feats && col == Position(feats, att)
    requires Best(data, feats, info) == Pair(Best(data, feats, info).gain, att) && Best(data, feats, info).gain > 0.0
    requires SplitData(data, col) == [rightData, leftData] && root.maxdepth == Clamp(maxdepth, feats)
    modifies root`left, root`right, root`Repr
    ensures r.Fail? ==> r.error == ValueError
    ensures r.Pass? <==>
      Builds(leftData, feats, root.maxdepth - 1, info) && Builds(rightData, feats, root.maxdepth - 1, info)
    ensures r.Pass? <==> Builds(data, feats, maxdepth, info)
    ensures r.Pass? ==>
      && fresh(root.Repr - {root}) && root in root.Repr && root.Valid()
      && Abs(root).left == tl && Abs(root).right == tr
      && Child(tl, leftData, feats, root.maxdepth - 1, lv, att, info)
      && Child(tr, rightData, feats, root.maxdepth - 1, rv, att, info)
    decreases |leftData| + |rightData|, 1
  {
    BuildsSplit(data, feats, maxdepth, info, Best(data, feats, info), col, [rightData, leftData], root.maxdepth);
    ghost var builds := Builds(leftData, feats, root.maxdepth - 1, info) &&
                        Builds(rightData, feats, root.maxdepth - 1, info);
    var children;
    children, tl, tr := Children(leftData, rightData, feats, root.maxdepth - 1, col, lv, rv, att, info);
    assert children.Ok? <==> builds;
    if children.Err? {
      return Fail(children.error), tl, tr;
    }
    var (left, right) := children.value;
    Attach(root, left, right);
    return Pass, tl, tr;
  }

  /** Both children of a split, left before right. */
  method Children(leftData: seq<Row>, rightData: seq<Row>, feats: seq<string>, maxdepth: int, col: nat,
                  ghost lv: string, ghost rv: string, att: string, info: Measure)
    returns (r: Result<(Node, Node)>, ghost tl: View, ghost tr: View)
    requires |feats| >= 2 && Rect(leftData, |feats|) && Rect(rightData, |feats|)
    requires maxdepth != 0 && col < |feats| && |leftData| > 0 && |rightData| > 0
    requires forall i :: 0 <= i < |leftData| ==> leftData[i][col] == lv
    requires forall i :: 0 <= i < |rightData| ==> rightData[i][col] == rv
    ensures r.Err? ==> r.error == ValueError
    ensures r.Ok? <==> Builds(leftData, feats, maxdepth, info) && Builds(rightData, feats, maxdepth, info)
    ensures r.Ok? ==>
      && fresh(r.value.0.Repr) && fresh(r.value.1.Repr) && r.value.0.Repr !! r.value.1.Repr
      && r.value.0.Valid() && r.value.1.Valid()
      && Abs(r.value.0) == tl && Abs(r.value.1) == tr
      && Child(tl, leftData, feats, maxdepth, lv, att, info)
      && Child(tr, rightData, feats, maxdepth, rv, att, info)
    decreases |leftData| + |rightData|, 0
  {
    var left;
    left, tl := Branch(leftData, feats, maxdepth, col, lv, att, info);
    if left.Err? {
      return Err(left.error), tl, tl;
    }
    var right;
    right, tr := Branch(rightData, feats, maxdepth, col, rv, att, info);
    if right.Err? {
      return Err(right.error), tl, tr;
    }
    assert Abs(left.value) == tl;
    return Ok((left.value, right.value)), tl, tr;
  }

  /** Hangs two trees under a root without children. */
  method Attach(root: Node, left: Node, right: Node)
    requires root.Repr == {root} && root.left == null && root.right == null
    requires left.Valid() && right.Valid() && root !in left.Repr && root !in right.Repr
    requires left.Repr !! right.Repr
    modifies root`left, root`right, root`Repr
    ensures root.left == left && root.right == right && root.Repr == {root} + left.Repr + right.Repr
    ensures root.Valid()
    ensures Abs(root) == View(root.data, root.maxdepth, root.key, root.infogain, root.classLabel,
                              Abs(left), Abs(right), root.parent, root.value)
    ensures Abs(left) == old(Abs(left)) && Abs(right) == old(Abs(right))
  {
    root.left := left;
    root.right := right;
    root.Repr := root.Repr + left.Repr + right.Repr;
  }

  /** One child of a split: the tree built from the subset, with the split
      column's value of the subset and the split attribute recorded on it. */
  method Branch(subset: seq<Row>, feats: seq<string>, maxdepth: int, col: nat, ghost v: string, att: string,
                info: Measure)
    returns (r: Result<Node>, ghost t: View)
    requires |feats| >= 2 && Rect(subset, |feats|) && maxdepth != 0
    requires |subset| > 0 && col < |feats| && forall i :: 0 <= i < |subset| ==> subset[i][col] == v
    ensures r.Err? ==> r.error == ValueError
    ensures r.Ok? <==> Builds(subset, feats, maxdepth, info)
    ensures r.Ok? ==>
      && fresh(r.value.Repr) && r.value.Valid() && Abs(r.value) == t
      && Child(t, subset, feats, maxdepth, v, att, info)
    decreases |subset|, 5
  {
    var built := BuildTree(subset, feats, maxdepth, info);
    if built.Err? {
      return Err(built.error), Nil;
    }
    var node := built.value.node;
    ghost var t0 := Abs(node);
    // the source recomputes bestMutualInfo on the parent's rows for the
    // parent field, which gives the same attribute again
    Mark(node, subset[0][col], att);
    Relink(t0, subset, feats, maxdepth, info, Some(att), Some(v));
    t := t0.(parent := Some(att), value := Some(v));
    return Ok(node), t;
  }

  /** Records on a node the value that leads to it and the attribute its
      parent splits on. */
  method Mark(node: Node, v: string, att: string)
    requires node.Valid()
    modifies node`value, node`parent
    ensures node.Valid()
    ensures Abs(node) == View(node.data, node.maxdepth, node.key, node.infogain, node.classLabel,
                              old(Abs(node.left)), old(Abs(node.right)), Some(att), Some(v))
  {
    node.value := Some(v);
    node.parent := Some(att);
  }

  // ---------------------------------------------------------------------------
  // What a grown tree satisfies
  // ---------------------------------------------------------------------------

  /** The number of levels of a tree. */
  function Height(t: View): (h: nat)
    ensures h == 0 <==> t.Nil?
  {
    if t.Nil? then 0
    else
      var l, r := Height(t.left), Height(t.right);
      1 + (if l < r then r else l)
  }

  /** buildTree never grows more levels than its clamped depth budget, and
      so never more than one level per column. */
  lemma {:induction false} HeightBound(t: View, data: seq<Row>, feats: seq<string>, maxdepth: int, info: Measure)
    requires |feats| >= 2 && Rect(data, |feats|) && Grown(t, data, feats, maxdepth, info)
    requires maxdepth >= 1
    ensures Height(t) <= Clamp(maxdepth, feats) <= |feats| + 1
    decreases t
  {
    assert GrownNode(t, data, feats, maxdepth, info);
    var m := Clamp(maxdepth, feats);
    var c := Best(data, feats, info);
    if c.gain > 0.0 && m != 1 {
      var col := Position(feats, c.att);
      var parts, vals := SplitData(data, col), Unique(Col(data, col));
      SelectRect(data, col, vals[1], |feats|);
      SelectRect(data, col, vals[0], |feats|);
      HeightBound(t.left, parts[1], feats, m - 1, info);
      HeightBound(t.right, parts[0], feats, m - 1, info);
    }
  }

  /** A grown node with children split on the best attribute: the left
      child holds the rows of the larger and the right child those of the
      smaller of the column's two values. */
  lemma GrownChildren(t: View, data: seq<Row>, feats: seq<string>, maxdepth: int, info: Measure)
    requires |feats| >= 2 && Rect(data, |feats|) && Grown(t, data, feats, maxdepth, info)
    requires t.left.View?
    ensures var c := Best(data, feats, info);
      && c.gain > 0.0 && c.att in feats && t.key == Some(c.att)
      && var col := Position(feats, c.att);
      var parts, vals := SplitData(data, col), Unique(Col(data, col));
      && |parts| == 2 && t.right.View?
      && t.left.data == parts[1] && t.right.data == parts[0]
      && t.left.value == Some(vals[1]) && t.right.value == Some(vals[0])
  {
    assert GrownNode(t, data, feats, maxdepth, info);
    var m := Clamp(maxdepth, feats);
    var c := Best(data, feats, info);
    var col := Position(feats, c.att);
    var parts, vals := SplitData(data, col), Unique(Col(data, col));
    SelectRect(data, col, vals[1], |feats|);
    SelectRect(data, col, vals[0], |feats|);
    GrownData(t.left, parts[1], feats, m - 1, info);
    GrownData(t.right, parts[0], feats, m - 1, info);
  }

  lemma GrownData(t: View, data: seq<Row>, feats: seq<string>, maxdepth: int, info: Measure)
    requires |feats| >= 2 && Rect(data, |feats|) && Grown(t, data, feats, maxdepth, info)
    ensures t.View? && t.data == data
  {
    assert GrownNode(t, data, feats, maxdepth, info);
  }

  /** The two children of a split node share the rows of their parent
      between them: each row of the parent goes to one side, the left
      holding the larger and the right the smaller value of the split
      column. */
  lemma SplitChildren(t: View, data: seq<Row>, feats: seq<string>, maxdepth: int, info: Measure)
    requires |feats| >= 2 && Rect(data, |feats|) && Grown(t, data, feats, maxdepth, info)
    requires t.left.View?
    ensures t.right.View? && t.key.Some? && t.key.value in feats
    ensures t.left.value.Some? && t.right.value.Some? && Less(t.right.value.value, t.left.value.value)
    ensures var col := Position(feats, t.key.value);
      && (forall i :: 0 <= i < |t.left.data| ==> t.left.data[i] in data && Some(t.left.data[i][col]) == t.left.value)
      && (forall i :: 0 <= i < |t.right.data| ==> t.right.data[i] in data && Some(t.right.data[i][col]) == t.right.value)
    ensures forall i :: 0 <= i < |data| ==> data[i] in t.left.data || data[i] in t.right.data
    ensures |t.left.data| + |t.right.data| == |data|
  {
    GrownChildren(t, data, feats, maxdepth, info);
    var c := Best(data, feats, info);
    var col := Position(feats, c.att);
    SplitPartitions(data, col);
    TotalOfTwo(SplitData(data, col));
  }

  /** With mutualInfo as the measure, rows that all carry one label grow a
      single leaf holding that label. */
  lemma PureIsLeaf(t: View, data: seq<Row>, feats: seq<string>, maxdepth: int, log2: real -> real)
    requires |feats| >= 2 && Rect(data, |feats|) && Grown(t, data, feats, maxdepth, Info(log2))
    requires AllSame(LabelsOf(data)) && log2(1.0) == 0.0
    ensures t.key == Some("leaf") && t.left.Nil? && t.right.Nil?
    ensures |data| > 0 ==> t.classLabel == Some(LabelsOf(data)[0])
  {
    assert GrownNode(t, data, feats, maxdepth, Info(log2));
    BestIsLastMaximum(data, feats, Info(log2));
    var c := Best(data, feats, Info(log2));
    var k :| 0 <= k < |feats| - 1 && c.att == feats[k] && c.gain == Info(log2)(data, k);
    PureGainIsZero(data, k, log2);
    MajorityIsMajority(LabelsOf(data));
  }

  // ---------------------------------------------------------------------------
  // prediction (decisionTree.py:187-202)
  // ---------------------------------------------------------------------------

  /** prediction(tree, feats, row, maxdepth, currentdepth): the label of the
      leaf the row reaches, or of the node at depth maxdepth; None when the
      row matches neither child or the node's key is no column. A row too
      short raises IndexError, and a split node without children raises
      AttributeError. */
  function Prediction(t: View, feats: seq<string>, row: Row, maxdepth: int, currentdepth: int)
    : (r: Result<Option<string>>)
    requires t.View?
    ensures r.Err? ==> r.error == IndexError || r.error == AttributeError
    decreases t
  {
    if t.key == Some("leaf") then Ok(t.classLabel)
    else if maxdepth == currentdepth then Ok(t.classLabel)
    else if t.key.Some? && t.key.value in feats then
      var idx := Position(feats, t.key.value);
      if idx >= |row| then Err(IndexError)
      else if t.left.Nil? then Err(AttributeError)
      else if t.left.value == Some(row[idx]) then Prediction(t.left, feats, row, maxdepth, currentdepth + 1)
      else if t.right.Nil? then Err(AttributeError)
      else if t.right.value == Some(row[idx]) then Prediction(t.right, feats, row, maxdepth, currentdepth + 1)
      else Ok(None)
    else Ok(None)
  }

  /** prediction(tree, ...) on what buildTree returned. With maxdepth 0 that
      is a label, a string without a key, so reading tree.key raises
      AttributeError; a node is predicted as Prediction says. */
  function PredictBuilt(b: Built, feats: seq<string>, row: Row, maxdepth: int, currentdepth: int)
    : (r: Result<Option<string>>)
    requires b.Tree? ==> b.node.Valid()
    reads if b.Tree? then {b.node} + b.node.Repr else {}
    ensures b.Label? ==> r == Err(AttributeError)
    ensures r.Err? ==> r.error == IndexError || r.error == AttributeError
  {
    if b.Label? then Err(AttributeError)
    else Prediction(Abs(b.node), feats, row, maxdepth, currentdepth)
  }

  /** A label read from the rows holding v is a label of the rows. */
  lemma SelectLabel(data: seq<Row>, idx: nat, v: string, l: string)
    requires Wide(data, idx) && forall i :: 0 <= i < |data| ==> |data[i]| > 0
    requires l in LabelsOf(Select(data, idx, v))
    ensures l in LabelsOf(data)
  {
    var s := Select(data, idx, v);
    var i := LabelIndex(s, l);
    LabelOfMember(data, s[i]);
  }

  /** Where a label occurs among the labels of a table. */
  lemma LabelIndex(data: seq<Row>, l: string) returns (i: nat)
    requires forall i :: 0 <= i < |data| ==> |data[i]| > 0
    requires l in LabelsOf(data)
    ensures i < |data| && l == data[i][|data[i]| - 1]
  {
    var ls := LabelsOf(data);
    i :| 0 <= i < |ls| && ls[i] == l;
  }

  /** The label of a row of a table is one of the table's labels. */
  lemma LabelOfMember(data: seq<Row>, row: Row)
    requires forall i :: 0 <= i < |data| ==> |data[i]| > 0
    requires row in data
    ensures |row| > 0 && row[|row| - 1] in LabelsOf(data)
  {
    var j :| 0 <= j < |data| && data[j] == row;
    assert LabelsOf(data)[j] == row[|row| - 1];
  }

  /** Whatever label a grown tree predicts is a label of its training rows. */
  lemma {:induction false} PredictsTrainingLabel(t: View, data: seq<Row>, feats: seq<string>, maxdepth: int,
                                                 info: Measure, row: Row, md: int, depth: int)
    requires |feats| >= 2 && Rect(data, |feats|) && Grown(t, data, feats, maxdepth, info)
    requires Prediction(t, feats, row, md, depth).Ok? && Prediction(t, feats, row, md, depth).value.Some?
    ensures Prediction(t, feats, row, md, depth).value.value in LabelsOf(data)
    decreases t
  {
    assert GrownNode(t, data, feats, maxdepth, info);
    var m := Clamp(maxdepth, feats);
    var c := Best(data, feats, info);
    if t.key == Some("leaf") || md == depth {
      MajorityIsMajority(LabelsOf(data));
    } else {
      var col := Position(feats, c.att);
      var parts, vals := SplitData(data, col), Unique(Col(data, col));
      var l := Prediction(t, feats, row, md, depth).value.value;
      SelectRect(data, col, vals[1], |feats|);
      SelectRect(data, col, vals[0], |feats|);
      if t.left.value == Some(row[col]) {
        PredictsTrainingLabel(t.left, parts[1], feats, m - 1, info, row, md, depth + 1);
        SelectLabel(data, col, vals[1], l);
      } else {
        PredictsTrainingLabel(t.right, parts[0], feats, m - 1, info, row, md, depth + 1);
        SelectLabel(data, col, vals[0], l);
      }
    }
  }

  /** Predicting a row of the table's width with the depth buildTree was
      given (between 1 and one more than the number of columns) raises
      nothing: the depth check stops at the nodes that have no children. */
  lemma {:induction false} PredictionTotal(t: View, data: seq<Row>, feats: seq<string>, budget: int, info: Measure,
                                           row: Row, maxdepth: int, currentdepth: int)
    requires |feats| >= 2 && Rect(data, |feats|) && Grown(t, data, feats, budget, info)
    requires 1 <= budget <= |feats| + 1 && currentdepth + budget == maxdepth + 1
    requires |row| == |feats|
    ensures Prediction(t, feats, row, maxdepth, currentdepth).Ok?
    decreases t
  {
    assert GrownNode(t, data, feats, budget, info);
    var c := Best(data, feats, info);
    if t.key != Some("leaf") && maxdepth != currentdepth {
      var col := Position(feats, c.att);
      var parts, vals := SplitData(data, col), Unique(Col(data, col));
      SelectRect(data, col, vals[1], |feats|);
      SelectRect(data, col, vals[0], |feats|);
      if t.left.value == Some(row[col]) {
        PredictionTotal(t.left, parts[1], feats, budget - 1, info, row, maxdepth, currentdepth + 1);
      } else if t.right.value == Some(row[col]) {
        PredictionTotal(t.right, parts[0], feats, budget - 1, info, row, maxdepth, currentdepth + 1);
      }
    }
  }

  /** A negative depth budget never reaches 1, so every split node has both
      children, and a query whose maxdepth lies above the current depth
      never stops early: predicting a row of the table's width raises
      nothing. */
  lemma {:induction false} UnboundedPredictionTotal(t: View, data: seq<Row>, feats: seq<string>, budget: int,
                                                    info: Measure, row: Row, maxdepth: int, currentdepth: int)
    requires |feats| >= 2 && Rect(data, |feats|) && Grown(t, data, feats, budget, info)
    requires budget < 0 && maxdepth < currentdepth && |row| == |feats|
    ensures Prediction(t, feats, row, maxdepth, currentdepth).Ok?
    decreases t
  {
    assert GrownNode(t, data, feats, budget, info);
    var c := Best(data, feats, info);
    if t.key != Some("leaf") {
      var col := Position(feats, c.att);
      var parts, vals := SplitData(data, col), Unique(Col(data, col));
      SelectRect(data, col, vals[1], |feats|);
      SelectRect(data, col, vals[0], |feats|);
      if t.left.value == Some(row[col]) {
        UnboundedPredictionTotal(t.left, parts[1], feats, budget - 1, info, row, maxdepth, currentdepth + 1);
      } else if t.right.value == Some(row[col]) {
        UnboundedPredictionTotal(t.right, parts[0], feats, budget - 1, info, row, maxdepth, currentdepth + 1);
      }
    }
  }

  /** Columns that hold one value in every row. */
  ghost predicate Settled(data: seq<Row>, feats: seq<string>, used: set<nat>)
    requires Rect(data, |feats|)
  {
    forall k :: k in used ==> k < |feats| - 1 && AllSame(Col(data, k))
  }

  /** A set of naturals below n that misses one of them has fewer than n
      members. */
  lemma {:induction false} RangeBound(s: set<nat>, n: nat, j: nat)
    requires j < n && forall k :: k in s ==> k < n
    ensures j !in s ==> |s| < n
    decreases n
  {
    if j !in s {
      var s' := s - {n - 1};
      if n - 1 in s {
        assert s == s' + {n - 1};
      } else {
        assert s == s';
      }
      if j == n - 1 {
        if n - 1 > 0 {
          RangeBound(s', n - 1, n - 2);
          if n - 2 in s' {
            WithinBound(s', n - 1);
          }
        } else {
          assert s' == {};
        }
      } else {
        RangeBound(s', n - 1, j);
      }
    }
  }

  /** A set of naturals below n has at most n members. */
  lemma {:induction false} WithinBound(s: set<nat>, n: nat)
    requires forall k :: k in s ==> k < n
    ensures |s| <= n
    decreases n
  {
    if n == 0 {
      assert s == {};
    } else {
      var s' := s - {n - 1};
      if n - 1 in s {
        assert s == s' + {n - 1};
      } else {
        assert s == s';
      }
      WithinBound(s', n - 1);
    }
  }

  /** With every attribute column settled, no attribute carries
      information, so the best gain is 0. */
  lemma AllSettledNoGain(data: seq<Row>, feats: seq<string>, log2: real -> real, used: set<nat>)
    requires |feats| >= 2 && Rect(data, |feats|) && Settled(data, feats, used)
    ensures |used| >= |feats| - 1 ==> Best(data, feats, Info(log2)).gain <= 0.0
  {
    if |used| >= |feats| - 1 {
      BestIsLastMaximum(data, feats, Info(log2));
      var c := Best(data, feats, Info(log2));
      var k :| 0 <= k < |feats| - 1 && c.att == feats[k] && c.gain == Info(log2)(data, k);
      RangeBound(used, |feats| - 1, k);
    }
  }

  /** The rows holding v in one column keep every column that was settled. */
  lemma SelectSettled(data: seq<Row>, feats: seq<string>, used: set<nat>, col: nat, v: string)
    requires Rect(data, |feats|) && col < |feats| && Settled(data, feats, used)
    ensures Rect(Select(data, col, v), |feats|) && Settled(Select(data, col, v), feats, used)
  {
    var s := Select(data, col, v);
    SelectRect(data, col, v, |feats|);
    forall k | k in used ensures AllSame(Col(s, k)) {
      forall i, j | 0 <= i < |s| && 0 <= j < |s| ensures Col(s, k)[i] == Col(s, k)[j] {
        var a :| 0 <= a < |data| && data[a] == s[i];
        var b :| 0 <= b < |data| && data[b] == s[j];
        assert Col(data, k)[a] == Col(data, k)[b];
      }
    }
  }

  /** A split node's column is an attribute column that splits its rows
      in two, and both parts settle it on top of what was settled. */
  lemma SettleSplit(t: View, data: seq<Row>, feats: seq<string>, budget: int, log2: real -> real,
                    used: set<nat>)
    requires |feats| >= 2 && Rect(data, |feats|) && Settled(data, feats, used)
    requires Grown(t, data, feats, budget, Info(log2)) && t.key != Some("leaf")
    ensures var c := Best(data, feats, Info(log2));
      && c.gain > 0.0 && c.att in feats
      && var col := Position(feats, c.att);
      var parts := SplitData(data, col);
      && col < |feats| - 1 && col !in used && |parts| == 2
      && Rect(parts[0], |feats|) && Rect(parts[1], |feats|)
      && Settled(parts[0], feats, used + {col}) && Settled(parts[1], feats, used + {col})
  {
    assert GrownNode(t, data, feats, budget, Info(log2));
    var c := Best(data, feats, Info(log2));
    BestColumn(data, feats, Info(log2));
    var col := Position(feats, c.att);
    var vals := Unique(Col(data, col));
    TwoParts(data, col, |feats|);
    SameUnique(Col(data, col));
    PartSettled(data, feats, used, col, vals[0]);
    PartSettled(data, feats, used, col, vals[1]);
  }

  /** The best attribute names an attribute column, not the label's. */
  lemma BestColumn(data: seq<Row>, feats: seq<string>, info: Measure)
    requires |feats| >= 2 && Rect(data, |feats|)
    ensures Best(data, feats, info).att in feats && Position(feats, Best(data, feats, info).att) < |feats| - 1
  {
    BestIsLastMaximum(data, feats, info);
  }

  /** The rows holding v in an attribute column settle that column too. */
  lemma PartSettled(data: seq<Row>, feats: seq<string>, used: set<nat>, col: nat, v: string)
    requires Rect(data, |feats|) && col < |feats| - 1 && Settled(data, feats, used)
    ensures Rect(Select(data, col, v), |feats|) && Settled(Select(data, col, v), feats, used + {col})
  {
    var s := Select(data, col, v);
    SelectSettled(data, feats, used, col, v);
    forall i, j | 0 <= i < |s| && 0 <= j < |s| ensures Col(s, col)[i] == Col(s, col)[j] {
    }
  }

  /** Below a node where at least |feats| - m attribute columns are
      settled, m being the clamped budget, no split node lacks its
      children: each split settles one more column, and with every
      attribute column settled nothing carries information. So with
      mutualInfo as the measure, predicting a row of the table's width
      raises nothing, whatever depths the query uses. */
  lemma {:induction false} SettledPredictionTotal(t: View, data: seq<Row>, feats: seq<string>, budget: int,
                                                  log2: real -> real, used: set<nat>, row: Row,
                                                  maxdepth: int, currentdepth: int)
    requires |feats| >= 2 && Rect(data, |feats|) && Grown(t, data, feats, budget, Info(log2))
    requires Settled(data, feats, used) && |used| + Clamp(budget, feats) >= |feats|
    requires |row| == |feats|
    ensures Prediction(t, feats, row, maxdepth, currentdepth).Ok?
    decreases t
  {
    if t.key != Some("leaf") && maxdepth != currentdepth {
      var col, left, right, more := SettledStep(t, data, feats, budget, log2, used);
      var m := Clamp(budget, feats) - 1;
      PredictionDescends(t, feats, row, maxdepth, currentdepth, col);
      if t.left.value == Some(row[col]) {
        SettledPredictionTotal(t.left, left, feats, m, log2, more, row, maxdepth, currentdepth + 1);
      } else if t.right.value == Some(row[col]) {
        SettledPredictionTotal(t.right, right, feats, m, log2, more, row, maxdepth, currentdepth + 1);
      }
    }
  }

  /** prediction at a split node on a column the row has, with both
      children present, follows the child whose value the row holds. */
  lemma PredictionDescends(t: View, feats: seq<string>, row: Row, maxdepth: int, currentdepth: int, col: nat)
    requires t.View? && t.key != Some("leaf") && maxdepth != currentdepth
    requires t.key.Some? && t.key.value in feats && Position(feats, t.key.value) == col < |row|
    requires t.left.View? && t.right.View?
    ensures Prediction(t, feats, row, maxdepth, currentdepth).Ok? <==>
      if t.left.value == Some(row[col]) then Prediction(t.left, feats, row, maxdepth, currentdepth + 1).Ok?
      else t.right.value != Some(row[col]) || Prediction(t.right, feats, row, maxdepth, currentdepth + 1).Ok?
  {
  }

  /** One step down a split node below settled columns: the node splits
      on an unsettled column col and has both children, each grown from
      its part with one level less, and each part settles col too. */
  lemma SettledStep(t: View, data: seq<Row>, feats: seq<string>, budget: int, log2: real -> real, used: set<nat>)
    returns (col: nat, left: seq<Row>, right: seq<Row>, more: set<nat>)
    requires |feats| >= 2 && Rect(data, |feats|) && Grown(t, data, feats, budget, Info(log2))
    requires Settled(data, feats, used) && |used| + Clamp(budget, feats) >= |feats|
    requires t.key != Some("leaf")
    ensures col < |feats| && t.key.Some? && t.key.value in feats && Position(feats, t.key.value) == col
    ensures t.left.View? && t.right.View?
    ensures Rect(left, |feats|) && Rect(right, |feats|)
    ensures Grown(t.left, left, feats, Clamp(budget, feats) - 1, Info(log2))
    ensures Grown(t.right, right, feats, Clamp(budget, feats) - 1, Info(log2))
    ensures Settled(left, feats, more) && Settled(right, feats, more)
    ensures |more| + Clamp(Clamp(budget, feats) - 1, feats) >= |feats|
  {
    SettleSplit(t, data, feats, budget, log2, used);
    var c := Best(data, feats, Info(log2));
    col := Position(feats, c.att);
    var parts := SplitData(data, col);
    more := used + {col};
    assert |more| == |used| + 1;
    AllSettledNoGain(data, feats, log2, used);
    GrownSubtrees(t, data, feats, budget, Info(log2));
    left, right := parts[1], parts[0];
  }

  /** The children of a split node with children are grown from its two
      parts with one level less. */
  lemma GrownSubtrees(t: View, data: seq<Row>, feats: seq<string>, budget: int, info: Measure)
    requires |feats| >= 2 && Rect(data, |feats|) && Grown(t, data, feats, budget, info)
    requires t.key != Some("leaf") && Clamp(budget, feats) != 1
    ensures var c := Best(data, feats, info);
      && c.att in feats && t.key == Some(c.att) && t.left.View? && t.right.View?
      && var parts := SplitData(data, Position(feats, c.att));
      && |parts| == 2 && Rect(parts[0], |feats|) && Rect(parts[1], |feats|)
      && Grown(t.left, parts[1], feats, Clamp(budget, feats) - 1, info)
      && Grown(t.right, parts[0], feats, Clamp(budget, feats) - 1, info)
  {
    assert GrownNode(t, data, feats, budget, info);
    var c := Best(data, feats, info);
    var col := Position(feats, c.att);
    TwoParts(data, col, |feats|);
  }

  /** The script's own query: decisionTree.py passes the depth it gave
      buildTree, unclamped, to prediction from depth 1. A tree grown with
      mutualInfo and any non-zero depth predicts every row of the table's
      width without raising. */
  lemma ScriptPredictionTotal(t: View, data: seq<Row>, feats: seq<string>, maxdepth: int, log2: real -> real,
                              row: Row)
    requires |feats| >= 2 && Rect(data, |feats|) && Grown(t, data, feats, maxdepth, Info(log2))
    requires maxdepth != 0 && |row| == |feats|
    ensures Prediction(t, feats, row, maxdepth, 1).Ok?
  {
    if maxdepth < 0 {
      UnboundedPredictionTotal(t, data, feats, maxdepth, Info(log2), row, maxdepth, 1);
    } else if maxdepth <= |feats| + 1 {
      PredictionTotal(t, data, feats, maxdepth, Info(log2), row, maxdepth, 1);
    } else {
      SettledPredictionTotal(t, data, feats, maxdepth, log2, {}, row, maxdepth, 1);
    }
  }

  /** What the script predicts for what buildTree returned: with depth 0 a
      label, on which every query raises AttributeError; otherwise a tree
      grown with mutualInfo, on which no query of the table's width raises. */
  lemma BuiltPrediction(b: Built, data: seq<Row>, feats: seq<string>, maxdepth: int, log2: real -> real, row: Row)
    requires |feats| >= 2 && Rect(data, |feats|)
    requires b.Label? <==> maxdepth == 0
    requires b.Tree? ==> b.node.Valid() && Grown(Abs(b.node), data, feats, maxdepth, Info(log2))
    ensures maxdepth == 0 ==> PredictBuilt(b, feats, row, maxdepth, 1) == Err(AttributeError)
    ensures maxdepth != 0 && |row| == |feats| ==> PredictBuilt(b, feats, row, maxdepth, 1).Ok?
  {
    if maxdepth != 0 && |row| == |feats| {
      ScriptPredictionTotal(Abs(b.node), data, feats, maxdepth, log2, row);
    }
  }
}
