/** The k-fold cross-validation of sanityCheckID3/main-kfold.py: the data set
    dealt round robin into k partitions, one tree per held-out partition
    trained on the others, and the average accuracy over the folds. */
module KFold {
  import opened Outcomes
  import opened Data
  import opened Id3

  // ---------------------------------------------------------------------------
  // Integer division facts for the round robin
  // ---------------------------------------------------------------------------

  lemma {:induction false} MulGrows(k: nat, d: nat)
    requires d >= 1
    ensures k * d >= k
  {
    if d > 1 {
      MulGrows(k, d - 1);
      assert k * d == k * (d - 1) + k;
    }
  }

  /** Quotient and remainder are the only pair with n == k * q + r, 0 <= r < k. */
  lemma DivModUnique(n: int, k: nat, q: int, r: int)
    requires k > 0 && 0 <= r < k && n == k * q + r
    ensures n / k == q && n % k == r
  {
    var q', r' := n / k, n % k;
    assert n == k * q' + r';
    assert k * (q - q') == r' - r;
    if q > q' {
      MulGrows(k, q - q');
    } else if q < q' {
      assert k * (q' - q) == r - r';
      MulGrows(k, q' - q);
    }
  }

  /** One more example: the position modulo k moves on by one and wraps at k. */
  lemma ModStep(j: nat, k: nat)
    requires k > 0
    ensures j % k == k - 1 ==> (j + 1) % k == 0 && (j + 1) / k == j / k + 1
    ensures j % k < k - 1 ==> (j + 1) % k == j % k + 1 && (j + 1) / k == j / k
  {
    var q, r := j / k, j % k;
    assert j == k * q + r;
    if r == k - 1 {
      DivModUnique(j + 1, k, q + 1, 0);
    } else {
      DivModUnique(j + 1, k, q, r + 1);
    }
  }

  // ---------------------------------------------------------------------------
  // k_value and the round robin
  // ---------------------------------------------------------------------------

  /** k_value after the check of main-kfold.py: anything up to 1 is replaced by 2. */
  function ClampK(k: int): (r: nat)
    ensures r >= 2
    ensures k >= 2 ==> r == k
  {
    if k <= 1 then 2 else k
  }

  /** The partition p of the round robin: the examples of xs at the
      positions congruent to p modulo k, in their order. */
  function Bucket(xs: seq<Example>, k: nat, p: nat): (r: seq<Example>)
    requires k > 0
    decreases |xs|
  {
    if |xs| == 0 then []
    else Bucket(xs[..|xs| - 1], k, p) + (if (|xs| - 1) % k == p then [xs[|xs| - 1]] else [])
  }

  lemma BucketNext(xs: seq<Example>, j: nat, k: nat, p: nat)
    requires k > 0 && j < |xs|
    ensures Bucket(xs[..j + 1], k, p) == Bucket(xs[..j], k, p) + (if j % k == p then [xs[j]] else [])
  {
    assert xs[..j + 1][..j] == xs[..j];
  }

  /** Partition p receives |xs| / k examples, plus one when it is among the
      first |xs| % k partitions. */
  lemma {:induction false} BucketSize(xs: seq<Example>, k: nat, p: nat)
    requires p < k
    ensures |Bucket(xs, k, p)| == |xs| / k + (if p < |xs| % k then 1 else 0)
    decreases |xs|
  {
    if |xs| == 0 {
      DivModUnique(0, k, 0, 0);
    } else {
      BucketSize(xs[..|xs| - 1], k, p);
      ModStep(|xs| - 1, k);
    }
  }

  /** The partition sizes differ by at most one, the earlier ones being the
      larger. */
  lemma BucketsBalanced(xs: seq<Example>, k: nat, p: nat, q: nat)
    requires p < q < k
    ensures |Bucket(xs, k, q)| <= |Bucket(xs, k, p)| <= |Bucket(xs, k, q)| + 1
  {
    BucketSize(xs, k, p);
    BucketSize(xs, k, q);
  }

  /** With fewer examples than partitions the last partition stays empty. */
  lemma LastBucketEmpty(xs: seq<Example>, k: nat)
    requires 0 < k && |xs| < k
    ensures Bucket(xs, k, k - 1) == []
  {
    BucketSize(xs, k, k - 1);
    DivModUnique(|xs|, k, 0, |xs|);
  }

  /** Example j of xs sits at position j / k of partition j % k: each
      example lands in one partition, and a partition keeps the order of xs. */
  lemma {:induction false} BucketPositions(xs: seq<Example>, k: nat)
    requires k > 0
    ensures forall j :: 0 <= j < |xs| ==> j / k < |Bucket(xs, k, j % k)| && Bucket(xs, k, j % k)[j / k] == xs[j]
    decreases |xs|
  {
    if |xs| > 0 {
      var n := |xs| - 1;
      BucketPositions(xs[..n], k);
      forall j | 0 <= j < |xs|
        ensures j / k < |Bucket(xs, k, j % k)| && Bucket(xs, k, j % k)[j / k] == xs[j]
      {
        assert Bucket(xs, k, j % k) == Bucket(xs[..n], k, j % k) + (if n % k == j % k then [xs[n]] else []);
        if j < n {
          assert xs[..n][j] == xs[j];
        } else {
          BucketSize(xs[..n], k, n % k);
        }
      }
    }
  }

  /** No two partitions are the same object. */
  ghost predicate Distinct(parts: seq<DataSet>) {
    forall p, q :: 0 <= p < q < |parts| ==> parts[p] != parts[q]
  }

  /** The k empty data sets, then the examples of data handed out round robin
      until the examples run out. */
  method RoundRobin(data: DataSet, k: nat) returns (parts: seq<DataSet>)
    requires k > 0
    ensures |parts| == k && Distinct(parts)
    ensures forall p :: 0 <= p < k ==> fresh(parts[p])
    ensures forall p :: 0 <= p < k ==> parts[p].allExamples == Bucket(data.allExamples, k, p)
  {
    parts := [];
    var i := 0;
    while i < k
      invariant i <= k && |parts| == i && Distinct(parts)
      invariant forall p :: 0 <= p < i ==> fresh(parts[p]) && parts[p].allExamples == []
    {
      var d := new DataSet();
      parts := parts + [d];
      i := i + 1;
    }
    var xs := data.allExamples;
    var j := 0;
    while j < |xs|
      invariant j <= |xs| && (j < |xs| ==> j % k == 0)
      invariant Distinct(parts) && forall p :: 0 <= p < k ==> fresh(parts[p])
      invariant forall p :: 0 <= p < k ==> parts[p].allExamples == Bucket(xs[..j], k, p)
      decreases |xs| - j
    {
      ghost var j0 := j;
      var p := 0;
      while p < k && j < |xs|
        invariant p <= k && j <= |xs| && j == j0 + p && j % k == (if p == k then 0 else p)
        invariant Distinct(parts) && forall q :: 0 <= q < k ==> fresh(parts[q])
        invariant forall q :: 0 <= q < k ==> parts[q].allExamples == Bucket(xs[..j], k, q)
      {
        ModStep(j, k);
        parts[p].Append(xs[j]);
        forall q | 0 <= q < k
          ensures parts[q].allExamples == Bucket(xs[..j + 1], k, q)
        {
          BucketNext(xs, j, k, q);
        }
        j := j + 1;
        p := p + 1;
      }
    }
    assert xs[..j] == xs;
  }

  // ---------------------------------------------------------------------------
  // The folds
  // ---------------------------------------------------------------------------

  function Contents(parts: seq<DataSet>): (r: seq<seq<Example>>)
    reads set d | d in parts
    ensures |r| == |parts| && forall i :: 0 <= i < |parts| ==> r[i] == parts[i].allExamples
  {
    seq(|parts|, i requires 0 <= i < |parts| reads parts => parts[i].allExamples)
  }

  /** The training examples of fold f: every partition but the f-th, in
      partition order. */
  function Others(bs: seq<seq<Example>>, f: nat): (r: seq<Example>)
    decreases |bs|
  {
    if |bs| == 0 then []
    else Others(bs[..|bs| - 1], f) + (if |bs| - 1 == f then [] else bs[|bs| - 1])
  }

  function TotalSize(bs: seq<seq<Example>>): nat
    decreases |bs|
  {
    if |bs| == 0 then 0 else TotalSize(bs[..|bs| - 1]) + |bs[|bs| - 1]|
  }

  /** The training set holds every example but those held out. */
  lemma {:induction false} OthersSize(bs: seq<seq<Example>>, f: nat)
    requires f < |bs|
    ensures |Others(bs, f)| == TotalSize(bs) - |bs[f]|
    decreases |bs|
  {
    var n := |bs| - 1;
    if f < n {
      OthersSize(bs[..n], f);
    } else {
      OthersAll(bs[..n], f);
    }
  }

  lemma {:induction false} OthersAll(bs: seq<seq<Example>>, f: nat)
    requires |bs| <= f
    ensures |Others(bs, f)| == TotalSize(bs)
    decreases |bs|
  {
    if |bs| > 0 {
      OthersAll(bs[..|bs| - 1], f);
    }
  }

  /** The first m partitions of the round robin. */
  function Buckets(xs: seq<Example>, k: nat, m: nat): (r: seq<seq<Example>>)
    requires k > 0
    ensures |r| == m && forall p :: 0 <= p < m ==> r[p] == Bucket(xs, k, p)
  {
    if m == 0 then [] else Buckets(xs, k, m - 1) + [Bucket(xs, k, m - 1)]
  }

  /** One more example adds one to exactly the partition its position
      selects. */
  lemma BucketsTotalSnoc(xs: seq<Example>, k: nat, m: nat)
    requires 0 < k && |xs| > 0
    ensures TotalSize(Buckets(xs, k, m)) ==
      TotalSize(Buckets(xs[..|xs| - 1], k, m)) + (if (|xs| - 1) % k < m then 1 else 0)
  {
    var q := (|xs| - 1) % k;
    var now, before := Buckets(xs, k, m), Buckets(xs[..|xs| - 1], k, m);
    forall p | 0 <= p < m
      ensures |now[p]| == |before[p]| + (if p == q then 1 else 0)
    {
      BucketLast(xs, k, p);
    }
    TotalSizeBump(now, before, q);
  }

  /** Growing one entry by one grows the total by one. */
  lemma {:induction false} TotalSizeBump(bs: seq<seq<Example>>, cs: seq<seq<Example>>, q: int)
    requires |bs| == |cs|
    requires forall p :: 0 <= p < |bs| ==> |bs[p]| == |cs[p]| + (if p == q then 1 else 0)
    ensures TotalSize(bs) == TotalSize(cs) + (if 0 <= q < |bs| then 1 else 0)
    decreases |bs|
  {
    if |bs| > 0 {
      var n := |bs| - 1;
      TotalSizeBump(bs[..n], cs[..n], q);
    }
  }

  /** The last example lengthens exactly the partition its position selects. */
  lemma BucketLast(xs: seq<Example>, k: nat, p: nat)
    requires 0 < k && |xs| > 0
    ensures |Bucket(xs, k, p)| == |Bucket(xs[..|xs| - 1], k, p)| + (if (|xs| - 1) % k == p then 1 else 0)
  {
  }

  /** Together the k partitions hold as many examples as the data set. */
  lemma {:induction false} BucketsHoldAll(xs: seq<Example>, k: nat)
    requires 0 < k
    ensures TotalSize(Buckets(xs, k, k)) == |xs|
    decreases |xs|
  {
    if |xs| == 0 {
      BucketsEmpty(xs, k, k);
    } else {
      BucketsHoldAll(xs[..|xs| - 1], k);
      BucketsTotalSnoc(xs, k, k);
    }
  }

  lemma {:induction false} BucketsEmpty(xs: seq<Example>, k: nat, m: nat)
    requires 0 < k && |xs| == 0
    ensures TotalSize(Buckets(xs, k, m)) == 0
  {
    if m > 0 {
      assert Buckets(xs, k, m)[..m - 1] == Buckets(xs, k, m - 1);
      BucketsEmpty(xs, k, m - 1);
    }
  }

  /** A held-out partition's training set has |xs| minus its own size
      examples. */
  lemma TrainingSize(xs: seq<Example>, k: nat, f: nat)
    requires f < k
    ensures |Others(Buckets(xs, k, k), f)| == |xs| - |Bucket(xs, k, f)|
  {
    OthersSize(Buckets(xs, k, k), f);
    BucketsHoldAll(xs, k);
  }

  /** train_set: a new data set extended with every partition that is not
      the held-out object, in partition order. */
  method TrainingSet(parts: seq<DataSet>, f: nat) returns (train: DataSet)
    requires f < |parts| && Distinct(parts)
    ensures fresh(train) && train.allExamples == Others(Contents(parts), f)
  {
    ghost var bs := Contents(parts);
    var examples: seq<Example> := [];
    var i := 0;
    while i < |parts|
      invariant i <= |parts|
      invariant examples == Others(bs[..i], f)
    {
      assert bs[..i + 1][..i] == bs[..i];
      if parts[i] != parts[f] {
        examples := examples + parts[i].allExamples;
      }
      i := i + 1;
    }
    assert bs[..i] == bs;
    train := new DataSet();
    train.allExamples := examples;
  }

  /** accuracy = correct * 100 / len(testing_partition). */
  function Accuracy(correct: nat, size: nat): (r: Result<real>)
    ensures size == 0 <==> r == Err(ZeroDivisionError)
    ensures 0 < size && correct <= size ==> r.Ok? && 0.0 <= r.value <= 100.0
  {
    if size == 0 then Err(ZeroDivisionError)
    else Ok((correct as real) * 100.0 / (size as real))
  }

  /** The mean of k accuracies, each between 0 and 100, is between 0 and
      100. */
  lemma MeanBound(sum: real, k: nat)
    requires 0 < k && 0.0 <= sum <= 100.0 * (k as real)
    ensures 0.0 <= sum / (k as real) <= 100.0
  {
  }

  /** The training half of a fold: a tree learned, with the candidates
      starting, from a new data set holding every partition but the f-th in
      partition order. root is the node id3 worked on. */
  method Fold(parts: seq<DataSet>, f: nat, classifier: Attribute, starting: seq<Attribute>,
              log2: real -> real) returns (learned: Result<DTree>, ghost root: Node)
    requires f < |parts| && Distinct(parts) && classifier !in starting
    modifies classifier, set b | b in starting
    ensures fresh(root) && root.Valid()
    ensures root.dataSet.allExamples == Others(old(Contents(parts)), f)
    ensures Id3Result(root, starting, old(Schema(starting)), [], if learned.Ok? then Pass else Fail(learned.error),
                      classifier.name, old(classifier.values), log2)
    ensures learned.Ok? ==> fresh(learned.value) && learned.value.decisionTree == root
    ensures learned.Ok? ==> learned.value.classifier == classifier && learned.value.attributes == starting
    ensures learned.Ok? ==> learned.value.trainingData == root.dataSet
  {
    var train := TrainingSet(parts, f);
    learned, root := Learn(classifier, train, starting, log2);
  }

  /** One fold: a tree learned from every partition but the f-th, in
      partition order, with the candidates starting, and its accuracy on the
      f-th, that is the share of the f-th partition's examples the tree
      classifies correctly; an empty held-out partition divides by zero.
      tree is the learned tree. */
  method HoldOut(parts: seq<DataSet>, f: nat, classifier: Attribute, starting: seq<Attribute>,
                 log2: real -> real) returns (r: Result<real>, ghost tree: DTree?)
    requires f < |parts| && Distinct(parts) && classifier !in starting
    modifies classifier, set b | b in starting
    ensures r.Ok? ==> 0.0 <= r.value <= 100.0
    ensures old(parts[f].allExamples) == [] ==> r.Err?
    ensures r.Ok? ==> tree != null && fresh(tree) && tree.classifier == classifier && tree.attributes == starting &&
                      tree.trainingData.allExamples == Others(old(Contents(parts)), f)
    ensures r.Ok? ==> tree != null && tree.decisionTree.Valid() &&
                      CorrectCount(tree.decisionTree, classifier, parts[f].allExamples).Ok? &&
                      r == Accuracy(CorrectCount(tree.decisionTree, classifier, parts[f].allExamples).value,
                                    |parts[f].allExamples|)
  {
    var learned;
    ghost var root;
    learned, root := Fold(parts, f, classifier, starting, log2);
    if learned.Err? {
      return Err(learned.error), null;
    }
    tree := learned.value;
    var correct := learned.value.Test(classifier, parts[f]);
    if correct.Err? {
      return Err(correct.error), tree;
    }
    r := Accuracy(correct.value, |parts[f].allExamples|);
  }

  /** The sum of the accuracies, in the order they were added. */
  function Sum(accs: seq<real>): real
    decreases |accs|
  {
    if |accs| == 0 then 0.0 else Sum(accs[..|accs| - 1]) + accs[|accs| - 1]
  }

  /** a is the accuracy of some number of correct answers, at most size, on
      a partition of size examples. */
  ghost predicate Scored(a: real, size: nat) {
    exists c: nat :: ScoredBy(c, a, size)
  }

  /** a is the accuracy of c correct answers out of size. */
  ghost predicate ScoredBy(c: nat, a: real, size: nat) {
    c <= size && Accuracy(c, size) == Ok(a)
  }

  /** The body of the loop over the partitions: fold f's accuracy, which is
      that of some number of correct answers on the held-out partition, and
      the tree learned for it from the other partitions with the candidates
      starting. */
  method NextFold(parts: seq<DataSet>, f: nat, classifier: Attribute, starting: seq<Attribute>,
                  log2: real -> real) returns (r: Result<real>, ghost tree: DTree?, ghost correct: nat)
    requires f < |parts| && Distinct(parts) && classifier !in starting
    modifies classifier, set b | b in starting
    ensures forall p :: 0 <= p < |parts| ==> parts[p].allExamples == old(parts[p].allExamples)
    ensures r.Ok? ==> ScoredBy(correct, r.value, |parts[f].allExamples|) && 0.0 <= r.value <= 100.0
    ensures old(parts[f].allExamples) == [] ==> r.Err?
    ensures r.Ok? ==> tree != null && tree.classifier == classifier && tree.attributes == starting
  {
    r, tree := HoldOut(parts, f, classifier, starting, log2);
    correct := 0;
    if r.Ok? {
      correct := CorrectCount(tree.decisionTree, classifier, parts[f].allExamples).value;
    }
  }

  /** The loop over the partitions: each in turn is held out and scored on a
      tree learned from the others with the candidates starting, and the
      accuracies are added up; buckets are the partitions' contents. The
      result is their sum, accs are the fold accuracies and trees the
      learned trees, fold by fold. A partition with no example ends the loop
      with ZeroDivisionError at the latest. */
  method SumFolds(parts: seq<DataSet>, ghost buckets: seq<seq<Example>>, classifier: Attribute, starting: seq<Attribute>,
                  log2: real -> real) returns (r: Result<real>, ghost accs: seq<real>, ghost trees: seq<DTree>)
    requires |parts| == |buckets| > 0 && Distinct(parts) && classifier !in starting
    requires forall p :: 0 <= p < |parts| ==> parts[p].allExamples == buckets[p]
    modifies classifier, set b | b in starting
    ensures (exists p :: 0 <= p < |parts| && buckets[p] == []) ==> r.Err?
    ensures r.Ok? ==> |accs| == |trees| == |parts| && r.value == Sum(accs)
    ensures r.Ok? ==> 0.0 <= r.value <= 100.0 * (|parts| as real)
    ensures r.Ok? ==> forall f :: 0 <= f < |accs| ==> Scored(accs[f], |buckets[f]|)
    ensures r.Ok? ==> forall f :: 0 <= f < |trees| ==> trees[f].classifier == classifier && trees[f].attributes == starting
  {
    var k := |parts|;
    accs, trees := [], [];
    ghost var corrects: seq<nat> := [];
    var sum := 0.0;
    var f := 0;
    while f < k
      invariant f <= k && 0.0 <= sum <= 100.0 * (f as real)
      invariant forall p :: 0 <= p < k ==> parts[p].allExamples == buckets[p]
      invariant forall p :: 0 <= p < f ==> buckets[p] != []
      invariant |accs| == |trees| == |corrects| == f && sum == Sum(accs)
      invariant forall j :: 0 <= j < f ==> ScoredBy(corrects[j], accs[j], |buckets[j]|)
      invariant forall j :: 0 <= j < f ==> trees[j].classifier == classifier && trees[j].attributes == starting
    {
      var accuracy;
      ghost var tree, correct;
      accuracy, tree, correct := NextFold(parts, f, classifier, starting, log2);
      if accuracy.Err? {
        return Err(accuracy.error), accs, trees;
      }
      assert (accs + [accuracy.value])[..f] == accs;
      sum := sum + accuracy.value;
      accs, trees, corrects := accs + [accuracy.value], trees + [tree], corrects + [correct];
      f := f + 1;
    }
    forall j | 0 <= j < k ensures Scored(accs[j], |buckets[j]|) {
      assert ScoredBy(corrects[j], accs[j], |buckets[j]|);
    }
    return Ok(sum), accs, trees;
  }

  /** The round robin deal of CrossValidate, with the partitions' contents
      as buckets: with fewer examples than partitions the last is empty. */
  method Deal(data: DataSet, k: nat) returns (parts: seq<DataSet>, ghost buckets: seq<seq<Example>>)
    requires k > 0
    ensures |parts| == |buckets| == k && Distinct(parts)
    ensures forall p :: 0 <= p < k ==> fresh(parts[p]) && parts[p].allExamples == buckets[p]
    ensures forall p :: 0 <= p < k ==> buckets[p] == Bucket(data.allExamples, k, p)
    ensures |data.allExamples| < k ==> buckets[k - 1] == []
  {
    parts := RoundRobin(data, k);
    buckets := Buckets(data.allExamples, k, k);
    if |data.allExamples| < k {
      LastBucketEmpty(data.allExamples, k);
    }
  }

  /** The module-level run of main-kfold.py after the data set is loaded:
      the candidates are all attributes but the classifier, k is clamped,
      the examples are dealt round robin, and every partition in turn is
      held out and scored on a tree learned from the others with those
      candidates; the result is the sum of the fold accuracies accs divided
      by k. trees are the learned trees, fold by fold. */
  method CrossValidate(data: DataSet, classifier: Attribute, allAttributes: seq<Attribute>, kValue: int,
                       log2: real -> real) returns (r: Result<real>, ghost accs: seq<real>, ghost trees: seq<DTree>)
    requires var m: multiset<Attribute> := multiset(allAttributes); m[classifier] <= 1
    modifies classifier, set b | b in allAttributes
    ensures classifier !in allAttributes ==> r == Err(ValueError)
    ensures r.Ok? ==> 0.0 <= r.value <= 100.0
    ensures |data.allExamples| < ClampK(kValue) ==> r.Err?
    ensures r.Ok? ==> |accs| == |trees| == ClampK(kValue) && r.value == Sum(accs) / (|accs| as real)
    ensures r.Ok? ==> forall f :: 0 <= f < |accs| ==> Scored(accs[f], |Bucket(data.allExamples, |accs|, f)|)
    ensures r.Ok? ==> forall f :: 0 <= f < |trees| ==>
      trees[f].classifier == classifier && trees[f].attributes == RemoveFirst(allAttributes, classifier)
  {
    accs, trees := [], [];
    if classifier !in allAttributes {
      return Err(ValueError), accs, trees;
    }
    var starting: seq<Attribute> := RemoveFirst(allAttributes, classifier);
    RemoveFirstMultiset(allAttributes, classifier);
    assert classifier !in multiset(starting);
    var k := ClampK(kValue);
    var parts;
    ghost var buckets;
    parts, buckets := Deal(data, k);
    if |data.allExamples| < k {
      assert buckets[k - 1] == [];
    }
    var sum;
    sum, accs, trees := SumFolds(parts, buckets, classifier, starting, log2);
    if sum.Err? {
      return Err(sum.error), accs, trees;
    }
    MeanBound(sum.value, k);
    return Ok(sum.value / (k as real)), accs, trees;
  }
}
