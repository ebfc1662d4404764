# Two ID3 decision-tree learners, modelled in Dafny

This project models the discrete logic of two small ID3 decision-tree
learners:

- **sanityCheckID3** is a multi-way ID3 learner. Its parts are:
  - **Examples and data sets.** `Example` checks a data line against the
    attributes' legal values and looks values up. `DataSet` loads lines and
    holds, appends and indexes examples. It also computes `entropy` (with the
    dominant classifier value), `remainder`, `gain` and `partial_count`.
  - **The tree.** `DTree.id3` grows a tree in place from `Node` records:
    - a pure node becomes a leaf;
    - otherwise the learner splits on the attribute of highest gain, with
      ties going to the smallest name;
    - it adds one child per sorted value;
    - an empty value subset, and running out of attributes, fall back on
      `like_parent_like_child`, which walks the parent links.
  - **Testing.** `test_case` and `test` classify examples and count the
    correct ones.
  - **Cross-validation.** `main-kfold.py` deals the examples round robin
    into k partitions, learns one tree per held-out partition and averages
    the accuracies.
- **KaranDecisionTrees** is a binary, depth-bounded learner, and its parts
  are:
  - `splitData`, `maj_classifer` and `bestMutualInfo`;
  - `buildTree`, which creates linked `Node` objects;
  - `prediction`;
  - the baseline script `inspect.py`, which counts the two labels of a data
    file and reports their entropy and the majority-vote error rate.

Modules:

| file | module | models |
|---|---|---|
| common.dfy | `Outcomes` | `Option`, `Result`, and the Python exceptions as values |
| strings.dfy | `Text` | Python's string order, `list.sort`, `np.unique`, `rstrip`/`strip`, `split`, the `re.sub` of a data line |
| dataset.dfy | `Data` | `sanityCheckID3/dataset.py` |
| id3.dfy | `Id3` | `sanityCheckID3/id3.py` and `sanityCheckID3/node.py` |
| kfold.dfy | `KFold` | `sanityCheckID3/main-kfold.py` |
| binary.dfy | `Binary` | `KaranDecisionTrees/decisionTree.py` |
| inspect.dfy | `Inspect` | `KaranDecisionTrees/inspect.py` |

**How the model is written**
- **Exceptions.** Each exception the Python code raises is an `Err` or
  `Fail` value carrying the exception's kind, such as `KeyError`,
  `IndexError`, `TypeError`, `ValueError`, `AttributeError` or
  `ZeroDivisionError`. The message-and-exit of `Example.__init__` becomes a
  `SchemaError` naming the line.
- **Logarithm.** `log2` is a parameter, so entropy, remainder and gain are
  real-valued functions of it.
- **Float tests.** The code's exact tests `entropy == 0` and `entropy == 1`
  are the count predicates `ZeroEntropy`/`Pure` (one classifier value covers
  every example) and `EvenSplit` (two values each cover half).
- **Mutable state.**
  - Attributes are objects whose value list `sort()` changes in place.
  - Data sets, id3 nodes and binary-tree nodes are classes with the
    source's fields.
  - The methods that change them state the new state. The binary tree is
    also read back as a value, `View`, to state what `buildTree` built.

## Model

| member | source | states |
|---|---|---|
| Text.LessTotal | sanityCheckID3/id3.py:201-205 | Python's string order is total: of two different names one is always smaller, so the alphabetical tie-break always has an answer |
| Text.LessTransitive | sanityCheckID3/id3.py:201-205 | the string order is transitive |
| Text.AtMostAntisymmetric | sanityCheckID3/id3.py:201-205 | two names each at most the other are equal |
| Text.SortSpec | sanityCheckID3/id3.py:216 | `list.sort()` leaves the same values (a permutation, as multisets) in ascending order |
| Text.SortedUnique | sanityCheckID3/id3.py:216 | two sorted lists with the same values are equal, so the sorted order is determined by the values alone |
| Text.SortOfSorted | sanityCheckID3/dataset.py:199 | sorting a list that is already sorted changes nothing |
| Text.SortIdempotent | sanityCheckID3/dataset.py:199 | sorting twice gives the same list as sorting once, so repeated `partial_count` calls see one order |
| Text.SortSameMembers | sanityCheckID3/dataset.py:199 | sorting keeps exactly the members of the list |
| Text.SortHeadIsSmallest | sanityCheckID3/dataset.py:199-200 | after sorting, `values[0]` is at most every value of the list |
| Text.Unique | KaranDecisionTrees/decisionTree.py:71 | `np.unique` holds exactly the values of its input and is no longer than it |
| Text.UniqueStrict | KaranDecisionTrees/decisionTree.py:71 | `np.unique` is strictly ascending, hence free of duplicates |
| Text.RStrip | sanityCheckID3/dataset.py:52 | `rstrip` keeps a prefix of the line, drops only whitespace and leaves no trailing whitespace |
| Text.LStripUnicode | KaranDecisionTrees/inspect.py:12 | `strip` drops exactly the leading whitespace |
| Text.RStripUnicode | KaranDecisionTrees/inspect.py:12 | `strip` drops exactly the trailing whitespace |
| Text.SplitJoin | sanityCheckID3/dataset.py:54 | joining the fields of `split(sep)` with `sep` gives back the text, and no field contains `sep` |
| Text.AfterLastColon | sanityCheckID3/dataset.py:53 | the substitution leaves a text without `:`: all of the line when it has no `:`, otherwise exactly the text after its last `:` |
| Data.GetValue | sanityCheckID3/dataset.py:36-40 | succeeds exactly when the example has a value for the attribute's name, and raises KeyError otherwise |
| Data.GetValueEitherKey | sanityCheckID3/dataset.py:36-40 | an attribute given by name or as an Attribute object gives the same result, namely the stored value |
| Data.FirstUnknown | sanityCheckID3/dataset.py:25-31 | every value before the returned position is legal for its attribute, and the value at that position is not |
| Data.ExampleFromChecks | sanityCheckID3/dataset.py:16-31 | an example is built exactly when the number of values matches the attributes and every value is legal. A wrong count fails with that count for the line; every failure names the line |
| Data.ExampleFromValues | sanityCheckID3/dataset.py:24-32 | a built example maps exactly the attribute names, and each attribute to the value at its position (the last one, for a repeated name) |
| Data.NewExample | sanityCheckID3/dataset.py:16-32 | the loop that fills the dictionary gives the example, or the error, that the checks above define |
| Data.LineFieldsShape | sanityCheckID3/dataset.py:52-54 | a transformed line has at least one field, and no field holds `,` or `:` |
| Data.LineResults | sanityCheckID3/dataset.py:49-57 | line i (from 0) is read as the example built from its fields with line number i + 1 |
| Data.CollectOk | sanityCheckID3/dataset.py:51-57 | loading succeeds exactly when every line does, and keeps the examples in line order |
| Data.CollectFirstError | sanityCheckID3/dataset.py:51-57 | loading fails with the error of the first line that fails |
| Data.Index | sanityCheckID3/dataset.py:62-63 | `all_examples[key]` succeeds exactly for `-len <= key < len`, and raises IndexError otherwise |
| Data.IndexAfterAppend | sanityCheckID3/dataset.py:65-66 | after an append, earlier indices give the same example, the new one sits at index `len` and at -1, and the valid range grows by one |
| Data.DataSet.constructor | sanityCheckID3/dataset.py:46-47 | a new data set holds no example |
| Data.DataSet.Length | sanityCheckID3/dataset.py:59-60 | `__len__` is the number of examples |
| Data.DataSet.Get | sanityCheckID3/dataset.py:62-63 | `__getitem__` indexes the example list like a Python list |
| Data.DataSet.Append | sanityCheckID3/dataset.py:65-66 | adds exactly one example at the end: the length grows by one, the new example is at the old length, and earlier indices are unchanged |
| Data.DataSet.Load | sanityCheckID3/dataset.py:46-57 | a data set from the lines of a file holds exactly the parsed examples, or no data set is made and the first failing line's error is given |
| Data.DataSet.ReadExamples | sanityCheckID3/dataset.py:49-57 | the loop over lines yields the parse of every line in order, stopping at the first failure |
| Data.FilterMembers | sanityCheckID3/dataset.py:117 | the partial population holds exactly the examples having the value |
| Data.FilterAllHave | sanityCheckID3/dataset.py:157 | a subset of examples that all have a value for an attribute still all have one |
| Data.AllInFilter | sanityCheckID3/dataset.py:117 | a value held by as many examples as there are is held by every example |
| Data.Partition | sanityCheckID3/dataset.py:153-157 | when every example holds one of a duplicate-free list of values, the value subsets' sizes add up to the whole set |
| Data.SumOfPermutation | sanityCheckID3/dataset.py:113-129 | a sum over the classifier's values does not depend on their order |
| Data.LeaderOfSpec | sanityCheckID3/dataset.py:131-140 | there is no dominant value exactly when no value has an example. Otherwise the dominant value is the first value of largest non-zero count, with its count |
| Data.FirstMaxUnique | sanityCheckID3/dataset.py:131-140 | the first position of a largest count is unique |
| Data.DataSet.Entropy | sanityCheckID3/dataset.py:100-142 | `entropy` returns the entropy and dominant value of its examples, as `EntropyOf` defines them |
| Data.DataSet.EntropyPass | sanityCheckID3/dataset.py:113-140 | the loop fails (KeyError) exactly when there is a value and some example lacks the classifier. Otherwise it gives the sum of the terms and the first-seen leader |
| Data.DataSet.Accumulate | sanityCheckID3/dataset.py:117-140 | one pass adds the value's term, and makes the value dominant only when it has examples and strictly more than the current leader |
| Data.EntropyStep | sanityCheckID3/dataset.py:113-140 | extending the classifier's values by one adds that value's term to the sum and updates the leader as one pass does |
| Data.EntropyOfSpec | sanityCheckID3/dataset.py:100-142 | an empty set gives `(0.0, None)`. Entropy fails only with KeyError or TypeError, and succeeds exactly when the set is empty or every example has a classifier value and some value occurs. On success the dominant value is the first classifier value of largest count |
| Data.ZeroEntropyIsPure | sanityCheckID3/dataset.py:100-142 | a set of zero entropy (one value covers every example) is all of the first example's class, and that class is its dominant value |
| Data.EntropyOfPermutation | sanityCheckID3/dataset.py:113-129 | reordering the classifier's values changes neither whether entropy fails nor its value |
| Data.CountOfExampleOrder | sanityCheckID3/dataset.py:117-118 | the number of examples having a value does not depend on the order of the examples |
| Data.AllHaveExampleOrder | sanityCheckID3/dataset.py:117 | whether every example has a classifier value does not depend on the order of the examples |
| Data.EntropyOfExampleOrder | sanityCheckID3/dataset.py:100-142 | `entropy` (its errors, its value and its dominant value) is the same for any reordering of the data set's examples |
| Data.DataSet.PartialCount | sanityCheckID3/dataset.py:199-202 | sorts the classifier's values in place and returns the number of examples having the smallest of them |
| Data.SmallestCountSpec | sanityCheckID3/dataset.py:199-202 | `partial_count` raises IndexError for an empty value list and KeyError for an example without the classifier. Otherwise it returns the count, at most `len`, of the smallest value |
| Data.DataSet.CountedSize | sanityCheckID3/dataset.py:159-160 | `num_pos + (len(temp) - num_pos)` is the subset's size, after `partial_count`'s sort and errors |
| Data.DataSet.CountedSizeTwice | sanityCheckID3/dataset.py:161 | the same for the whole set, whose `partial_count` runs twice |
| Data.DataSet.SubsetContribution | sanityCheckID3/dataset.py:156-163 | one pass of `remainder` gives the weighted entropy of the value's subset (or the error the pass raises), and sorts the classifier's values when it gets that far |
| Data.DataSet.NextContribution | sanityCheckID3/dataset.py:154-163 | pass i of `remainder` gives the i-th term, and fails with KeyError, leaving the values alone, when an example lacks the split attribute |
| Data.DataSet.Remainder | sanityCheckID3/dataset.py:153-165 | `remainder` is the left-to-right sum of the value subsets' terms, stopping at the first failing pass, as `RemainderOf` defines it. The classifier's values end up sorted exactly when there is a split value and every example has the split attribute |
| Data.SubsetTermSorted | sanityCheckID3/dataset.py:159-163 | a subset's term does not depend on the classifier values' initial order |
| Data.RemainderOfSorted | sanityCheckID3/dataset.py:153-165 | the remainder does not depend on the classifier values' initial order |
| Data.SubsetTermErrors | sanityCheckID3/dataset.py:156-163 | a pass fails only with KeyError, IndexError, ZeroDivisionError or TypeError |
| Data.RemainderOfSpec | sanityCheckID3/dataset.py:153-165 | no split values give 0. With split values, an empty set fails with IndexError (empty classifier) or ZeroDivisionError, and every failure is one of the four errors above |
| Data.SumResultsError | sanityCheckID3/dataset.py:154-163 | a failed sum fails with the error of one of its terms |
| Data.WeightAdd | sanityCheckID3/dataset.py:163 | the weights of two subsets add up to the weight of their union |
| Data.WeightSumIsShare | sanityCheckID3/dataset.py:153-163 | the weights of the value subsets add up to the share of the examples they cover |
| Data.WeightsSumToOne | sanityCheckID3/dataset.py:153-163 | when every example holds one of the attribute's (duplicate-free) legal values, the subsets partition the set and their weights sum to 1 |
| Data.DataSet.Gain | sanityCheckID3/dataset.py:183-190 | `gain` is the entropy minus the remainder, or the first error of the two, as `GainOf` defines it |
| Data.GainOfCases | sanityCheckID3/dataset.py:183-187 | gain fails with entropy's error, else with remainder's, else equals entropy minus remainder |
| Data.GainOfPermutation | sanityCheckID3/dataset.py:183-187 | the gain does not depend on the order of the classifier's values |
| Id3.Node.constructor | sanityCheckID3/node.py:20-49 | a new node has the given data set and parent, no children and no attribute yet |
| Id3.LikeParentLikeChild | sanityCheckID3/id3.py:137-158 | walks from the node up the parent links to the first data set that is not evenly split and returns the leaf of its dominant value. It passes on entropy's error, and walking past the root sorts the classifier's values and raises TypeError |
| Id3.FallbackSpec | sanityCheckID3/id3.py:137-158 | the walk runs past the root only when every node on the chain is evenly split. Otherwise the leaf names a value that no other value outnumbers at the first node that is not evenly split, above only evenly split ones |
| Id3.DominantIsMostFrequent | sanityCheckID3/dataset.py:131-142 | entropy's dominant value is None only for an empty set, and is otherwise a classifier value that no other value outnumbers |
| Id3.IsBestUnique | sanityCheckID3/id3.py:186-215 | the choice rule (largest gain, then smallest name, then first position) picks exactly one candidate |
| Id3.FirstSmallestName | sanityCheckID3/id3.py:201-205 | among the tied candidates, the position of a smallest name, with every earlier tied candidate's name strictly larger (a stable sort's first element) |
| Id3.TiesPick | sanityCheckID3/id3.py:205-215 | the first candidate of smallest name among those of largest gain satisfies the choice rule |
| Id3.TiesStep | sanityCheckID3/id3.py:190-195 | a new gain equal to the best so far joins the ties, a larger one starts a new tie list, and a smaller one changes nothing |
| Id3.Rank | sanityCheckID3/id3.py:190-195 | one step of the `best_attributes` bookkeeping keeps the list of all positions of the largest gain so far |
| Id3.GainAt | sanityCheckID3/id3.py:188 | the gain computed for candidate i is the i-th gain, and the classifier's values stay as they were or sorted |
| Id3.BestAttribute | sanityCheckID3/id3.py:181-215 | fails with the first candidate's gain error, or returns the unique candidate of largest gain and smallest name |
| Id3.PickBest | sanityCheckID3/id3.py:201-215 | the first candidate of smallest name among the positions of top gain satisfies the choice rule |
| Id3.RemoveFirst | sanityCheckID3/id3.py:231-232 | `attributes.remove(a)` on a list holding `a` gives one fewer element, and never an element the list did not hold |
| Id3.RemoveFirstMultiset | sanityCheckID3/id3.py:231-232 | the copy holds one occurrence of `a` fewer and every other element as often as before |
| Id3.RemoveFirstAt | sanityCheckID3/id3.py:231-232 | for an `a` in the list, the copy is the list with exactly the first occurrence of `a` cut out, the rest in order |
| Id3.Id3 | sanityCheckID3/id3.py:174-268 | the node ends as `Id3Result` says: an entropy error is passed on. A pure node becomes the leaf of its first example's class, without children; an empty set raises IndexError. Otherwise, with candidates, the node splits on the unique best candidate (or fails with a gain error) and every child is built with the candidates less that one. Without candidates it ends as `FeaturesExhausted` says. Every new node lies 1 to `len(attrs)` levels below the node, and a split attribute is always one of the candidates. The classifier's and candidates' value lists are only ever sorted |
| Id3.Id3ResultErrors | sanityCheckID3/id3.py:174-177 | what id3 leaves passes on entropy's error, raises IndexError for a pure set without examples, and on success the node has an attribute |
| Id3.SplitNode | sanityCheckID3/id3.py:181-250 | the split: the best candidate becomes the node's attribute and its values are sorted. It raises KeyError when an example lacks it; on success there is one child per value, each built with the candidates less the chosen one, and no new node lies more than `len(attrs)` levels below |
| Id3.SplitWith | sanityCheckID3/id3.py:215-250 | splitting on candidate k: the candidate's values sorted in place, then `SplitDone` |
| Id3.SplitOn | sanityCheckID3/id3.py:215-216 | the node's attribute is the chosen one, and its values are sorted in place |
| Id3.AddChildren | sanityCheckID3/id3.py:224-250 | appends, after the existing children, one child per value in order. Each holds exactly the parent's examples with that value, in their order, and an empty one is the fallback leaf; a missing attribute value raises KeyError. The attribute's values are unchanged |
| Id3.AddChild | sanityCheckID3/id3.py:225-250 | one pass of the children loop extends the grown children by the next value's child, leaving earlier children untouched |
| Id3.Grow | sanityCheckID3/id3.py:229-250 | a new child below the node holds the value's subset, and is the fallback leaf when the subset is empty |
| Id3.NewLeaf | sanityCheckID3/id3.py:235-244 | an empty subset gives a child without examples whose attribute is the leaf `like_parent_like_child` finds from the parent; id3 never recurses on it |
| Id3.NewSubtree | sanityCheckID3/id3.py:246-249 | a non-empty subset gives a child over exactly those examples, grown by id3 with the remaining candidates: `Id3Result` holds of the child over them, its split attribute is one of them, and its subtree is at most `len(rest)` levels deep |
| Id3.Attach | sanityCheckID3/id3.py:243-250 | appends exactly the pair (value, child) to the children |
| Id3.OutOfFeatures | sanityCheckID3/id3.py:252-268 | with no candidate left, `partial_count` sorts the classifier's values. A tie falls back on the ancestors; otherwise the node is the leaf of the dominant value, and any error is passed on |
| Id3.NameLeaf | sanityCheckID3/id3.py:257-268 | when the count of the smallest value equals the rest, the result of `like_parent_like_child` names the node; otherwise the dominant value does |
| Id3.FirstBranch | sanityCheckID3/id3.py:115-117 | the first child whose branch value equals v, or none when no branch carries v |
| Id3.TestCase | sanityCheckID3/id3.py:110-121 | the answer is `'unknown'` or one of the tree's leaf names (or a split attribute listing `'end'`). It fails only with AttributeError (a node without an attribute) or KeyError (an example lacking the split attribute) |
| Id3.CorrectCount | sanityCheckID3/id3.py:55-70 | the number of correctly classified examples is at most the number of examples |
| Id3.CorrectCountStops | sanityCheckID3/id3.py:63-68 | once an example raises, the count over the whole set raises the same error |
| Id3.DTree.constructor | sanityCheckID3/id3.py:37-44 | the tree keeps the classifier, training data, attributes and root it was given |
| Id3.DTree.Test | sanityCheckID3/id3.py:55-70 | `test` returns the correct count over the testing data, between 0 and its size, or the first error |
| Id3.Learn | sanityCheckID3/id3.py:29-44 | `DTree(classifier, training_data, attributes)`: a fresh parentless root over the training data, grown by id3 as `Id3Result` says and at most `len(attributes)` levels deep. On success the tree keeps the classifier, training data and attributes, and its root has an attribute; an entropy error, or an empty training set (IndexError), leaves no tree |
| KFold.ClampK | sanityCheckID3/main-kfold.py:80-84 | k is at least 2, and any k of 2 or more is kept |
| KFold.BucketNext | sanityCheckID3/main-kfold.py:92-99 | dealing example j appends it to partition j mod k and to no other |
| KFold.BucketSize | sanityCheckID3/main-kfold.py:92-99 | partition p holds n div k examples, plus one for the first n mod k partitions |
| KFold.BucketsBalanced | sanityCheckID3/main-kfold.py:92-99 | an earlier partition holds as many examples as a later one, or one more |
| KFold.LastBucketEmpty | sanityCheckID3/main-kfold.py:92-99 | with fewer examples than partitions, the last partition is empty |
| KFold.BucketPositions | sanityCheckID3/main-kfold.py:92-99 | example j is element j div k of partition j mod k, so order is kept within each partition |
| KFold.BucketsHoldAll | sanityCheckID3/main-kfold.py:92-99 | the partitions together hold every example |
| KFold.RoundRobin | sanityCheckID3/main-kfold.py:87-99 | exactly k new, distinct partitions, where partition p holds the examples at positions p mod k in order |
| KFold.OthersSize | sanityCheckID3/main-kfold.py:107-111 | the examples of every partition but one number the total minus that partition's size |
| KFold.TrainingSize | sanityCheckID3/main-kfold.py:107-111 | a fold's training set has n minus the held-out partition's size examples |
| KFold.TrainingSet | sanityCheckID3/main-kfold.py:107-111 | a new data set holding, in partition order, the examples of every partition other than the held-out object |
| KFold.Accuracy | sanityCheckID3/main-kfold.py:118 | divides by zero exactly for an empty held-out partition, and otherwise lies in [0, 100] |
| KFold.MeanBound | sanityCheckID3/main-kfold.py:122 | the sum of k accuracies divided by k lies in [0, 100] |
| KFold.Fold | sanityCheckID3/main-kfold.py:104-113 | a fold's tree is learned with the given candidates from a new data set holding the examples of every other partition in partition order, as `Id3Result` says |
| KFold.HoldOut | sanityCheckID3/main-kfold.py:104-119 | a fold's tree is learned from the other partitions with the given candidates, and the fold's accuracy is `Accuracy` of its correct count on the held-out partition, hence in [0, 100]; an empty held-out partition gives an error |
| KFold.NextFold | sanityCheckID3/main-kfold.py:104-119 | one pass of the fold loop: the accuracy is that of some correct count, in [0, 100], and the partitions are left as they were |
| KFold.SumFolds | sanityCheckID3/main-kfold.py:102-120 | the loop adds up one accuracy per partition, each that of a correct count on its partition, with a tree per fold learned with the same candidates; an empty partition gives an error |
| KFold.CrossValidate | sanityCheckID3/main-kfold.py:78-122 | a classifier missing from the attributes raises ValueError, and fewer examples than the clamped k give an error. Otherwise the result is the sum of the k fold accuracies divided by k, in [0, 100]. Each fold's accuracy is that of a correct count on its round-robin partition, from a tree learned with the attributes less the classifier |
| Binary.Col | KaranDecisionTrees/decisionTree.py:74 | `data[:, idx]` holds the idx-th value of every row |
| Binary.LabelsOf | KaranDecisionTrees/decisionTree.py:133 | `data[:, -1]` holds the last value of every row |
| Binary.SameUnique | KaranDecisionTrees/decisionTree.py:29-31 | a column is all one value exactly when it has at most one distinct value |
| Binary.Select | KaranDecisionTrees/decisionTree.py:74-75 | `data[data[:, idx] == v]` keeps only rows of data that hold v at idx |
| Binary.SelectCount | KaranDecisionTrees/decisionTree.py:74-75 | the selected rows number the count of v in the column |
| Binary.SelectKeeps | KaranDecisionTrees/decisionTree.py:74-75 | every row holding v at idx is selected |
| Binary.SplitPartitions | KaranDecisionTrees/decisionTree.py:70-78 | `splitData` gives one non-empty subset per distinct value, in ascending value order. Subset k holds rows of the data having value k; every row lands in some subset, and the sizes add up to the number of rows |
| Binary.TwoParts | KaranDecisionTrees/decisionTree.py:150 | when `splitData` gives two subsets, the column has two values: the first subset holds the rows of the smaller and the second those of the larger, both non-empty and together all rows |
| Binary.Entropy | KaranDecisionTrees/decisionTree.py:25-37 | `entropy` is 0 when the labels have at most one distinct value |
| Binary.MutualInfo | KaranDecisionTrees/decisionTree.py:39-67 | `mutualInfo` is 0 when the column has at most one distinct value |
| Binary.PureGainIsZero | KaranDecisionTrees/decisionTree.py:39-67 | with `log2(1) = 0`, a column's information about labels that are all the same is 0 |
| Binary.LastBestIsMax | KaranDecisionTrees/decisionTree.py:90-95 | a scan that keeps a candidate whenever it is `>=` the best ends on a maximum that no later value reaches |
| Binary.Best | KaranDecisionTrees/decisionTree.py:81-97 | no attribute gives None and one attribute gives that bare attribute; two or more give a (gain, attribute) pair |
| Binary.BestIsLastMaximum | KaranDecisionTrees/decisionTree.py:86-97 | with two attributes or more, the pair holds the largest information of any column but the last, and the last attribute reaching it |
| Binary.BestMutualInfo | KaranDecisionTrees/decisionTree.py:81-97 | the loop returns the choice `Best` defines |
| Binary.MajorityIsMajority | KaranDecisionTrees/decisionTree.py:100-114 | `maj_classifer` returns None only for no labels. Otherwise it returns a present label of maximal count, and no larger label reaches that count (ties go to the later class in sorted order) |
| Binary.MajorityUnique | KaranDecisionTrees/decisionTree.py:100-114 | that description fixes the label |
| Binary.MajorityOfCounts | KaranDecisionTrees/decisionTree.py:108-113 | the last class of maximal count in ascending order is the majority label |
| Binary.MajClassifier | KaranDecisionTrees/decisionTree.py:100-114 | the loop returns the majority label |
| Binary.Node.constructor | KaranDecisionTrees/decisionTree.py:117-127 | a new node holds the rows and depth, with every other field None |
| Binary.Clamp | KaranDecisionTrees/decisionTree.py:135-136 | the depth budget is at most `len(feats) + 1`, and any budget within that is kept |
| Binary.Position | KaranDecisionTrees/decisionTree.py:150 | `feats.index(a)`: the first position holding a |
| Binary.BuildTree | KaranDecisionTrees/decisionTree.py:130-164 | `maxdepth == 0` returns the majority label, not a node, and raises IndexError when rows have no column. No attribute otherwise raises TypeError (unpacking `None`), and a single attribute fails on unpacking it. Otherwise it fails only with ValueError, and it returns a node exactly when `Builds` holds: every node reached with positive information splits its column in two. No positive gain always gives a node; a node is a fresh parentless tree grown from the rows as `Grown` describes |
| Binary.MakeLeaf | KaranDecisionTrees/decisionTree.py:142-145 | no positive information makes the root a `'leaf'` with the majority label |
| Binary.Grow | KaranDecisionTrees/decisionTree.py:146-164 | a split root gets the best attribute, its information and the majority label; growing succeeds exactly when `Builds` holds of the root's rows, and fails with ValueError otherwise |
| Binary.Split | KaranDecisionTrees/decisionTree.py:150-164 | splits the rows on the best column into two parts and, unless the budget is 1, grows both children; the result is the tree `Grown` describes, and it is returned exactly when `Builds` holds of the rows |
| Binary.Hang | KaranDecisionTrees/decisionTree.py:153-162 | both children are grown with one level less and hung below the root, left then right; this succeeds exactly when both parts build with one level less, which is exactly when the root's rows build |
| Binary.Children | KaranDecisionTrees/decisionTree.py:153-162 | the left child is built before the right, each from its subset; both are built exactly when both subsets build |
| Binary.Branch | KaranDecisionTrees/decisionTree.py:154-162 | a child is built from its subset with one level less, then given its subset's value of the split column and the split attribute as parent; it is built exactly when its subset builds |
| Binary.BuildsNoSplit | KaranDecisionTrees/decisionTree.py:140-150 | a node with positive information whose best column does not have two values cannot be built: the unpacking at line 150 raises |
| Binary.BuildsSplit | KaranDecisionTrees/decisionTree.py:150-162 | when the best column splits in two, the rows build if the budget is 1, and otherwise exactly when both parts build with one level less |
| Binary.GrownBuilds | KaranDecisionTrees/decisionTree.py:130-164 | every tree grown from the rows witnesses that they build: the success condition is met by every tree `Grown` describes |
| Binary.Attach | KaranDecisionTrees/decisionTree.py:154-160 | links the two children below the root and leaves their subtrees as they were |
| Binary.HeightBound | KaranDecisionTrees/decisionTree.py:135-162 | a grown tree is no taller than the clamped budget, which is at most `len(feats) + 1` |
| Binary.GrownChildren | KaranDecisionTrees/decisionTree.py:146-162 | a node with children split on the best attribute (positive gain). The left child holds the rows of the larger value and carries it; the right holds those of the smaller |
| Binary.SplitChildren | KaranDecisionTrees/decisionTree.py:150-162 | the two children share the parent's rows: each row goes to a side, each side's rows hold its value, the right value is below the left, and the sizes add up |
| Binary.PureIsLeaf | KaranDecisionTrees/decisionTree.py:142-145 | rows that all carry one label grow a single `'leaf'` labelled with it (mutualInfo measure, `log2(1) = 0`) |
| Binary.Prediction | KaranDecisionTrees/decisionTree.py:187-202 | `prediction` fails only with IndexError (short row) or AttributeError (a split node without children) |
| Binary.PredictBuilt | KaranDecisionTrees/decisionTree.py:187-207 | `prediction` on what `buildTree` returned: a label (maxdepth 0) raises AttributeError at `tree.key`; a node is predicted as `Prediction` says |
| Binary.PredictsTrainingLabel | KaranDecisionTrees/decisionTree.py:187-202 | on a grown tree, every label predicted is a label of the training rows |
| Binary.PredictionTotal | KaranDecisionTrees/decisionTree.py:187-202 | on a tree grown with depth budget b (1 to `len(feats) + 1`), a row of the table's width queried with `maxdepth` b from depth 1 never raises: the depth check stops at the nodes without children |
| Binary.UnboundedPredictionTotal | KaranDecisionTrees/decisionTree.py:187-202 | with a negative budget, as the script passes a negative depth unchanged, the depth check never fires, yet every split node of a grown tree has its children, so a row of the table's width never raises |
| Binary.AllSettledNoGain | KaranDecisionTrees/decisionTree.py:39-97 | with mutualInfo, once every attribute column but the last is constant on the rows, no attribute carries positive information |
| Binary.SettledPredictionTotal | KaranDecisionTrees/decisionTree.py:135-202 | with mutualInfo, below a node where enough columns are already constant, no split node lacks its children, so prediction never raises whatever depths the query uses |
| Binary.ScriptPredictionTotal | KaranDecisionTrees/decisionTree.py:257-270 | the script passes its adjusted depth, unclamped, to both `buildTree` and `prediction`; for any non-zero depth a tree grown with mutualInfo predicts every row of the table's width without raising |
| Binary.BuiltPrediction | KaranDecisionTrees/decisionTree.py:257-270 | end to end: with depth 0 every query raises AttributeError on the returned label; otherwise every row of the table's width is predicted without raising |
| Inspect.LabelOf | KaranDecisionTrees/inspect.py:12 | the label is a field without `,` |
| Inspect.LabelEndsLine | KaranDecisionTrees/inspect.py:12 | the label ends the stripped line, and is all of it when the line has no comma |
| Inspect.DataLabels | KaranDecisionTrees/inspect.py:8-12 | the header line is skipped: one label per remaining line |
| Inspect.FirstSeen | KaranDecisionTrees/inspect.py:14-20 | the dictionary's keys in insertion order are exactly the labels, without duplicates |
| Inspect.Tally | KaranDecisionTrees/inspect.py:14-17 | one step of the counting loop keeps every label's count equal to its occurrences so far |
| Inspect.CountLabels | KaranDecisionTrees/inspect.py:7-17 | the counts map exactly the labels seen, in order of first occurrence, to their numbers of occurrences |
| Inspect.TwoCounts | KaranDecisionTrees/inspect.py:20-21 | with two labels, each occurs and the two counts add up to the number of data lines |
| Inspect.ErrorAsWritten | KaranDecisionTrees/inspect.py:24-29 | the script's error rate is below one half when the counts differ, and exactly 0 on a tie |
| Inspect.EntropyAndError | KaranDecisionTrees/inspect.py:4-35 | raises ValueError exactly when the data lines do not hold two distinct labels. Otherwise it reports the two counts' entropy and the script's error rate |
| Inspect.Summarize | KaranDecisionTrees/inspect.py:21-32 | the report is the two-class entropy and the script's error rate of the two counts |
| Inspect.SameEntropy | KaranDecisionTrees/inspect.py:32 | the reported entropy equals `entropy` of `decisionTree.py` on the same labels |
| Inspect.ErrorIsMajorityError | KaranDecisionTrees/inspect.py:24-27 | when the counts differ, the reported error is the error of always predicting the majority label |
| Inspect.TieError | KaranDecisionTrees/inspect.py:28-29 | on a tie the script reports 0 where always predicting the majority label errs half the time |
| Inspect.TieReportsZero | KaranDecisionTrees/inspect.py:28-29 | the labels `yes`, `no` give a reported error of 0 against a majority error of 1/2 |
| Inspect.IntendedError | KaranDecisionTrees/inspect.py:24-29 | the corrected error rate: the script's value whenever the counts differ, and 1/2 on a tie |
| Inspect.IntendedIsMajorityError | KaranDecisionTrees/inspect.py:24-29 | for every file with two labels, ties included, the corrected error rate is the majority-vote error |

## Left out

- Floating point:
  - `math.log`/`math.log2` is a parameter `log2`.
  - Entropy, remainder and gain are exact reals over it, not IEEE doubles.
  - The code's float tests `entropy == 0` and `entropy == 1` are read as count predicates (`ZeroEntropy`, `EvenSplit`).
  - `EvenSplit` only coincides with `entropy == 1` for a two-valued classifier, which the code assumes.
- File and stream I/O. These are not modelled:
  - opening and reading files, and printing;
  - `writeOutput`, `readData` and `metrics` in `decisionTree.py`;
  - the output file of `inspect.py`.

  Data files are given as sequences of lines.
- Command-line handling: argparse and `sys.argv`, the dynamic import of the tree module, `__test__.py`, the `main` of `decisionTree.py`, and `int(args.k_value)`. `CrossValidate` takes k as an integer.
- Display and debugging: `DTree.dump`, `pre_order`, `printPreorder`, and the `print` and `raw_input` calls guarded by `debug`.
- The `attributes` module is not part of this model.
  - An attribute is a name with a mutable value list (`Data.Attribute`).
  - A leaf built as `Attribute(value, 'end')` is the role `Leaf(value)`.
  - A node still without an attribute is `Unset`.
- numpy:
  - `np.unique` is the sorted distinct values (`Text.Unique`), with counts as `CountIn`.
  - A numpy array of rows is a sequence of equally long rows, one field per header column (`Rect`). The empty sequence stands for a two-dimensional array with no rows, shape (0, w).
- The information measure of the binary learner is a parameter (`Measure`). `Info(log2)` is `mutualInfo`, and the lemmas about pure rows use it.
- `list.sort` is modelled by its result, the sorted permutation (`Text.Sort`, an insertion sort on values), not by the steps of the sorting algorithm.
- The message-and-exit of `Example.__init__` on a bad line is the value `SchemaError(line, reason)`, not a process exit.
- Data.DataSet.Load: the list of examples is built first and then stored in the new data set, rather than appended to its list one by one. The resulting state is the same.
- KFold.TrainingSet: the training list is built first and then stored in the new data set. The resulting state is the same.
- Id3.LikeParentLikeChild: walking past the root is a `TypeError`, the error of indexing the `None` that `list.sort()` returns. The message printed before it is not modelled.
- Id3.BestAttribute: states that the classifier's value list ends up as it was or sorted (`SameOrSorted`), not which of the two.
- Id3.Id3: states `SameOrSorted` for each value list rather than which lists get sorted. It requires that the classifier is not a candidate, as every caller in the source ensures (`main-kfold.py` removes it).
- Id3.Id3: no lemma states that a tree learned from a consistent table classifies each training example as its class. A child's `Id3Result` is not carried through the children loop (see `Id3.AddChild`). And `test_case` (id3.py:110-111) treats any node whose attribute lists the value `end` as a leaf, so a split on such an attribute would not be followed, and the property fails as written for those tables.
- Id3.AddChild: for each child, `Grown` records its examples, its role, that a split is on one of the remaining candidates, and the depth bound; the child's own `Id3Result` is stated by `NewSubtree` when it is built but not carried through the loop, because later siblings may sort the classifier's and candidates' value lists that it reads.
- Id3.Learn: requires that the classifier is not among the attributes, as `main-kfold.py` ensures.
- Id3.AddChildren: a child whose id3 call fails passes that failure on. The contract names only the KeyError case and the children grown on success.
- KFold.CrossValidate: requires the classifier to occur at most once among the attributes, because with a repeated classifier `remove` keeps one copy among the candidates. Each fold's training set is stated by `HoldOut` and `Fold`; the loop keeps only each fold's accuracy, tree fields and correct count.
- KFold.HoldOut: states what the tree is learned from and how the accuracy is computed, but not `Id3Result` of the fold's tree (`Fold` states it).
- Binary.BuildTree: requires rows of the header's width. `readData` builds the header by splitting a line on `,`, which always gives at least one name, so the zero-attribute errors are modelled but not reachable from the script. An empty table stands for a (0, w) array, on which `buildTree` behaves as modelled. The script never builds one: for a training file holding only its header line, `readData` (decisionTree.py:13-21) returns `np.array([])`, a one-dimensional array, and `buildTree` then raises IndexError, at line 133 (`traindata[:,-1]`) when maxdepth is 0 and at line 40 (`data[:,-1]` in `mutualInfo`, called from line 140) when there are two or more columns. The model does not represent that one-dimensional array, so it does not capture those two errors.
- Binary.Prediction: takes a node; what `buildTree` returns, a label included, is queried through `PredictBuilt`. A node whose key names no column gives `None`, as the source's fall-through does. The contract names the error kinds; `PredictsTrainingLabel`, `PredictionTotal`, `ScriptPredictionTotal` and `BuiltPrediction` state the rest.
- Binary.ScriptPredictionTotal: covers rows of the training table's width and the mutualInfo measure. `writeOutput` then concatenates the result with a newline, which raises TypeError when the prediction is `None`; that step is part of the file output left out above.

## Findings

| source | as written | input that shows it | evidently intended | confidence | as-written member | corrected member |
|---|---|---|---|---|---|---|
| KaranDecisionTrees/inspect.py:24-29 | when the two label counts are equal, the error rate is set to 0 | a data file whose data lines are labelled `yes` and `no` | always predicting the majority label errs on half the lines, so the error rate is 1/2 | not executed | Inspect.ErrorAsWritten, Inspect.TieReportsZero | Inspect.IntendedError, Inspect.IntendedIsMajorityError |
