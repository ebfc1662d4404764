/** The multi-way ID3 learner of sanityCheckID3/id3.py: a tree of nodes built
    in place, the fallback that walks up the parent links, classification of
    an example, and counting correct classifications. The node record of
    sanityCheckID3/node.py is the class Node below. */
module Id3 {
  import opened Outcomes
  import opened Text
  import opened Data

  // ---------------------------------------------------------------------------
  // Nodes
  // ---------------------------------------------------------------------------

  /** What a node's `attribute` field holds: nothing yet (None), a domain
      attribute the node splits on, or a fresh Attribute(name, 'end') that
      makes the node a leaf. The name of a leaf is the dominant value of a
      data set, which is None for an empty one. */
  datatype Role = Unset | Split(attr: Attribute) | Leaf(name: Option<string>)

  class Node {
    var attribute: Role
    const dataSet: DataSet
    const parent: Node?
    var children: seq<(string, Node)>
    /** Number of parent links above this node. */
    ghost const depth: nat
    /** The data sets of this node and of its ancestors. */
    ghost const line: set<DataSet>
    /** The nodes of the subtree rooted here. */
    ghost var Repr: set<Node>

    /** The parent links above this node reach the root. Only constant fields
        are read, so once true this stays true. */
    ghost predicate Linked()
      decreases depth
    {
      dataSet in line &&
      (parent != null ==> parent.depth < depth && parent.line <= line && parent.Linked())
    }

    /** The subtree is a tree: every child lies in the footprint, below this
        node, and is itself a valid subtree. */
    ghost predicate Valid()
      reads this`children, this`Repr, Repr`children, Repr`Repr
      decreases Repr
    {
      this in Repr &&
      forall i :: 0 <= i < |children| ==>
        children[i].1 in Repr && children[i].1.Repr <= Repr && this !in children[i].1.Repr &&
        children[i].1.Valid()
    }

    /** Node(data, parent, list(), None). */
    constructor (data: DataSet, parent: Node?)
      requires parent != null ==> parent.Linked()
      ensures attribute == Unset && dataSet == data && this.parent == parent && children == []
      ensures Linked() && Valid() && Repr == {this}
      ensures depth == if parent == null then 0 else parent.depth + 1
    {
      attribute := Unset;
      dataSet := data;
      this.parent := parent;
      children := [];
      depth := if parent == null then 0 else parent.depth + 1;
      line := {data} + (if parent == null then {} else parent.line);
      Repr := {this};
    }
  }

  /** The node and its ancestors, nearest first. */
  ghost function Chain(n: Node?): (r: seq<Node>)
    requires n != null ==> n.Linked()
    ensures n == null <==> r == []
    ensures n != null ==> r[0] == n
    decreases if n == null then 0 else n.depth + 1
  {
    if n == null then [] else [n] + Chain(n.parent)
  }

  // ---------------------------------------------------------------------------
  // like_parent_like_child
  // ---------------------------------------------------------------------------

  /** Where the walk up the parent links ends: at the dominant value of the
      first data set that is not evenly split, at an exception raised by
      entropy, or past the root. */
  datatype Walk = Dominant(name: Option<string>) | Raised(error: Failure) | PastRoot

  /** The walk of like_parent_like_child from node n, with the classifier's
      name and current list of values. The test `entropy != 1` is the count
      predicate EvenSplit. */
  ghost function FallbackOf(n: Node?, tname: string, tvals: seq<string>, log2: real -> real): Walk
    requires n != null ==> n.Linked()
    reads if n == null then {} else n.line
    decreases if n == null then 0 else n.depth + 1
  {
    if n == null then PastRoot
    else
      match EntropyOf(n.dataSet.allExamples, tname, tvals, log2)
      case Err(e) => Raised(e)
      case Ok(rep) =>
        if EvenSplit(n.dataSet.allExamples, tname, tvals) then FallbackOf(n.parent, tname, tvals, log2)
        else Dominant(rep.dominant)
  }

  /** DTree.like_parent_like_child: follows the parent links from the node
      until a data set is not evenly split and makes a leaf of its dominant
      value. Walking past the root sorts the classifier's values in place and
      then indexes the None that list.sort() returns. */
  method LikeParentLikeChild(classifier: Attribute, node: Node, log2: real -> real) returns (r: Result<Role>)
    requires node.Linked()
    modifies classifier
    ensures FallbackOf(node, classifier.name, old(classifier.values), log2).Dominant? ==>
              r == Ok(Leaf(FallbackOf(node, classifier.name, old(classifier.values), log2).name)) &&
              classifier.values == old(classifier.values)
    ensures FallbackOf(node, classifier.name, old(classifier.values), log2).Raised? ==>
              r == Err(FallbackOf(node, classifier.name, old(classifier.values), log2).error) &&
              classifier.values == old(classifier.values)
    ensures FallbackOf(node, classifier.name, old(classifier.values), log2).PastRoot? ==>
              r == Err(TypeError) && classifier.values == Sort(old(classifier.values))
  {
    ghost var goal := FallbackOf(node, classifier.name, classifier.values, log2);
    var p: Node? := node;
    while p != null
      invariant p != null ==> p.Linked()
      invariant classifier.values == old(classifier.values)
      invariant FallbackOf(p, classifier.name, classifier.values, log2) == goal
      decreases if p == null then 0 else p.depth + 1
    {
      var parentEntropy := p.dataSet.Entropy(classifier, log2);
      assert FallbackOf(p, classifier.name, classifier.values, log2) ==
             if parentEntropy.Err? then Raised(parentEntropy.error)
             else if EvenSplit(p.dataSet.allExamples, classifier.name, classifier.values) then FallbackOf(p.parent, classifier.name, classifier.values, log2)
             else Dominant(parentEntropy.value.dominant);
      if parentEntropy.Err? {
        return Err(parentEntropy.error);
      }
      if !EvenSplit(p.dataSet.allExamples, classifier.name, classifier.values) {
        return Ok(Leaf(parentEntropy.value.dominant));
      }
      p := p.parent;
    }
    classifier.values := Sort(classifier.values);
    return Err(TypeError);
  }

  /** The name the walk settles on is a most frequent classifier value of the
      first data set along the parent links that is not evenly split (None
      only when that set is empty); walking past the root means every data set
      along the way was evenly split. */
  lemma {:induction false} FallbackSpec(n: Node?, tname: string, tvals: seq<string>, log2: real -> real)
    requires n != null ==> n.Linked()
    ensures FallbackOf(n, tname, tvals, log2).PastRoot? ==>
              forall j :: 0 <= j < |Chain(n)| ==> EvenSplit(Chain(n)[j].dataSet.allExamples, tname, tvals)
    ensures FallbackOf(n, tname, tvals, log2).Dominant? ==>
              exists i :: 0 <= i < |Chain(n)| && Settles(Chain(n), i, tname, tvals, FallbackOf(n, tname, tvals, log2).name)
    decreases if n == null then 0 else n.depth + 1
  {
    if n != null {
      var xs := n.dataSet.allExamples;
      var c := Chain(n);
      assert c == [n] + Chain(n.parent);
      var e := EntropyOf(xs, tname, tvals, log2);
      if e.Ok? {
        if EvenSplit(xs, tname, tvals) {
          FallbackSpec(n.parent, tname, tvals, log2);
          if FallbackOf(n.parent, tname, tvals, log2).Dominant? {
            var l := FallbackOf(n.parent, tname, tvals, log2).name;
            var i :| 0 <= i < |Chain(n.parent)| && Settles(Chain(n.parent), i, tname, tvals, l);
            SettlesLater(n, Chain(n.parent), i, tname, tvals, l);
          }
        } else {
          DominantIsMostFrequent(xs, tname, tvals, log2);
          assert Settles(c, 0, tname, tvals, e.value.dominant);
        }
      }
    }
  }

  /** A node whose data set is evenly split passes the walk on. */
  lemma SettlesLater(n: Node, c: seq<Node>, i: int, tname: string, tvals: seq<string>, name: Option<string>)
    requires Settles(c, i, tname, tvals, name)
    requires EvenSplit(n.dataSet.allExamples, tname, tvals)
    ensures Settles([n] + c, i + 1, tname, tvals, name)
  {
    var d := [n] + c;
    assert forall j :: 0 < j < |d| ==> d[j] == c[j - 1];
  }

  /** entropy's dominant value is None only for an empty data set, and is
      otherwise a classifier value that no other classifier value outnumbers. */
  lemma DominantIsMostFrequent(xs: seq<Example>, tname: string, tvals: seq<string>, log2: real -> real)
    requires EntropyOf(xs, tname, tvals, log2).Ok?
    ensures EntropyOf(xs, tname, tvals, log2).value.dominant.None? <==> |xs| == 0
    ensures EntropyOf(xs, tname, tvals, log2).value.dominant.Some? ==>
              var v := EntropyOf(xs, tname, tvals, log2).value.dominant.value;
              v in tvals && forall w :: w in tvals ==> Count(xs, tname, w) <= Count(xs, tname, v)
  {
    EntropyOfSpec(xs, tname, tvals, log2);
    if |xs| > 0 {
      var v := EntropyOf(xs, tname, tvals, log2).value.dominant.value;
      var i :| FirstMax(CountOf(xs, tname), tvals, i) && tvals[i] == v;
      forall w | w in tvals ensures Count(xs, tname, w) <= Count(xs, tname, v) {
        var j :| 0 <= j < |tvals| && tvals[j] == w;
        assert CountOf(xs, tname)(tvals[j]) <= CountOf(xs, tname)(tvals[i]);
      }
    }
  }

  /** Node i of the chain is the first that is not evenly split, and the name
      is a classifier value that no other value outnumbers there (None exactly
      when that node has no examples). */
  ghost predicate Settles(c: seq<Node>, i: int, tname: string, tvals: seq<string>, lbl: Option<string>)
    reads set j | 0 <= j < |c| :: c[j].dataSet
  {
    0 <= i < |c| &&
    (forall j :: 0 <= j < i ==> EvenSplit(c[j].dataSet.allExamples, tname, tvals)) &&
    !EvenSplit(c[i].dataSet.allExamples, tname, tvals) &&
    (lbl.None? <==> |c[i].dataSet.allExamples| == 0) &&
    (lbl.Some? ==> lbl.value in tvals &&
                     forall w :: w in tvals ==> Count(c[i].dataSet.allExamples, tname, w) <= Count(c[i].dataSet.allExamples, tname, lbl.value))
  }

  // ---------------------------------------------------------------------------
  // Choosing the attribute to split on
  // ---------------------------------------------------------------------------

  function Names(attrs: seq<Attribute>): (r: seq<string>)
    ensures |r| == |attrs|
    ensures forall j :: 0 <= j < |attrs| ==> r[j] == attrs[j].name
  {
    seq(|attrs|, j requires 0 <= j < |attrs| => attrs[j].name)
  }

  /** The gain of each candidate attribute over the examples, in order. */
  function GainResults(xs: seq<Example>, tname: string, tvals: seq<string>, cols: seq<Column>,
                       log2: real -> real): (r: seq<Result<real>>)
    ensures |r| == |cols|
    ensures forall j :: 0 <= j < |cols| ==> r[j] == GainOf(xs, tname, tvals, cols[j].name, cols[j].domain, log2)
  {
    seq(|cols|, j requires 0 <= j < |cols| => GainOf(xs, tname, tvals, cols[j].name, cols[j].domain, log2))
  }

  /** The gains of all candidates, or the first exception one of them raises. */
  function Gains(xs: seq<Example>, tname: string, tvals: seq<string>, cols: seq<Column>,
                 log2: real -> real): Result<seq<real>>
  {
    Collect(GainResults(xs, tname, tvals, cols, log2))
  }

  /** Candidate k has the largest gain; among the candidates of that gain it
      has the alphabetically smallest name, and no earlier one has the same
      name. */
  ghost predicate IsBest(g: seq<real>, names: seq<string>, k: int) {
    |g| == |names| && 0 <= k < |g| &&
    (forall j :: 0 <= j < |g| ==> g[j] <= g[k]) &&
    (forall j :: 0 <= j < |g| && g[j] == g[k] ==> AtMost(names[k], names[j])) &&
    (forall j :: 0 <= j < k && g[j] == g[k] ==> names[j] != names[k])
  }

  /** The rule picks exactly one candidate. */
  lemma IsBestUnique(g: seq<real>, names: seq<string>, k1: int, k2: int)
    requires IsBest(g, names, k1) && IsBest(g, names, k2)
    ensures k1 == k2
  {
    assert g[k1] == g[k2];
    AtMostAntisymmetric(names[k1], names[k2]);
  }

  /** The values are as they were, or sorted. */
  ghost predicate SameOrSorted(now: seq<string>, before: seq<string>) {
    now == before || now == Sort(before)
  }

  lemma GainOfSorted(xs: seq<Example>, tname: string, tvals: seq<string>, aname: string,
                     avals: seq<string>, log2: real -> real)
    ensures GainOf(xs, tname, Sort(tvals), aname, avals, log2) == GainOf(xs, tname, tvals, aname, avals, log2)
  {
    SortSpec(tvals);
    GainOfPermutation(xs, tname, Sort(tvals), tvals, aname, avals, log2);
  }

  /** best_attributes.sort(key=name) followed by best_attributes[0]: list.sort
      is stable, so the pick is the first entry whose name is smallest. */
  method FirstSmallestName(names: seq<string>, best: seq<nat>) returns (p: nat)
    requires |best| > 0
    requires forall t :: 0 <= t < |best| ==> best[t] < |names|
    ensures p < |best|
    ensures forall t :: 0 <= t < |best| ==> AtMost(names[best[p]], names[best[t]])
    ensures forall t :: 0 <= t < p ==> Less(names[best[p]], names[best[t]])
  {
    p := 0;
    var m := 1;
    while m < |best|
      invariant 1 <= m <= |best| && p < m
      invariant forall t :: 0 <= t < m ==> AtMost(names[best[p]], names[best[t]])
      invariant forall t :: 0 <= t < p ==> Less(names[best[p]], names[best[t]])
    {
      if Less(names[best[m]], names[best[p]]) {
        forall t | 0 <= t < m ensures Less(names[best[m]], names[best[t]]) {
          if names[best[p]] != names[best[t]] {
            LessTransitive(names[best[m]], names[best[p]], names[best[t]]);
          }
        }
        p := m;
      } else {
        LessTotal(names[best[m]], names[best[p]]);
      }
      m := m + 1;
    }
  }

  /** best lists, in increasing order, every candidate whose gain is the top
      gain of g. */
  ghost predicate AllTies(g: seq<real>, best: seq<nat>, top: real) {
    (forall j :: 0 <= j < |g| ==> g[j] <= top) &&
    (forall j :: 0 <= j < |g| ==> (g[j] == top <==> j in best)) &&
    (forall t :: 0 <= t < |best| ==> best[t] < |g|) &&
    (forall t, u :: 0 <= t < u < |best| ==> best[t] < best[u])
  }

  /** The first smallest name among the ties is the candidate IsBest names. */
  lemma TiesPick(g: seq<real>, names: seq<string>, best: seq<nat>, top: real, p: nat)
    requires |g| == |names| && AllTies(g, best, top) && p < |best|
    requires forall t :: 0 <= t < |best| ==> AtMost(names[best[p]], names[best[t]])
    requires forall t :: 0 <= t < p ==> Less(names[best[p]], names[best[t]])
    ensures IsBest(g, names, best[p])
  {
    var k := best[p];
    assert g[k] == top;
    forall j | 0 <= j < |g| && g[j] == g[k] ensures AtMost(names[k], names[j]) {
      var t :| 0 <= t < |best| && best[t] == j;
    }
    forall j | 0 <= j < k && g[j] == g[k] ensures names[j] != names[k] {
      var t :| 0 <= t < |best| && best[t] == j;
      LessIrreflexive(names[k]);
    }
  }

  /** One more candidate joins the ties, replaces them, or is left out, as
      the loop over the candidates does. */
  lemma TiesStep(g: seq<real>, best: seq<nat>, top: real, x: real)
    requires |g| > 0 && AllTies(g, best, top)
    ensures top == x ==> AllTies(g + [x], best + [|g|], top)
    ensures top < x ==> AllTies(g + [x], [|g|], x)
    ensures x < top ==> AllTies(g + [x], best, top)
  {
    var h := g + [x];
    assert forall j :: 0 <= j < |g| ==> h[j] == g[j];
  }

  /** The gain of candidate i, which is the same whether or not an earlier
      gain has sorted the target's values. */
  method GainAt(data: DataSet, target: Attribute, attrs: seq<Attribute>, i: nat, log2: real -> real,
                ghost t0: seq<string>, ghost st: seq<string>, ghost cols: seq<Column>) returns (r: Result<real>)
    requires i < |attrs| && target !in attrs && cols == Schema(attrs) && st == Sort(t0)
    requires target.values == t0 || target.values == st
    modifies target
    ensures r == GainResults(data.allExamples, target.name, t0, cols, log2)[i]
    ensures target.values == t0 || target.values == st
  {
    r := data.Gain(target, attrs[i], log2);
    SortIdempotent(t0);
    GainOfSorted(data.allExamples, target.name, t0, attrs[i].name, attrs[i].values, log2);
  }

  /** One step of the ranking: a gain equal to the top joins the ties, a
      larger one starts them afresh, a smaller one is passed over. */
  method Rank(ghost g: seq<real>, i: nat, best: seq<nat>, top: real, x: real) returns (best': seq<nat>, top': real)
    requires |g| == i
    requires i == 0 ==> best == []
    requires i > 0 ==> |best| > 0 && AllTies(g, best, top)
    ensures |best'| > 0 && AllTies(g + [x], best', top')
  {
    if i > 0 {
      TiesStep(g, best, top, x);
    }
    best', top' := best, top;
    if |best| == 0 {
      best', top' := [i], x;
    } else if top == x {
      best' := best + [i];
    } else if top < x {
      best', top' := [i], x;
    }
  }

  /** The candidate-choosing part of DTree.id3: the gain of every candidate,
      in order, collected into the list of candidates of top gain, then the
      first of smallest name. Each gain may sort the target's values in place.
      The result is the position of the chosen candidate. */
  method BestAttribute(data: DataSet, target: Attribute, attrs: seq<Attribute>, log2: real -> real)
    returns (r: Result<nat>)
    requires |attrs| > 0 && target !in attrs
    modifies target
    ensures SameOrSorted(target.values, old(target.values))
    ensures r.Err? ==> Gains(data.allExamples, target.name, old(target.values), old(Schema(attrs)), log2) == Err(r.error)
    ensures r.Ok? ==>
              Gains(data.allExamples, target.name, old(target.values), old(Schema(attrs)), log2).Ok? &&
              IsBest(Gains(data.allExamples, target.name, old(target.values), old(Schema(attrs)), log2).value,
                     Names(attrs), r.value)
  {
    ghost var t0 := target.values;
    ghost var st := Sort(t0);
    ghost var cols := Schema(attrs);
    ghost var rs := GainResults(data.allExamples, target.name, t0, cols, log2);
    ghost var g: seq<real> := [];
    var best: seq<nat> := [];
    var top := 0.0;
    var i := 0;
    while i < |attrs|
      invariant 0 <= i <= |attrs| && |g| == i
      invariant target.values == t0 || target.values == st
      invariant Collect(rs[..i]) == Ok(g)
      invariant i == 0 ==> best == []
      invariant i > 0 ==> |best| > 0 && AllTies(g, best, top)
    {
      var gain := GainAt(data, target, attrs, i, log2, t0, st, cols);
      if gain.Err? {
        CollectFirstError(rs, i);
        return Err(gain.error);
      }
      CollectNext(rs, i, g, gain.value);
      best, top := Rank(g, i, best, top, gain.value);
      g := g + [gain.value];
      i := i + 1;
    }
    assert rs[..i] == rs;
    var k := PickBest(g, Names(attrs), best, top);
    return Ok(k);
  }

  /** The tie-break after the loop: the first candidate of smallest name
      among those of top gain. */
  method PickBest(ghost g: seq<real>, names: seq<string>, best: seq<nat>, ghost top: real) returns (k: nat)
    requires |g| == |names| && |best| > 0 && AllTies(g, best, top)
    ensures IsBest(g, names, k)
  {
    var p := FirstSmallestName(names, best);
    TiesPick(g, names, best, top, p);
    k := best[p];
  }

  // ---------------------------------------------------------------------------
  // DTree.id3
  // ---------------------------------------------------------------------------

  lemma SameOrSortedTrans(x: seq<string>, y: seq<string>, z: seq<string>)
    requires SameOrSorted(x, y) && SameOrSorted(y, z)
    ensures SameOrSorted(x, z)
  {
    SortIdempotent(z);
  }

  /** list.remove: the list without the first occurrence of a. */
  function RemoveFirst(attrs: seq<Attribute>, a: Attribute): (r: seq<Attribute>)
    ensures a in attrs ==> |r| == |attrs| - 1
    ensures forall b :: b in r ==> b in attrs
  {
    if attrs == [] then []
    else
      assert attrs == [attrs[0]] + attrs[1..];
      if attrs[0] == a then attrs[1..]
      else [attrs[0]] + RemoveFirst(attrs[1..], a)
  }

  /** The copy holds one occurrence of a fewer, and the same others. */
  lemma {:induction false} RemoveFirstMultiset(attrs: seq<Attribute>, a: Attribute)
    ensures multiset(RemoveFirst(attrs, a)) == multiset(attrs) - multiset{a}
  {
    if attrs != [] {
      RemoveFirstMultiset(attrs[1..], a);
      assert attrs == [attrs[0]] + attrs[1..];
    }
  }

  /** list.remove drops the FIRST occurrence: the copy is the list with the
      element at a's first position cut out. The learner only removes a
      candidate the list holds; the model leaves a list without a whole. */
  lemma RemoveFirstAt(attrs: seq<Attribute>, a: Attribute)
    ensures a !in attrs ==> RemoveFirst(attrs, a) == attrs
    ensures a in attrs ==> exists i :: 0 <= i < |attrs| && attrs[i] == a && a !in attrs[..i] &&
                                      RemoveFirst(attrs, a) == attrs[..i] + attrs[i + 1..]
  {
    if a in attrs {
      var i := FirstIndex(attrs, a);
      RemoveFirstCut(attrs, a, i);
    } else {
      RemoveFirstAbsent(attrs, a);
    }
  }

  /** The position of a's first occurrence. */
  function FirstIndex(attrs: seq<Attribute>, a: Attribute): (i: nat)
    requires a in attrs
    ensures i < |attrs| && attrs[i] == a && a !in attrs[..i]
  {
    if attrs[0] == a then 0
    else
      var j := FirstIndex(attrs[1..], a);
      assert attrs[..j + 1] == [attrs[0]] + attrs[1..][..j];
      j + 1
  }

  lemma {:induction false} RemoveFirstAbsent(attrs: seq<Attribute>, a: Attribute)
    requires a !in attrs
    ensures RemoveFirst(attrs, a) == attrs
  {
    if attrs != [] {
      RemoveFirstAbsent(attrs[1..], a);
      assert attrs == [attrs[0]] + attrs[1..];
    }
  }

  lemma {:induction false} RemoveFirstCut(attrs: seq<Attribute>, a: Attribute, i: nat)
    requires i < |attrs| && attrs[i] == a && a !in attrs[..i]
    ensures RemoveFirst(attrs, a) == attrs[..i] + attrs[i + 1..]
  {
    if i == 0 {
      assert attrs[..0] + attrs[1..] == attrs[1..];
    } else {
      var tail := attrs[1..];
      assert attrs[0] in attrs[..i];
      assert tail[..i - 1] == attrs[1..i];
      RemoveFirstCut(tail, a, i - 1);
      assert attrs[..i] == [attrs[0]] + tail[..i - 1];
      assert attrs[i + 1..] == tail[i..];
    }
  }

  /** The learner's test `entropy == 0`: no examples, or all of one class. */
  predicate Pure(xs: seq<Example>, tname: string, tvals: seq<string>) {
    |xs| == 0 || ZeroEntropy(xs, tname, tvals)
  }

  /** Every node of ns lies at least lo and at most hi parent links below
      the root of the tree. */
  ghost predicate DepthsWithin(ns: set<Node>, lo: nat, hi: nat) {
    forall n :: n in ns ==> lo <= n.depth <= hi
  }

  /** What DTree.id3 on root with the candidates attrs leaves behind, given
      the candidates' names and value lists cols, root's children ch0, and the
      classifier's name tn and value list t0, all as they were before the
      call. An exception raised by entropy is passed on; a pure node becomes a
      leaf naming its first example's class (an empty one raises IndexError);
      otherwise, with candidates left, the one IsBest picks from the gains is
      the node's split, and every child is built with the candidates less
      that one; with none left, partial_count decides as FeaturesExhausted
      says. */
  ghost predicate Id3Result(root: Node, attrs: seq<Attribute>, cols: seq<Column>, ch0: seq<(string, Node)>,
                            r: Outcome, tn: string, t0: seq<string>, log2: real -> real)
    reads root, root.dataSet, root.line, Kids(root), Tables(root), set b | b in attrs
  {
    var xs := root.dataSet.allExamples;
    var e := EntropyOf(xs, tn, t0, log2);
    |cols| == |attrs| &&
    (r.Pass? ==> root.attribute != Unset) &&
    (e.Err? ==> r == Fail(e.error)) &&
    (e.Ok? && Pure(xs, tn, t0) ==>
       root.children == ch0 &&
       if |xs| == 0 then r == Fail(IndexError)
       else tn in xs[0].values && r == Pass && root.attribute == Leaf(Some(xs[0].values[tn]))) &&
    (e.Ok? && !Pure(xs, tn, t0) && |attrs| > 0 ==>
       var g := Gains(xs, tn, t0, cols, log2);
       (g.Err? ==> r == Fail(g.error)) &&
       (g.Ok? ==> exists k :: (0 <= k < |attrs| && IsBest(g.value, Names(attrs), k) &&
          SplitDone(root, attrs[k], cols[k].domain, |ch0|, xs, r, RemoveFirst(attrs, attrs[k]), tn, t0, log2)))) &&
    (e.Ok? && !Pure(xs, tn, t0) && |attrs| == 0 ==>
       root.children == ch0 && FeaturesExhausted(root, r, tn, t0, log2))
  }

  /** DTree.id3 on node root with the candidate attributes attrs. The
      examples and the node's data set are never changed; the classifier's
      and the candidates' value lists may end up sorted in place. Each new
      node lies between one and |attrs| links below root, since every level
      uses up one candidate. */
  method Id3(root: Node, target: Attribute, attrs: seq<Attribute>, log2: real -> real) returns (r: Outcome)
    requires root.Valid() && root.Linked() && target !in attrs
    modifies root, target, set b | b in attrs
    decreases |attrs|, 3
    ensures root.Valid() && fresh(root.Repr - old(root.Repr))
    ensures DepthsWithin(root.Repr - old(root.Repr), root.depth + 1, root.depth + |attrs|)
    ensures SameOrSorted(target.values, old(target.values))
    ensures forall b :: b in attrs ==> SameOrSorted(b.values, old(b.values))
    ensures root.attribute.Split? ==> root.attribute.attr in attrs || root.attribute == old(root.attribute)
    ensures Id3Result(root, attrs, old(Schema(attrs)), old(root.children), r, target.name, old(target.values), log2)
  {
    var e := root.dataSet.Entropy(target, log2);
    if e.Err? {
      return Fail(e.error);
    }
    var xs := root.dataSet.allExamples;
    if Pure(xs, target.name, target.values) {
      if |xs| == 0 {
        return Fail(IndexError);
      }
      ZeroEntropyIsPure(xs, target.name, target.values, log2);
      root.attribute := Leaf(Some(xs[0].values[target.name]));
      return Pass;
    }
    if |attrs| > 0 {
      r := SplitNode(root, target, attrs, log2);
    } else {
      r := OutOfFeatures(root, target, log2);
    }
  }

  /** The node left by a split on attribute a whose value list was vals0
      before: a is the node's attribute, its values are sorted, an attribute
      some example lacks gives a KeyError as soon as there is a value, and a
      node that finished has one child per value after the c0 it had, each
      built with the remaining candidates rest. */
  ghost predicate SplitDone(root: Node, a: Attribute, vals0: seq<string>, c0: nat, xs: seq<Example>,
                            r: Outcome, rest: seq<Attribute>, tn: string, t0: seq<string>, log2: real -> real)
    reads root, a, Kids(root)`attribute, Tables(root)`allExamples, root.line
  {
    root.attribute == Split(a) && a.values == Sort(vals0) &&
    (!AllHave(xs, a.name) && |a.values| > 0 ==> r == Fail(KeyError)) &&
    (r.Pass? ==> Grown(root, c0, xs, a.name, a.values, |a.values|, rest, tn, t0, log2))
  }

  /** The split of DTree.id3: choose the attribute, sort its values in place
      and add one child per value. */
  method SplitNode(root: Node, target: Attribute, attrs: seq<Attribute>, log2: real -> real) returns (r: Outcome)
    requires root.Valid() && root.Linked() && target !in attrs && |attrs| > 0
    modifies root, target, set b | b in attrs
    decreases |attrs|, 2
    ensures root.Valid() && fresh(root.Repr - old(root.Repr))
    ensures DepthsWithin(root.Repr - old(root.Repr), root.depth + 1, root.depth + |attrs|)
    ensures SameOrSorted(target.values, old(target.values))
    ensures forall b :: b in attrs ==> SameOrSorted(b.values, old(b.values))
    ensures r.Pass? ==> root.attribute != Unset
    ensures root.attribute.Split? ==> root.attribute.attr in attrs || root.attribute == old(root.attribute)
    ensures var xs, tn, t0 := root.dataSet.allExamples, target.name, old(target.values);
      var g := Gains(xs, tn, t0, old(Schema(attrs)), log2);
      (g.Err? ==> r == Fail(g.error)) &&
      (g.Ok? ==> exists k :: (0 <= k < |attrs| && IsBest(g.value, Names(attrs), k) &&
         SplitDone(root, attrs[k], old(Schema(attrs))[k].domain, old(|root.children|), xs, r,
                   RemoveFirst(attrs, attrs[k]), tn, t0, log2)))
  {
    ghost var t0 := target.values;
    ghost var cols := Schema(attrs);
    ghost var xs := root.dataSet.allExamples;
    ghost var g := Gains(xs, target.name, t0, cols, log2);
    var k := BestAttribute(root.dataSet, target, attrs, log2);
    if k.Err? {
      return Fail(k.error);
    }
    assert g.Ok? && IsBest(g.value, Names(attrs), k.value);
    ghost var vals0 := attrs[k.value].values;
    assert vals0 == cols[k.value].domain;
    ghost var t1 := target.values;
    r := SplitWith(root, target, attrs, k.value, t0, log2);
    SameOrSortedTrans(target.values, t1, t0);
    assert root.dataSet.allExamples == xs;
    assert SplitDone(root, attrs[k.value], cols[k.value].domain, old(|root.children|), xs,
                     r, RemoveFirst(attrs, attrs[k.value]), target.name, t0, log2);
  }

  /** The rest of the split once attrs[k] is chosen. */
  method SplitWith(root: Node, target: Attribute, attrs: seq<Attribute>, k: nat, ghost t0: seq<string>,
                   log2: real -> real) returns (r: Outcome)
    requires root.Valid() && root.Linked() && target !in attrs && k < |attrs|
    requires SameOrSorted(target.values, t0)
    modifies root, target, set b | b in attrs
    decreases |attrs|, 1
    ensures root.Valid() && fresh(root.Repr - old(root.Repr))
    ensures DepthsWithin(root.Repr - old(root.Repr), root.depth + 1, root.depth + |attrs|)
    ensures SameOrSorted(target.values, old(target.values))
    ensures forall b :: b in attrs ==> SameOrSorted(b.values, old(b.values))
    ensures r.Pass? ==> root.attribute != Unset
    ensures SplitDone(root, attrs[k], old(attrs[k].values), old(|root.children|), root.dataSet.allExamples,
                      r, RemoveFirst(attrs, attrs[k]), target.name, t0, log2)
  {
    var a := attrs[k];
    SplitOn(root, a);
    ghost var t1 := target.values;
    label Split:
    r := AddChildren(root, target, attrs, a, log2);
    forall b | b in attrs ensures SameOrSorted(b.values, old(b.values)) {
      SameOrSortedTrans(b.values, old@Split(b.values), old(b.values));
    }
    SameOrSortedTrans(target.values, t1, t0);
    if r.Pass? {
      GrownWeaken(root, old(|root.children|), root.dataSet.allExamples, a.name, a.values, |a.values|,
                  RemoveFirst(attrs, a), target.name, t1, t0, log2);
    }
  }

  /** root.attribute = a; root.attribute.values.sort() */
  method SplitOn(root: Node, a: Attribute)
    modifies root`attribute, a`values
    ensures root.attribute == Split(a) && a.values == Sort(old(a.values)) && Sort(a.values) == a.values
  {
    root.attribute := Split(a);
    a.values := Sort(a.values);
    SortIdempotent(old(a.values));
  }

  // ---------------------------------------------------------------------------
  // The children of a split
  // ---------------------------------------------------------------------------

  /** The nodes hanging below root, and their data sets. */
  ghost function Kids(root: Node): (r: set<Node>)
    reads root`children
    ensures forall j :: 0 <= j < |root.children| ==> root.children[j].1 in r
  {
    set j | 0 <= j < |root.children| :: root.children[j].1
  }

  ghost function Tables(root: Node): (r: set<DataSet>)
    reads root`children
    ensures forall j :: 0 <= j < |root.children| ==> root.children[j].1.dataSet in r
  {
    set j | 0 <= j < |root.children| :: root.children[j].1.dataSet
  }

  /** like_parent_like_child applied to n settled on a dominant value, and
      role is the leaf it named. */
  ghost predicate FallbackLeaf(role: Role, n: Node, tn: string, tv: seq<string>, log2: real -> real)
    reads n.line
  {
    n.Linked() &&
    var w := FallbackOf(n, tn, tv, log2);
    w.Dominant? && role == Leaf(w.name)
  }

  /** Entry e = (value, child) of root's children: the child hangs below
      root, holds exactly the examples of xs with that value of attribute
      aname (in their order), was given a role, splits (if it does) on one of
      the remaining candidates rest, and when it holds no example its role is
      the leaf like_parent_like_child found from root (with the classifier's
      values in their first or their sorted order). */
  ghost predicate ChildFor(root: Node, e: (string, Node), xs: seq<Example>, aname: string, rest: seq<Attribute>,
                           tn: string, t0: seq<string>, log2: real -> real)
    reads e.1`attribute, e.1.dataSet`allExamples, root.line
  {
    var child := e.1;
    child.parent == root && child.attribute != Unset &&
    child.dataSet.allExamples == Filter(xs, aname, e.0) &&
    (child.attribute.Split? ==> child.attribute.attr in rest) &&
    (|child.dataSet.allExamples| == 0 ==>
       FallbackLeaf(child.attribute, root, tn, t0, log2) || FallbackLeaf(child.attribute, root, tn, Sort(t0), log2))
  }

  /** After the first c0 children, root has one child per value of vals[..n],
      in that order, each built with the remaining candidates rest. */
  ghost predicate Grown(root: Node, c0: nat, xs: seq<Example>, aname: string, vals: seq<string>, n: nat,
                        rest: seq<Attribute>, tn: string, t0: seq<string>, log2: real -> real)
    reads root`children, Kids(root)`attribute, Tables(root)`allExamples, root.line
  {
    n <= |vals| && |root.children| == c0 + n &&
    forall j :: c0 <= j < c0 + n ==>
      root.children[j].0 == vals[j - c0] && ChildFor(root, root.children[j], xs, aname, rest, tn, t0, log2)
  }

  lemma GrownWeaken(root: Node, c0: nat, xs: seq<Example>, aname: string, vals: seq<string>, n: nat,
                    rest: seq<Attribute>, tn: string, t1: seq<string>, t0: seq<string>, log2: real -> real)
    requires Grown(root, c0, xs, aname, vals, n, rest, tn, t1, log2) && SameOrSorted(t1, t0)
    ensures Grown(root, c0, xs, aname, vals, n, rest, tn, t0, log2)
  {
    SortIdempotent(t0);
    forall j | c0 <= j < c0 + n
      ensures ChildFor(root, root.children[j], xs, aname, rest, tn, t0, log2)
    {
      assert ChildFor(root, root.children[j], xs, aname, rest, tn, t1, log2);
    }
  }

  /** One pass of the loop of DTree.id3: a new node below root for the
      examples having one value. An empty subset takes its leaf from
      like_parent_like_child on root; otherwise id3 grows the new node with
      the remaining candidates. */
  method Grow(root: Node, target: Attribute, rest: seq<Attribute>, subset: seq<Example>, log2: real -> real)
    returns (r: Outcome, child: Node)
    requires root.Linked() && target !in rest
    modifies target, set b | b in rest
    decreases |rest|, 5
    ensures fresh(child) && fresh(child.Repr) && child.Valid()
    ensures DepthsWithin(child.Repr, root.depth + 1, root.depth + 1 + |rest|)
    ensures child.parent == root && child.dataSet.allExamples == subset
    ensures SameOrSorted(target.values, old(target.values))
    ensures forall b :: b in rest ==> SameOrSorted(b.values, old(b.values))
    ensures r.Pass? ==> child.attribute != Unset
    ensures child.attribute.Split? ==> child.attribute.attr in rest
    ensures |subset| == 0 ==> (r.Pass? ==> FallbackLeaf(child.attribute, root, target.name, old(target.values), log2))
  {
    if |subset| == 0 {
      r, child := NewLeaf(root, target, log2);
    } else {
      r, child := NewSubtree(root, target, rest, subset, log2);
    }
  }

  /** A new node below root for an empty subset: its role is the leaf
      like_parent_like_child finds from root. */
  method NewLeaf(root: Node, target: Attribute, log2: real -> real) returns (r: Outcome, child: Node)
    requires root.Linked()
    modifies target
    ensures fresh(child) && fresh(child.Repr) && child.Valid()
    ensures DepthsWithin(child.Repr, root.depth + 1, root.depth + 1)
    ensures child.parent == root && child.dataSet.allExamples == [] && !child.attribute.Split?
    ensures SameOrSorted(target.values, old(target.values))
    ensures r.Pass? ==> FallbackLeaf(child.attribute, root, target.name, old(target.values), log2)
  {
    var data := new DataSet();
    child := new Node(data, root);
    var leaf := LikeParentLikeChild(target, root, log2);
    SortIdempotent(old(target.values));
    if leaf.Err? {
      return Fail(leaf.error), child;
    }
    child.attribute := leaf.value;
    r := Pass;
  }

  /** A new node below root holding subset, grown by id3 with the remaining
      candidates rest: what id3 leaves is Id3Result over rest, and no node
      of the new subtree lies more than |rest| links below the child. */
  method NewSubtree(root: Node, target: Attribute, rest: seq<Attribute>, subset: seq<Example>, log2: real -> real)
    returns (r: Outcome, child: Node)
    requires root.Linked() && target !in rest
    modifies target, set b | b in rest
    decreases |rest|, 4
    ensures fresh(child) && fresh(child.Repr) && child.Valid()
    ensures DepthsWithin(child.Repr, root.depth + 1, root.depth + 1 + |rest|)
    ensures child.parent == root && child.dataSet.allExamples == subset
    ensures SameOrSorted(target.values, old(target.values))
    ensures forall b :: b in rest ==> SameOrSorted(b.values, old(b.values))
    ensures child.attribute.Split? ==> child.attribute.attr in rest
    ensures Id3Result(child, rest, old(Schema(rest)), [], r, target.name, old(target.values), log2)
  {
    child := FreshChild(root, subset);
    r := Id3(child, target, rest, log2);
  }

  /** Node(data=dataset.DataSet(), parent=root, ...) whose data set then
      receives subset. */
  method FreshChild(root: Node, subset: seq<Example>) returns (child: Node)
    requires root.Linked()
    ensures fresh(child) && child.Repr == {child} && child.Valid() && child.Linked()
    ensures child.parent == root && child.depth == root.depth + 1
    ensures child.dataSet.allExamples == subset && child.children == [] && child.attribute == Unset
  {
    var data := new DataSet();
    data.allExamples := subset;
    child := new Node(data, root);
  }

  /** The loop of DTree.id3 over the chosen attribute's values. */
  method AddChildren(root: Node, target: Attribute, attrs: seq<Attribute>, a: Attribute, log2: real -> real)
    returns (r: Outcome)
    requires root.Valid() && root.Linked() && target !in attrs && a in attrs && Sort(a.values) == a.values
    modifies root`children, root`Repr, target, set b | b in attrs
    decreases |attrs|, 0
    ensures root.Valid() && fresh(root.Repr - old(root.Repr))
    ensures SameOrSorted(target.values, old(target.values))
    ensures forall b :: b in attrs ==> SameOrSorted(b.values, old(b.values))
    ensures DepthsWithin(root.Repr - old(root.Repr), root.depth + 1, root.depth + |attrs|)
    ensures a.values == old(a.values)
    ensures old(|root.children|) <= |root.children| && root.children[..old(|root.children|)] == old(root.children)
    ensures !AllHave(root.dataSet.allExamples, a.name) && |a.values| > 0 ==> r == Fail(KeyError)
    ensures r.Pass? ==> Grown(root, old(|root.children|), root.dataSet.allExamples, a.name, a.values, |a.values|,
                              RemoveFirst(attrs, a), target.name, old(target.values), log2)
  {
    var xs := root.dataSet.allExamples;
    var vals := a.values;
    var rest := RemoveFirst(attrs, a);
    ghost var c0 := |root.children|;
    var i := 0;
    while i < |vals|
      invariant root.Valid() && fresh(root.Repr - old(root.Repr))
      invariant DepthsWithin(root.Repr - old(root.Repr), root.depth + 1, root.depth + |attrs|)
      invariant SameOrSorted(target.values, old(target.values))
      invariant forall b :: b in attrs ==> SameOrSorted(b.values, old(b.values))
      invariant a.values == vals
      invariant c0 <= |root.children| && root.children[..c0] == old(root.children)
      invariant Grown(root, c0, xs, a.name, vals, i, rest, target.name, old(target.values), log2)
      invariant i > 0 ==> AllHave(xs, a.name)
    {
      if !AllHave(xs, a.name) {
        return Fail(KeyError);
      }
      label Before:
      r := AddChild(root, target, rest, xs, a.name, vals, i, c0, old(target.values), log2);
      forall b | b in attrs ensures SameOrSorted(b.values, old(b.values)) {
        SameOrSortedTrans(b.values, old@Before(b.values), old(b.values));
      }
      SameOrSortedTrans(target.values, old@Before(target.values), old(target.values));
      SortIdempotent(vals);
      if r.Fail? {
        return;
      }
      i := i + 1;
    }
    return Pass;
  }

  /** The body of that loop for the i-th value: the examples having it, a
      new node for them, and the pair appended to root's children. */
  method AddChild(root: Node, target: Attribute, rest: seq<Attribute>, xs: seq<Example>, aname: string,
                  vals: seq<string>, i: nat, ghost c0: nat, ghost t0: seq<string>, log2: real -> real)
    returns (r: Outcome)
    requires root.Valid() && root.Linked() && target !in rest && i < |vals|
    requires Grown(root, c0, xs, aname, vals, i, rest, target.name, t0, log2) && SameOrSorted(target.values, t0)
    modifies root`children, root`Repr, target, set b | b in rest
    decreases |rest|, 6
    ensures root.Valid() && fresh(root.Repr - old(root.Repr))
    ensures DepthsWithin(root.Repr - old(root.Repr), root.depth + 1, root.depth + 1 + |rest|)
    ensures SameOrSorted(target.values, old(target.values))
    ensures forall b :: b in rest ==> SameOrSorted(b.values, old(b.values))
    ensures |root.children| >= old(|root.children|) && root.children[..old(|root.children|)] == old(root.children)
    ensures r.Pass? ==> Grown(root, c0, xs, aname, vals, i + 1, rest, target.name, t0, log2)
  {
    var value := vals[i];
    var subset := Filter(xs, aname, value);
    var sub, child := Grow(root, target, rest, subset, log2);
    assert Grown(root, c0, xs, aname, vals, i, rest, target.name, t0, log2);
    if sub.Fail? {
      return sub;
    }
    SortIdempotent(t0);
    assert ChildFor(root, (value, child), xs, aname, rest, target.name, t0, log2);
    ghost var before := root.children;
    Attach(root, value, child);
    assert forall j :: c0 <= j < c0 + i ==> root.children[j] == before[j];
    GrownNext(root, c0, xs, aname, vals, i, rest, target.name, t0, log2);
    return Pass;
  }

  /** The step of the loop: Grown for one more value once its child is in. */
  lemma GrownNext(root: Node, c0: nat, xs: seq<Example>, aname: string, vals: seq<string>, i: nat,
                  rest: seq<Attribute>, tn: string, t0: seq<string>, log2: real -> real)
    requires i < |vals| && |root.children| == c0 + i + 1 && root.children[c0 + i].0 == vals[i]
    requires forall j :: c0 <= j < c0 + i ==>
      root.children[j].0 == vals[j - c0] && ChildFor(root, root.children[j], xs, aname, rest, tn, t0, log2)
    requires ChildFor(root, root.children[c0 + i], xs, aname, rest, tn, t0, log2)
    ensures Grown(root, c0, xs, aname, vals, i + 1, rest, tn, t0, log2)
  {
  }

  /** root.children.append((value, child)) for a child built below root. */
  method Attach(root: Node, value: string, child: Node)
    requires root.Valid() && child.Valid() && root !in child.Repr
    requires forall n :: n in child.Repr ==> n !in root.Repr
    modifies root`children, root`Repr
    ensures root.Valid() && root.children == old(root.children) + [(value, child)]
    ensures root.Repr == old(root.Repr) + child.Repr
  {
    root.children := root.children + [(value, child)];
    root.Repr := root.Repr + child.Repr;
  }

  // ---------------------------------------------------------------------------
  // No candidate left
  // ---------------------------------------------------------------------------

  /** The outcome of like_parent_like_child's walk w for a node whose role
      becomes the leaf it names. */
  ghost predicate WalkEnds(r: Outcome, role: Role, w: Walk) {
    match w
    case Dominant(name) => r == Pass && role == Leaf(name)
    case Raised(error) => r == Fail(error)
    case PastRoot => r == Fail(TypeError)
  }

  /** What DTree.id3 does with no candidate left, for the classifier's
      values t0 before: partial_count sorts them and counts the smallest; a
      tie (as many of it as of the rest) falls back on the ancestors,
      otherwise the dominant value under the sorted order names the leaf. */
  ghost predicate FeaturesExhausted(root: Node, r: Outcome, tn: string, t0: seq<string>, log2: real -> real)
    reads root`attribute, root.dataSet`allExamples, root.line
  {
    var xs := root.dataSet.allExamples;
    root.Linked() &&
    match SmallestCount(xs, tn, t0)
    case Err(error) => r == Fail(error)
    case Ok(numPos) =>
      if numPos == |xs| - numPos then WalkEnds(r, root.attribute, FallbackOf(root, tn, Sort(t0), log2))
      else
        var e := EntropyOf(xs, tn, Sort(t0), log2);
        if e.Err? then r == Fail(e.error) else r == Pass && root.attribute == Leaf(e.value.dominant)
  }

  /** DTree.id3 when no candidate is left. */
  method OutOfFeatures(root: Node, target: Attribute, log2: real -> real) returns (r: Outcome)
    requires root.Valid() && root.Linked()
    modifies root`attribute, target
    ensures root.Valid() && root.Repr == old(root.Repr) && root.children == old(root.children)
    ensures root.attribute == old(root.attribute) || root.attribute.Leaf?
    ensures SameOrSorted(target.values, old(target.values))
    ensures FeaturesExhausted(root, r, target.name, old(target.values), log2)
  {
    var numPos := root.dataSet.PartialCount(target);
    SortIdempotent(old(target.values));
    if numPos.Err? {
      return Fail(numPos.error);
    }
    r := NameLeaf(root, target, numPos.value, log2);
  }

  /** The rest of DTree.id3 with no candidate left, once partial_count has
      sorted the classifier's values and counted numPos examples of the
      smallest: a tie falls back on the ancestors, otherwise the dominant
      value names the leaf. */
  method NameLeaf(root: Node, target: Attribute, numPos: nat, log2: real -> real) returns (r: Outcome)
    requires root.Valid() && root.Linked() && target.values == Sort(target.values)
    modifies root`attribute, target
    ensures root.Valid() && root.Repr == old(root.Repr) && root.children == old(root.children)
    ensures root.attribute == old(root.attribute) || root.attribute.Leaf?
    ensures target.values == old(target.values)
    ensures var xs := root.dataSet.allExamples;
      if numPos == |xs| - numPos then WalkEnds(r, root.attribute, FallbackOf(root, target.name, old(target.values), log2))
      else
        var e := EntropyOf(xs, target.name, old(target.values), log2);
        if e.Err? then r == Fail(e.error) else r == Pass && root.attribute == Leaf(e.value.dominant)
  {
    var numNeg := root.dataSet.Length() - numPos;
    if numPos == numNeg {
      var leaf := LikeParentLikeChild(target, root, log2);
      if leaf.Err? {
        return Fail(leaf.error);
      }
      root.attribute := leaf.value;
    } else {
      var dominant := root.dataSet.Entropy(target, log2);
      if dominant.Err? {
        return Fail(dominant.error);
      }
      root.attribute := Leaf(dominant.value.dominant);
    }
    return Pass;
  }

  // ---------------------------------------------------------------------------
  // DTree.test_case and DTree.test
  // ---------------------------------------------------------------------------

  /** The domain attributes the nodes of ns split on. */
  ghost function SplitAttrs(ns: set<Node>): (r: set<Attribute>)
    reads ns
    ensures forall n :: n in ns && n.attribute.Split? ==> n.attribute.attr in r
  {
    set n | n in ns && n.attribute.Split? :: n.attribute.attr
  }

  /** What test_case can answer below node: the names of its leaves, and the
      name of a split attribute that happens to list the value 'end'. */
  ghost function Labels(node: Node): (r: set<Option<string>>)
    reads node`Repr, node.Repr, SplitAttrs(node.Repr)
  {
    (set n | n in node.Repr && n.attribute.Leaf? :: n.attribute.name) +
    (set n | n in node.Repr && n.attribute.Split? && "end" in n.attribute.attr.values :: Some(n.attribute.attr.name))
  }

  /** The position of the first child whose branch value is v. */
  function FirstBranch(children: seq<(string, Node)>, v: string): (r: Option<nat>)
    ensures r.None? <==> forall i :: 0 <= i < |children| ==> children[i].0 != v
    ensures r.Some? ==> r.value < |children| && children[r.value].0 == v &&
                        forall i :: 0 <= i < r.value ==> children[i].0 != v
  {
    if |children| == 0 then None
    else if children[0].0 == v then Some(0)
    else match FirstBranch(children[1..], v)
      case None => None
      case Some(i) => Some(i + 1)
  }

  /** DTree.test_case: the answer of the subtree at node for the example x.
      A node still without a role raises AttributeError; get_value raises
      KeyError when x lacks the split attribute; 'unknown' when no branch
      carries x's value. */
  function TestCase(x: Example, node: Node): (r: Result<Option<string>>)
    requires node.Valid()
    reads node`Repr, node.Repr, SplitAttrs(node.Repr)
    decreases node.Repr
    ensures r.Ok? ==> r.value == Some("unknown") || r.value in Labels(node)
    ensures r.Err? ==> r.error == AttributeError || r.error == KeyError
  {
    match node.attribute
    case Unset => Err(AttributeError)
    case Leaf(name) => Ok(name)
    case Split(a) =>
      if "end" in a.values then Ok(Some(a.name))
      else match GetValue(x, ByAttribute(a))
        case Err(e) => Err(e)
        case Ok(v) =>
          match FirstBranch(node.children, v)
          case None => Ok(Some("unknown"))
          case Some(i) => TestCase(x, node.children[i].1)
  }

  /** The count DTree.test builds over xs: the examples whose answer from
      test_case is their own value of the classifier. The first example for
      which test_case or get_value raises ends it with that error. */
  function CorrectCount(tree: Node, classifier: Attribute, xs: seq<Example>): (r: Result<nat>)
    requires tree.Valid()
    reads tree`Repr, tree.Repr, SplitAttrs(tree.Repr)
    decreases |xs|
    ensures r.Ok? ==> r.value <= |xs|
  {
    if |xs| == 0 then Ok(0)
    else match CorrectCount(tree, classifier, xs[..|xs| - 1])
      case Err(e) => Err(e)
      case Ok(c) =>
        var x := xs[|xs| - 1];
        match TestCase(x, tree)
        case Err(e) => Err(e)
        case Ok(answer) =>
          match GetValue(x, ByAttribute(classifier))
          case Err(e) => Err(e)
          case Ok(actual) => Ok(if answer == Some(actual) then c + 1 else c)
  }

  /** Once the count over a prefix raised, the count over all of xs raises
      the same error. */
  lemma {:induction false} CorrectCountStops(tree: Node, classifier: Attribute, xs: seq<Example>, n: nat)
    requires tree.Valid() && n <= |xs| && CorrectCount(tree, classifier, xs[..n]).Err?
    ensures CorrectCount(tree, classifier, xs) == CorrectCount(tree, classifier, xs[..n])
    decreases |xs| - n
  {
    if n < |xs| {
      assert xs[..n + 1][..n] == xs[..n];
      CorrectCountStops(tree, classifier, xs, n + 1);
    } else {
      assert xs[..n] == xs;
    }
  }

  /** The learned tree of DTree: the classifier, the training data, the
      candidate attributes and the root grown by id3. */
  class DTree {
    const classifier: Attribute
    const trainingData: DataSet
    const attributes: seq<Attribute>
    const decisionTree: Node

    constructor (classifier: Attribute, trainingData: DataSet, attributes: seq<Attribute>, root: Node)
      ensures this.classifier == classifier && this.trainingData == trainingData
      ensures this.attributes == attributes && decisionTree == root
    {
      this.classifier := classifier;
      this.trainingData := trainingData;
      this.attributes := attributes;
      decisionTree := root;
    }

    /** DTree.test: how many examples of testing the tree classifies as
        their own value of the classifier. */
    method Test(classifier: Attribute, testing: DataSet) returns (r: Result<nat>)
      requires decisionTree.Valid()
      ensures r == CorrectCount(decisionTree, classifier, testing.allExamples)
      ensures r.Ok? ==> r.value <= |testing.allExamples|
    {
      var xs := testing.allExamples;
      var count := 0;
      var i := 0;
      while i < |xs|
        invariant i <= |xs|
        invariant CorrectCount(decisionTree, classifier, xs[..i]) == Ok(count)
      {
        assert xs[..i + 1][..i] == xs[..i];
        var answer := TestCase(xs[i], decisionTree);
        if answer.Err? {
          CorrectCountStops(decisionTree, classifier, xs, i + 1);
          return Err(answer.error);
        }
        var actual := GetValue(xs[i], ByAttribute(classifier));
        if actual.Err? {
          CorrectCountStops(decisionTree, classifier, xs, i + 1);
          return Err(actual.error);
        }
        if answer.value == Some(actual.value) {
          count := count + 1;
        }
        i := i + 1;
      }
      assert xs[..i] == xs;
      return Ok(count);
    }
  }

  /** The exceptions of Id3Result that concern the whole data set: one raised
      by entropy, and the IndexError of an empty one. */
  lemma Id3ResultErrors(root: Node, attrs: seq<Attribute>, cols: seq<Column>, ch0: seq<(string, Node)>,
                        r: Outcome, tn: string, t0: seq<string>, log2: real -> real)
    requires Id3Result(root, attrs, cols, ch0, r, tn, t0, log2)
    ensures var e := EntropyOf(root.dataSet.allExamples, tn, t0, log2);
      (e.Err? ==> r == Fail(e.error)) &&
      (e.Ok? && |root.dataSet.allExamples| == 0 ==> r == Fail(IndexError))
    ensures r.Pass? ==> root.attribute != Unset
  {
  }

  /** DTree(classifier, training_data, attributes): a root over the training
      data, without parent, children or role, grown by id3 over all the
      attributes: what id3 leaves is Id3Result, and no node lies more than
      |attributes| links below the root. An exception raised while growing
      it leaves no tree; root is the node id3 worked on either way. */
  method Learn(classifier: Attribute, trainingData: DataSet, attributes: seq<Attribute>, log2: real -> real)
    returns (r: Result<DTree>, ghost root: Node)
    requires classifier !in attributes
    modifies classifier, set b | b in attributes
    ensures fresh(root) && root.Valid() && root.parent == null && root.dataSet == trainingData
    ensures DepthsWithin(root.Repr, 0, |attributes|)
    ensures Id3Result(root, attributes, old(Schema(attributes)), [], if r.Ok? then Pass else Fail(r.error),
                      classifier.name, old(classifier.values), log2)
    ensures r.Ok? ==> fresh(r.value) && r.value.decisionTree == root
    ensures r.Ok? ==> r.value.classifier == classifier && r.value.trainingData == trainingData
    ensures r.Ok? ==> r.value.attributes == attributes && root.attribute != Unset
    ensures var e := EntropyOf(trainingData.allExamples, classifier.name, old(classifier.values), log2);
      (e.Err? ==> r == Err(e.error)) &&
      (e.Ok? && |trainingData.allExamples| == 0 ==> r == Err(IndexError))
    ensures SameOrSorted(classifier.values, old(classifier.values))
    ensures forall b :: b in attributes ==> SameOrSorted(b.values, old(b.values))
  {
    var node := new Node(trainingData, null);
    var tree := new DTree(classifier, trainingData, attributes, node);
    root := node;
    var outcome := Id3(node, classifier, attributes, log2);
    Id3ResultErrors(root, attributes, old(Schema(attributes)), [], outcome, classifier.name, old(classifier.values), log2);
    r := if outcome.Pass? then Ok(tree) else Err(outcome.error);
  }
}
