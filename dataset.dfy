/** Examples, data sets and the counting behind entropy, remainder and gain
    (sanityCheckID3/dataset.py). Shannon's log2 is a parameter: every result
    that depends on it is stated in terms of the parameter, and the tests the
    learner makes on entropy values are restated as counts. */
module Data {
  import opened Outcomes
  import opened Text

  // ---------------------------------------------------------------------------
  // Attributes and examples
  // ---------------------------------------------------------------------------

  /** An attribute of the domain: a name and its list of legal values. The
      learner sorts that list in place, so `values` is a mutable field. */
  class Attribute {
    const name: string
    var values: seq<string>

    constructor (name: string, values: seq<string>)
      ensures this.name == name && this.values == values
    {
      this.name := name;
      this.values := values;
    }
  }

  /** The name and the legal values of one attribute, as a value. */
  datatype Column = Column(name: string, domain: seq<string>)

  function Schema(attrs: seq<Attribute>): (r: seq<Column>)
    reads set a | a in attrs
    ensures |r| == |attrs|
    ensures forall i :: 0 <= i < |attrs| ==> r[i] == Column(attrs[i].name, attrs[i].values)
  {
    if attrs == [] then [] else [Column(attrs[0].name, attrs[0].values)] + Schema(attrs[1..])
  }

  /** One example: the value it has for each attribute name. */
  datatype Example = Example(values: map<string, string>)

  /** get_value accepts an attribute name or an Attribute. */
  datatype AttrKey = ByName(name: string) | ByAttribute(attr: Attribute)

  function KeyName(key: AttrKey): string {
    match key
    case ByName(n) => n
    case ByAttribute(a) => a.name
  }

  function GetValue(e: Example, key: AttrKey): (r: Result<string>)
    ensures r.Ok? <==> KeyName(key) in e.values
    ensures r.Err? ==> r.error == KeyError
  {
    var n := KeyName(key);
    if n in e.values then Ok(e.values[n]) else Err(KeyError)
  }

  /** Asking by name and asking by the attribute give the same answer. */
  lemma GetValueEitherKey(e: Example, a: Attribute)
    ensures GetValue(e, ByName(a.name)) == GetValue(e, ByAttribute(a))
    ensures GetValue(e, ByName(a.name)).Ok? ==> GetValue(e, ByName(a.name)).value == e.values[a.name]
  {
  }

  // ---------------------------------------------------------------------------
  // Building an example from the fields of a line
  // ---------------------------------------------------------------------------

  /** The first position whose value is not legal for its column, or |vals|. */
  function FirstUnknown(vals: seq<string>, cols: seq<Column>): (i: nat)
    requires |vals| == |cols|
    ensures i <= |vals|
    ensures forall j :: 0 <= j < i ==> vals[j] in cols[j].domain
    ensures i < |vals| ==> vals[i] !in cols[i].domain
  {
    if vals == [] then 0
    else if vals[0] !in cols[0].domain then 0
    else 1 + FirstUnknown(vals[1..], cols[1..])
  }

  /** The dictionary filled position by position: a later column with the same
      name overwrites an earlier one. */
  function ZipMap(cols: seq<Column>, vals: seq<string>): map<string, string>
    requires |vals| == |cols|
  {
    if cols == [] then map[]
    else ZipMap(cols[..|cols| - 1], vals[..|vals| - 1])[cols[|cols| - 1].name := vals[|vals| - 1]]
  }

  /** Filling one more position. */
  lemma ZipMapNext(cols: seq<Column>, vals: seq<string>, i: nat)
    requires |vals| == |cols| && i < |cols|
    ensures ZipMap(cols[..i + 1], vals[..i + 1]) == ZipMap(cols[..i], vals[..i])[cols[i].name := vals[i]]
  {
    assert cols[..i + 1][..i] == cols[..i] && vals[..i + 1][..i] == vals[..i];
  }

  /** Some column is named k. */
  ghost predicate Named(cols: seq<Column>, k: string) {
    exists i :: 0 <= i < |cols| && cols[i].name == k
  }

  /** No later column has the name of column i. */
  ghost predicate LastOfName(cols: seq<Column>, i: int) {
    0 <= i < |cols| && forall j :: i < j < |cols| ==> cols[j].name != cols[i].name
  }

  lemma {:induction false} ZipMapKeys(cols: seq<Column>, vals: seq<string>, k: string)
    requires |vals| == |cols|
    ensures k in ZipMap(cols, vals) <==> Named(cols, k)
  {
    if cols != [] {
      var n := |cols| - 1;
      ZipMapKeys(cols[..n], vals[..n], k);
      if Named(cols, k) && k != cols[n].name {
        var i :| 0 <= i < |cols| && cols[i].name == k;
        assert cols[..n][i] == cols[i];
      }
      if Named(cols[..n], k) {
        var i :| 0 <= i < n && cols[..n][i].name == k;
        assert cols[i].name == k;
      }
    }
  }

  lemma {:induction false} ZipMapValue(cols: seq<Column>, vals: seq<string>, i: int)
    requires |vals| == |cols| && LastOfName(cols, i)
    ensures cols[i].name in ZipMap(cols, vals) && ZipMap(cols, vals)[cols[i].name] == vals[i]
  {
    var n := |cols| - 1;
    if i < n {
      assert LastOfName(cols[..n], i);
      ZipMapValue(cols[..n], vals[..n], i);
      assert cols[..n][i] == cols[i] && vals[..n][i] == vals[i];
    }
  }

  /** Example.__init__: the arity check, then each value against its column. */
  function ExampleFrom(vals: seq<string>, cols: seq<Column>, line: int): Result<Example> {
    if |vals| != |cols| then Err(SchemaError(line, WrongArity(|vals|, |cols|)))
    else
      var i := FirstUnknown(vals, cols);
      if i < |vals| then Err(SchemaError(line, UnknownValue(cols[i].name, vals[i])))
      else Ok(Example(ZipMap(cols, vals)))
  }

  /** An example is built exactly when the arity matches and every value is
      legal for its column; the error names the line and the first misfit. */
  lemma ExampleFromChecks(vals: seq<string>, cols: seq<Column>, line: int)
    ensures ExampleFrom(vals, cols, line).Ok? <==>
              |vals| == |cols| && forall i :: 0 <= i < |vals| ==> vals[i] in cols[i].domain
    ensures |vals| != |cols| ==>
              ExampleFrom(vals, cols, line) == Err(SchemaError(line, WrongArity(|vals|, |cols|)))
    ensures ExampleFrom(vals, cols, line).Err? ==>
              ExampleFrom(vals, cols, line).error.SchemaError? && ExampleFrom(vals, cols, line).error.line == line
  {
  }

  /** A built example maps exactly the column names, and the name of a column
      not repeated later maps to the value at that column's position. */
  lemma ExampleFromValues(vals: seq<string>, cols: seq<Column>, line: int)
    requires ExampleFrom(vals, cols, line).Ok?
    ensures forall k :: k in ExampleFrom(vals, cols, line).value.values <==> Named(cols, k)
    ensures forall i :: LastOfName(cols, i) ==>
              cols[i].name in ExampleFrom(vals, cols, line).value.values &&
              ExampleFrom(vals, cols, line).value.values[cols[i].name] == vals[i]
  {
    forall k ensures k in ZipMap(cols, vals) <==> Named(cols, k) {
      ZipMapKeys(cols, vals, k);
    }
    forall i | LastOfName(cols, i)
      ensures cols[i].name in ZipMap(cols, vals) && ZipMap(cols, vals)[cols[i].name] == vals[i]
    {
      ZipMapValue(cols, vals, i);
    }
  }

  /** Example.__init__, filling the dictionary one attribute at a time. */
  method NewExample(vals: seq<string>, attributes: seq<Attribute>, line: int) returns (r: Result<Example>)
    ensures r == ExampleFrom(vals, Schema(attributes), line)
  {
    ghost var cols := Schema(attributes);
    if |vals| != |attributes| {
      return Err(SchemaError(line, WrongArity(|vals|, |attributes|)));
    }
    var m: map<string, string> := map[];
    var i := 0;
    while i < |attributes|
      invariant 0 <= i <= |attributes|
      invariant i <= FirstUnknown(vals, cols)
      invariant m == ZipMap(cols[..i], vals[..i])
    {
      var value := vals[i];
      var attr := attributes[i];
      assert cols[i] == Column(attr.name, attr.values);
      if value !in attr.values {
        assert FirstUnknown(vals, cols) == i;
        return Err(SchemaError(line, UnknownValue(attr.name, value)));
      }
      ZipMapNext(cols, vals, i);
      m := m[attr.name := value];
      i := i + 1;
    }
    assert cols[..i] == cols && vals[..i] == vals;
    return Ok(Example(m));
  }

  // ---------------------------------------------------------------------------
  // Reading a data file, line by line
  // ---------------------------------------------------------------------------

  /** The fields of one data line: trailing whitespace removed, the text after
      the last ':' kept, split on ','. */
  function LineFields(line: string): seq<string> {
    Split(AfterLastColon(RStrip(line)), ',')
  }

  /** A line always has at least one field, and no field holds a ',' or a ':'. */
  lemma LineFieldsShape(line: string)
    ensures |LineFields(line)| > 0
    ensures forall k :: 0 <= k < |LineFields(line)| ==> ',' !in LineFields(line)[k] && ':' !in LineFields(line)[k]
  {
    var kept := AfterLastColon(RStrip(line));
    SplitJoin(kept, ',');
    var r := Split(kept, ',');
    forall k | 0 <= k < |r| ensures ':' !in r[k] {
      JoinHoldsFields(r, ',', k);
    }
  }

  /** Every character of a field is a character of the joined text. */
  lemma {:induction false} JoinHoldsFields(fields: seq<string>, sep: char, k: nat)
    requires |fields| > 0 && k < |fields|
    ensures forall c :: c in fields[k] ==> c in Join(fields, sep)
  {
    if |fields| > 1 {
      assert Join(fields, sep) == fields[0] + [sep] + Join(fields[1..], sep);
      if k > 0 {
        JoinHoldsFields(fields[1..], sep, k - 1);
      }
    }
  }

  /** What each line of a file gives, in order; line i (counting from 0) is
      numbered i + 1 in its error. */
  function LineResults(lines: seq<string>, cols: seq<Column>): (r: seq<Result<Example>>)
    ensures |r| == |lines|
    ensures forall i :: 0 <= i < |lines| ==> r[i] == ExampleFrom(LineFields(lines[i]), cols, i + 1)
  {
    seq(|lines|, i requires 0 <= i < |lines| => ExampleFrom(LineFields(lines[i]), cols, i + 1))
  }

  /** The values of a list of results, or the first error among them. */
  function Collect<T>(rs: seq<Result<T>>): Result<seq<T>> {
    if rs == [] then Ok([])
    else
      match Collect(rs[..|rs| - 1])
      case Err(e) => Err(e)
      case Ok(xs) =>
        match rs[|rs| - 1]
        case Err(e) => Err(e)
        case Ok(x) => Ok(xs + [x])
  }

  /** Collecting succeeds exactly when every result is a value, and then it
      keeps them all, in order. */
  lemma {:induction false} CollectOk<T>(rs: seq<Result<T>>)
    ensures Collect(rs).Ok? <==> forall i :: 0 <= i < |rs| ==> rs[i].Ok?
    ensures Collect(rs).Ok? ==> |Collect(rs).value| == |rs| && forall i :: 0 <= i < |rs| ==> rs[i] == Ok(Collect(rs).value[i])
  {
    if rs != [] {
      var n := |rs| - 1;
      CollectOk(rs[..n]);
      assert forall i :: 0 <= i < n ==> rs[..n][i] == rs[i];
    }
  }

  /** One more value is appended to the collected values. */
  lemma CollectNext<T>(rs: seq<Result<T>>, k: nat, xs: seq<T>, x: T)
    requires k < |rs| && Collect(rs[..k]) == Ok(xs) && rs[k] == Ok(x)
    ensures Collect(rs[..k + 1]) == Ok(xs + [x])
  {
    var front := rs[..k + 1];
    assert front[..k] == rs[..k];
  }

  /** One step of collecting: an error at position k is the result of the
      whole, and a value at position k extends the values before it. */
  lemma CollectStep<T>(rs: seq<Result<T>>, k: nat, xs: seq<T>, r: Result<T>)
    requires k < |rs| && Collect(rs[..k]) == Ok(xs) && rs[k] == r
    ensures r.Err? ==> Collect(rs) == Err(r.error)
    ensures r.Ok? ==> Collect(rs[..k + 1]) == Ok(xs + [r.value])
  {
    if r.Err? {
      CollectFirstError(rs, k);
    } else {
      CollectNext(rs, k, xs, r.value);
    }
  }

  /** The first error wins: when the results before position k are all
      values and the k-th is an error, collecting gives that error. */
  lemma {:induction false} CollectFirstError<T>(rs: seq<Result<T>>, k: nat)
    requires k < |rs| && Collect(rs[..k]).Ok? && rs[k].Err?
    ensures Collect(rs) == Err(rs[k].error)
    decreases |rs|
  {
    var n := |rs| - 1;
    if k < n {
      assert rs[..n][..k] == rs[..k];
      CollectFirstError(rs[..n], k);
    } else {
      assert rs[..k] == rs[..n];
    }
  }

  /** The examples of a file whose lines are `lines`; the first line that does
      not fit the schema stops the reading. */
  function ParseLines(lines: seq<string>, cols: seq<Column>): Result<seq<Example>> {
    Collect(LineResults(lines, cols))
  }

  // ---------------------------------------------------------------------------
  // Data sets
  // ---------------------------------------------------------------------------

  /** Python list indexing: a negative key counts from the end. */
  function Index(xs: seq<Example>, key: int): (r: Result<Example>)
    ensures r.Ok? <==> -|xs| <= key < |xs|
    ensures r.Err? ==> r.error == IndexError
  {
    if 0 <= key < |xs| then Ok(xs[key])
    else if -|xs| <= key < 0 then Ok(xs[|xs| + key])
    else Err(IndexError)
  }

  /** Appending keeps every earlier example at its index and puts the new one
      at the old length, which is also index -1. */
  lemma IndexAfterAppend(xs: seq<Example>, e: Example, key: int)
    ensures 0 <= key < |xs| ==> Index(xs + [e], key) == Index(xs, key)
    ensures Index(xs + [e], |xs|) == Ok(e) && Index(xs + [e], -1) == Ok(e)
    ensures Index(xs + [e], key).Ok? <==> -|xs| - 1 <= key <= |xs|
  {
  }

  class DataSet {
    var allExamples: seq<Example>

    constructor ()
      ensures allExamples == []
    {
      allExamples := [];
    }

    function Length(): (n: nat)
      reads this
      ensures n == |allExamples|
    {
      |allExamples|
    }

    function Get(key: int): (r: Result<Example>)
      reads this
      ensures r == Index(allExamples, key)
    {
      Index(allExamples, key)
    }

    method Append(e: Example)
      modifies this
      ensures allExamples == old(allExamples) + [e]
      ensures Length() == old(Length()) + 1
      ensures Get(old(Length())) == Ok(e)
      ensures forall key :: 0 <= key < old(Length()) ==> Get(key) == old(Get(key))
    {
      allExamples := allExamples + [e];
      forall key | 0 <= key < old(Length()) ensures Get(key) == old(Get(key)) {
        IndexAfterAppend(old(allExamples), e, key);
      }
    }

    /** DataSet.__init__ over the lines of a data file. */
    static method Load(lines: seq<string>, attributes: seq<Attribute>) returns (r: Result<DataSet>)
      ensures r.Ok? ==> fresh(r.value) && ParseLines(lines, Schema(attributes)) == Ok(r.value.allExamples)
      ensures r.Err? ==> ParseLines(lines, Schema(attributes)) == Err(r.error)
    {
      var parsed := ReadExamples(lines, attributes);
      if parsed.Err? {
        return Err(parsed.error);
      }
      var d := new DataSet();
      d.allExamples := parsed.value;
      return Ok(d);
    }

    /** The loop of DataSet.__init__: one example per line, numbered from 1,
        stopping at the first line that does not fit the schema. */
    static method ReadExamples(lines: seq<string>, attributes: seq<Attribute>) returns (r: Result<seq<Example>>)
      ensures r == ParseLines(lines, Schema(attributes))
    {
      ghost var rs := LineResults(lines, Schema(attributes));
      var examples: seq<Example> := [];
      var lineNum := 1;
      while lineNum <= |lines|
        invariant 1 <= lineNum <= |lines| + 1
        invariant Collect(rs[..lineNum - 1]) == Ok(examples)
      {
        var line := lines[lineNum - 1];
        var e := NewExample(LineFields(line), attributes, lineNum);
        CollectStep(rs, lineNum - 1, examples, e);
        if e.Err? {
          return Err(e.error);
        }
        examples := examples + [e.value];
        lineNum := lineNum + 1;
      }
      assert rs[..|lines|] == rs;
      return Ok(examples);
    }

    /** DataSet.entropy: one pass over the classifier's values accumulating
        the sum of p * log2(p) and the dominant value. */
    method Entropy(classifier: Attribute, log2: real -> real) returns (r: Result<EntropyReport>)
      ensures r == EntropyOf(allExamples, classifier.name, classifier.values, log2)
    {
      var xs := allExamples;
      if |xs| == 0 {
        return Ok(EntropyReport(0.0, None));
      }
      var pass := EntropyPass(xs, classifier.name, classifier.values, log2);
      if pass.Err? {
        return Err(pass.error);
      }
      var (h, dominant) := pass.value;
      match dominant {
        case None => return Err(TypeError);
        case Some(t) => return Ok(EntropyReport(-1.0 * h, Some(t.value)));
      }
    }

    /** The loop of entropy over the classifier's values vals: a KeyError at
        the first lookup of an example without a classifier value, otherwise
        the sum of the terms and the dominant value. */
    static method EntropyPass(xs: seq<Example>, name: string, vals: seq<string>, log2: real -> real)
      returns (r: Result<(real, Option<Tally>)>)
      requires |xs| > 0
      ensures r.Err? <==> |vals| > 0 && !AllHave(xs, name)
      ensures r.Err? ==> r.error == KeyError
      ensures r.Ok? ==> r.value == (SumOf(TermOf(xs, name, log2), vals), LeaderOf(CountOf(xs, name), vals))
    {
      var h := 0.0;
      var dominant: Option<Tally> := None;
      var i := 0;
      while i < |vals|
        invariant 0 <= i <= |vals|
        invariant h == SumOf(TermOf(xs, name, log2), vals[..i])
        invariant dominant == LeaderOf(CountOf(xs, name), vals[..i])
        invariant i > 0 ==> AllHave(xs, name)
      {
        var value := vals[i];
        if !AllHave(xs, name) {
          return Err(KeyError);
        }
        EntropyStep(xs, name, vals, i, log2);
        h, dominant := Accumulate(xs, name, value, log2, h, dominant);
        i := i + 1;
      }
      assert vals[..i] == vals;
      return Ok((h, dominant));
    }

    /** The body of entropy's loop for one classifier value: its term is added
        to the sum, and it becomes the dominant value when it has examples and
        more of them than the current one. */
    static method Accumulate(xs: seq<Example>, name: string, value: string, log2: real -> real,
                             h: real, dominant: Option<Tally>)
      returns (h': real, dominant': Option<Tally>)
      requires |xs| > 0
      ensures h' == h + Term(xs, name, value, log2)
      ensures var k := Count(xs, name, value);
        dominant' == if k == 0 then dominant
                     else if dominant.None? || k > dominant.value.count then Some(Tally(value, k))
                     else dominant
    {
      var partial := Filter(xs, name, value);
      h', dominant' := h, dominant;
      if |partial| == 0 {
        h' := h + 0.0;
      } else {
        var p := |partial| as real / |xs| as real;
        h' := h + PLogP(p, log2);
        if dominant.None? {
          dominant' := Some(Tally(value, |partial|));
        } else if |partial| > dominant.value.count {
          dominant' := Some(Tally(value, |partial|));
        }
      }
    }

    /** DataSet.partial_count: sorts the classifier's values in place, then
        counts the examples having the first of them. */
    method PartialCount(classifier: Attribute) returns (r: Result<nat>)
      modifies classifier
      ensures classifier.values == Sort(old(classifier.values))
      ensures r == SmallestCount(allExamples, classifier.name, old(classifier.values))
    {
      classifier.values := Sort(classifier.values);
      if |classifier.values| == 0 {
        return Err(IndexError);
      }
      var value := classifier.values[0];
      if !AllHave(allExamples, classifier.name) {
        return Err(KeyError);
      }
      return Ok(Count(allExamples, classifier.name, value));
    }

    /** The size of the set as remainder computes it for a subset: one
        partial_count, plus the examples it did not count. */
    method CountedSize(classifier: Attribute) returns (r: Result<nat>)
      modifies classifier
      ensures classifier.values == Sort(old(classifier.values))
      ensures r == SizeAfterCount(allExamples, classifier.name, old(classifier.values))
    {
      var numPos := PartialCount(classifier);
      if numPos.Err? {
        return Err(numPos.error);
      }
      SmallestCountSpec(allExamples, classifier.name, old(classifier.values));
      return Ok(numPos.value + (|allExamples| - numPos.value));
    }

    /** The size of the set as remainder computes it for the whole set: one
        partial_count plus the size less a second partial_count. */
    method CountedSizeTwice(classifier: Attribute) returns (r: Result<nat>)
      modifies classifier
      ensures classifier.values == Sort(old(classifier.values))
      ensures r == SizeAfterCount(allExamples, classifier.name, old(classifier.values))
    {
      SortIdempotent(classifier.values);
      var first := PartialCount(classifier);
      if first.Err? {
        return Err(first.error);
      }
      var second := PartialCount(classifier);
      if second.Err? {
        return Err(second.error);
      }
      SmallestCountSpec(allExamples, classifier.name, old(classifier.values));
      return Ok(first.value + (|allExamples| - second.value));
    }

    /** One pass of DataSet.remainder's loop, for the split value `value`. */
    method SubsetContribution(target: Attribute, attr: Attribute, value: string, log2: real -> real)
      returns (r: Result<real>)
      requires target != attr
      modifies target
      ensures r == SubsetTerm(allExamples, target.name, old(target.values), attr.name, value, log2)
      ensures target.values == if AllHave(allExamples, attr.name) then Sort(old(target.values)) else old(target.values)
    {
      var xs := allExamples;
      if !AllHave(xs, attr.name) {
        return Err(KeyError);
      }
      var temp := new DataSet();
      temp.allExamples := Filter(xs, attr.name, value);
      if AllHave(xs, target.name) {
        FilterAllHave(xs, attr.name, value, target.name);
      }
      var val := temp.CountedSize(target);
      if val.Err? {
        return Err(val.error);
      }
      SortIdempotent(old(target.values));
      var actual := CountedSizeTwice(target);
      if actual.Err? {
        return Err(actual.error);
      }
      if actual.value == 0 {
        return Err(ZeroDivisionError);
      }
      var rep := temp.Entropy(target, log2);
      if rep.Err? {
        return Err(rep.error);
      }
      return Ok(Contribution(val.value, actual.value, rep.value.h));
    }

    /** One pass of remainder's loop: the first pass sorts the classifier's
        values, so every pass sees them sorted, and the contribution is the
        same as over the values as first given. */
    method NextContribution(target: Attribute, attr: Attribute, i: nat, log2: real -> real,
                            ghost xs: seq<Example>, ghost t0: seq<string>, ghost st: seq<string>,
                            ghost rs: seq<Result<real>>, ghost have: bool) returns (r: Result<real>)
      requires target != attr && xs == allExamples && i < |attr.values| && st == Sort(t0)
      requires rs == Terms(xs, target.name, t0, attr.name, attr.values, log2)
      requires have == AllHave(xs, attr.name)
      requires target.values == t0 || target.values == st
      modifies target
      ensures r == rs[i]
      ensures have ==> target.values == st
      ensures !have ==> r == Err(KeyError) && target.values == old(target.values)
    {
      var value := attr.values[i];
      SubsetTermSorted(xs, target.name, t0, attr.name, value, log2);
      SortIdempotent(t0);
      r := SubsetContribution(target, attr, value, log2);
    }

    /** DataSet.remainder: for each value of the split attribute, the subset
        having it, weighted by its size over the set's size, times its
        entropy. */
    method Remainder(target: Attribute, attr: Attribute, log2: real -> real) returns (r: Result<real>)
      requires target != attr
      modifies target
      ensures r == RemainderOf(allExamples, target.name, old(target.values), attr.name, attr.values, log2)
      ensures target.values == if attr.values != [] && AllHave(allExamples, attr.name)
                               then Sort(old(target.values)) else old(target.values)
    {
      ghost var t0 := target.values;
      var xs := allExamples;
      var avals := attr.values;
      ghost var rs := Terms(xs, target.name, t0, attr.name, avals, log2);
      ghost var st := Sort(t0);
      ghost var have := AllHave(xs, attr.name);
      var total := 0.0;
      var i := 0;
      while i < |avals|
        invariant 0 <= i <= |avals|
        invariant i == 0 ==> target.values == t0
        invariant i > 0 ==> target.values == st && have
        invariant SumResults(rs[..i]) == Ok(total)
      {
        var c := NextContribution(target, attr, i, log2, xs, t0, st, rs, have);
        if c.Err? {
          SumResultsStops(rs, i, total);
          return Err(c.error);
        }
        SumResultsNext(rs, i, total, c.value);
        total := total + c.value;
        i := i + 1;
      }
      assert rs[..i] == rs;
      return Ok(total);
    }

    /** DataSet.gain. */
    method Gain(target: Attribute, attr: Attribute, log2: real -> real) returns (r: Result<real>)
      requires target != attr
      modifies target
      ensures r == GainOf(allExamples, target.name, old(target.values), attr.name, attr.values, log2)
      ensures target.values == old(target.values) || target.values == Sort(old(target.values))
    {
      ghost var t0 := target.values;
      var current := Entropy(target, log2);
      GainOfCases(allExamples, target.name, t0, attr.name, attr.values, log2);
      if current.Err? {
        return Err(current.error);
      }
      var rem := Remainder(target, attr, log2);
      if rem.Err? {
        return Err(rem.error);
      }
      return Ok(current.value.h - rem.value);
    }
  }

  // ---------------------------------------------------------------------------
  // Counting the examples that have a value
  // ---------------------------------------------------------------------------

  predicate Has(x: Example, name: string, v: string) {
    name in x.values && x.values[name] == v
  }

  /** Every example has a value for the attribute: no lookup raises KeyError. */
  predicate AllHave(xs: seq<Example>, name: string) {
    forall i :: 0 <= i < |xs| ==> name in xs[i].values
  }

  /** The examples that have value v for the attribute, in their order. */
  function Filter(xs: seq<Example>, name: string, v: string): (r: seq<Example>)
    ensures |r| <= |xs|
  {
    if xs == [] then []
    else (if Has(xs[0], name, v) then [xs[0]] else []) + Filter(xs[1..], name, v)
  }

  /** The subset holds exactly the examples of the set that have the value. */
  lemma {:induction false} FilterMembers(xs: seq<Example>, name: string, v: string)
    ensures forall x :: x in Filter(xs, name, v) <==> x in xs && Has(x, name, v)
  {
    if xs != [] {
      FilterMembers(xs[1..], name, v);
      assert forall x :: x in xs <==> x == xs[0] || x in xs[1..];
    }
  }

  lemma FilterAllHave(xs: seq<Example>, aname: string, v: string, name: string)
    requires AllHave(xs, name)
    ensures AllHave(Filter(xs, aname, v), name)
  {
    var f := Filter(xs, aname, v);
    FilterMembers(xs, aname, v);
    forall i | 0 <= i < |f| ensures name in f[i].values {
      assert f[i] in f;
      var j :| 0 <= j < |xs| && xs[j] == f[i];
    }
  }

  function Count(xs: seq<Example>, name: string, v: string): nat {
    |Filter(xs, name, v)|
  }

  function CountOf(xs: seq<Example>, name: string): string -> nat {
    v => Count(xs, name, v)
  }

  /** A filter that keeps as many examples as it was given keeps them all. */
  lemma {:induction false} AllInFilter(xs: seq<Example>, name: string, v: string)
    requires Count(xs, name, v) == |xs|
    ensures forall x :: x in xs ==> Has(x, name, v)
    ensures AllHave(xs, name)
  {
    if xs != [] {
      assert Has(xs[0], name, v);
      AllInFilter(xs[1..], name, v);
      assert forall x :: x in xs ==> x == xs[0] || x in xs[1..];
    }
  }

  /** The value column of an attribute. */
  function Project(xs: seq<Example>, name: string): (r: seq<string>)
    requires AllHave(xs, name)
    ensures |r| == |xs|
    ensures forall i :: 0 <= i < |xs| ==> r[i] == xs[i].values[name]
  {
    if xs == [] then [] else [xs[0].values[name]] + Project(xs[1..], name)
  }

  lemma {:induction false} CountIsCountIn(xs: seq<Example>, name: string, v: string)
    requires AllHave(xs, name)
    ensures Count(xs, name, v) == CountIn(Project(xs, name), v)
  {
    if xs != [] {
      CountIsCountIn(xs[1..], name, v);
    }
  }

  /** The counts of the values vs, added in list order. */
  function CountSum(xs: seq<Example>, name: string, vs: seq<string>): nat {
    if vs == [] then 0 else CountSum(xs, name, vs[..|vs| - 1]) + Count(xs, name, vs[|vs| - 1])
  }

  lemma {:induction false} CountSumIsSumCounts(xs: seq<Example>, name: string, vs: seq<string>)
    requires AllHave(xs, name)
    ensures CountSum(xs, name, vs) == SumCounts(Project(xs, name), vs)
  {
    if vs != [] {
      var n := |vs| - 1;
      CountSumIsSumCounts(xs, name, vs[..n]);
      CountIsCountIn(xs, name, vs[n]);
      SumCountsSnoc(Project(xs, name), vs[..n], vs[n]);
      assert vs[..n] + [vs[n]] == vs;
    }
  }

  /** When every example's value is one of the distinct values vs, the
      subsets for the values of vs partition the examples. */
  lemma Partition(xs: seq<Example>, name: string, vs: seq<string>)
    requires NoDuplicates(vs)
    requires forall x :: x in xs ==> name in x.values && x.values[name] in vs
    ensures CountSum(xs, name, vs) == |xs|
  {
    assert AllHave(xs, name) by {
      forall i | 0 <= i < |xs| ensures name in xs[i].values {
        assert xs[i] in xs;
      }
    }
    CountSumIsSumCounts(xs, name, vs);
    forall k | k in Project(xs, name) ensures k in vs {
      var i :| 0 <= i < |xs| && Project(xs, name)[i] == k;
      assert xs[i] in xs;
    }
    CountsPartition(Project(xs, name), vs);
  }

  // ---------------------------------------------------------------------------
  // Sums over a list of values, and the first-seen maximum
  // ---------------------------------------------------------------------------

  /** f summed over s, in list order. */
  function SumOf(f: string -> real, s: seq<string>): real {
    if s == [] then 0.0 else SumOf(f, s[..|s| - 1]) + f(s[|s| - 1])
  }

  function Remove<T>(s: seq<T>, j: nat): seq<T>
    requires j < |s|
  {
    s[..j] + s[j + 1..]
  }

  lemma {:induction false} SumOfRemove(f: string -> real, t: seq<string>, j: nat)
    requires j < |t|
    ensures SumOf(f, t) == SumOf(f, Remove(t, j)) + f(t[j])
    decreases |t|
  {
    var n := |t| - 1;
    if j == n {
      assert Remove(t, j) == t[..n];
    } else {
      SumOfRemove(f, t[..n], j);
      assert Remove(t, j) == Remove(t[..n], j) + [t[n]];
      assert Remove(t, j)[..|Remove(t, j)| - 1] == Remove(t[..n], j);
    }
  }

  lemma MultisetRemove<T>(t: seq<T>, j: nat)
    requires j < |t|
    ensures multiset(Remove(t, j)) == multiset(t) - multiset{t[j]}
  {
    assert t == t[..j] + [t[j]] + t[j + 1..];
  }

  /** A sum does not depend on the order of its terms. */
  lemma {:induction false} SumOfPermutation(f: string -> real, s: seq<string>, t: seq<string>)
    requires multiset(s) == multiset(t)
    ensures SumOf(f, s) == SumOf(f, t)
    decreases |s|
  {
    assert |s| == |multiset(s)| == |t|;
    if s != [] {
      var n := |s| - 1;
      assert s[n] in multiset(t);
      var j :| 0 <= j < |t| && t[j] == s[n];
      MultisetRemove(s, n);
      assert Remove(s, n) == s[..n];
      MultisetRemove(t, j);
      SumOfPermutation(f, s[..n], Remove(t, j));
      SumOfRemove(f, t, j);
    }
  }

  /** A candidate dominant value and its count. */
  datatype Tally = Tally(value: string, count: nat)

  /** vals[i] has a non-zero count that no value exceeds, and every earlier
      value has a smaller count. */
  ghost predicate FirstMax(c: string -> nat, vals: seq<string>, i: int) {
    0 <= i < |vals| && c(vals[i]) > 0
    && (forall j :: 0 <= j < |vals| ==> c(vals[j]) <= c(vals[i]))
    && (forall j :: 0 <= j < i ==> c(vals[j]) < c(vals[i]))
  }

  /** The dominant value kept by entropy's loop over the classifier's values:
      a value with no examples is skipped, and a later value replaces the
      current one only when its count is strictly larger. */
  function LeaderOf(c: string -> nat, vals: seq<string>): Option<Tally> {
    if vals == [] then None
    else
      var n := |vals| - 1;
      var prev := LeaderOf(c, vals[..n]);
      var k := c(vals[n]);
      if k == 0 then prev
      else if prev.None? || k > prev.value.count then Some(Tally(vals[n], k))
      else prev
  }

  /** No dominant value exactly when no value has an example; otherwise the
      dominant value is the first value of largest count, with its count. */
  lemma {:induction false} LeaderOfSpec(c: string -> nat, vals: seq<string>)
    ensures LeaderOf(c, vals).None? <==> forall j :: 0 <= j < |vals| ==> c(vals[j]) == 0
    ensures LeaderOf(c, vals).Some? ==>
              exists i :: FirstMax(c, vals, i) && vals[i] == LeaderOf(c, vals).value.value
                          && LeaderOf(c, vals).value.count == c(vals[i])
  {
    if vals != [] {
      var n := |vals| - 1;
      var front := vals[..n];
      LeaderOfSpec(c, front);
      var prev := LeaderOf(c, front);
      var k := c(vals[n]);
      assert forall j :: 0 <= j < n ==> front[j] == vals[j];
      if prev.Some? {
        var i :| FirstMax(c, front, i) && front[i] == prev.value.value && prev.value.count == c(front[i]);
        if k == 0 || k <= prev.value.count {
          assert FirstMax(c, vals, i);
        } else {
          assert FirstMax(c, vals, n);
        }
      } else if k > 0 {
        assert FirstMax(c, vals, n);
      }
    }
  }

  /** The first maximum is unique: the dominant value is fully determined by
      the counts and the order of the values. */
  lemma FirstMaxUnique(c: string -> nat, vals: seq<string>, i: int, j: int)
    requires FirstMax(c, vals, i) && FirstMax(c, vals, j)
    ensures i == j
  {
  }

  // ---------------------------------------------------------------------------
  // Entropy
  // ---------------------------------------------------------------------------

  /** The contribution p * log2(p) of one classifier value, p being the
      fraction of the examples that have it; 0 for a value no example has. */
  function Term(xs: seq<Example>, name: string, v: string, log2: real -> real): real {
    var k := Count(xs, name, v);
    if k == 0 || |xs| == 0 then 0.0 else PLogP(k as real / |xs| as real, log2)
  }

  /** p * log2(p), the partial entropy of a fraction p. */
  function PLogP(p: real, log2: real -> real): real {
    p * log2(p)
  }

  function TermOf(xs: seq<Example>, name: string, log2: real -> real): string -> real {
    v => Term(xs, name, v, log2)
  }

  /** Extending the classifier values by one adds that value's term to the
      sum and offers it as the new dominant value. */
  lemma EntropyStep(xs: seq<Example>, name: string, vals: seq<string>, i: nat, log2: real -> real)
    requires i < |vals|
    ensures SumOf(TermOf(xs, name, log2), vals[..i + 1]) ==
              SumOf(TermOf(xs, name, log2), vals[..i]) + Term(xs, name, vals[i], log2)
    ensures var prev, k := LeaderOf(CountOf(xs, name), vals[..i]), Count(xs, name, vals[i]);
      LeaderOf(CountOf(xs, name), vals[..i + 1]) ==
        if k == 0 then prev
        else if prev.None? || k > prev.value.count then Some(Tally(vals[i], k))
        else prev
  {
    assert vals[..i + 1][..i] == vals[..i];
  }

  /** What entropy returns: the entropy and the dominant value. */
  datatype EntropyReport = EntropyReport(h: real, dominant: Option<string>)

  /** DataSet.entropy: (0.0, None) for no examples; a KeyError when an example
      has no classifier value; a TypeError when no classifier value occurs. */
  function EntropyOf(xs: seq<Example>, name: string, cvals: seq<string>, log2: real -> real): Result<EntropyReport> {
    if |xs| == 0 then Ok(EntropyReport(0.0, None))
    else if |cvals| > 0 && !AllHave(xs, name) then Err(KeyError)
    else
      match LeaderOf(CountOf(xs, name), cvals)
      case None => Err(TypeError)
      case Some(t) => Ok(EntropyReport(-SumOf(TermOf(xs, name, log2), cvals), Some(t.value)))
  }

  /** Entropy succeeds exactly on an empty set or when every example has a
      classifier value and some value occurs; its dominant value is then the
      first classifier value of largest count. */
  lemma EntropyOfSpec(xs: seq<Example>, name: string, cvals: seq<string>, log2: real -> real)
    ensures |xs| == 0 ==> EntropyOf(xs, name, cvals, log2) == Ok(EntropyReport(0.0, None))
    ensures EntropyOf(xs, name, cvals, log2).Err? ==>
              EntropyOf(xs, name, cvals, log2).error == KeyError || EntropyOf(xs, name, cvals, log2).error == TypeError
    ensures EntropyOf(xs, name, cvals, log2).Ok? <==>
              |xs| == 0 || (AllHave(xs, name) && exists j :: 0 <= j < |cvals| && Count(xs, name, cvals[j]) > 0)
    ensures EntropyOf(xs, name, cvals, log2).Ok? && |xs| > 0 ==>
              EntropyOf(xs, name, cvals, log2).value.dominant.Some? &&
              exists i :: FirstMax(CountOf(xs, name), cvals, i) && cvals[i] == EntropyOf(xs, name, cvals, log2).value.dominant.value
  {
    LeaderOfSpec(CountOf(xs, name), cvals);
  }

  /** The learner's test `entropy == 0` on a non-empty set: one classifier
      value is shared by every example. */
  predicate ZeroEntropy(xs: seq<Example>, name: string, cvals: seq<string>) {
    |xs| > 0 && exists i :: 0 <= i < |cvals| && Count(xs, name, cvals[i]) == |xs|
  }

  /** The learner's test `entropy == 1` for a two-valued classifier: two
      different values each held by exactly half of the examples. */
  predicate EvenSplit(xs: seq<Example>, name: string, cvals: seq<string>) {
    |xs| > 0 && exists i, j :: 0 <= i < |cvals| && 0 <= j < |cvals| && cvals[i] != cvals[j]
                               && 2 * Count(xs, name, cvals[i]) == |xs| && 2 * Count(xs, name, cvals[j]) == |xs|
  }

  /** A set of zero entropy is all of one class: every example has the value
      the dominant value names, and that is the first example's value. */
  lemma ZeroEntropyIsPure(xs: seq<Example>, name: string, cvals: seq<string>, log2: real -> real)
    requires ZeroEntropy(xs, name, cvals)
    ensures AllHave(xs, name)
    ensures forall x :: x in xs ==> Has(x, name, xs[0].values[name])
    ensures EntropyOf(xs, name, cvals, log2).Ok?
    ensures EntropyOf(xs, name, cvals, log2).value.dominant == Some(xs[0].values[name])
  {
    var i :| 0 <= i < |cvals| && Count(xs, name, cvals[i]) == |xs|;
    AllInFilter(xs, name, cvals[i]);
    EntropyOfSpec(xs, name, cvals, log2);
    var rep := EntropyOf(xs, name, cvals, log2);
    var j :| FirstMax(CountOf(xs, name), cvals, j) && cvals[j] == rep.value.dominant.value;
    assert Count(xs, name, cvals[j]) == |xs|;
    AllInFilter(xs, name, cvals[j]);
  }

  /** Reordering the classifier's values leaves entropy's errors and its
      entropy unchanged (only the dominant value can differ). */
  lemma EntropyOfPermutation(xs: seq<Example>, name: string, s: seq<string>, t: seq<string>, log2: real -> real)
    requires multiset(s) == multiset(t)
    ensures EntropyOf(xs, name, s, log2).Ok? <==> EntropyOf(xs, name, t, log2).Ok?
    ensures EntropyOf(xs, name, s, log2).Err? ==> EntropyOf(xs, name, s, log2) == EntropyOf(xs, name, t, log2)
    ensures EntropyOf(xs, name, s, log2).Ok? ==> EntropyOf(xs, name, s, log2).value.h == EntropyOf(xs, name, t, log2).value.h
  {
    assert |s| == |multiset(s)| == |t|;
    EntropyOfSpec(xs, name, s, log2);
    EntropyOfSpec(xs, name, t, log2);
    var f := TermOf(xs, name, log2);
    SumOfPermutation(f, s, t);
    var hs := EntropyOf(xs, name, s, log2);
    var ht := EntropyOf(xs, name, t, log2);
    if hs.Ok? && ht.Ok? && |xs| > 0 {
      assert hs.value.h == -SumOf(f, s);
      assert ht.value.h == -SumOf(f, t);
    }
    if exists j :: 0 <= j < |s| && Count(xs, name, s[j]) > 0 {
      var j :| 0 <= j < |s| && Count(xs, name, s[j]) > 0;
      assert s[j] in multiset(t);
      var k :| 0 <= k < |t| && t[k] == s[j];
    }
    if exists j :: 0 <= j < |t| && Count(xs, name, t[j]) > 0 {
      var j :| 0 <= j < |t| && Count(xs, name, t[j]) > 0;
      assert t[j] in multiset(s);
      var k :| 0 <= k < |s| && s[k] == t[j];
    }
  }

  lemma {:induction false} CountAppend(xs: seq<Example>, ys: seq<Example>, name: string, v: string)
    ensures Count(xs + ys, name, v) == Count(xs, name, v) + Count(ys, name, v)
    decreases |xs|
  {
    if xs == [] {
      assert xs + ys == ys;
    } else {
      assert (xs + ys)[1..] == xs[1..] + ys;
      CountAppend(xs[1..], ys, name, v);
    }
  }

  /** How many examples have a value does not depend on their order. */
  lemma {:induction false} CountOfExampleOrder(xs: seq<Example>, ys: seq<Example>, name: string, v: string)
    requires multiset(xs) == multiset(ys)
    ensures Count(xs, name, v) == Count(ys, name, v)
    decreases |xs|
  {
    assert |xs| == |multiset(xs)| == |ys|;
    if xs != [] {
      assert xs[0] in multiset(ys);
      var j :| 0 <= j < |ys| && ys[j] == xs[0];
      MultisetRemove(xs, 0);
      assert Remove(xs, 0) == xs[1..];
      MultisetRemove(ys, j);
      CountOfExampleOrder(xs[1..], Remove(ys, j), name, v);
      assert ys[j..][1..] == ys[j + 1..];
      assert ys == ys[..j] + ys[j..];
      CountAppend(ys[..j], ys[j..], name, v);
      CountAppend(ys[..j], ys[j + 1..], name, v);
    }
  }

  lemma AllHaveExampleOrder(xs: seq<Example>, ys: seq<Example>, name: string)
    requires multiset(xs) == multiset(ys)
    ensures AllHave(xs, name) <==> AllHave(ys, name)
  {
    if AllHave(xs, name) {
      forall i | 0 <= i < |ys| ensures name in ys[i].values {
        assert ys[i] in multiset(xs);
        var j :| 0 <= j < |xs| && xs[j] == ys[i];
      }
    }
    if AllHave(ys, name) {
      forall i | 0 <= i < |xs| ensures name in xs[i].values {
        assert xs[i] in multiset(ys);
        var j :| 0 <= j < |ys| && ys[j] == xs[i];
      }
    }
  }

  lemma {:induction false} SumOfSameTerms(f: string -> real, g: string -> real, vs: seq<string>)
    requires forall v :: v in vs ==> f(v) == g(v)
    ensures SumOf(f, vs) == SumOf(g, vs)
    decreases |vs|
  {
    if vs != [] {
      var n := |vs| - 1;
      assert vs[n] in vs;
      SumOfSameTerms(f, g, vs[..n]);
    }
  }

  lemma {:induction false} LeaderOfSameCounts(c: string -> nat, d: string -> nat, vs: seq<string>)
    requires forall v :: v in vs ==> c(v) == d(v)
    ensures LeaderOf(c, vs) == LeaderOf(d, vs)
    decreases |vs|
  {
    if vs != [] {
      var n := |vs| - 1;
      assert vs[n] in vs;
      LeaderOfSameCounts(c, d, vs[..n]);
    }
  }

  /** Entropy reads the examples only through their number and their
      counts: the order of a data set's examples does not change it. */
  lemma EntropyOfExampleOrder(xs: seq<Example>, ys: seq<Example>, name: string, cvals: seq<string>, log2: real -> real)
    requires multiset(xs) == multiset(ys)
    ensures EntropyOf(xs, name, cvals, log2) == EntropyOf(ys, name, cvals, log2)
  {
    assert |xs| == |multiset(xs)| == |ys|;
    AllHaveExampleOrder(xs, ys, name);
    forall v ensures Count(xs, name, v) == Count(ys, name, v) {
      CountOfExampleOrder(xs, ys, name, v);
    }
    SumOfSameTerms(TermOf(xs, name, log2), TermOf(ys, name, log2), cvals);
    LeaderOfSameCounts(CountOf(xs, name), CountOf(ys, name), cvals);
  }

  // ---------------------------------------------------------------------------
  // Remainder and gain
  // ---------------------------------------------------------------------------

  /** The share of n examples that a subset of k of them holds. */
  function Weight(k: nat, n: nat): real {
    if n == 0 then 0.0 else k as real / n as real
  }

  lemma WeightWhole(n: nat)
    requires n > 0
    ensures Weight(n, n) == 1.0
  {
  }

  lemma WeightAdd(a: nat, b: nat, n: nat)
    ensures Weight(a, n) + Weight(b, n) == Weight(a + b, n)
  {
  }

  /** One subset's part of the remainder: its weight times its entropy. */
  function Contribution(k: nat, n: nat, h: real): real {
    Weight(k, n) * h
  }

  /** One pass of remainder's loop, for the split value v: the subset having
      v, its weight (computed through partial_count, hence the IndexError on
      an empty classifier, the KeyError on a missing classifier value and the
      ZeroDivisionError on an empty set) and its entropy, taken after
      partial_count has sorted the classifier's values. */
  function SubsetTerm(xs: seq<Example>, tname: string, tvals: seq<string>, aname: string,
                      v: string, log2: real -> real): Result<real>
  {
    if !AllHave(xs, aname) then Err(KeyError)
    else if tvals == [] then Err(IndexError)
    else if !AllHave(xs, tname) then Err(KeyError)
    else if |xs| == 0 then Err(ZeroDivisionError)
    else
      var subset := Filter(xs, aname, v);
      match EntropyOf(subset, tname, Sort(tvals), log2)
      case Err(e) => Err(e)
      case Ok(rep) => Ok(Contribution(|subset|, |xs|, rep.h))
  }

  /** Sorting the classifier's values first changes nothing: the pass sorts
      them itself. */
  lemma SubsetTermSorted(xs: seq<Example>, tname: string, tvals: seq<string>, aname: string,
                         v: string, log2: real -> real)
    ensures SubsetTerm(xs, tname, Sort(tvals), aname, v, log2) == SubsetTerm(xs, tname, tvals, aname, v, log2)
  {
    SortIdempotent(tvals);
  }

  /** The passes of remainder's loop, one per split value, in order. */
  function Terms(xs: seq<Example>, tname: string, tvals: seq<string>, aname: string,
                 avals: seq<string>, log2: real -> real): (rs: seq<Result<real>>)
    ensures |rs| == |avals|
    ensures forall k :: 0 <= k < |avals| ==> rs[k] == SubsetTerm(xs, tname, tvals, aname, avals[k], log2)
  {
    seq(|avals|, k requires 0 <= k < |avals| => SubsetTerm(xs, tname, tvals, aname, avals[k], log2))
  }

  /** The values of a list of results added in order; the first error ends
      the sum. */
  function SumResults(rs: seq<Result<real>>): Result<real> {
    if rs == [] then Ok(0.0)
    else
      var n := |rs| - 1;
      match SumResults(rs[..n])
      case Err(e) => Err(e)
      case Ok(total) =>
        match rs[n]
        case Err(e) => Err(e)
        case Ok(c) => Ok(total + c)
  }

  /** One more value is added to the running total. */
  lemma SumResultsNext(rs: seq<Result<real>>, k: nat, total: real, c: real)
    requires k < |rs| && SumResults(rs[..k]) == Ok(total) && rs[k] == Ok(c)
    ensures SumResults(rs[..k + 1]) == Ok(total + c)
  {
    var front := rs[..k + 1];
    assert front[..k] == rs[..k];
  }

  /** Once the running total fails at the k-th result, the whole sum fails
      with the same error. */
  lemma {:induction false} SumResultsFails(rs: seq<Result<real>>, k: nat)
    requires 0 < k <= |rs| && SumResults(rs[..k]).Err?
    ensures SumResults(rs) == SumResults(rs[..k])
    decreases |rs|
  {
    if k < |rs| {
      var n := |rs| - 1;
      assert rs[..n][..k] == rs[..k];
      SumResultsFails(rs[..n], k);
    } else {
      assert rs[..k] == rs;
    }
  }

  /** A failing result after a successful prefix is the error of the whole
      sum. */
  lemma SumResultsStops(rs: seq<Result<real>>, k: nat, total: real)
    requires k < |rs| && SumResults(rs[..k]) == Ok(total) && rs[k].Err?
    ensures SumResults(rs) == rs[k]
  {
    var front := rs[..k + 1];
    assert front[..k] == rs[..k];
    SumResultsFails(rs, k + 1);
  }

  /** An error of the sum is the error of one of the results. */
  lemma {:induction false} SumResultsError(rs: seq<Result<real>>)
    requires SumResults(rs).Err?
    ensures exists k :: 0 <= k < |rs| && rs[k] == Err(SumResults(rs).error)
  {
    var n := |rs| - 1;
    if SumResults(rs[..n]).Err? {
      SumResultsError(rs[..n]);
      var k :| 0 <= k < n && rs[..n][k] == Err(SumResults(rs[..n]).error);
      assert rs[k] == rs[..n][k];
    } else {
      assert rs[n] == Err(SumResults(rs).error);
    }
  }

  /** DataSet.remainder: the contributions of the split values, added in
      order; the first failing pass ends it. */
  function RemainderOf(xs: seq<Example>, tname: string, tvals: seq<string>, aname: string,
                       avals: seq<string>, log2: real -> real): Result<real>
  {
    SumResults(Terms(xs, tname, tvals, aname, avals, log2))
  }

  /** The remainder depends on the classifier's values only through their
      sorted order. */
  lemma RemainderOfSorted(xs: seq<Example>, tname: string, tvals: seq<string>, aname: string,
                          avals: seq<string>, log2: real -> real)
    ensures RemainderOf(xs, tname, Sort(tvals), aname, avals, log2) == RemainderOf(xs, tname, tvals, aname, avals, log2)
  {
    var sorted, plain := Terms(xs, tname, Sort(tvals), aname, avals, log2), Terms(xs, tname, tvals, aname, avals, log2);
    forall k | 0 <= k < |avals| ensures sorted[k] == plain[k] {
      SubsetTermSorted(xs, tname, tvals, aname, avals[k], log2);
    }
    assert sorted == plain;
  }

  /** A pass fails only with one of the errors partial_count and entropy
      raise. */
  lemma SubsetTermErrors(xs: seq<Example>, tname: string, tvals: seq<string>, aname: string,
                         v: string, log2: real -> real)
    ensures SubsetTerm(xs, tname, tvals, aname, v, log2).Err? ==>
              SubsetTerm(xs, tname, tvals, aname, v, log2).error in {KeyError, IndexError, ZeroDivisionError, TypeError}
  {
    EntropyOfSpec(Filter(xs, aname, v), tname, Sort(tvals), log2);
  }

  /** No split values give a remainder of 0; with split values, an empty set
      fails with IndexError (empty classifier) or ZeroDivisionError, and
      every error is one of the four partial_count and entropy raise. */
  lemma RemainderOfSpec(xs: seq<Example>, tname: string, tvals: seq<string>, aname: string,
                        avals: seq<string>, log2: real -> real)
    ensures avals == [] ==> RemainderOf(xs, tname, tvals, aname, avals, log2) == Ok(0.0)
    ensures avals != [] && |xs| == 0 ==>
              RemainderOf(xs, tname, tvals, aname, avals, log2) == Err(if tvals == [] then IndexError else ZeroDivisionError)
    ensures RemainderOf(xs, tname, tvals, aname, avals, log2).Err? ==>
              RemainderOf(xs, tname, tvals, aname, avals, log2).error in {KeyError, IndexError, ZeroDivisionError, TypeError}
  {
    var rs := Terms(xs, tname, tvals, aname, avals, log2);
    if SumResults(rs).Err? {
      SumResultsError(rs);
      var k :| 0 <= k < |rs| && rs[k] == Err(SumResults(rs).error);
      SubsetTermErrors(xs, tname, tvals, aname, avals[k], log2);
    }
    if avals != [] && |xs| == 0 {
      var first := rs[..1];
      assert first[..0] == [];
      assert SumResults(first) == Err(if tvals == [] then IndexError else ZeroDivisionError);
      SumResultsFails(rs, 1);
    }
  }

  /** The weights of the subsets for the split values, added in order. */
  function WeightSum(xs: seq<Example>, aname: string, avals: seq<string>): real {
    if avals == [] then 0.0
    else WeightSum(xs, aname, avals[..|avals| - 1]) + Weight(Count(xs, aname, avals[|avals| - 1]), |xs|)
  }

  lemma {:induction false} WeightSumIsShare(xs: seq<Example>, aname: string, avals: seq<string>)
    ensures WeightSum(xs, aname, avals) == Weight(CountSum(xs, aname, avals), |xs|)
  {
    if avals != [] {
      var n := |avals| - 1;
      var a := CountSum(xs, aname, avals[..n]);
      var b := Count(xs, aname, avals[n]);
      WeightSumIsShare(xs, aname, avals[..n]);
      ShareStep(WeightSum(xs, aname, avals), WeightSum(xs, aname, avals[..n]), Weight(b, |xs|), a, b, |xs|);
      assert CountSum(xs, aname, avals) == a + b;
    }
  }

  /** Adding the weight of b examples to that of a examples. */
  lemma ShareStep(total: real, front: real, last: real, a: nat, b: nat, n: nat)
    requires total == front + last && front == Weight(a, n) && last == Weight(b, n)
    ensures total == Weight(a + b, n)
  {
    WeightAdd(a, b, n);
  }

  /** When every example holds one of the attribute's (distinct) values, the
      remainder's weights add up to one. */
  lemma WeightsSumToOne(xs: seq<Example>, aname: string, avals: seq<string>)
    requires |xs| > 0
    requires NoDuplicates(avals)
    requires forall x :: x in xs ==> aname in x.values && x.values[aname] in avals
    ensures WeightSum(xs, aname, avals) == 1.0
  {
    WeightSumIsShare(xs, aname, avals);
    Partition(xs, aname, avals);
    WeightWhole(|xs|);
  }

  /** DataSet.gain: the entropy of the set less the remainder of the split. */
  function GainOf(xs: seq<Example>, tname: string, tvals: seq<string>, aname: string,
                  avals: seq<string>, log2: real -> real): Result<real>
  {
    match EntropyOf(xs, tname, tvals, log2)
    case Err(e) => Err(e)
    case Ok(rep) =>
      match RemainderOf(xs, tname, tvals, aname, avals, log2)
      case Err(e) => Err(e)
      case Ok(rem) => Ok(rep.h - rem)
  }

  /** Gain fails with entropy's error, else with remainder's, else it is the
      difference of the two. */
  lemma GainOfCases(xs: seq<Example>, tname: string, tvals: seq<string>, aname: string,
                    avals: seq<string>, log2: real -> real)
    ensures EntropyOf(xs, tname, tvals, log2).Err? ==>
              GainOf(xs, tname, tvals, aname, avals, log2) == Err(EntropyOf(xs, tname, tvals, log2).error)
    ensures EntropyOf(xs, tname, tvals, log2).Ok? && RemainderOf(xs, tname, tvals, aname, avals, log2).Err? ==>
              GainOf(xs, tname, tvals, aname, avals, log2) == Err(RemainderOf(xs, tname, tvals, aname, avals, log2).error)
    ensures EntropyOf(xs, tname, tvals, log2).Ok? && RemainderOf(xs, tname, tvals, aname, avals, log2).Ok? ==>
              GainOf(xs, tname, tvals, aname, avals, log2) ==
              Ok(EntropyOf(xs, tname, tvals, log2).value.h - RemainderOf(xs, tname, tvals, aname, avals, log2).value)
  {
  }

  /** The gain does not depend on the order of the classifier's values. */
  lemma GainOfPermutation(xs: seq<Example>, tname: string, s: seq<string>, t: seq<string>, aname: string,
                          avals: seq<string>, log2: real -> real)
    requires multiset(s) == multiset(t)
    ensures GainOf(xs, tname, s, aname, avals, log2) == GainOf(xs, tname, t, aname, avals, log2)
  {
    EntropyOfPermutation(xs, tname, s, t, log2);
    SortSpec(s);
    SortSpec(t);
    SortedUnique(Sort(s), Sort(t));
    RemainderOfSorted(xs, tname, s, aname, avals, log2);
    RemainderOfSorted(xs, tname, t, aname, avals, log2);
  }

  /** partial_count: the number of examples having the smallest classifier
      value (after sorting the values in place). */
  function SmallestCount(xs: seq<Example>, name: string, cvals: seq<string>): Result<nat> {
    if cvals == [] then Err(IndexError)
    else if !AllHave(xs, name) then Err(KeyError)
    else Ok(Count(xs, name, Sort(cvals)[0]))
  }

  /** A size computed through partial_count: the errors of partial_count,
      or the number of examples. */
  function SizeAfterCount(xs: seq<Example>, name: string, cvals: seq<string>): Result<nat> {
    match SmallestCount(xs, name, cvals)
    case Err(e) => Err(e)
    case Ok(_) => Ok(|xs|)
  }

  /** partial_count fails on an empty classifier (IndexError) and on an
      example without a classifier value (KeyError); otherwise it counts the
      examples having the smallest of the classifier's values. */
  lemma SmallestCountSpec(xs: seq<Example>, name: string, cvals: seq<string>)
    ensures SmallestCount(xs, name, cvals).Err? <==> cvals == [] || !AllHave(xs, name)
    ensures SmallestCount(xs, name, cvals).Err? ==>
              SmallestCount(xs, name, cvals).error == (if cvals == [] then IndexError else KeyError)
    ensures SmallestCount(xs, name, cvals).Ok? ==>
              SmallestCount(xs, name, cvals).value <= |xs| &&
              exists v :: v in cvals && (forall w :: w in cvals ==> AtMost(v, w))
                          && SmallestCount(xs, name, cvals).value == Count(xs, name, v)
  {
    if cvals != [] && AllHave(xs, name) {
      SortHeadIsSmallest(cvals);
      SortSameMembers(cvals, Sort(cvals)[0]);
    }
  }
}
