/** Python's ordering of strings, list.sort() on strings, and the few string
    operations the learners use on data lines (strip, split, counting). */
module Text {

  // ---------------------------------------------------------------------------
  // Ordering: Python compares str values lexicographically by code point, and a
  // proper prefix comes first.
  // ---------------------------------------------------------------------------

  predicate Less(a: string, b: string)
    decreases |a|
  {
    |b| > 0 && (|a| == 0 || a[0] < b[0] || (a[0] == b[0] && Less(a[1..], b[1..])))
  }

  predicate AtMost(a: string, b: string) {
    a == b || Less(a, b)
  }

  lemma {:induction false} LessIrreflexive(a: string)
    ensures !Less(a, a)
    decreases |a|
  {
    if |a| > 0 {
      LessIrreflexive(a[1..]);
    }
  }

  lemma {:induction false} LessTransitive(a: string, b: string, c: string)
    requires Less(a, b) && Less(b, c)
    ensures Less(a, c)
    decreases |a|
  {
    if |a| > 0 && a[0] == b[0] && b[0] == c[0] {
      LessTransitive(a[1..], b[1..], c[1..]);
    }
  }

  lemma {:induction false} LessTotal(a: string, b: string)
    ensures a == b || Less(a, b) || Less(b, a)
    decreases |a|
  {
    if |a| > 0 && |b| > 0 && a[0] == b[0] {
      LessTotal(a[1..], b[1..]);
      if a[1..] == b[1..] {
        assert a == [a[0]] + a[1..] && b == [b[0]] + b[1..];
      }
    }
  }

  lemma LessAsymmetric(a: string, b: string)
    requires Less(a, b)
    ensures !Less(b, a)
  {
    if Less(b, a) {
      LessTransitive(a, b, a);
      LessIrreflexive(a);
    }
  }

  lemma AtMostTransitive(a: string, b: string, c: string)
    requires AtMost(a, b) && AtMost(b, c)
    ensures AtMost(a, c)
  {
    if a != b && b != c {
      LessTransitive(a, b, c);
    }
  }

  lemma AtMostAntisymmetric(a: string, b: string)
    requires AtMost(a, b) && AtMost(b, a)
    ensures a == b
  {
    if a != b {
      LessAsymmetric(a, b);
    }
  }

  lemma AtMostTotal(a: string, b: string)
    ensures AtMost(a, b) || AtMost(b, a)
  {
    LessTotal(a, b);
  }

  // ---------------------------------------------------------------------------
  // list.sort() on a list of strings, as insertion into a sorted list.
  // ---------------------------------------------------------------------------

  ghost predicate Sorted(s: seq<string>) {
    forall i, j :: 0 <= i < j < |s| ==> AtMost(s[i], s[j])
  }

  /** Every element of s is at least x. */
  ghost predicate AllAtLeast(x: string, s: seq<string>) {
    forall j :: 0 <= j < |s| ==> AtMost(x, s[j])
  }

  function Insert(x: string, s: seq<string>): (r: seq<string>)
    ensures |r| == |s| + 1
  {
    if s == [] then [x]
    else if AtMost(x, s[0]) then [x] + s
    else [s[0]] + Insert(x, s[1..])
  }

  lemma {:induction false} InsertPerm(x: string, s: seq<string>)
    ensures multiset(Insert(x, s)) == multiset(s) + multiset{x}
  {
    if s != [] {
      assert s == [s[0]] + s[1..];
      if !AtMost(x, s[0]) {
        InsertPerm(x, s[1..]);
      }
    }
  }

  /** A lower bound of s and of x bounds the list after insertion. */
  lemma {:induction false} InsertLowerBound(y: string, x: string, s: seq<string>)
    requires AllAtLeast(y, s) && AtMost(y, x)
    ensures AllAtLeast(y, Insert(x, s))
  {
    if s != [] && !AtMost(x, s[0]) {
      InsertLowerBound(y, x, s[1..]);
      var rest := Insert(x, s[1..]);
      forall j | 0 <= j < |rest| + 1 ensures AtMost(y, ([s[0]] + rest)[j]) {
        if j > 0 {
          assert ([s[0]] + rest)[j] == rest[j - 1];
        }
      }
    }
  }

  lemma {:induction false} InsertSorted(x: string, s: seq<string>)
    requires Sorted(s)
    ensures Sorted(Insert(x, s))
  {
    if s != [] {
      if AtMost(x, s[0]) {
        forall j | 0 <= j < |s| ensures AtMost(x, s[j]) {
          AtMostTransitive(x, s[0], s[j]);
        }
        var r := [x] + s;
        forall i, j | 0 <= i < j < |r| ensures AtMost(r[i], r[j]) {
          if i > 0 {
            assert r[i] == s[i - 1] && r[j] == s[j - 1];
          }
        }
      } else {
        InsertSorted(x, s[1..]);
        AtMostTotal(x, s[0]);
        SortedTail(s);
        InsertLowerBound(s[0], x, s[1..]);
        var rest := Insert(x, s[1..]);
        var r := [s[0]] + rest;
        forall i, j | 0 <= i < j < |r| ensures AtMost(r[i], r[j]) {
          if i == 0 {
            assert r[j] == rest[j - 1];
          } else {
            assert r[i] == rest[i - 1] && r[j] == rest[j - 1];
          }
        }
      }
    }
  }

  /** Insertion adds x to the members and keeps a sorted list sorted. */
  lemma InsertSpec(x: string, s: seq<string>)
    ensures multiset(Insert(x, s)) == multiset(s) + multiset{x}
    ensures Sorted(s) ==> Sorted(Insert(x, s))
  {
    InsertPerm(x, s);
    if Sorted(s) {
      InsertSorted(x, s);
    }
  }

  function Sort(s: seq<string>): (r: seq<string>)
    ensures |r| == |s|
  {
    if s == [] then [] else Insert(s[0], Sort(s[1..]))
  }

  /** list.sort() permutes the list into ascending order. */
  lemma {:induction false} SortSpec(s: seq<string>)
    ensures multiset(Sort(s)) == multiset(s)
    ensures Sorted(Sort(s))
  {
    if s != [] {
      assert s == [s[0]] + s[1..];
      SortSpec(s[1..]);
      InsertSpec(s[0], Sort(s[1..]));
    }
  }

  lemma SortedTail(s: seq<string>)
    requires Sorted(s) && |s| > 0
    ensures Sorted(s[1..]) && AllAtLeast(s[0], s[1..])
  {
  }

  /** The head of a sorted list is at most each of its members. */
  lemma SortedHeadIsMin(s: seq<string>, x: string)
    requires Sorted(s) && |s| > 0 && x in multiset(s)
    ensures AtMost(s[0], x)
  {
    var j :| 0 <= j < |s| && s[j] == x;
    if j > 0 {
      assert AtMost(s[0], s[j]);
    }
  }

  lemma MultisetTail(s: seq<string>)
    requires |s| > 0
    ensures multiset(s[1..]) == multiset(s) - multiset{s[0]}
  {
    assert s == [s[0]] + s[1..];
  }

  /** A sorted permutation is unique. */
  lemma {:induction false} SortedUnique(a: seq<string>, b: seq<string>)
    requires Sorted(a) && Sorted(b)
    requires multiset(a) == multiset(b)
    ensures a == b
    decreases |a|
  {
    assert |a| == |multiset(a)| == |b|;
    if |a| > 0 {
      assert a[0] in multiset(a) && b[0] in multiset(b);
      SortedHeadIsMin(a, b[0]);
      SortedHeadIsMin(b, a[0]);
      AtMostAntisymmetric(a[0], b[0]);
      MultisetTail(a);
      MultisetTail(b);
      SortedTail(a);
      SortedTail(b);
      SortedUnique(a[1..], b[1..]);
      assert a == [a[0]] + a[1..] && b == [b[0]] + b[1..];
    }
  }

  /** Sorting a list that is already sorted leaves it as it is. */
  lemma SortOfSorted(s: seq<string>)
    requires Sorted(s)
    ensures Sort(s) == s
  {
    SortSpec(s);
    SortedUnique(Sort(s), s);
  }

  lemma SortIdempotent(s: seq<string>)
    ensures Sort(Sort(s)) == Sort(s)
  {
    SortSpec(s);
    SortOfSorted(Sort(s));
  }

  /** Sorting keeps exactly the same members. */
  lemma SortSameMembers(s: seq<string>, x: string)
    ensures x in Sort(s) <==> x in s
  {
    SortSpec(s);
    assert x in Sort(s) <==> x in multiset(Sort(s));
    assert x in s <==> x in multiset(s);
  }

  /** The head of a sorted list is the smallest of the original elements. */
  lemma SortHeadIsSmallest(s: seq<string>)
    requires |s| > 0
    ensures forall x :: x in s ==> AtMost(Sort(s)[0], x)
  {
    SortSpec(s);
    forall x | x in s ensures AtMost(Sort(s)[0], x) {
      SortSameMembers(s, x);
      var j :| 0 <= j < |Sort(s)| && Sort(s)[j] == x;
      if j == 0 {
      } else {
        assert AtMost(Sort(s)[0], Sort(s)[j]);
      }
    }
  }

  // ---------------------------------------------------------------------------
  // Sorted distinct values (numpy.unique on a column of strings).
  // ---------------------------------------------------------------------------

  ghost predicate StrictlySorted(s: seq<string>) {
    forall i, j :: 0 <= i < j < |s| ==> Less(s[i], s[j])
  }

  /** Drops the repeats of a sorted list. */
  function Dedup(s: seq<string>): (r: seq<string>)
    requires Sorted(s)
    ensures forall x :: x in r <==> x in s
    ensures |r| <= |s|
    ensures |s| > 0 ==> |r| > 0 && r[0] == s[0]
  {
    if |s| <= 1 then s
    else
      var rest := Dedup(s[1..]);
      assert forall x :: x in s <==> x == s[0] || x in s[1..];
      if s[0] == s[1] then rest else [s[0]] + rest
  }

  /** Dropping the repeats of a sorted list leaves it strictly ascending. */
  lemma {:induction false} DedupStrict(s: seq<string>)
    requires Sorted(s)
    ensures StrictlySorted(Dedup(s))
  {
    if |s| > 1 {
      var rest := Dedup(s[1..]);
      DedupStrict(s[1..]);
      if s[0] != s[1] {
        assert Less(s[0], s[1]);
        forall i, j | 0 <= i < j < |rest| + 1 ensures Less(([s[0]] + rest)[i], ([s[0]] + rest)[j]) {
          if i == 0 {
            if j > 1 {
              assert rest[0] == s[1];
              assert Less(rest[0], rest[j - 1]);
              LessTransitive(s[0], rest[0], rest[j - 1]);
            }
          }
        }
      }
    }
  }

  function Unique(s: seq<string>): (r: seq<string>)
    ensures forall x :: x in r <==> x in s
    ensures |r| <= |s|
  {
    SortSpec(s);
    assert forall x :: x in Sort(s) <==> x in s by {
      forall x { SortSameMembers(s, x); }
    }
    Dedup(Sort(s))
  }

  /** numpy.unique lists the distinct values in strictly ascending order. */
  lemma UniqueStrict(s: seq<string>)
    ensures StrictlySorted(Unique(s))
  {
    SortSpec(s);
    DedupStrict(Sort(s));
  }

  // ---------------------------------------------------------------------------
  // Counting and partitioning a list of keys.
  // ---------------------------------------------------------------------------

  function CountIn(keys: seq<string>, v: string): (n: nat)
    ensures n <= |keys|
  {
    if keys == [] then 0 else (if keys[0] == v then 1 else 0) + CountIn(keys[1..], v)
  }

  ghost predicate NoDuplicates(vs: seq<string>) {
    forall i, j :: 0 <= i < j < |vs| ==> vs[i] != vs[j]
  }

  function SumCounts(keys: seq<string>, vs: seq<string>): nat {
    if vs == [] then 0 else CountIn(keys, vs[0]) + SumCounts(keys, vs[1..])
  }

  function Hits(x: string, vs: seq<string>): nat {
    if vs == [] then 0 else (if vs[0] == x then 1 else 0) + Hits(x, vs[1..])
  }

  lemma {:induction false} HitsOnce(x: string, vs: seq<string>)
    requires NoDuplicates(vs)
    ensures Hits(x, vs) == if x in vs then 1 else 0
  {
    if vs != [] {
      HitsOnce(x, vs[1..]);
      assert x in vs <==> x == vs[0] || x in vs[1..];
      if x == vs[0] {
        assert x !in vs[1..];
      }
    }
  }

  lemma {:induction false} SumCountsStep(keys: seq<string>, vs: seq<string>)
    requires keys != []
    ensures SumCounts(keys, vs) == Hits(keys[0], vs) + SumCounts(keys[1..], vs)
  {
    if vs != [] {
      SumCountsStep(keys, vs[1..]);
    }
  }

  /** When every key is one of the distinct values vs, the per-value counts
      add up to the number of keys: the values partition the keys. */
  lemma {:induction false} CountsPartition(keys: seq<string>, vs: seq<string>)
    requires NoDuplicates(vs)
    requires forall k :: k in keys ==> k in vs
    ensures SumCounts(keys, vs) == |keys|
  {
    if keys == [] {
      ZeroCounts(vs);
    } else {
      SumCountsStep(keys, vs);
      HitsOnce(keys[0], vs);
      CountsPartition(keys[1..], vs);
    }
  }

  lemma {:induction false} SumCountsSnoc(keys: seq<string>, vs: seq<string>, v: string)
    ensures SumCounts(keys, vs + [v]) == SumCounts(keys, vs) + CountIn(keys, v)
  {
    if vs != [] {
      SumCountsSnoc(keys, vs[1..], v);
      assert (vs + [v])[1..] == vs[1..] + [v];
    }
  }

  lemma {:induction false} ZeroCounts(vs: seq<string>)
    ensures SumCounts([], vs) == 0
  {
    if vs != [] {
      ZeroCounts(vs[1..]);
    }
  }

  // ---------------------------------------------------------------------------
  // Whitespace, strip and split.
  // ---------------------------------------------------------------------------

  /** The characters a Python 2 byte string strips by default. */
  predicate IsByteSpace(c: char) {
    c == ' ' || c == '\t' || c == '\n' || c == '\r' || c == '\U{B}' || c == '\U{C}'
  }

  /** The characters str.isspace() accepts in Python 3. */
  predicate IsUnicodeSpace(c: char) {
    IsByteSpace(c) || ('\U{1C}' <= c <= '\U{1F}') || c == '\U{85}' || c == '\U{A0}'
    || c == '\U{1680}' || ('\U{2000}' <= c <= '\U{200A}') || c == '\U{2028}' || c == '\U{2029}'
    || c == '\U{202F}' || c == '\U{205F}' || c == '\U{3000}'
  }

  /** s.rstrip() of a Python 2 str. */
  function RStrip(s: string): (r: string)
    ensures |r| <= |s|
    ensures r == s[..|r|]
    ensures forall i :: |r| <= i < |s| ==> IsByteSpace(s[i])
    ensures |r| > 0 ==> !IsByteSpace(r[|r| - 1])
  {
    if |s| > 0 && IsByteSpace(s[|s| - 1]) then RStrip(s[..|s| - 1]) else s
  }

  function LStripUnicode(s: string): (r: string)
    ensures |r| <= |s|
    ensures s == s[..|s| - |r|] + r
    ensures forall i :: 0 <= i < |s| - |r| ==> IsUnicodeSpace(s[i])
    ensures |r| > 0 ==> !IsUnicodeSpace(r[0])
  {
    if |s| > 0 && IsUnicodeSpace(s[0]) then LStripUnicode(s[1..]) else s
  }

  function RStripUnicode(s: string): (r: string)
    ensures |r| <= |s|
    ensures r == s[..|r|]
    ensures forall i :: |r| <= i < |s| ==> IsUnicodeSpace(s[i])
    ensures |r| > 0 ==> !IsUnicodeSpace(r[|r| - 1])
  {
    if |s| > 0 && IsUnicodeSpace(s[|s| - 1]) then RStripUnicode(s[..|s| - 1]) else s
  }

  /** s.strip() of a Python 3 str. */
  function Strip(s: string): string {
    RStripUnicode(LStripUnicode(s))
  }

  /** The position of the first c in s, or |s| when there is none. */
  function IndexOf(s: string, c: char): (i: nat)
    ensures i <= |s|
    ensures i < |s| ==> s[i] == c
    ensures forall j :: 0 <= j < i ==> s[j] != c
  {
    if s == [] then 0 else if s[0] == c then 0 else 1 + IndexOf(s[1..], c)
  }

  /** str.split(sep) with a one-character separator. */
  function Split(s: string, sep: char): (r: seq<string>)
    ensures |r| > 0
    decreases |s|
  {
    var i := IndexOf(s, sep);
    if i == |s| then [s] else [s[..i]] + Split(s[i + 1..], sep)
  }

  /** sep.join(fields). */
  function Join(fields: seq<string>, sep: char): string
    requires |fields| > 0
  {
    if |fields| == 1 then fields[0] else fields[0] + [sep] + Join(fields[1..], sep)
  }

  /** Splitting never loses text: joining the fields back gives the line, and
      no field holds the separator. */
  lemma {:induction false} SplitJoin(s: string, sep: char)
    ensures Join(Split(s, sep), sep) == s
    ensures forall k :: 0 <= k < |Split(s, sep)| ==> sep !in Split(s, sep)[k]
    decreases |s|
  {
    var i := IndexOf(s, sep);
    if i < |s| {
      SplitJoin(s[i + 1..], sep);
      assert s == s[..i] + [sep] + s[i + 1..];
      var r := Split(s, sep);
      forall k | 0 <= k < |r| ensures sep !in r[k] {
        if k == 0 {
          assert r[0] == s[..i];
        } else {
          assert r[k] == Split(s[i + 1..], sep)[k - 1];
        }
      }
    }
  }

  /** The text after the last ':' of s, or s itself when it has none: what
      re.sub(".*:(.*)$", "\\1", s) leaves of a single line. */
  function AfterLastColon(s: string): (r: string)
    ensures ':' !in r
    ensures ':' !in s ==> r == s
    ensures ':' in s ==> |r| < |s| && s[|s| - |r| - 1] == ':' && s[|s| - |r|..] == r
  {
    if s == [] || s[|s| - 1] == ':' then []
    else
      var front := s[..|s| - 1];
      assert s == front + [s[|s| - 1]];
      var r := AfterLastColon(front);
      assert ':' in s ==> ':' in front && s[|front| - |r|..] == front[|front| - |r|..] + [s[|s| - 1]];
      r + [s[|s| - 1]]
  }
}
