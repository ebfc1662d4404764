/** The inspection script of KaranDecisionTrees: it reads a labelled data file,
    counts the two labels of its data lines and reports the label entropy and
    the error rate of always guessing the more frequent label. */
module Inspect {
  import opened Outcomes
  import opened Text
  import Binary

  // ---------------------------------------------------------------------------
  // Reading labels off data lines.
  // ---------------------------------------------------------------------------

  /** The last field of a split list is a suffix of the split text. */
  lemma {:induction false} SplitLastSuffix(s: string, sep: char)
    ensures var l := Split(s, sep)[|Split(s, sep)| - 1];
      |l| <= |s| && l == s[|s| - |l|..]
    decreases |s|
  {
    var i := IndexOf(s, sep);
    if i < |s| {
      SplitLastSuffix(s[i + 1..], sep);
      var rest := Split(s[i + 1..], sep);
      assert Split(s, sep) == [s[..i]] + rest;
      assert Split(s, sep)[|Split(s, sep)| - 1] == rest[|rest| - 1];
    }
  }

  /** line.strip().split(',')[-1]: the label is the text after the last comma
      of the stripped line, or the whole stripped line when it has no comma. */
  function LabelOf(line: string): (l: string)
    ensures ',' !in l
  {
    var fields := Split(Strip(line), ',');
    SplitJoin(Strip(line), ',');
    fields[|fields| - 1]
  }

  /** The label ends the stripped line, and is all of it when there is no
      comma. */
  lemma LabelEndsLine(line: string)
    ensures var s := Strip(line);
      |LabelOf(line)| <= |s| && LabelOf(line) == s[|s| - |LabelOf(line)|..] &&
      (',' !in s ==> LabelOf(line) == s)
  {
    var s := Strip(line);
    SplitLastSuffix(s, ',');
    if ',' !in s {
      assert IndexOf(s, ',') == |s|;
      assert Split(s, ',') == [s];
    }
  }

  /** The label of each line, in order. */
  function LabelsOfLines(lines: seq<string>): (ls: seq<string>)
    ensures |ls| == |lines|
  {
    if lines == [] then [] else LabelsOfLines(lines[..|lines| - 1]) + [LabelOf(lines[|lines| - 1])]
  }

  lemma LabelsOfLinesSnoc(lines: seq<string>, line: string)
    ensures LabelsOfLines(lines + [line]) == LabelsOfLines(lines) + [LabelOf(line)]
  {
    assert (lines + [line])[..|lines|] == lines;
  }

  /** The labels of the data lines: every line but the first (the header). */
  function DataLabels(lines: seq<string>): (ls: seq<string>)
    ensures |ls| == if lines == [] then 0 else |lines| - 1
  {
    if lines == [] then [] else LabelsOfLines(lines[1..])
  }

  /** The distinct labels in order of first occurrence: the key order of a
      Python dict filled by scanning the labels. */
  function FirstSeen(s: seq<string>): (r: seq<string>)
    ensures forall x :: x in r <==> x in s
    ensures NoDuplicates(r)
    ensures |r| <= |s|
  {
    if s == [] then []
    else
      var p := FirstSeen(s[..|s| - 1]);
      var x := s[|s| - 1];
      assert s == s[..|s| - 1] + [x];
      if x in p then p else p + [x]
  }

  lemma {:induction false} CountInSnoc(s: seq<string>, x: string, v: string)
    ensures CountIn(s + [x], v) == CountIn(s, v) + (if x == v then 1 else 0)
  {
    if s == [] {
      assert [x][1..] == [];
    } else {
      assert (s + [x])[1..] == s[1..] + [x];
      CountInSnoc(s[1..], x, v);
    }
  }

  lemma {:induction false} CountInMember(s: seq<string>, v: string)
    ensures v in s <==> CountIn(s, v) > 0
  {
    if s != [] {
      assert s == [s[0]] + s[1..];
      CountInMember(s[1..], v);
    }
  }

  lemma DataLabelsSnoc(lines: seq<string>, idx: nat)
    requires 1 <= idx < |lines|
    ensures DataLabels(lines[..idx + 1]) == DataLabels(lines[..idx]) + [LabelOf(lines[idx])]
  {
    assert lines[..idx + 1][1..] == lines[..idx][1..] + [lines[idx]];
    LabelsOfLinesSnoc(lines[..idx][1..], lines[idx]);
  }

  lemma FirstSeenSnoc(s: seq<string>, x: string)
    ensures FirstSeen(s + [x]) == if x in FirstSeen(s) then FirstSeen(s) else FirstSeen(s) + [x]
  {
    assert (s + [x])[..|s|] == s;
  }

  /** Whether counts and order are the label dictionary after seeing the
      labels seen: its keys in order of first occurrence, and each key's
      count. */
  ghost predicate Tallied(counts: map<string, nat>, order: seq<string>, seen: seq<string>) {
    && order == FirstSeen(seen)
    && (forall k :: k in counts <==> k in order)
    && (forall k :: k in counts ==> counts[k] == CountIn(seen, k))
  }

  /** One step of the counting loop: a new label gets count 1 and goes to the
      end of the key order; a known label's count goes up by one. */
  method Tally(counts: map<string, nat>, order: seq<string>, ghost seen: seq<string>, lbl: string)
    returns (counts': map<string, nat>, order': seq<string>)
    requires Tallied(counts, order, seen)
    ensures Tallied(counts', order', seen + [lbl])
  {
    FirstSeenSnoc(seen, lbl);
    if lbl !in counts {
      assert lbl !in seen;
      CountInMember(seen, lbl);
      counts' := counts[lbl := 1];
      order' := order + [lbl];
    } else {
      counts' := counts[lbl := counts[lbl] + 1];
      order' := order;
    }
    forall k | k in counts' ensures counts'[k] == CountIn(seen + [lbl], k) {
      CountInSnoc(seen, lbl, k);
    }
  }

  /** The counting loop of EntropyAndError: the header is skipped, and each
      data line's label is counted in a dictionary whose keys keep the order
      of first occurrence. */
  method CountLabels(lines: seq<string>) returns (counts: map<string, nat>, order: seq<string>)
    ensures order == FirstSeen(DataLabels(lines))
    ensures forall k :: k in counts <==> k in order
    ensures forall k :: k in counts ==> counts[k] == CountIn(DataLabels(lines), k)
  {
    counts := map[];
    order := [];
    for idx := 0 to |lines|
      invariant Tallied(counts, order, DataLabels(lines[..idx]))
    {
      if idx == 0 {
        assert DataLabels(lines[..1]) == [];
      } else {
        DataLabelsSnoc(lines, idx);
        counts, order := Tally(counts, order, DataLabels(lines[..idx]), LabelOf(lines[idx]));
      }
    }
    assert lines[..|lines|] == lines;
  }

  // ---------------------------------------------------------------------------
  // The report.
  // ---------------------------------------------------------------------------

  datatype Report = Report(entropy: real, error: real)

  /** The entropy of two classes with counts c1 and c2. */
  function TwoClassEntropy(c1: nat, c2: nat, log2: real -> real): (h: real)
    requires c1 + c2 > 0
  {
    var total := (c1 + c2) as real;
    -1.0 * ((c1 as real / total) * log2(c1 as real / total) + (c2 as real / total) * log2(c2 as real / total))
  }

  /** The error rate as the script computes it: the smaller count over the
      total, and 0 when the counts are equal. */
  function ErrorAsWritten(c1: nat, c2: nat): (e: real)
    requires c1 + c2 > 0
    ensures 0.0 <= e
    ensures c1 == c2 ==> e == 0.0
    ensures c1 != c2 ==> 2.0 * e < 1.0
  {
    var total := (c1 + c2) as real;
    if c1 > c2 then c2 as real / total
    else if c1 < c2 then c1 as real / total
    else 0.0
  }

  /** The error rate of always predicting the majority label: the share of
      labels that differ from it. */
  function MajorityError(ls: seq<string>): (e: real)
    requires |ls| > 0
  {
    Binary.MajorityIsMajority(ls);
    var m := Binary.Majority(ls).value;
    (|ls| - CountIn(ls, m)) as real / |ls| as real
  }

  /** The file's report: a ValueError exactly when the data lines do not hold
      exactly two distinct labels; otherwise the entropy and error rate of the
      two counts, taken in order of first occurrence. */
  method EntropyAndError(lines: seq<string>, log2: real -> real) returns (r: Result<Report>)
    ensures r.Err? <==> |FirstSeen(DataLabels(lines))| != 2
    ensures r.Err? ==> r.error == ValueError
    ensures r.Ok? ==>
      var ls := DataLabels(lines);
      var keys := FirstSeen(ls);
      |keys| == 2 && CountIn(ls, keys[0]) + CountIn(ls, keys[1]) > 0 &&
      r.value == Report(TwoClassEntropy(CountIn(ls, keys[0]), CountIn(ls, keys[1]), log2),
                        ErrorAsWritten(CountIn(ls, keys[0]), CountIn(ls, keys[1])))
  {
    var counts, order := CountLabels(lines);
    if |order| != 2 {
      return Err(ValueError);
    }
    var keyOne, keyTwo := order[0], order[1];
    ghost var ls := DataLabels(lines);
    TwoCounts(ls);
    assert counts[keyOne] == CountIn(ls, keyOne) && counts[keyTwo] == CountIn(ls, keyTwo);
    var report := Summarize(counts[keyOne], counts[keyTwo], log2);
    r := Ok(report);
  }

  /** The arithmetic of EntropyAndError on the two counts: the error rate by
      comparing them, then the entropy of their shares. */
  method Summarize(one: nat, two: nat, log2: real -> real) returns (report: Report)
    requires one + two > 0
    ensures report == Report(TwoClassEntropy(one, two, log2), ErrorAsWritten(one, two))
  {
    var total := one + two;
    var error: real;
    if one > two {
      error := two as real / total as real;
    } else if one < two {
      error := one as real / total as real;
    } else {
      error := 0.0;
    }
    var p1 := one as real / total as real;
    var p2 := two as real / total as real;
    var entropy := -1.0 * (p1 * log2(p1) + p2 * log2(p2));
    report := Report(entropy, error);
  }

  // ---------------------------------------------------------------------------
  // What the report means.
  // ---------------------------------------------------------------------------

  /** With two labels, each occurs at least once and the two counts add up to
      the number of data lines. */
  lemma TwoCounts(ls: seq<string>)
    requires |FirstSeen(ls)| == 2
    ensures var keys := FirstSeen(ls);
      CountIn(ls, keys[0]) > 0 && CountIn(ls, keys[1]) > 0 &&
      CountIn(ls, keys[0]) + CountIn(ls, keys[1]) == |ls|
  {
    var keys := FirstSeen(ls);
    CountInMember(ls, keys[0]);
    CountInMember(ls, keys[1]);
    CountsPartition(ls, keys);
    var rest := keys[1..];
    assert SumCounts(ls, keys) == CountIn(ls, keys[0]) + SumCounts(ls, rest);
    assert rest[1..] == [];
    assert SumCounts(ls, rest) == CountIn(ls, rest[0]) + SumCounts(ls, rest[1..]);
  }

  lemma ElementIsMember(u: seq<string>, i: nat)
    requires i < |u|
    ensures u[i] in u
  {
  }

  /** A strictly sorted list whose members are exactly two distinct strings
      holds them in one order or the other. */
  lemma PairOrder(u: seq<string>, a: string, b: string)
    requires StrictlySorted(u) && a != b
    requires forall x :: x in u <==> x == a || x == b
    ensures u == [a, b] || u == [b, a]
  {
    assert a in u && b in u;
    if |u| < 2 {
      assert false;
    }
    LessIrreflexive(u[0]);
    LessIrreflexive(u[1]);
    assert u[0] != u[1] by {
      assert Less(u[0], u[1]);
    }
    assert u[0] in u && u[1] in u;
    if |u| > 2 {
      ElementIsMember(u, 2);
      assert false;
    }
    assert u == [u[0], u[1]];
  }

  /** The reported entropy is the label entropy decisionTree.py computes for
      the same labels: the two class terms in either order. */
  lemma SameEntropy(ls: seq<string>, log2: real -> real)
    requires |FirstSeen(ls)| == 2
    ensures var keys := FirstSeen(ls);
      CountIn(ls, keys[0]) + CountIn(ls, keys[1]) > 0 &&
      TwoClassEntropy(CountIn(ls, keys[0]), CountIn(ls, keys[1]), log2) == Binary.Entropy(ls, log2)
  {
    var keys := FirstSeen(ls);
    TwoCounts(ls);
    var u := Unique(ls);
    UniqueStrict(ls);
    assert keys[0] != keys[1];
    PairOrder(u, keys[0], keys[1]);
    var n := |ls| as real;
    var t0 := (CountIn(ls, u[0]) as real / n) * log2(CountIn(ls, u[0]) as real / n);
    var t1 := (CountIn(ls, u[1]) as real / n) * log2(CountIn(ls, u[1]) as real / n);
    assert u[1..][1..] == [];
    assert Binary.PLogPSum(ls, u[1..], log2, false) == t1 + Binary.PLogPSum(ls, u[1..][1..], log2, false);
    assert Binary.PLogPSum(ls, u, log2, false) == t0 + t1;
  }

  /** n - c out of n is one half when c is half of n. */
  lemma HalfShare(n: nat, c: nat)
    requires n > 0 && 2 * c == n
    ensures (n - c) as real / n as real == 1.0 / 2.0
  {
    assert (n - c) as real == (n as real) / 2.0;
  }

  /** The script's error rate is the error of always predicting the majority
      label when the two counts differ. */
  lemma ErrorIsMajorityError(ls: seq<string>)
    requires |FirstSeen(ls)| == 2
    requires CountIn(ls, FirstSeen(ls)[0]) != CountIn(ls, FirstSeen(ls)[1])
    ensures var keys := FirstSeen(ls);
      |ls| > 0 && ErrorAsWritten(CountIn(ls, keys[0]), CountIn(ls, keys[1])) == MajorityError(ls)
  {
    var keys := FirstSeen(ls);
    var cm := MajorityShare(ls);
    MinorityShare(CountIn(ls, keys[0]), CountIn(ls, keys[1]), cm, |ls|);
  }

  /** On a tie the script reports an error rate of 0 where always predicting
      the majority label is wrong half of the time. */
  lemma TieError(ls: seq<string>)
    requires |FirstSeen(ls)| == 2
    requires CountIn(ls, FirstSeen(ls)[0]) == CountIn(ls, FirstSeen(ls)[1])
    ensures var keys := FirstSeen(ls);
      |ls| > 0 && CountIn(ls, keys[0]) > 0 &&
      ErrorAsWritten(CountIn(ls, keys[0]), CountIn(ls, keys[1])) == 0.0 &&
      MajorityError(ls) == 1.0 / 2.0
  {
    var cm := MajorityShare(ls);
    HalfShare(|ls|, cm);
  }

  /** The majority error in terms of the two counts: what the larger of
      them leaves over their sum. */
  lemma MajorityShare(ls: seq<string>) returns (cm: nat)
    requires |FirstSeen(ls)| == 2
    ensures var keys := FirstSeen(ls);
      var c1 := CountIn(ls, keys[0]);
      var c2 := CountIn(ls, keys[1]);
      |ls| == c1 + c2 && |ls| > 0 && cm == (if c1 >= c2 then c1 else c2) &&
      MajorityError(ls) == (|ls| - cm) as real / |ls| as real
  {
    TwoCounts(ls);
    cm := MajorityCount(ls);
  }

  /** Without a tie, the smaller count over the total is what the larger
      count leaves over the total. */
  lemma MinorityShare(c1: nat, c2: nat, cm: nat, n: nat)
    requires c1 != c2 && n == c1 + c2 && cm == (if c1 >= c2 then c1 else c2)
    ensures ErrorAsWritten(c1, c2) == (n - cm) as real / n as real
  {
  }

  /** With two labels, the majority label occurs as often as the more frequent
      of the two. */
  lemma MajorityCount(ls: seq<string>) returns (cm: nat)
    requires |FirstSeen(ls)| == 2
    ensures |ls| > 0
    ensures var keys := FirstSeen(ls);
      cm == CountIn(ls, Binary.Majority(ls).value) &&
      cm == (if CountIn(ls, keys[0]) >= CountIn(ls, keys[1]) then CountIn(ls, keys[0]) else CountIn(ls, keys[1]))
  {
    var keys := FirstSeen(ls);
    TwoCounts(ls);
    Binary.MajorityIsMajority(ls);
    var m := Binary.Majority(ls).value;
    assert m in keys;
    assert keys[0] in ls && keys[1] in ls;
    cm := CountIn(ls, m);
  }

  /** Two data lines labelled "yes" and "no": the script reports an error rate
      of 0, while always predicting the majority label is wrong on one line of
      the two. */
  lemma TieReportsZero()
    ensures var ls := ["yes", "no"];
      |FirstSeen(ls)| == 2 && CountIn(ls, FirstSeen(ls)[0]) == CountIn(ls, FirstSeen(ls)[1]) == 1 &&
      ErrorAsWritten(1, 1) == 0.0 && MajorityError(ls) == 1.0 / 2.0
  {
    var ls := ["yes", "no"];
    assert ls[..1] == ["yes"];
    assert FirstSeen(["yes"]) == ["yes"];
    assert FirstSeen(ls) == ["yes", "no"];
    TieError(ls);
  }

  /** The error rate the report evidently intends: the smaller count over
      the total, which on a tie is one half. It agrees with the script
      whenever the counts differ. */
  function IntendedError(c1: nat, c2: nat): (e: real)
    requires c1 + c2 > 0
    ensures c1 != c2 ==> e == ErrorAsWritten(c1, c2)
    ensures c1 == c2 ==> e == 1.0 / 2.0
  {
    var total := (c1 + c2) as real;
    if c1 > c2 then c2 as real / total else c1 as real / total
  }

  /** For every file with two labels, the intended error rate is the error
      of always predicting the majority label, ties included. */
  lemma IntendedIsMajorityError(ls: seq<string>)
    requires |FirstSeen(ls)| == 2
    ensures var keys := FirstSeen(ls);
      CountIn(ls, keys[0]) + CountIn(ls, keys[1]) > 0 &&
      IntendedError(CountIn(ls, keys[0]), CountIn(ls, keys[1])) == MajorityError(ls)
  {
    var keys := FirstSeen(ls);
    TwoCounts(ls);
    if CountIn(ls, keys[0]) == CountIn(ls, keys[1]) {
      TieError(ls);
    } else {
      ErrorIsMajorityError(ls);
    }
  }
}
