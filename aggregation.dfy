/**
 * The counting pass of `aggregateUniprotList`: once list 0 is sorted by the
 * ranking key, adjacent entries with equal keys collapse into one view entry
 * whose `numOccurrence` is the number of entries collapsed. The pass is
 * specified by run-length encoding of the key sequence; the lemmas say what
 * that encoding means for sorted input.
 */
module Aggregation {
  import opened Wrappers
  import opened CStrings
  import opened Entries
  import Sorting

  /** One view entry as the pass sees it: a key and how often it occurred. */
  datatype Run = Run(key: string, count: nat)

  /** The ranking keys of a list, in order. */
  function Keys(s: seq<Entry>, kind: ListKind): (ks: seq<string>)
    ensures |ks| == |s| && forall i :: 0 <= i < |s| ==> ks[i] == KeyText(s[i], kind)
  {
    seq(|s|, i requires 0 <= i < |s| => KeyText(s[i], kind))
  }

  /** The key and count of each entry of a view. */
  function Runs(view: seq<Entry>, kind: ListKind): (rs: seq<Run>)
    ensures |rs| == |view|
    ensures forall j :: 0 <= j < |view| ==> rs[j] == Run(KeyText(view[j], kind), view[j].numOccurrence)
  {
    seq(|view|, j requires 0 <= j < |view| => Run(KeyText(view[j], kind), view[j].numOccurrence))
  }

  /** One key more: it extends the last run when it repeats that run's key,
      and starts a new run otherwise. */
  function Extend(prev: seq<Run>, k: string): (rs: seq<Run>)
    ensures rs != [] && rs[|rs| - 1].key == k
  {
    if prev != [] && prev[|prev| - 1].key == k
    then prev[..|prev| - 1] + [Run(k, prev[|prev| - 1].count + 1)]
    else prev + [Run(k, 1)]
  }

  /** Adjacent equal keys collapsed into runs. */
  function RunLengths(ks: seq<string>): seq<Run> {
    if ks == [] then [] else Extend(RunLengths(ks[..|ks| - 1]), ks[|ks| - 1])
  }

  /** How often `k` occurs in `ks`. */
  function Multiplicity(ks: seq<string>, k: string): nat {
    if ks == [] then 0
    else Multiplicity(ks[..|ks| - 1], k) + (if ks[|ks| - 1] == k then 1 else 0)
  }

  function CountSum(rs: seq<Run>): nat {
    if rs == [] then 0 else CountSum(rs[..|rs| - 1]) + rs[|rs| - 1].count
  }

  predicate NonDecreasing(ks: seq<string>) {
    forall i, j :: 0 <= i < j < |ks| ==> LessEq(ks[i], ks[j])
  }

  predicate StrictlyAscending(rs: seq<Run>) {
    forall i, j :: 0 <= i < j < |rs| ==> Less(rs[i].key, rs[j].key)
  }

  lemma {:induction false} MultiplicityAbsent(ks: seq<string>, k: string)
    requires forall i :: 0 <= i < |ks| ==> ks[i] != k
    ensures Multiplicity(ks, k) == 0
  {
    if ks != [] {
      MultiplicityAbsent(ks[..|ks| - 1], k);
    }
  }

  lemma {:induction false} CountSumSplit(rs: seq<Run>, r: Run)
    ensures CountSum(rs + [r]) == CountSum(rs) + r.count
  {
    assert (rs + [r])[..|rs|] == rs;
  }

  /** One key more adds one to the counts. */
  lemma CountSumExtend(prev: seq<Run>, k: string)
    ensures CountSum(Extend(prev, k)) == CountSum(prev) + 1
  {
    if prev != [] && prev[|prev| - 1].key == k {
      var m := |prev| - 1;
      assert prev == prev[..m] + [prev[m]];
      CountSumSplit(prev[..m], prev[m]);
      CountSumSplit(prev[..m], Run(k, prev[m].count + 1));
    } else {
      CountSumSplit(prev, Run(k, 1));
    }
  }

  /** Collapsing keeps every entry: the counts add up to the number of keys. */
  lemma {:induction false} RunLengthsTotal(ks: seq<string>)
    ensures CountSum(RunLengths(ks)) == |ks|
  {
    if ks != [] {
      RunLengthsTotal(ks[..|ks| - 1]);
      CountSumExtend(RunLengths(ks[..|ks| - 1]), ks[|ks| - 1]);
    }
  }

  function RunKeys(rs: seq<Run>): (keys: seq<string>)
    ensures |keys| == |rs| && forall j :: 0 <= j < |rs| ==> keys[j] == rs[j].key
  {
    seq(|rs|, j requires 0 <= j < |rs| => rs[j].key)
  }

  /** Extending the runs keeps every run key. */
  lemma RunKeysStep(prev: seq<Run>, rs: seq<Run>, k: string)
    requires rs == Extend(prev, k)
    ensures forall x :: x in RunKeys(prev) ==> x in RunKeys(rs)
  {
    forall x | x in RunKeys(prev) ensures x in RunKeys(rs) {
      var j :| 0 <= j < |prev| && RunKeys(prev)[j] == x;
      if prev != [] && prev[|prev| - 1].key == k && j == |prev| - 1 {
        assert RunKeys(rs)[j] == k;
      } else {
        assert RunKeys(rs)[j] == x;
      }
    }
  }

  /** The last run holds the last key, and every key is the key of a run. */
  predicate Covers(rs: seq<Run>, ks: seq<string>) {
    && (ks != [] ==> rs != [] && rs[|rs| - 1].key == ks[|ks| - 1])
    && (forall i :: 0 <= i < |ks| ==> ks[i] in RunKeys(rs))
  }

  lemma CoversStep(prev: seq<Run>, rs: seq<Run>, pks: seq<string>, k: string)
    requires Covers(prev, pks)
    requires rs == Extend(prev, k)
    ensures Covers(rs, pks + [k])
  {
    RunKeysStep(prev, rs, k);
    var ks := pks + [k];
    assert k in RunKeys(rs) by {
      assert RunKeys(rs)[|rs| - 1] == k;
    }
    forall i | 0 <= i < |ks| ensures ks[i] in RunKeys(rs) {
      if i < |pks| {
        assert ks[i] == pks[i];
      }
    }
  }

  /** The last run holds the last key, and every key of the input is the
      key of some run. */
  lemma {:induction false} RunLengthsCover(ks: seq<string>)
    ensures var rs := RunLengths(ks);
      && (ks != [] ==> rs != [] && rs[|rs| - 1].key == ks[|ks| - 1])
      && (forall i :: 0 <= i < |ks| ==> ks[i] in RunKeys(rs))
  {
    if ks != [] {
      var n := |ks| - 1;
      var pks := ks[..n];
      assert ks == pks + [ks[n]];
      RunLengthsCover(pks);
      RunLengthsSnoc(pks, ks[n]);
      CoversStep(RunLengths(pks), RunLengths(ks), pks, ks[n]);
      assert Covers(RunLengths(ks), ks);
    }
  }

  lemma AscendingStep(prev: seq<Run>, rs: seq<Run>, k: string)
    requires StrictlyAscending(prev)
    requires prev != [] ==> LessEq(prev[|prev| - 1].key, k)
    requires rs == Extend(prev, k)
    ensures StrictlyAscending(rs)
  {
    if prev != [] && prev[|prev| - 1].key == k {
      forall i, j | 0 <= i < j < |rs| ensures Less(rs[i].key, rs[j].key) {
        assert |rs| == |prev| && rs[i].key == prev[i].key && rs[j].key == prev[j].key;
      }
    } else if prev != [] {
      var m := |prev| - 1;
      assert Less(prev[m].key, k);
      forall i, j | 0 <= i < j < |rs| ensures Less(rs[i].key, rs[j].key) {
        if j == |rs| - 1 && i < m {
          CmpStrictTransitive(prev[i].key, prev[m].key, k);
        }
      }
    }
  }

  /** On keys in ascending `strcmp` order, collapsing yields distinct keys in
      strictly ascending order. */
  lemma {:induction false} RunLengthsAscending(ks: seq<string>)
    requires NonDecreasing(ks)
    ensures StrictlyAscending(RunLengths(ks))
  {
    if ks != [] {
      var n := |ks| - 1;
      var pks := ks[..n];
      assert ks == pks + [ks[n]];
      assert NonDecreasing(pks) by {
        assert forall i :: 0 <= i < n ==> pks[i] == ks[i];
      }
      RunLengthsAscending(pks);
      var prev := RunLengths(pks);
      assert prev != [] ==> LessEq(prev[|prev| - 1].key, ks[n]) by {
        if n > 0 {
          RunLengthsCover(pks);
          assert LessEq(ks[n - 1], ks[n]);
        }
      }
      RunLengthsSnoc(pks, ks[n]);
      AscendingStep(prev, RunLengths(ks), ks[n]);
    }
  }

  /** Each run counts the occurrences of its key, and at least one. */
  predicate CountsMatch(rs: seq<Run>, ks: seq<string>) {
    forall j :: 0 <= j < |rs| ==> rs[j].count == Multiplicity(ks, rs[j].key) && rs[j].count >= 1
  }

  lemma MultiplicitySnoc(ks: seq<string>, k: string, x: string)
    ensures Multiplicity(ks + [k], x) == Multiplicity(ks, x) + (if k == x then 1 else 0)
  {
    assert (ks + [k])[..|ks|] == ks;
  }

  /** Collapsing one more key extends the runs so far. */
  lemma RunLengthsSnoc(ks: seq<string>, k: string)
    ensures RunLengths(ks + [k]) == Extend(RunLengths(ks), k)
  {
    assert (ks + [k])[..|ks|] == ks;
  }

  /** A key equal to the last run's key, and to no earlier one, extends
      that run. */
  lemma CountsBump(pks: seq<string>, k: string, prev: seq<Run>, rs: seq<Run>)
    requires prev != [] && prev[|prev| - 1].key == k
    requires forall j :: 0 <= j < |prev| - 1 ==> prev[j].key != k
    requires CountsMatch(prev, pks)
    requires rs == Extend(prev, k)
    ensures CountsMatch(rs, pks + [k])
  {
    assert rs == prev[..|prev| - 1] + [Run(k, prev[|prev| - 1].count + 1)];
    forall j | 0 <= j < |rs|
      ensures rs[j].count == Multiplicity(pks + [k], rs[j].key) && rs[j].count >= 1
    {
      MultiplicitySnoc(pks, k, rs[j].key);
      if j < |prev| - 1 {
        assert rs[j] == prev[j];
      }
    }
  }

  /** A key absent so far starts a new run. */
  lemma CountsNew(pks: seq<string>, k: string, prev: seq<Run>, rs: seq<Run>)
    requires forall i :: 0 <= i < |pks| ==> pks[i] != k
    requires CountsMatch(prev, pks)
    requires prev == [] || prev[|prev| - 1].key != k
    requires rs == Extend(prev, k)
    ensures CountsMatch(rs, pks + [k])
  {
    assert rs == prev + [Run(k, 1)];
    MultiplicityAbsent(pks, k);
    forall j | 0 <= j < |rs|
      ensures rs[j].count == Multiplicity(pks + [k], rs[j].key) && rs[j].count >= 1
    {
      MultiplicitySnoc(pks, k, rs[j].key);
      if j < |prev| {
        MultiplicityPresent(pks, prev[j].key);
      }
    }
  }

  /** On sorted keys, the last run's key appears in no earlier run. */
  lemma LastKeyDistinct(pks: seq<string>)
    requires NonDecreasing(pks) && RunLengths(pks) != []
    ensures var prev := RunLengths(pks);
      forall j :: 0 <= j < |prev| - 1 ==> prev[j].key != prev[|prev| - 1].key
  {
    var prev := RunLengths(pks);
    RunLengthsAscending(pks);
    forall j | 0 <= j < |prev| - 1 ensures prev[j].key != prev[|prev| - 1].key {
      assert Less(prev[j].key, prev[|prev| - 1].key);
    }
  }

  /** On sorted keys, a key that does not repeat the last run's key has not
      occurred before. */
  lemma NewKeyAbsent(pks: seq<string>, k: string)
    requires NonDecreasing(pks + [k])
    requires RunLengths(pks) == [] || RunLengths(pks)[|RunLengths(pks)| - 1].key != k
    ensures forall i :: 0 <= i < |pks| ==> pks[i] != k
  {
    if pks != [] {
      var ks := pks + [k];
      var n := |pks|;
      RunLengthsCover(pks);
      forall i | 0 <= i < n ensures pks[i] != k {
        if pks[i] == k {
          assert ks[i] == pks[i] && ks[n - 1] == pks[n - 1] && ks[n] == k;
          assert LessEq(ks[i], ks[n - 1]) || i == n - 1;
          assert LessEq(ks[n - 1], ks[n]);
          CmpAntisymmetric(ks[n - 1], k);
        }
      }
    }
  }

  lemma CountStep(pks: seq<string>, k: string)
    requires NonDecreasing(pks + [k]) && CountsMatch(RunLengths(pks), pks)
    ensures CountsMatch(RunLengths(pks + [k]), pks + [k])
  {
    var prev := RunLengths(pks);
    assert NonDecreasing(pks) by {
      assert forall i :: 0 <= i < |pks| ==> pks[i] == (pks + [k])[i];
    }
    RunLengthsSnoc(pks, k);
    if prev != [] && prev[|prev| - 1].key == k {
      LastKeyDistinct(pks);
      CountsBump(pks, k, prev, RunLengths(pks + [k]));
    } else {
      NewKeyAbsent(pks, k);
      CountsNew(pks, k, prev, RunLengths(pks + [k]));
    }
  }

  /** On sorted keys, each run counts exactly the occurrences of its key. */
  lemma {:induction false} RunLengthsCount(ks: seq<string>)
    requires NonDecreasing(ks)
    ensures forall j :: 0 <= j < |RunLengths(ks)| ==>
      RunLengths(ks)[j].count == Multiplicity(ks, RunLengths(ks)[j].key) && RunLengths(ks)[j].count >= 1
  {
    if ks != [] {
      var n := |ks| - 1;
      var pks := ks[..n];
      assert ks == pks + [ks[n]];
      assert NonDecreasing(pks) by {
        assert forall i :: 0 <= i < n ==> pks[i] == ks[i];
      }
      RunLengthsCount(pks);
      CountStep(pks, ks[n]);
      assert CountsMatch(RunLengths(ks), ks);
    }
  }

  lemma {:induction false} MultiplicityPresent(ks: seq<string>, k: string)
    requires Multiplicity(ks, k) > 0
    ensures exists i :: 0 <= i < |ks| && ks[i] == k
  {
    var n := |ks| - 1;
    if ks[n] != k {
      MultiplicityPresent(ks[..n], k);
      var i :| 0 <= i < n && ks[..n][i] == k;
      assert ks[i] == k;
    }
  }

  /** Aggregating a list with one unique key yields one entry counting them all. */
  lemma {:induction false} RunLengthsOfOneKey(k: string, n: nat)
    requires n > 0
    ensures RunLengths(seq(n, _ => k)) == [Run(k, n)]
  {
    var ks := seq(n, _ => k);
    if n > 1 {
      assert ks[..n - 1] == seq(n - 1, _ => k);
      RunLengthsOfOneKey(k, n - 1);
    }
  }

  /** Three raw hits `A_HUMAN`, `A_HUMAN`, `B_MOUSE` give two view entries. */
  lemma ScenarioTwoHumanOneMouse()
    ensures RunLengths(["A_HUMAN", "A_HUMAN", "B_MOUSE"]) == [Run("A_HUMAN", 2), Run("B_MOUSE", 1)]
  {
    var ks := ["A_HUMAN", "A_HUMAN", "B_MOUSE"];
    assert ks[..2] == ["A_HUMAN", "A_HUMAN"];
    assert ks[..2][..1] == ["A_HUMAN"];
    assert ks[..2][..1][..0] == [];
    assert RunLengths(["A_HUMAN"]) == [Run("A_HUMAN", 1)];
    assert RunLengths(ks[..2]) == [Run("A_HUMAN", 2)];
    assert "A_HUMAN"[0] != "B_MOUSE"[0];
  }

  /** The shape of a view built from a list whose first entry is `head`:
      entry 0 carries all three strings of `head`, every later entry only the
      key of `kind`, and every entry has a key. */
  predicate ViewShape(view: seq<Entry>, head: Entry, kind: ListKind) {
    && |view| > 0
    && view[0].id == head.id && view[0].gene == head.gene && view[0].organism == head.organism
    && (forall j :: 1 <= j < |view| ==> view[j] == KeyOnly(kind, KeyText(view[j], kind), view[j].numOccurrence))
    && (forall j :: 0 <= j < |view| ==> HasKey(view[j], kind))
  }

  lemma ShapeGrows(view: seq<Entry>, head: Entry, kind: ListKind, e: Entry)
    requires ViewShape(view, head, kind) && e == KeyOnly(kind, KeyText(e, kind), e.numOccurrence)
    ensures ViewShape(view + [e], head, kind)
  {
  }

  lemma ShapeBumps(view: seq<Entry>, head: Entry, kind: ListKind)
    requires ViewShape(view, head, kind)
    ensures var last := |view| - 1;
      ViewShape(view[..last] + [view[last].(numOccurrence := view[last].numOccurrence + 1)], head, kind)
  {
    var last := |view| - 1;
    var v := view[..last] + [view[last].(numOccurrence := view[last].numOccurrence + 1)];
    forall j | 1 <= j < |v| ensures v[j] == KeyOnly(kind, KeyText(v[j], kind), v[j].numOccurrence) {
      if j < last {
        assert v[j] == view[j];
      }
    }
  }

  /**
   * The pass of `aggregateUniprotList` over list 0, already sorted by the
   * key of `kind`. The first view entry copies all three strings of the first
   * entry; every later one receives only the key of `kind` (the others stay
   * NULL). Each view entry counts the entries collapsed into it.
   */
  method CollapseSorted(s: seq<Entry>, kind: ListKind) returns (view: seq<Entry>)
    requires |s| > 0
    requires forall i :: 0 <= i < |s| ==> HasKey(s[i], kind)
    ensures Runs(view, kind) == RunLengths(Keys(s, kind))
    ensures ViewShape(view, s[0], kind)
  {
    ghost var ks := Keys(s, kind);
    // The first iteration always finds the key copied into the head entry.
    view := [Entry(s[0].id, s[0].gene, s[0].organism, 1)];
    assert RunLengths(ks[..1]) == [Run(ks[0], 1)] by {
      assert ks[..1][..0] == [];
    }
    assert Runs(view, kind) == [Run(ks[0], 1)];
    for i := 1 to |s|
      invariant ViewShape(view, s[0], kind)
      invariant Runs(view, kind) == RunLengths(ks[..i])
    {
      view := CollapseEntry(s, kind, ks, i, view);
    }
    assert ks[..|s|] == ks;
  }

  /** One round of the collapsing loop: entry `i` either opens a new view
      entry for its key or counts once more in the last one. */
  method CollapseEntry(s: seq<Entry>, kind: ListKind, ghost ks: seq<string>, i: nat, view: seq<Entry>)
    returns (v: seq<Entry>)
    requires 0 < i < |s| && ks == Keys(s, kind)
    requires forall j :: 0 <= j < |s| ==> HasKey(s[j], kind)
    requires ViewShape(view, s[0], kind) && Runs(view, kind) == RunLengths(ks[..i])
    ensures ViewShape(v, s[0], kind) && Runs(v, kind) == RunLengths(ks[..i + 1])
  {
    var last := |view| - 1;
    assert KeyText(s[i], kind) == ks[i];
    if Cmp(KeyText(s[i], kind), KeyText(view[last], kind)) != 0 {
      // a new key: the next view entry receives only this key
      v := view + [KeyOnly(kind, KeyText(s[i], kind), 1)];
      CollapseNewKey(view, v, kind, s[0], ks, i);
    } else {
      v := view[..last] + [view[last].(numOccurrence := view[last].numOccurrence + 1)];
      CollapseSameKey(view, v, kind, s[0], ks, i);
    }
  }

  /** The last run holds the last key. */
  lemma {:induction false} RunLengthsLast(ks: seq<string>)
    requires ks != []
    ensures RunLengths(ks) != [] && RunLengths(ks)[|RunLengths(ks)| - 1].key == ks[|ks| - 1]
  {
  }

  lemma CollapseNewKey(view: seq<Entry>, v: seq<Entry>, kind: ListKind, head: Entry, ks: seq<string>, i: nat)
    requires 0 < i < |ks| && ViewShape(view, head, kind) && Runs(view, kind) == RunLengths(ks[..i])
    requires KeyText(view[|view| - 1], kind) != ks[i]
    requires v == view + [KeyOnly(kind, ks[i], 1)]
    ensures ViewShape(v, head, kind) && Runs(v, kind) == RunLengths(ks[..i + 1])
  {
    var prev := Runs(view, kind);
    var next := KeyOnly(kind, ks[i], 1);
    assert Runs(v, kind) == RunLengths(ks[..i + 1]) by {
      RunLengthsStep(ks, i);
      assert prev[|prev| - 1].key != ks[i];
      RunsSnoc(view, next, kind);
      assert Run(KeyText(next, kind), 1) == Run(ks[i], 1);
    }
    ShapeGrows(view, head, kind, next);
  }

  lemma CollapseSameKey(view: seq<Entry>, v: seq<Entry>, kind: ListKind, head: Entry, ks: seq<string>, i: nat)
    requires 0 < i < |ks| && ViewShape(view, head, kind) && Runs(view, kind) == RunLengths(ks[..i])
    requires KeyText(view[|view| - 1], kind) == ks[i]
    requires var last := |view| - 1;
      v == view[..last] + [view[last].(numOccurrence := view[last].numOccurrence + 1)]
    ensures ViewShape(v, head, kind) && Runs(v, kind) == RunLengths(ks[..i + 1])
  {
    var prev := Runs(view, kind);
    assert Runs(v, kind) == RunLengths(ks[..i + 1]) by {
      RunLengthsStep(ks, i);
      RunsBump(view, v, kind);
      var n := |prev| - 1;
      assert prev[n].key == ks[i];
      assert Extend(prev, ks[i]) == prev[..n] + [Run(ks[i], prev[n].count + 1)];
    }
    ShapeBumps(view, head, kind);
  }

  /** Bumping the count of the last view entry bumps the count of the last
      run. */
  lemma RunsBump(view: seq<Entry>, v: seq<Entry>, kind: ListKind)
    requires view != []
    requires var last := |view| - 1;
      v == view[..last] + [view[last].(numOccurrence := view[last].numOccurrence + 1)]
    ensures var prev := Runs(view, kind);
      Runs(v, kind) == prev[..|prev| - 1] + [Run(prev[|prev| - 1].key, prev[|prev| - 1].count + 1)]
  {
    var last := |view| - 1;
    assert KeyText(v[last], kind) == KeyText(view[last], kind);
  }

  /** One more key either extends the last run or opens a new one. */
  lemma RunLengthsStep(ks: seq<string>, i: nat)
    requires 0 < i < |ks|
    ensures RunLengths(ks[..i]) != [] && RunLengths(ks[..i + 1]) == Extend(RunLengths(ks[..i]), ks[i])
  {
    var t := ks[..i + 1];
    assert t[..|t| - 1] == ks[..i];
    assert t[|t| - 1] == ks[i];
    RunLengthsLast(ks[..i]);
  }

  lemma RunsSnoc(view: seq<Entry>, e: Entry, kind: ListKind)
    ensures Runs(view + [e], kind) == Runs(view, kind) + [Run(KeyText(e, kind), e.numOccurrence)]
  {
  }

  /** The sum of the counts of a view (`occurTotal` in `renderUniprotEntries`). */
  function OccurrenceSum(view: seq<Entry>): nat {
    if view == [] then 0 else OccurrenceSum(view[..|view| - 1]) + view[|view| - 1].numOccurrence
  }

  lemma {:induction false} OccurrenceSumIsCountSum(view: seq<Entry>, kind: ListKind)
    ensures OccurrenceSum(view) == CountSum(Runs(view, kind))
  {
    if view != [] {
      OccurrenceSumIsCountSum(view[..|view| - 1], kind);
      assert Runs(view, kind)[..|view| - 1] == Runs(view[..|view| - 1], kind);
    }
  }

  /** The view's counts add up to the number of entries aggregated. */
  lemma ViewCountsConserved(s: seq<Entry>, view: seq<Entry>, kind: ListKind)
    requires Runs(view, kind) == RunLengths(Keys(s, kind))
    ensures OccurrenceSum(view) == |s|
  {
    OccurrenceSumIsCountSum(view, kind);
    RunLengthsTotal(Keys(s, kind));
  }

  /** The total loop of `renderUniprotEntries`. */
  method OccurrenceTotal(view: seq<Entry>) returns (total: nat)
    ensures total == OccurrenceSum(view)
  {
    total := 0;
    for i := 0 to |view|
      invariant total == OccurrenceSum(view[..i])
    {
      assert view[..i + 1][..i] == view[..i];
      total := total + view[i].numOccurrence;
    }
    assert view[..|view|] == view;
  }

  lemma {:induction false} OccurrenceSumConcat(a: seq<Entry>, b: seq<Entry>)
    ensures OccurrenceSum(a + b) == OccurrenceSum(a) + OccurrenceSum(b)
    decreases |b|
  {
    if b != [] {
      var n := |b| - 1;
      OccurrenceSumConcat(a, b[..n]);
      assert (a + b)[..|a + b| - 1] == a + b[..n];
    } else {
      assert a + b == a;
    }
  }

  /** Reordering a view, as the ranking `qsort` does, keeps its total. */
  lemma {:induction false} OccurrenceSumPermutation(a: seq<Entry>, b: seq<Entry>)
    requires multiset(a) == multiset(b)
    ensures OccurrenceSum(a) == OccurrenceSum(b)
    decreases |a|
  {
    if a != [] {
      var n := |a| - 1;
      var x := a[n];
      assert x in multiset(b);
      var j :| 0 <= j < |b| && b[j] == x;
      Sorting.PermutationRemove(a, b, j);
      OccurrenceSumPermutation(a[..n], b[..j] + b[j + 1..]);
      assert b == (b[..j] + [x]) + b[j + 1..];
      OccurrenceSumConcat(b[..j] + [x], b[j + 1..]);
      OccurrenceSumConcat(b[..j], b[j + 1..]);
      assert (b[..j] + [x])[..j] == b[..j];
    }
  }

  /** Views whose entries have the same counts, position by position, have
      the same total. */
  lemma {:induction false} OccurrenceSumPointwise(a: seq<Entry>, b: seq<Entry>)
    requires |a| == |b| && forall i :: 0 <= i < |a| ==> a[i].numOccurrence == b[i].numOccurrence
    ensures OccurrenceSum(a) == OccurrenceSum(b)
  {
    if a != [] {
      var n := |a| - 1;
      OccurrenceSumPointwise(a[..n], b[..n]);
    }
  }

  /**
   * What a view built from list 0 sorted with a ranking comparator holds:
   * distinct keys in strictly ascending order, each counting how often it
   * occurs in list 0, every key of list 0 present, and the counts adding up
   * to the length of list 0.
   */
  lemma AggregateMeaning(sorted: seq<Entry>, kind: ListKind, view: seq<Entry>)
    requires Sorting.SortedBy(RankOrder(kind), sorted)
    requires forall i :: 0 <= i < |sorted| ==> sorted[i].numOccurrence == 1
    requires Runs(view, kind) == RunLengths(Keys(sorted, kind))
    ensures StrictlyAscending(Runs(view, kind))
    ensures forall j :: 0 <= j < |view| ==>
      view[j].numOccurrence == Multiplicity(Keys(sorted, kind), KeyText(view[j], kind)) >= 1
    ensures forall i :: 0 <= i < |sorted| ==> KeyText(sorted[i], kind) in RunKeys(Runs(view, kind))
    ensures OccurrenceSum(view) == |sorted|
  {
    var ks := Keys(sorted, kind);
    forall i, j | 0 <= i < j < |ks| ensures LessEq(ks[i], ks[j]) {
      RankSortedByKey(kind, sorted, i, j);
    }
    RunLengthsAscending(ks);
    RunLengthsCount(ks);
    RunLengthsCover(ks);
    ViewCountsConserved(sorted, view, kind);
  }
}
