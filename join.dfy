/**
 * `joinOnlineLists`: the tab-separated text returned by the annotation
 * service is cut into lines, the lines are sorted with `strcmp`, and a
 * two-cursor merge replaces the identifier of each view entry with the first
 * line, from sorted line 1 on, that begins with it.
 */
module OnlineJoin {
  import opened Wrappers
  import opened CStrings
  import opened Entries
  import Aggregation
  import Sorting

  /** `lineCount`: one per newline, plus one when the text does not end in a
      newline. */
  function LineCount(t: string): nat
    requires t != []
  {
    Occurrences(t, '\n') + (if t[|t| - 1] != '\n' then 1 else 0)
  }

  /** The lines indexed by `joinOnlineLists`: the pieces, without the empty
      one after a final newline. */
  function Lines(t: string): seq<string> {
    var ps := Split(t, '\n');
    if t != [] && t[|t| - 1] == '\n' then ps[..|ps| - 1] else ps
  }

  /** The number of lines indexed is `lineCount`. */
  lemma LinesCount(t: string)
    requires t != []
    ensures |Lines(t)| == LineCount(t)
  {
    SplitRoundTrip(t, '\n');
  }

  /** `uniprotEntryCompareOnline`: `strcmp` of two lines. */
  function LineOrder(): (string, string) -> bool {
    (a, b) => LessEq(a, b)
  }

  lemma LineOrderIsTotalPreorder()
    ensures Sorting.TotalPreorder(LineOrder())
  {
    forall a, b ensures LessEq(a, b) || LessEq(b, a) {
      CmpAntisymmetric(a, b);
    }
    forall a, b, c | LessEq(a, b) && LessEq(b, c) ensures LessEq(a, c) {
      CmpTransitive(a, b, c);
    }
  }

  /**
   * The merge from entry `e` and line `l` on: for each entry, the index of
   * the line it takes, or `None`. A line that begins with the identifier is
   * taken and both cursors move; a line that sorts before the identifier
   * moves the line cursor; otherwise the entry keeps its identifier.
   */
  function JoinFrom(ids: seq<string>, lines: seq<string>, e: nat, l: nat): seq<Option<nat>>
    requires e <= |ids|
    decreases |ids| - e, |lines| - l
  {
    if e == |ids| then []
    else if l >= |lines| then seq(|ids| - e, _ => None)
    else
      var m := PrefixCmp(ids[e], lines[l]);
      if m == 0 then [Some(l)] + JoinFrom(ids, lines, e + 1, l + 1)
      else if m > 0 then JoinFrom(ids, lines, e, l + 1)
      else [None] + JoinFrom(ids, lines, e + 1, l)
  }

  /** The merge as `joinOnlineLists` starts it: entry 0 against sorted line 1. */
  function Matches(ids: seq<string>, lines: seq<string>): seq<Option<nat>> {
    JoinFrom(ids, lines, 0, 1)
  }

  lemma {:induction false} JoinFromLength(ids: seq<string>, lines: seq<string>, e: nat, l: nat)
    requires e <= |ids|
    ensures |JoinFrom(ids, lines, e, l)| == |ids| - e
    decreases |ids| - e, |lines| - l
  {
    if e < |ids| && l < |lines| {
      var m := PrefixCmp(ids[e], lines[l]);
      if m == 0 {
        JoinFromLength(ids, lines, e + 1, l + 1);
      } else if m > 0 {
        JoinFromLength(ids, lines, e, l + 1);
      } else {
        JoinFromLength(ids, lines, e + 1, l);
      }
    }
  }

  /**
   * Each entry takes at most one line, at or after the line cursor, and only
   * a line that begins with its identifier.
   */
  lemma {:induction false} JoinFromSound(ids: seq<string>, lines: seq<string>, e: nat, l: nat, i: nat)
    requires e + i < |ids|
    ensures i < |JoinFrom(ids, lines, e, l)|
    ensures JoinFrom(ids, lines, e, l)[i].Some? ==>
      l <= JoinFrom(ids, lines, e, l)[i].value < |lines| &&
      IsPrefix(ids[e + i], lines[JoinFrom(ids, lines, e, l)[i].value])
    decreases |ids| - e, |lines| - l
  {
    JoinFromLength(ids, lines, e, l);
    if l < |lines| {
      var m := PrefixCmp(ids[e], lines[l]);
      PrefixCmpMeaning(ids[e], lines[l]);
      if m == 0 {
        if i > 0 {
          JoinFromSound(ids, lines, e + 1, l + 1, i - 1);
        }
      } else if m > 0 {
        JoinFromSound(ids, lines, e, l + 1, i);
      } else if i > 0 {
        JoinFromSound(ids, lines, e + 1, l, i - 1);
      }
    }
  }

  /** Matched pairs increase in both indices, so no line goes to two
      entries. */
  lemma {:induction false} JoinFromIncreasing(ids: seq<string>, lines: seq<string>, e: nat, l: nat, i: nat, j: nat)
    requires e + j < |ids| && i < j
    ensures j < |JoinFrom(ids, lines, e, l)|
    ensures JoinFrom(ids, lines, e, l)[i].Some? && JoinFrom(ids, lines, e, l)[j].Some? ==>
      JoinFrom(ids, lines, e, l)[i].value < JoinFrom(ids, lines, e, l)[j].value
    decreases |ids| - e, |lines| - l
  {
    JoinFromLength(ids, lines, e, l);
    var ms := JoinFrom(ids, lines, e, l);
    if l < |lines| {
      var m := PrefixCmp(ids[e], lines[l]);
      if m == 0 {
        var rest := JoinFrom(ids, lines, e + 1, l + 1);
        assert ms == [Some(l)] + rest;
        assert ms[j] == rest[j - 1];
        if i > 0 {
          JoinFromIncreasing(ids, lines, e + 1, l + 1, i - 1, j - 1);
          assert ms[i] == rest[i - 1];
        } else {
          JoinFromSound(ids, lines, e + 1, l + 1, j - 1);
        }
      } else if m > 0 {
        assert ms == JoinFrom(ids, lines, e, l + 1);
        JoinFromIncreasing(ids, lines, e, l + 1, i, j);
      } else {
        var rest := JoinFrom(ids, lines, e + 1, l);
        assert ms == [None] + rest;
        if i > 0 {
          JoinFromIncreasing(ids, lines, e + 1, l, i - 1, j - 1);
          assert ms[i] == rest[i - 1] && ms[j] == rest[j - 1];
        }
      }
    }
  }

  /** Sorted line 0 is never assigned, whatever it holds. */
  lemma MatchesSkipLineZero(ids: seq<string>, lines: seq<string>)
    ensures |Matches(ids, lines)| == |ids|
    ensures forall i :: 0 <= i < |ids| && Matches(ids, lines)[i].Some? ==>
      1 <= Matches(ids, lines)[i].value < |lines| && IsPrefix(ids[i], lines[Matches(ids, lines)[i].value])
    ensures forall i, j :: 0 <= i < j < |ids| && Matches(ids, lines)[i].Some? && Matches(ids, lines)[j].Some? ==>
      Matches(ids, lines)[i].value < Matches(ids, lines)[j].value
  {
    JoinFromLength(ids, lines, 0, 1);
    forall i | 0 <= i < |ids| && Matches(ids, lines)[i].Some?
      ensures 1 <= Matches(ids, lines)[i].value < |lines| && IsPrefix(ids[i], lines[Matches(ids, lines)[i].value])
    {
      JoinFromSound(ids, lines, 0, 1, i);
    }
    forall i, j | 0 <= i < j < |ids| && Matches(ids, lines)[i].Some? && Matches(ids, lines)[j].Some?
      ensures Matches(ids, lines)[i].value < Matches(ids, lines)[j].value
    {
      JoinFromIncreasing(ids, lines, 0, 1, i, j);
    }
  }

  /**
   * Line 0 of the SORTED text is skipped, not the header: with the service's
   * header "header" sorting after every data line, the entry `A_HUMAN` finds
   * no line although "A_HUMAN\tFullA" was returned.
   */
  lemma SortedFirstLineIsSkipped()
    ensures Sorting.SortedBy(LineOrder(), ["A_HUMAN\tFullA", "C_RAT\tFullC", "header"])
    ensures Matches(["A_HUMAN", "B_MOUSE"], ["A_HUMAN\tFullA", "C_RAT\tFullC", "header"]) == [None, None]
  {
    var lines := ["A_HUMAN\tFullA", "C_RAT\tFullC", "header"];
    assert Cmp(lines[0], lines[1]) == -1 && Cmp(lines[0], lines[2]) == -1 by {
      assert lines[0][0] == 'A' && lines[1][0] == 'C' && lines[2][0] == 'h';
    }
    assert Cmp(lines[1], lines[2]) == -1 by {
      assert lines[1][0] == 'C' && lines[2][0] == 'h';
    }
    forall i, j | 0 <= i < j < |lines| ensures LineOrder()(lines[i], lines[j]) {
    }
    var ids := ["A_HUMAN", "B_MOUSE"];
    assert PrefixCmp(ids[0], lines[1]) == -1 by {
      assert ids[0][0] == 'A' && lines[1][0] == 'C';
    }
    assert PrefixCmp(ids[1], lines[1]) == -1 by {
      assert ids[1][0] == 'B' && lines[1][0] == 'C';
    }
    assert JoinFrom(ids, lines, 2, 1) == [];
  }

  /** The prefix test does not look for a following tab: `P1_HUMAN` takes a
      line for `P1_HUMANX`, while `P12345_HUMAN` does not take one for
      `P12345X_HUMAN`. */
  lemma PrefixMatchWithoutTab()
    ensures IsPrefix("P1_HUMAN", "P1_HUMANX\tx")
    ensures !IsPrefix("P12345_HUMAN", "P12345X_HUMAN\tx")
  {
    assert "P1_HUMANX\tx"[..8] == "P1_HUMAN";
    assert "P12345X_HUMAN\tx"[6] != "P12345_HUMAN"[6];
  }

  /** The identifiers a view offers to the merge. */
  function Ids(view: seq<Entry>): (ids: seq<string>)
    requires forall i :: 0 <= i < |view| ==> view[i].id.Some?
    ensures |ids| == |view| && forall i :: 0 <= i < |view| ==> ids[i] == view[i].id.value
  {
    seq(|view|, i requires 0 <= i < |view| => view[i].id.value)
  }

  /** The view after the merge: matched entries show their line. */
  function Joined(view: seq<Entry>, lines: seq<string>): seq<Entry>
    requires forall i :: 0 <= i < |view| ==> view[i].id.Some?
  {
    var ms := Matches(Ids(view), lines);
    MatchesSkipLineZero(Ids(view), lines);
    seq(|view|, i requires 0 <= i < |view| =>
      if ms[i].Some? then view[i].(id := Some(lines[ms[i].value])) else view[i])
  }

  /** One character more extends the last piece, or starts a new one after a
      newline. */
  lemma SplitStep(t: string, p: nat, start: nat, done: seq<string>)
    requires start <= p < |t|
    requires done + [t[start..p]] == Split(t[..p], '\n')
    ensures t[p] == '\n' ==> (done + [t[start..p]]) + [t[p + 1..p + 1]] == Split(t[..p + 1], '\n')
    ensures t[p] != '\n' ==> done + [t[start..p + 1]] == Split(t[..p + 1], '\n')
  {
    assert t[..p + 1] == t[..p] + [t[p]];
    SplitSnoc(t[..p], t[p], '\n');
    var ps := done + [t[start..p]];
    if t[p] == '\n' {
      assert t[p + 1..p + 1] == [];
    } else {
      assert ps[..|ps| - 1] == done;
      assert t[start..p + 1] == t[start..p] + [t[p]];
    }
  }

  /** The first loop of `joinOnlineLists`: count the lines. */
  method CountLines(text: string) returns (lineCount: nat)
    requires text != []
    ensures lineCount == LineCount(text)
  {
    lineCount := 0;
    for p := 0 to |text|
      invariant lineCount == Occurrences(text[..p], '\n')
    {
      OccurrencesSnoc(text[..p], text[p], '\n');
      assert text[..p + 1] == text[..p] + [text[p]];
      if text[p] == '\n' {
        lineCount := lineCount + 1;
      }
    }
    assert text[..|text|] == text;
    if text[|text| - 1] != '\n' {
      lineCount := lineCount + 1;
    }
  }

  /** The second loop: each line starts at the text or after a newline,
      which is overwritten with NUL. */
  method IndexLines(text: string) returns (lines: seq<string>)
    requires text != []
    ensures lines == Lines(text)
  {
    lines := [];
    var start := 0;
    for p := 0 to |text|
      invariant start <= p
      invariant start == p <==> p == 0 || text[p - 1] == '\n'
      invariant lines + [text[start..p]] == Split(text[..p], '\n')
    {
      SplitStep(text, p, start, lines);
      if text[p] == '\n' {
        lines := lines + [text[start..p]];
        start := p + 1;
      }
    }
    LastLine(text, start, lines);
    if start < |text| {
      lines := lines + [text[start..]];
    }
  }

  /** After the last character: the last piece is a line unless the text
      ends in a newline. */
  lemma LastLine(text: string, start: nat, lines: seq<string>)
    requires text != [] && start <= |text|
    requires start == |text| <==> text[|text| - 1] == '\n'
    requires lines + [text[start..|text|]] == Split(text[..|text|], '\n')
    ensures (if start < |text| then lines + [text[start..]] else lines) == Lines(text)
  {
    assert text[..|text|] == text;
    var ps := lines + [text[start..]];
    assert ps[..|ps| - 1] == lines;
  }

  /** Each entry keeps its identifier or takes a line that begins with it;
      nothing else about the entry changes. */
  lemma JoinedMeaning(view: seq<Entry>, lines: seq<string>)
    requires forall i :: 0 <= i < |view| ==> view[i].id.Some?
    ensures |Joined(view, lines)| == |view|
    ensures forall i :: 0 <= i < |view| ==>
      Joined(view, lines)[i] == view[i].(id := Joined(view, lines)[i].id)
    ensures forall i :: 0 <= i < |view| ==>
      Joined(view, lines)[i].id.Some? && IsPrefix(view[i].id.value, Joined(view, lines)[i].id.value)
  {
    var ms := Matches(Ids(view), lines);
    MatchesSkipLineZero(Ids(view), lines);
    forall i | 0 <= i < |view|
      ensures Joined(view, lines)[i].id.Some? && IsPrefix(view[i].id.value, Joined(view, lines)[i].id.value)
    {
      if ms[i].None? {
        assert view[i].id.value[..|view[i].id.value|] == view[i].id.value;
      }
    }
  }

  /** The join changes no occurrence count, so the view's total is kept. */
  lemma JoinedKeepsCounts(view: seq<Entry>, lines: seq<string>)
    requires forall i :: 0 <= i < |view| ==> view[i].id.Some?
    ensures Aggregation.OccurrenceSum(Joined(view, lines)) == Aggregation.OccurrenceSum(view)
  {
    JoinedMeaning(view, lines);
    Aggregation.OccurrenceSumPointwise(Joined(view, lines), view);
  }

  /** The merge loop of `joinOnlineLists` over sorted lines. */
  method MergeJoin(view: seq<Entry>, lines: seq<string>) returns (joined: seq<Entry>)
    requires forall i :: 0 <= i < |view| ==> view[i].id.Some?
    ensures joined == Joined(view, lines)
  {
    ghost var ids := Ids(view);
    ghost var ms := Matches(ids, lines);
    MatchesSkipLineZero(ids, lines);
    joined := view;
    var e, l := 0, 1;
    while e < |view| && l < |lines|
      invariant e <= |view|
      invariant |joined| == |view|
      invariant ms[e..] == JoinFrom(ids, lines, e, l)
      invariant forall i :: 0 <= i < e ==> joined[i] == Joined(view, lines)[i]
      invariant forall i :: e <= i < |view| ==> joined[i] == view[i]
      decreases |view| - e, |lines| - l
    {
      var m := PrefixCmp(joined[e].id.value, lines[l]);
      assert ms[e..][1..] == ms[e + 1..];
      if m == 0 {
        joined := joined[e := joined[e].(id := Some(lines[l]))];
        e, l := e + 1, l + 1;
      } else if m > 0 {
        l := l + 1;
      } else {
        e := e + 1;
      }
    }
    forall i | e <= i < |view| ensures ms[i] == None {
      assert ms[e..][i - e] == ms[i];
    }
  }

  /**
   * `joinOnlineLists` over the identifier view. `text` must be non-empty
   * (the C code reads the character before it otherwise) and every entry must
   * have an identifier. Returns the view with identifiers replaced and the
   * sorted lines the text now holds.
   */
  method JoinOnlineLists(view: seq<Entry>, text: string) returns (joined: seq<Entry>, lines: seq<string>)
    requires text != []
    requires forall i :: 0 <= i < |view| ==> view[i].id.Some?
    ensures Sorting.IsSortOf(LineOrder(), Lines(text), lines)
    ensures joined == Joined(view, lines)
    ensures |joined| == |view|
    ensures forall i :: 0 <= i < |view| ==>
      joined[i].id.Some? && IsPrefix(view[i].id.value, joined[i].id.value)
  {
    var lineCount := CountLines(text);
    var unsorted := IndexLines(text);
    LinesCount(text);
    LineOrderIsTotalPreorder();
    Sorting.SortExists(LineOrder(), unsorted);
    lines :| Sorting.IsSortOf(LineOrder(), unsorted, lines);
    assert |lines| == lineCount by {
      assert |multiset(lines)| == |multiset(unsorted)|;
    }
    joined := MergeJoin(view, lines);
    JoinedMeaning(view, lines);
  }
}
