/**
 * The C string operations the core relies on: `strcmp`, `strncmp` bounded by
 * the length of its first argument (a prefix test), and the cursor-walking
 * loops that cut a reference name into an identifier, a gene and an organism.
 *
 * Strings are `seq<char>`; a C string never contains NUL, so "end of string"
 * is the end of the sequence and compares below every character.
 */
module CStrings {

  /** Sign of `strcmp(a, b)`: -1, 0 or 1. */
  function Cmp(a: string, b: string): (r: int)
    ensures -1 <= r <= 1
    ensures r == 0 <==> a == b
  {
    if a == [] && b == [] then 0
    else if a == [] then -1
    else if b == [] then 1
    else if a[0] < b[0] then -1
    else if a[0] > b[0] then 1
    else
      var r := Cmp(a[1..], b[1..]);
      assert a == [a[0]] + a[1..] && b == [b[0]] + b[1..];
      r
  }

  predicate Less(a: string, b: string) { Cmp(a, b) < 0 }

  predicate LessEq(a: string, b: string) { Cmp(a, b) <= 0 }

  lemma {:induction false} CmpAntisymmetric(a: string, b: string)
    ensures Cmp(a, b) == -Cmp(b, a)
  {
    if a != [] && b != [] && a[0] == b[0] {
      CmpAntisymmetric(a[1..], b[1..]);
    }
  }

  lemma {:induction false} CmpTransitive(a: string, b: string, c: string)
    requires Cmp(a, b) <= 0 && Cmp(b, c) <= 0
    ensures Cmp(a, c) <= 0
  {
    if a != [] && b != [] && c != [] && a[0] == b[0] == c[0] {
      CmpTransitive(a[1..], b[1..], c[1..]);
    }
  }

  lemma CmpStrictTransitive(a: string, b: string, c: string)
    requires Cmp(a, b) < 0 && Cmp(b, c) <= 0
    ensures Cmp(a, c) < 0
  {
    CmpTransitive(a, b, c);
    if a == c {
      CmpAntisymmetric(a, b);
    }
  }

  /** `b` begins with `a`. */
  predicate IsPrefix(a: string, b: string) {
    |a| <= |b| && b[..|a|] == a
  }

  /** Sign of `strncmp(a, b, strlen(a))`. */
  function PrefixCmp(a: string, b: string): int {
    if a == [] then 0
    else if b == [] then 1
    else if a[0] < b[0] then -1
    else if a[0] > b[0] then 1
    else PrefixCmp(a[1..], b[1..])
  }

  /** The bounded comparison is zero exactly when `b` begins with `a`;
      otherwise it has the sign `strcmp` would give. */
  lemma {:induction false} PrefixCmpMeaning(a: string, b: string)
    ensures PrefixCmp(a, b) == 0 <==> IsPrefix(a, b)
    ensures !IsPrefix(a, b) ==> PrefixCmp(a, b) == Cmp(a, b)
  {
    if a != [] && b != [] && a[0] == b[0] {
      PrefixCmpMeaning(a[1..], b[1..]);
      assert IsPrefix(a, b) <==> IsPrefix(a[1..], b[1..]) by {
        assert a == [a[0]] + a[1..];
        if IsPrefix(a[1..], b[1..]) {
          assert b[..|a|] == [b[0]] + b[1..][..|a| - 1];
        }
        if IsPrefix(a, b) {
          assert b[1..][..|a| - 1] == b[..|a|][1..];
        }
      }
    } else if a != [] && b != [] {
      if |a| <= |b| {
        assert b[..|a|][0] == b[0];
      }
    }
  }

  /** The number of occurrences of `c` in `s`. */
  function Occurrences(s: string, c: char): nat {
    if s == [] then 0 else (if s[0] == c then 1 else 0) + Occurrences(s[1..], c)
  }

  /**
   * The loop `for (n = k; n > 0 && *p != 0; p++) if (*p == c) n--;`:
   * what is left after a cursor has walked past the k-th `c`, or the empty
   * string when `s` holds fewer than k of them.
   */
  function SkipPast(s: string, c: char, k: nat): string
    decreases |s|
  {
    if k == 0 || s == [] then s
    else SkipPast(s[1..], c, if s[0] == c then k - 1 else k)
  }

  /** What SkipPast leaves is a suffix of `s` whose cut-off head holds exactly
      `k` occurrences of `c` and ends with one, or, when `s` holds fewer than
      `k` of them, nothing at all. */
  lemma {:induction false} SkipPastMeaning(s: string, c: char, k: nat)
    ensures var r := SkipPast(s, c, k);
      && |r| <= |s| && s[|s| - |r|..] == r
      && (Occurrences(s, c) < k ==> r == [])
      && (Occurrences(s, c) >= k > 0 ==>
            var head := s[..|s| - |r|];
            Occurrences(head, c) == k && head != [] && head[|head| - 1] == c)
    decreases |s|
  {
    var r := SkipPast(s, c, k);
    if k > 0 && s != [] {
      var t := s[1..];
      var k' := if s[0] == c then k - 1 else k;
      SkipPastMeaning(t, c, k');
      assert r == SkipPast(t, c, k');
      assert Occurrences(s, c) == (if s[0] == c then 1 else 0) + Occurrences(t, c);
      assert s[|s| - |r|..] == t[|t| - |r|..];
      if Occurrences(s, c) >= k {
        var head := s[..|s| - |r|];
        if k' == 0 {
          assert r == t && head == [s[0]] && s[0] == c;
          assert Occurrences(head, c) == 1 by {
            assert head[1..] == [];
          }
        } else {
          var th := t[..|t| - |r|];
          assert Occurrences(th, c) == k' && th != [];
          assert head == [s[0]] + th;
          assert head[1..] == th;
          assert head[|head| - 1] == th[|th| - 1];
        }
      }
    }
  }

  /** The loop that writes NUL over the first space: the text before it. */
  function TakeUntilSpace(s: string): (r: string)
    ensures IsPrefix(r, s) && ' ' !in r
    ensures |r| < |s| ==> s[|r|] == ' '
  {
    if s == [] || s[0] == ' ' then []
    else
      var r := [s[0]] + TakeUntilSpace(s[1..]);
      assert s == [s[0]] + s[1..];
      r
  }

  /** Index of the first `c` in `s`, if any. */
  function IndexOf(s: string, c: char): (r: int)
    ensures -1 <= r < |s|
    ensures r >= 0 ==> s[r] == c && c !in s[..r]
    ensures r < 0 ==> c !in s
  {
    if s == [] then -1
    else if s[0] == c then 0
    else
      var r := IndexOf(s[1..], c);
      if r < 0 then -1 else r + 1
  }

  /** Walking past a `c` that is preceded by none uses up one count. */
  lemma {:induction false} SkipPastFirst(a: string, c: char, b: string, k: nat)
    requires c !in a
    ensures SkipPast(a + [c] + b, c, k + 1) == SkipPast(b, c, k)
  {
    if a == [] {
      assert (a + [c] + b)[1..] == b;
    } else {
      assert (a + [c] + b)[1..] == a[1..] + [c] + b;
      SkipPastFirst(a[1..], c, b, k);
    }
  }

  lemma {:induction false} TakeUntilFirstSpace(a: string, b: string)
    requires ' ' !in a
    ensures TakeUntilSpace(a + " " + b) == a
  {
    if a != [] {
      assert (a + " " + b)[1..] == a[1..] + " " + b;
      TakeUntilFirstSpace(a[1..], b);
    }
  }

  /** The cursor loop behind SkipPast: the offset at which it stops. */
  method WalkPast(s: string, c: char, k: nat) returns (p: nat)
    ensures p <= |s| && s[p..] == SkipPast(s, c, k)
  {
    p := 0;
    var left := k;
    while left > 0 && p < |s|
      invariant p <= |s|
      invariant SkipPast(s[p..], c, left) == SkipPast(s, c, k)
    {
      assert s[p..][1..] == s[p + 1..];
      if s[p] == c {
        left := left - 1;
      }
      p := p + 1;
    }
  }

  /** No space before offset `q`, and a space or the end at `q`: the text
      before `q` is what TakeUntilSpace keeps. */
  lemma {:induction false} TakeUntilSpaceAt(s: string, q: nat)
    requires q <= |s| && ' ' !in s[..q]
    requires q == |s| || s[q] == ' '
    ensures TakeUntilSpace(s) == s[..q]
  {
    if q > 0 {
      assert s[1..][..q - 1] == s[..q][1..];
      assert s[0] == s[..q][0];
      TakeUntilSpaceAt(s[1..], q - 1);
    }
  }

  /** The loop that looks for the first space: its offset, or the length. */
  method FindSpace(s: string) returns (q: nat)
    ensures q <= |s| && s[..q] == TakeUntilSpace(s)
  {
    q := 0;
    while q < |s| && s[q] != ' '
      invariant q <= |s|
      invariant ' ' !in s[..q]
    {
      assert s[..q + 1] == s[..q] + [s[q]];
      q := q + 1;
    }
    TakeUntilSpaceAt(s, q);
  }

  /** The loop that looks for the first `c`; -1 when there is none. */
  method FindChar(s: string, c: char) returns (u: int)
    ensures u == IndexOf(s, c)
  {
    u := 0;
    while u < |s|
      invariant 0 <= u <= |s|
      invariant IndexOf(s, c) == (var r := IndexOf(s[u..], c); if r < 0 then -1 else r + u)
    {
      if s[u] == c {
        return;
      }
      assert s[u..][1..] == s[u + 1..];
      u := u + 1;
    }
    u := -1;
  }

  lemma {:induction false} OccurrencesSnoc(s: string, x: char, c: char)
    ensures Occurrences(s + [x], c) == Occurrences(s, c) + (if x == c then 1 else 0)
  {
    if s != [] {
      assert (s + [x])[1..] == s[1..] + [x];
      OccurrencesSnoc(s[1..], x, c);
    }
  }

  /** One character more: a separator starts a new piece, anything else
      extends the last one. */
  function SplitExtend(ps: seq<string>, c: char, sep: char): (r: seq<string>)
    requires |ps| > 0
    ensures |r| > 0
  {
    if c == sep then ps + [[]] else ps[..|ps| - 1] + [ps[|ps| - 1] + [c]]
  }

  /** `t` cut at every `sep`, the separators dropped. */
  function Split(t: string, sep: char): (ps: seq<string>)
    ensures |ps| > 0
  {
    if t == [] then [[]] else SplitExtend(Split(t[..|t| - 1], sep), t[|t| - 1], sep)
  }

  /** Pieces joined back with `sep` between them. */
  function JoinWith(ps: seq<string>, sep: char): string
    requires |ps| > 0
  {
    if |ps| == 1 then ps[0] else JoinWith(ps[..|ps| - 1], sep) + [sep] + ps[|ps| - 1]
  }

  /** Cutting at `sep` loses nothing: there is one more piece than there are
      separators, no piece holds one, and joining the pieces with `sep` gives
      back the text. */
  lemma {:induction false} SplitRoundTrip(t: string, sep: char)
    ensures |Split(t, sep)| == Occurrences(t, sep) + 1
    ensures forall i :: 0 <= i < |Split(t, sep)| ==> sep !in Split(t, sep)[i]
    ensures JoinWith(Split(t, sep), sep) == t
  {
    if t != [] {
      var u := t[..|t| - 1];
      var c := t[|t| - 1];
      var prev := Split(u, sep);
      SplitRoundTrip(u, sep);
      var ps := Split(t, sep);
      assert t == u + [c];
      OccurrencesSnoc(u, c, sep);
      if c == sep {
        assert ps == prev + [[]];
        assert ps[..|ps| - 1] == prev;
      } else {
        var m := |prev| - 1;
        assert ps == prev[..m] + [prev[m] + [c]];
        if m == 0 {
          assert JoinWith(ps, sep) == prev[0] + [c];
        } else {
          assert ps[..|ps| - 1] == prev[..m];
          assert prev[..m + 1][..m] == prev[..m];
          assert prev == prev[..m] + [prev[m]];
          assert JoinWith(prev, sep) == JoinWith(prev[..m], sep) + [sep] + prev[m];
        }
      }
    }
  }

  lemma SplitSnoc(t: string, c: char, sep: char)
    ensures Split(t + [c], sep) == SplitExtend(Split(t, sep), c, sep)
  {
    assert (t + [c])[..|t|] == t;
  }

  lemma SplitExtendLast(front: seq<string>, piece: string, c: char, sep: char)
    requires c != sep
    ensures SplitExtend(front + [piece], c, sep) == front + [piece + [c]]
  {
    assert (front + [piece])[..|front|] == front;
  }

  /** Appending text without `sep` extends the last piece. */
  lemma {:induction false} SplitAppendPlain(t: string, s: string, sep: char)
    requires sep !in s
    ensures var ps := Split(t, sep);
      Split(t + s, sep) == ps[..|ps| - 1] + [ps[|ps| - 1] + s]
    decreases |s|
  {
    var ps := Split(t, sep);
    var m := |ps| - 1;
    if s == [] {
      assert t + s == t && ps[m] + s == ps[m];
      assert ps == ps[..m] + [ps[m]];
    } else {
      var n := |s| - 1;
      assert s[n] != sep && sep !in s[..n] by {
        assert s[n] in s;
        assert forall x :: x in s[..n] ==> x in s;
      }
      SplitAppendPlain(t, s[..n], sep);
      assert t + s == (t + s[..n]) + [s[n]];
      SplitSnoc(t + s[..n], s[n], sep);
      SplitExtendLast(ps[..m], ps[m] + s[..n], s[n], sep);
      assert ps[m] + s == (ps[m] + s[..n]) + [s[n]];
    }
  }
}
