/** Greedy breaking of a sequence into lines, for any notion of what fits on a line that
    holds of single elements and of every part of what fits: it loses nothing, every line
    fits, and no legal breaking has fewer lines. */
module Greedy {

  /** Every contiguous part of a line that fits fits, and so does any single element. */
  ghost predicate Sound<T(!new)>(fits: seq<T> -> bool) {
    && (forall x :: fits([x]))
    && (forall s, i: nat, j: nat :: i < j <= |s| ==> PartFits(fits, s, i, j))
  }

  predicate PartFits<T>(fits: seq<T> -> bool, s: seq<T>, i: nat, j: nat)
    requires i < j <= |s|
  {
    fits(s) ==> fits(s[i..j])
  }

  /** Where the line that holds `ws[i..j]` ends: elements join it while it still fits. */
  function End<T>(fits: seq<T> -> bool, ws: seq<T>, i: nat, j: nat): (e: nat)
    requires i < j <= |ws|
    ensures j <= e <= |ws|
    decreases |ws| - j
  {
    if j < |ws| && fits(ws[i..j + 1]) then End(fits, ws, i, j + 1) else j
  }

  /** The lines from element `i` on. */
  function LinesFrom<T>(fits: seq<T> -> bool, ws: seq<T>, i: nat): seq<seq<T>>
    requires i <= |ws|
    decreases |ws| - i
  {
    if i == |ws| then []
    else
      var e := End(fits, ws, i, i + 1);
      [ws[i..e]] + LinesFrom(fits, ws, e)
  }

  function Concat<T>(groups: seq<seq<T>>): seq<T> {
    if groups == [] then [] else groups[0] + Concat(groups[1..])
  }

  predicate AllFit<T>(fits: seq<T> -> bool, groups: seq<seq<T>>) {
    forall i :: 0 <= i < |groups| ==> groups[i] != [] && fits(groups[i])
  }

  /** A legal breaking: the same elements in order, every line fits. */
  predicate Legal<T(==)>(fits: seq<T> -> bool, groups: seq<seq<T>>, ws: seq<T>) {
    Concat(groups) == ws && AllFit(fits, groups)
  }

  lemma {:induction false} EndFits<T(!new)>(fits: seq<T> -> bool, ws: seq<T>, i: nat, j: nat)
    requires Sound(fits) && i < j <= |ws| && fits(ws[i..j])
    ensures fits(ws[i..End(fits, ws, i, j)])
    decreases |ws| - j
  {
    if j < |ws| && fits(ws[i..j + 1]) {
      EndFits(fits, ws, i, j + 1);
    }
  }

  lemma FirstFits<T(!new)>(fits: seq<T> -> bool, ws: seq<T>, i: nat)
    requires Sound(fits) && i < |ws|
    ensures fits(ws[i..End(fits, ws, i, i + 1)])
  {
    assert ws[i..i + 1] == [ws[i]];
    EndFits(fits, ws, i, i + 1);
  }

  /** The greedy lines are legal. */
  lemma {:induction false} LinesLegal<T(!new)>(fits: seq<T> -> bool, ws: seq<T>, i: nat)
    requires Sound(fits) && i <= |ws|
    ensures Legal(fits, LinesFrom(fits, ws, i), ws[i..])
    decreases |ws| - i
  {
    if i < |ws| {
      var e := End(fits, ws, i, i + 1);
      FirstFits(fits, ws, i);
      LinesLegal(fits, ws, e);
      ConcatCons(ws[i..e], LinesFrom(fits, ws, e));
      assert ws[i..e] + ws[e..] == ws[i..];
    }
  }

  lemma ConcatCons<T>(first: seq<T>, rest: seq<seq<T>>)
    ensures Concat([first] + rest) == first + Concat(rest)
  {
    assert ([first] + rest)[1..] == rest;
  }

  lemma SliceOfSlice<T>(ws: seq<T>, i: nat, m: nat, a: nat, b: nat)
    requires i <= a <= b <= m <= |ws|
    ensures ws[i..m][a - i..b - i] == ws[a..b]
  {
    var x, y := ws[i..m][a - i..b - i], ws[a..b];
    forall k | 0 <= k < |x|
      ensures x[k] == y[k]
    {
      assert x[k] == ws[i..m][a - i + k] == ws[a + k];
    }
  }

  lemma PartOfLine<T(!new)>(fits: seq<T> -> bool, ws: seq<T>, i: nat, m: nat, a: nat, b: nat)
    requires Sound(fits) && i <= a < b <= m <= |ws| && fits(ws[i..m])
    ensures fits(ws[a..b])
  {
    SliceOfSlice(ws, i, m, a, b);
    assert PartFits(fits, ws[i..m], a - i, b - i);
  }

  /** A line goes on at least as far as any line that fits. */
  lemma {:induction false} EndReaches<T(!new)>(fits: seq<T> -> bool, ws: seq<T>, i: nat, j: nat, m: nat)
    requires Sound(fits) && i < j <= m <= |ws| && fits(ws[i..m])
    ensures m <= End(fits, ws, i, j)
    decreases m - j
  {
    if j < m {
      PartOfLine(fits, ws, i, m, i, j + 1);
      EndReaches(fits, ws, i, j + 1, m);
    }
  }

  /** Starting later within a line, the line reaches at least as far. */
  lemma EndGrows<T(!new)>(fits: seq<T> -> bool, ws: seq<T>, i: nat, k: nat)
    requires Sound(fits) && i < |ws| && i <= k < End(fits, ws, i, i + 1)
    ensures End(fits, ws, i, i + 1) <= End(fits, ws, k, k + 1)
  {
    var e := End(fits, ws, i, i + 1);
    FirstFits(fits, ws, i);
    PartOfLine(fits, ws, i, e, k, e);
    EndReaches(fits, ws, k, k + 1, e);
  }

  /** Starting later never needs more lines. */
  lemma {:induction false} LaterNotMore<T(!new)>(fits: seq<T> -> bool, ws: seq<T>, i: nat, k: nat)
    requires Sound(fits) && i <= k <= |ws|
    ensures |LinesFrom(fits, ws, k)| <= |LinesFrom(fits, ws, i)|
    decreases |ws| - i
  {
    if i < k < |ws| {
      var e := End(fits, ws, i, i + 1);
      if e <= k {
        LaterNotMore(fits, ws, e, k);
      } else {
        EndGrows(fits, ws, i, k);
        LaterNotMore(fits, ws, e, End(fits, ws, k, k + 1));
      }
    }
  }

  /** No legal breaking has fewer lines. */
  lemma {:induction false} LinesMinimal<T(!new)>(fits: seq<T> -> bool, ws: seq<T>, i: nat, groups: seq<seq<T>>)
    requires Sound(fits) && i <= |ws| && Legal(fits, groups, ws[i..])
    ensures |LinesFrom(fits, ws, i)| <= |groups|
    decreases |groups|
  {
    if groups != [] {
      var k := i + |groups[0]|;
      FirstGroup(fits, ws, i, groups);
      LinesMinimal(fits, ws, k, groups[1..]);
      EndReaches(fits, ws, i, i + 1, k);
      LaterNotMore(fits, ws, k, End(fits, ws, i, i + 1));
    }
  }

  lemma FirstGroup<T(!new)>(fits: seq<T> -> bool, ws: seq<T>, i: nat, groups: seq<seq<T>>)
    requires i <= |ws| && groups != [] && Legal(fits, groups, ws[i..])
    ensures var k := i + |groups[0]|;
            i < k <= |ws| && ws[i..k] == groups[0] && fits(ws[i..k]) && Legal(fits, groups[1..], ws[k..])
  {
    var k := i + |groups[0]|;
    assert |ws[i..]| == |groups[0]| + |Concat(groups[1..])|;
    assert ws[i..k] == ws[i..][..k - i];
    assert ws[k..] == ws[i..][k - i..];
  }
}
