/** Sections of a line-based file, for any way `head` of reading a line as the header of
    a named section and `opens` of telling that it opens one of any kind: where a
    section's body is, and what inserting lines that open nothing does to it. */
module Sections {
  import opened Common

  /** `[s, e)` is the body of the first section `path`: from below its header to the
      next header of any kind. */
  ghost predicate IsBody<T>(lines: seq<T>, head: T -> Option<string>, opens: T -> bool, path: string, s: nat, e: nat) {
    && 1 <= s <= e <= |lines|
    && head(lines[s - 1]) == Some(path)
    && (forall i :: 0 <= i < s - 1 ==> head(lines[i]) != Some(path))
    && (forall i :: s <= i < e ==> !opens(lines[i]))
    && (e < |lines| ==> opens(lines[e]))
  }

  ghost predicate NoSection<T>(lines: seq<T>, head: T -> Option<string>, path: string) {
    forall i :: 0 <= i < |lines| ==> head(lines[i]) != Some(path)
  }

  function FindHead<T>(lines: seq<T>, head: T -> Option<string>, path: string, i: nat): (r: Option<nat>)
    requires i <= |lines|
    ensures r.Some? ==> i <= r.value < |lines| && head(lines[r.value]) == Some(path)
    ensures r.Some? ==> forall j :: i <= j < r.value ==> head(lines[j]) != Some(path)
    ensures r.None? ==> forall j :: i <= j < |lines| ==> head(lines[j]) != Some(path)
    decreases |lines| - i
  {
    if i == |lines| then None
    else if head(lines[i]) == Some(path) then Some(i)
    else FindHead(lines, head, path, i + 1)
  }

  function NextOpening<T>(lines: seq<T>, opens: T -> bool, i: nat): (r: nat)
    requires i <= |lines|
    ensures i <= r <= |lines| && (r < |lines| ==> opens(lines[r]))
    ensures forall j :: i <= j < r ==> !opens(lines[j])
    decreases |lines| - i
  {
    if i == |lines| || opens(lines[i]) then i else NextOpening(lines, opens, i + 1)
  }

  function Body<T>(lines: seq<T>, head: T -> Option<string>, opens: T -> bool, path: string): (r: Option<(nat, nat)>)
    ensures r.Some? ==> IsBody(lines, head, opens, path, r.value.0, r.value.1)
    ensures r.None? <==> NoSection(lines, head, path)
  {
    match FindHead(lines, head, path, 0)
    case None => None
    case Some(h) => Some((h + 1, NextOpening(lines, opens, h + 1)))
  }

  /** A file has at most one such body, and `Body` finds it. */
  lemma BodyUnique<T>(lines: seq<T>, head: T -> Option<string>, opens: T -> bool, path: string, s: nat, e: nat)
    requires IsBody(lines, head, opens, path, s, e)
    ensures Body(lines, head, opens, path) == Some((s, e))
  {
    assert head(lines[s - 1]) == Some(path);
    var (s', e') := Body(lines, head, opens, path).value;
    assert s' == s && !(e' < e) && !(e < e');
  }

  /** Files read the same line by line have the same bodies. */
  lemma SameReadings<T>(lines: seq<T>, lines': seq<T>, head: T -> Option<string>, opens: T -> bool, path: string)
    requires |lines| == |lines'|
    requires forall i :: 0 <= i < |lines| ==> head(lines'[i]) == head(lines[i]) && opens(lines'[i]) == opens(lines[i])
    ensures Body(lines', head, opens, path) == Body(lines, head, opens, path)
  {
    match Body(lines, head, opens, path)
    case None => assert NoSection(lines', head, path);
    case Some(se) => BodyUnique(lines', head, opens, path, se.0, se.1);
  }

  /** Bodies of different sections do not touch: one ends at or before the other's header. */
  lemma BodiesApart<T>(lines: seq<T>, head: T -> Option<string>, opens: T -> bool,
                       p: string, s: nat, e: nat, q: string, s': nat, e': nat)
    requires forall l :: head(l).Some? ==> opens(l)
    requires p != q && IsBody(lines, head, opens, p, s, e) && IsBody(lines, head, opens, q, s', e')
    ensures e < s' || e' < s
  {
    assert opens(lines[s - 1]) && opens(lines[s' - 1]);
  }

  // ---------------------------------------------------------------------
  // Insertion
  // ---------------------------------------------------------------------

  ghost predicate OpensNothing<T>(block: seq<T>, head: T -> Option<string>, opens: T -> bool) {
    forall i :: 0 <= i < |block| ==> head(block[i]).None? && !opens(block[i])
  }

  function InsertLines<T>(lines: seq<T>, at: nat, block: seq<T>): (r: seq<T>)
    requires at <= |lines|
    ensures |r| == |lines| + |block|
  {
    lines[..at] + block + lines[at..]
  }

  lemma InsertIndex<T>(lines: seq<T>, at: nat, block: seq<T>, i: nat)
    requires at <= |lines| && i < |lines| + |block|
    ensures InsertLines(lines, at, block)[i] ==
            if i < at then lines[i] else if i < at + |block| then block[i - at] else lines[i - |block|]
  {
  }

  /** Inserting moves a body, grows it, or leaves it where it is. */
  lemma InsertBody<T>(lines: seq<T>, head: T -> Option<string>, opens: T -> bool, at: nat, block: seq<T>,
                      path: string, s: nat, e: nat)
    requires at <= |lines| && OpensNothing(block, head, opens) && IsBody(lines, head, opens, path, s, e)
    ensures IsBody(InsertLines(lines, at, block), head, opens, path,
                   if at < s then s + |block| else s, if at <= e then e + |block| else e)
  {
    var lines' := InsertLines(lines, at, block);
    forall i | 0 <= i < |lines'|
      ensures lines'[i] == if i < at then lines[i] else if i < at + |block| then block[i - at] else lines[i - |block|]
    {
      InsertIndex(lines, at, block, i);
    }
  }

  lemma InsertNoSection<T>(lines: seq<T>, head: T -> Option<string>, opens: T -> bool, at: nat, block: seq<T>, path: string)
    requires at <= |lines| && OpensNothing(block, head, opens) && NoSection(lines, head, path)
    ensures NoSection(InsertLines(lines, at, block), head, path)
  {
    forall i: nat | i < |lines| + |block|
      ensures head(InsertLines(lines, at, block)[i]) != Some(path)
    {
      InsertIndex(lines, at, block, i);
    }
  }

  /** A stretch of lines, with `block` in it if it was put there. */
  function Grown<T>(lines: seq<T>, at: nat, block: seq<T>, s: nat, e: nat): seq<T>
    requires s <= e <= |lines|
  {
    if s <= at <= e then lines[s..at] + block + lines[at..e] else lines[s..e]
  }

  lemma GrownSlice<T>(lines: seq<T>, at: nat, block: seq<T>, s: nat, e: nat)
    requires s <= e <= |lines| && at <= |lines|
    ensures InsertLines(lines, at, block)[if at < s then s + |block| else s..if at <= e then e + |block| else e]
            == Grown(lines, at, block, s, e)
  {
    if at < s {
      SliceBelow(lines, at, block, s, e);
    } else if at <= e {
      SliceAround(lines, at, block, s, e);
    } else {
      SliceAbove(lines, at, block, s, e);
    }
  }

  lemma SliceBelow<T>(lines: seq<T>, at: nat, block: seq<T>, s: nat, e: nat)
    requires at < s <= e <= |lines|
    ensures InsertLines(lines, at, block)[s + |block|..e + |block|] == lines[s..e]
  {
  }

  lemma SliceAround<T>(lines: seq<T>, at: nat, block: seq<T>, s: nat, e: nat)
    requires s <= at <= e <= |lines|
    ensures InsertLines(lines, at, block)[s..e + |block|] == lines[s..at] + block + lines[at..e]
  {
  }

  lemma SliceAbove<T>(lines: seq<T>, at: nat, block: seq<T>, s: nat, e: nat)
    requires s <= e < at <= |lines|
    ensures InsertLines(lines, at, block)[s..e] == lines[s..e]
  {
  }

  /** The content of a section. */
  function BodyLines<T>(lines: seq<T>, head: T -> Option<string>, opens: T -> bool, path: string): Option<seq<T>> {
    match Body(lines, head, opens, path)
    case None => None
    case Some(se) => Some(lines[se.0..se.1])
  }

  /** What an insertion makes of each section. */
  lemma InsertBodyLines<T>(lines: seq<T>, head: T -> Option<string>, opens: T -> bool, at: nat, block: seq<T>, path: string)
    requires at <= |lines| && OpensNothing(block, head, opens)
    ensures var lines' := InsertLines(lines, at, block);
            match Body(lines, head, opens, path)
            case None => Body(lines', head, opens, path).None?
            case Some(se) => BodyLines(lines', head, opens, path) == Some(Grown(lines, at, block, se.0, se.1))
  {
    var lines' := InsertLines(lines, at, block);
    match Body(lines, head, opens, path)
    case None =>
      InsertNoSection(lines, head, opens, at, block, path);
    case Some(se) =>
      var s', e' := if at < se.0 then se.0 + |block| else se.0, if at <= se.1 then se.1 + |block| else se.1;
      InsertBody(lines, head, opens, at, block, path, se.0, se.1);
      GrownSlice(lines, at, block, se.0, se.1);
      BodyUnique(lines', head, opens, path, s', e');
  }

  /** Appending reaches only the section that ends the file. */
  lemma InsertAtEnd<T>(lines: seq<T>, tail: seq<T>)
    ensures InsertLines(lines, |lines|, tail) == lines + tail
  {
  }

  lemma AppendBody<T>(lines: seq<T>, head: T -> Option<string>, opens: T -> bool, tail: seq<T>, path: string)
    requires OpensNothing(tail, head, opens) && Body(lines, head, opens, path).Some?
    ensures var (s, e) := Body(lines, head, opens, path).value;
            BodyLines(lines + tail, head, opens, path) == Some(lines[s..e] + if e == |lines| then tail else [])
  {
    var (s, e) := Body(lines, head, opens, path).value;
    InsertBodyLines(lines, head, opens, |lines|, tail, path);
    assert InsertLines(lines, |lines|, tail) == lines + tail;
    assert Grown(lines, |lines|, tail, s, e) == lines[s..e] + if e == |lines| then tail else [];
  }

  // ---------------------------------------------------------------------
  // Many insertions, from the bottom up
  // ---------------------------------------------------------------------

  datatype Insert<T> = Insert(at: nat, block: seq<T>)

  predicate Within<T>(inserts: seq<Insert<T>>, n: nat) {
    forall i :: 0 <= i < |inserts| ==> inserts[i].at <= n
  }

  predicate Descending<T>(inserts: seq<Insert<T>>) {
    forall i, j :: 0 <= i < j < |inserts| ==> inserts[i].at >= inserts[j].at
  }

  ghost predicate OpenNothing<T>(inserts: seq<Insert<T>>, head: T -> Option<string>, opens: T -> bool) {
    forall i :: 0 <= i < |inserts| ==> OpensNothing(inserts[i].block, head, opens)
  }

  function InsertAll<T>(lines: seq<T>, inserts: seq<Insert<T>>): seq<T>
    requires Within(inserts, |lines|)
    decreases |inserts|
  {
    if inserts == [] then lines
    else InsertAll(InsertLines(lines, inserts[0].at, inserts[0].block), inserts[1..])
  }

  /** `after` is there just when `before` is, and has all its lines. */
  ghost predicate KeepsLines<T>(before: Option<seq<T>>, after: Option<seq<T>>) {
    before.Some? == after.Some? && (before.Some? ==> forall l :: l in before.value ==> l in after.value)
  }

  lemma GrownKeeps<T>(lines: seq<T>, at: nat, block: seq<T>, s: nat, e: nat, l: T)
    requires s <= e <= |lines| && l in lines[s..e]
    ensures l in Grown(lines, at, block, s, e)
  {
    if s <= at <= e {
      assert lines[s..e] == lines[s..at] + lines[at..e];
    }
  }

  lemma InsertKeeps<T>(lines: seq<T>, head: T -> Option<string>, opens: T -> bool, at: nat, block: seq<T>, path: string)
    requires at <= |lines| && OpensNothing(block, head, opens)
    ensures KeepsLines(BodyLines(lines, head, opens, path), BodyLines(InsertLines(lines, at, block), head, opens, path))
  {
    InsertBodyLines(lines, head, opens, at, block, path);
    match Body(lines, head, opens, path)
    case None =>
    case Some(se) =>
      forall l | l in lines[se.0..se.1]
        ensures l in Grown(lines, at, block, se.0, se.1)
      {
        GrownKeeps(lines, at, block, se.0, se.1, l);
      }
  }

  /** Every line of a section stays in it, and no section appears or goes. */
  lemma {:induction false} InsertAllKeeps<T>(lines: seq<T>, head: T -> Option<string>, opens: T -> bool,
                                             inserts: seq<Insert<T>>, path: string)
    requires Within(inserts, |lines|) && OpenNothing(inserts, head, opens)
    ensures KeepsLines(BodyLines(lines, head, opens, path), BodyLines(InsertAll(lines, inserts), head, opens, path))
    decreases |inserts|
  {
    if inserts != [] {
      InsertKeeps(lines, head, opens, inserts[0].at, inserts[0].block, path);
      InsertAllKeeps(InsertLines(lines, inserts[0].at, inserts[0].block), head, opens, inserts[1..], path);
    }
  }

  /** Worked from the bottom up, each block lands in the body its position points at. */
  lemma {:induction false} InsertAllPlaces<T>(lines: seq<T>, head: T -> Option<string>, opens: T -> bool,
                                              inserts: seq<Insert<T>>, i: nat, path: string)
    requires Within(inserts, |lines|) && OpenNothing(inserts, head, opens) && Descending(inserts) && i < |inserts|
    requires var b := Body(lines, head, opens, path); b.Some? && b.value.0 <= inserts[i].at <= b.value.1
    ensures var after := BodyLines(InsertAll(lines, inserts), head, opens, path);
            after.Some? && forall l :: l in inserts[i].block ==> l in after.value
    decreases |inserts|
  {
    var at, block := inserts[0].at, inserts[0].block;
    var lines' := InsertLines(lines, at, block);
    var (s, e) := Body(lines, head, opens, path).value;
    InsertBodyLines(lines, head, opens, at, block, path);
    if i == 0 {
      InsertAllKeeps(lines', head, opens, inserts[1..], path);
    } else {
      InsertBody(lines, head, opens, at, block, path, s, e);
      BodyUnique(lines', head, opens, path, s, if at <= e then e + |block| else e);
      assert inserts[1..][i - 1] == inserts[i];
      InsertAllPlaces(lines', head, opens, inserts[1..], i - 1, path);
    }
  }

  /** Insertions above a section only move it. */
  lemma {:induction false} InsertAllAbove<T>(lines: seq<T>, head: T -> Option<string>, opens: T -> bool,
                                             inserts: seq<Insert<T>>, path: string)
    requires Within(inserts, |lines|) && OpenNothing(inserts, head, opens)
    requires var b := Body(lines, head, opens, path); b.Some? && forall j :: 0 <= j < |inserts| ==> inserts[j].at < b.value.0
    ensures BodyLines(InsertAll(lines, inserts), head, opens, path) == BodyLines(lines, head, opens, path)
    decreases |inserts|
  {
    if inserts != [] {
      var at, block := inserts[0].at, inserts[0].block;
      var lines' := InsertLines(lines, at, block);
      var (s, e) := Body(lines, head, opens, path).value;
      InsertBodyLines(lines, head, opens, at, block, path);
      InsertBody(lines, head, opens, at, block, path, s, e);
      BodyUnique(lines', head, opens, path, s + |block|, e + |block|);
      InsertAllAbove(lines', head, opens, inserts[1..], path);
    }
  }

  /** What the insertions at `at` leave there: each goes in front of those before it. */
  function Stack<T>(inserts: seq<Insert<T>>, at: nat): seq<T> {
    if inserts == [] then []
    else
      var last := inserts[|inserts| - 1];
      Part(last, at) + Stack(inserts[..|inserts| - 1], at)
  }

  function Part<T>(x: Insert<T>, at: nat): seq<T> {
    if x.at == at then x.block else []
  }

  lemma StackMore<T>(inserts: seq<Insert<T>>, x: Insert<T>, at: nat)
    ensures Stack(inserts + [x], at) == Part(x, at) + Stack(inserts, at)
  {
    assert (inserts + [x])[..|inserts|] == inserts;
  }

  lemma {:induction false} StackFirst<T>(inserts: seq<Insert<T>>, at: nat)
    requires inserts != []
    ensures Stack(inserts, at) == Stack(inserts[1..], at) + Part(inserts[0], at)
    decreases |inserts|
  {
    if |inserts| == 1 {
      assert inserts[1..] == [] && inserts[..0] == [];
    } else {
      var init, last := inserts[..|inserts| - 1], inserts[|inserts| - 1];
      StackFirst(init, at);
      assert inserts == init + [last] && inserts[1..] == init[1..] + [last] && init[0] == inserts[0];
      StackMore(init, last, at);
      StackMore(init[1..], last, at);
      JoinThree(Part(last, at), Stack(init[1..], at), Part(inserts[0], at));
    }
  }

  lemma JoinThree<T>(a: seq<T>, b: seq<T>, c: seq<T>)
    ensures a + (b + c) == (a + b) + c
  {
  }

  lemma {:induction false} StackNone<T>(inserts: seq<Insert<T>>, at: nat)
    requires forall i :: 0 <= i < |inserts| ==> inserts[i].at != at
    ensures Stack(inserts, at) == []
  {
    if inserts != [] {
      StackNone(inserts[..|inserts| - 1], at);
    }
  }

  /** The insertion splits the section where it goes in. */
  lemma SliceSplit<T>(lines: seq<T>, at: nat, block: seq<T>, s: nat, e: nat)
    requires s <= at <= e <= |lines|
    ensures var lines' := InsertLines(lines, at, block);
            lines'[s..at] == lines[s..at] && lines'[at..e + |block|] == block + lines[at..e]
  {
  }

  /** Those that fall between `s` and `e` are all at `at`. */
  ghost predicate OnePlace<T>(inserts: seq<Insert<T>>, s: nat, e: nat, at: nat) {
    forall j :: 0 <= j < |inserts| && s <= inserts[j].at <= e ==> inserts[j].at == at
  }

  lemma StackedNone<T>(lines: seq<T>, head: T -> Option<string>, opens: T -> bool,
                       inserts: seq<Insert<T>>, path: string, s: nat, e: nat, at: nat)
    requires Within(inserts, |lines|) && OpenNothing(inserts, head, opens)
    requires IsBody(lines, head, opens, path, s, e) && s <= at <= e
    requires forall j :: 0 <= j < |inserts| ==> inserts[j].at < s
    ensures BodyLines(InsertAll(lines, inserts), head, opens, path)
            == Some(lines[s..at] + Stack(inserts, at) + lines[at..e])
  {
    BodyUnique(lines, head, opens, path, s, e);
    InsertAllAbove(lines, head, opens, inserts, path);
    StackNone(inserts, at);
    SliceWhole(lines, s, at, e);
  }

  lemma SliceWhole<T>(lines: seq<T>, s: nat, at: nat, e: nat)
    requires s <= at <= e <= |lines|
    ensures lines[s..at] + [] + lines[at..e] == lines[s..e]
  {
  }

  lemma OnePlaceRest<T>(inserts: seq<Insert<T>>, s: nat, e: nat, e': nat, at: nat)
    requires inserts != [] && Descending(inserts) && OnePlace(inserts, s, e, at)
    requires e' == e || (e <= e' && inserts[0].at == at && at <= e)
    ensures OnePlace(inserts[1..], s, e', at) && Descending(inserts[1..])
  {
  }

  lemma RestFine<T>(lines: seq<T>, head: T -> Option<string>, opens: T -> bool, inserts: seq<Insert<T>>)
    requires inserts != [] && Within(inserts, |lines|) && OpenNothing(inserts, head, opens)
    ensures OpenNothing(inserts[1..], head, opens) && OpensNothing(inserts[0].block, head, opens)
    ensures Within(inserts[1..], |lines| + |inserts[0].block|)
  {
  }

  /** Insertions into a section, all at one place of it, leave exactly their stack there. */
  lemma {:induction false} InsertAllStacked<T>(lines: seq<T>, head: T -> Option<string>, opens: T -> bool,
                                               inserts: seq<Insert<T>>, path: string, s: nat, e: nat, at: nat, content: seq<T>)
    requires Within(inserts, |lines|) && OpenNothing(inserts, head, opens) && Descending(inserts)
    requires IsBody(lines, head, opens, path, s, e) && s <= at <= e && OnePlace(inserts, s, e, at)
    requires content == lines[s..at] + Stack(inserts, at) + lines[at..e]
    ensures BodyLines(InsertAll(lines, inserts), head, opens, path) == Some(content)
    decreases |inserts|
  {
    if inserts == [] || inserts[0].at < s {
      StackedNone(lines, head, opens, inserts, path, s, e, at);
    } else {
      var x, rest := inserts[0], inserts[1..];
      var e' := if x.at <= e then e + |x.block| else e;
      RestFine(lines, head, opens, inserts);
      InsertBody(lines, head, opens, x.at, x.block, path, s, e);
      OnePlaceRest(inserts, s, e, e', at);
      StackFirst(inserts, at);
      if x.at > e {
        StackedAbove(lines, x, rest, s, e, at);
      } else {
        StackedHere(lines, x.block, Stack(rest, at), s, e, at);
      }
      InsertAllStacked(InsertLines(lines, x.at, x.block), head, opens, rest, path, s, e', at, content);
    }
  }

  lemma StackedAbove<T>(lines: seq<T>, x: Insert<T>, rest: seq<Insert<T>>, s: nat, e: nat, at: nat)
    requires s <= at <= e < x.at <= |lines|
    ensures var lines' := InsertLines(lines, x.at, x.block);
            lines'[s..at] + Stack(rest, at) + lines'[at..e] == lines[s..at] + (Stack(rest, at) + Part(x, at)) + lines[at..e]
  {
    SliceAbove(lines, x.at, x.block, s, at);
    SliceAbove(lines, x.at, x.block, at, e);
    assert Stack(rest, at) + [] == Stack(rest, at);
  }

  lemma StackedHere<T>(lines: seq<T>, block: seq<T>, stack: seq<T>, s: nat, e: nat, at: nat)
    requires s <= at <= e <= |lines|
    ensures var lines' := InsertLines(lines, at, block);
            lines'[s..at] + stack + lines'[at..e + |block|] == lines[s..at] + (stack + block) + lines[at..e]
  {
    SliceSplit(lines, at, block, s, e);
    Regroup(lines[s..at], stack, block, lines[at..e]);
  }

  lemma Regroup<T>(a: seq<T>, b: seq<T>, c: seq<T>, d: seq<T>)
    ensures a + b + (c + d) == a + (b + c) + d
  {
  }

  /** A section reaches the end of the file afterwards exactly if it did before. */
  lemma {:induction false} InsertAllEnd<T>(lines: seq<T>, head: T -> Option<string>, opens: T -> bool,
                                           inserts: seq<Insert<T>>, path: string)
    requires Within(inserts, |lines|) && OpenNothing(inserts, head, opens) && Body(lines, head, opens, path).Some?
    ensures var b := Body(InsertAll(lines, inserts), head, opens, path);
            b.Some? && (b.value.1 == |InsertAll(lines, inserts)| <==> Body(lines, head, opens, path).value.1 == |lines|)
    decreases |inserts|
  {
    if inserts != [] {
      var at, block := inserts[0].at, inserts[0].block;
      var lines' := InsertLines(lines, at, block);
      var (s, e) := Body(lines, head, opens, path).value;
      InsertBody(lines, head, opens, at, block, path, s, e);
      BodyUnique(lines', head, opens, path, if at < s then s + |block| else s, if at <= e then e + |block| else e);
      InsertAllEnd(lines', head, opens, inserts[1..], path);
    }
  }

  // ---------------------------------------------------------------------
  // Stable sorting, bottom first
  // ---------------------------------------------------------------------

  function PlaceDesc<T>(sorted: seq<Insert<T>>, x: Insert<T>): (r: seq<Insert<T>>)
    ensures multiset(r) == multiset(sorted) + multiset{x}
  {
    if sorted == [] then [x]
    else
      var init, last := sorted[..|sorted| - 1], sorted[|sorted| - 1];
      assert sorted == init + [last];
      if last.at >= x.at then sorted + [x] else PlaceDesc(init, x) + [last]
  }

  function SortDesc<T>(inserts: seq<Insert<T>>): (r: seq<Insert<T>>)
    ensures multiset(r) == multiset(inserts)
  {
    if inserts == [] then []
    else
      assert inserts == inserts[..|inserts| - 1] + [inserts[|inserts| - 1]];
      PlaceDesc(SortDesc(inserts[..|inserts| - 1]), inserts[|inserts| - 1])
  }

  lemma {:induction false} PlaceHas<T>(sorted: seq<Insert<T>>, x: Insert<T>, y: Insert<T>)
    requires y in PlaceDesc(sorted, x)
    ensures y == x || y in sorted
  {
    if sorted != [] && sorted[|sorted| - 1].at < x.at && y != sorted[|sorted| - 1] {
      PlaceHas(sorted[..|sorted| - 1], x, y);
    }
  }

  lemma {:induction false} PlaceDescending<T>(sorted: seq<Insert<T>>, x: Insert<T>)
    requires Descending(sorted)
    ensures Descending(PlaceDesc(sorted, x))
  {
    if sorted != [] {
      var init, last := sorted[..|sorted| - 1], sorted[|sorted| - 1];
      PlaceDescending(init, x);
      if last.at < x.at {
        var r := PlaceDesc(init, x);
        forall i | 0 <= i < |r|
          ensures r[i].at >= last.at
        {
          PlaceHas(init, x, r[i]);
        }
      }
    }
  }

  lemma {:induction false} SortDescending<T>(inserts: seq<Insert<T>>)
    ensures Descending(SortDesc(inserts))
    ensures forall x :: x in SortDesc(inserts) <==> x in inserts
  {
    if inserts != [] {
      SortDescending(inserts[..|inserts| - 1]);
      PlaceDescending(SortDesc(inserts[..|inserts| - 1]), inserts[|inserts| - 1]);
    }
    assert forall x :: x in SortDesc(inserts) <==> x in multiset(SortDesc(inserts));
    assert forall x :: x in inserts <==> x in multiset(inserts);
  }

  lemma SortHas<T>(inserts: seq<Insert<T>>, x: Insert<T>)
    requires x in SortDesc(inserts)
    ensures x in inserts
  {
    assert x in multiset(SortDesc(inserts));
  }

  lemma SwapEmpty<T>(a: seq<T>, b: seq<T>, c: seq<T>)
    requires a == [] || b == []
    ensures a + (b + c) == b + (a + c)
  {
  }

  /** Sorting is stable, so it changes no stack. */
  lemma {:induction false} StackPlace<T>(sorted: seq<Insert<T>>, x: Insert<T>, at: nat)
    ensures Stack(PlaceDesc(sorted, x), at) == Part(x, at) + Stack(sorted, at)
  {
    if sorted == [] || sorted[|sorted| - 1].at >= x.at {
      assert PlaceDesc(sorted, x) == sorted + [x];
      StackMore(sorted, x, at);
    } else {
      var init, last := sorted[..|sorted| - 1], sorted[|sorted| - 1];
      StackPlace(init, x, at);
      StackMore(PlaceDesc(init, x), last, at);
      SwapEmpty(Part(last, at), Part(x, at), Stack(init, at));
    }
  }

  lemma {:induction false} StackSorted<T>(inserts: seq<Insert<T>>, at: nat)
    ensures Stack(SortDesc(inserts), at) == Stack(inserts, at)
  {
    if inserts != [] {
      StackSorted(inserts[..|inserts| - 1], at);
      StackPlace(SortDesc(inserts[..|inserts| - 1]), inserts[|inserts| - 1], at);
    }
  }
}
