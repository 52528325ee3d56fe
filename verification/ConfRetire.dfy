/** `retire` of hermian/src/confmerge.rs: settings that no longer do anything are
    commented out, in their own sections, and nothing else changes. */
module ConfRetire {
  import opened Common
  import opened Text
  import opened Sections
  import opened ConfLines
  import opened ConfMerge

  /** A section and a key Hermian no longer reads. */
  datatype Old = Old(section: string, key: string)

  const RETIRED: seq<Old> := [
    Old("general", "log_level"), Old("ssh", "off_hours_start"),
    Old("ssh", "off_hours_end"), Old("ssh", "brute_digest_hours")]

  /** The line switched off; `note` tells why. */
  function Off(line: string, note: string): string {
    ['#'] + TrimEnd(line) + note
  }

  predicate Hits(line: string, key: string) {
    ActiveKey(line) == Some(key)
  }

  /** `key` switched off in `lines[s..e]`. */
  function OffIn(lines: seq<string>, s: nat, e: nat, key: string, note: string): (r: seq<string>)
    requires s <= e <= |lines|
    ensures |r| == |lines|
    ensures forall i :: 0 <= i < |r| ==> r[i] == if s <= i < e && Hits(lines[i], key) then Off(lines[i], note) else lines[i]
  {
    seq(|lines|, i requires 0 <= i < |lines| => if s <= i < e && Hits(lines[i], key) then Off(lines[i], note) else lines[i])
  }

  function OffOne(lines: seq<string>, item: Old, note: string): (r: seq<string>)
    ensures |r| == |lines|
  {
    match SectionBody(lines, item.section)
    case None => lines
    case Some(se) => OffIn(lines, se.0, se.1, item.key, note)
  }

  function OffAll(lines: seq<string>, olds: seq<Old>, note: string): (r: seq<string>)
    ensures |r| == |lines|
  {
    if olds == [] then lines else OffOne(OffAll(lines, olds[..|olds| - 1], note), olds[|olds| - 1], note)
  }

  /** The whole operation on text; `same` is the final comparison of parsed values. */
  function Retire(user: string, olds: seq<Old>, note: string, same: (string, string) -> bool): Option<string> {
    var lines := Lines(user);
    var out := OffAll(lines, olds, note);
    if out == lines || !same(user, Unlines(out)) then None else Some(Unlines(out))
  }

  // ---------------------------------------------------------------------
  // What is switched off
  // ---------------------------------------------------------------------

  /** Line `i` sets, in its own section, something on the list. */
  ghost predicate OnList(lines: seq<string>, i: nat, olds: seq<Old>)
    requires i < |lines|
  {
    exists k :: 0 <= k < |olds| && SetsIn(lines, i, olds[k])
  }

  predicate SetsIn(lines: seq<string>, i: nat, item: Old)
    requires i < |lines|
  {
    var b := SectionBody(lines, item.section);
    b.Some? && b.value.0 <= i < b.value.1 && Hits(lines[i], item.key)
  }

  lemma OffReads(line: string, note: string)
    ensures Comment(Off(line, note)) && Header(Off(line, note)).None? && !AnyHeader(Off(line, note))
    ensures ActiveKey(Off(line, note)).None?
  {
    var off := Off(line, note);
    assert off[0] == '#' && TrimStart(off) == off;
    InertReads(off);
  }

  lemma HitReads(line: string, key: string)
    requires Hits(line, key)
    ensures Header(line).None? && !AnyHeader(line) && !Comment(line)
  {
    if Header(line).Some? {
      HeaderIsAnyHeader(line);
    }
  }

  /** `cur` is `lines` with some settings switched off. */
  ghost predicate PartlyOff(lines: seq<string>, cur: seq<string>, note: string) {
    && |cur| == |lines|
    && forall i :: 0 <= i < |lines| ==> cur[i] == lines[i] || (cur[i] == Off(lines[i], note) && ActiveKey(lines[i]).Some?)
  }

  lemma PartlyOffBodies(lines: seq<string>, cur: seq<string>, note: string, path: string)
    requires PartlyOff(lines, cur, note)
    ensures SectionBody(cur, path) == SectionBody(lines, path)
  {
    forall i | 0 <= i < |lines|
      ensures Header(cur[i]) == Header(lines[i]) && AnyHeader(cur[i]) == AnyHeader(lines[i])
    {
      if cur[i] != lines[i] {
        OffReads(lines[i], note);
        HitReads(lines[i], ActiveKey(lines[i]).value);
      }
    }
    SameReadings(lines, cur, Header, AnyHeader, path);
  }

  lemma OnListLast(lines: seq<string>, i: nat, init: seq<Old>, last: Old)
    requires i < |lines|
    ensures OnList(lines, i, init + [last]) <==> OnList(lines, i, init) || SetsIn(lines, i, last)
  {
    var olds := init + [last];
    assert olds[|init|] == last;
    if OnList(lines, i, init) {
      var k :| 0 <= k < |init| && SetsIn(lines, i, init[k]);
      assert olds[k] == init[k];
    }
  }

  lemma OffOneAt(lines: seq<string>, cur: seq<string>, note: string, item: Old, i: nat)
    requires PartlyOff(lines, cur, note) && i < |lines|
    ensures OffOne(cur, item, note)[i] == if SetsIn(lines, i, item) then Off(lines[i], note) else cur[i]
  {
    PartlyOffBodies(lines, cur, note, item.section);
    OffReads(lines[i], note);
  }

  /** Exactly the active settings on the list, each in the first section of its name, are
      switched off; every other line is as it was. */
  lemma {:induction false} OffExactly(lines: seq<string>, olds: seq<Old>, note: string)
    ensures PartlyOff(lines, OffAll(lines, olds, note), note)
    ensures forall i: nat :: i < |lines| ==>
              OffAll(lines, olds, note)[i] == if OnList(lines, i, olds) then Off(lines[i], note) else lines[i]
  {
    if olds != [] {
      var init, last := olds[..|olds| - 1], olds[|olds| - 1];
      OffExactly(lines, init, note);
      assert olds == init + [last];
      var cur, out := OffAll(lines, init, note), OffAll(lines, olds, note);
      forall i: nat | i < |lines|
        ensures out[i] == if OnList(lines, i, olds) then Off(lines[i], note) else lines[i]
        ensures out[i] == lines[i] || (out[i] == Off(lines[i], note) && ActiveKey(lines[i]).Some?)
      {
        OffOneAt(lines, cur, note, last, i);
        OnListLast(lines, i, init, last);
      }
    }
  }

  /** No line of the output is on the list any more. */
  lemma OffClears(lines: seq<string>, olds: seq<Old>, note: string, i: nat)
    requires i < |lines|
    ensures !OnList(OffAll(lines, olds, note), i, olds)
  {
    var out := OffAll(lines, olds, note);
    OffExactly(lines, olds, note);
    if OnList(out, i, olds) {
      var k :| 0 <= k < |olds| && SetsIn(out, i, olds[k]);
      PartlyOffBodies(lines, out, note, olds[k].section);
      OffReads(lines[i], note);
    }
  }

  lemma NothingOnList(lines: seq<string>, olds: seq<Old>, note: string)
    requires forall i: nat :: i < |lines| ==> !OnList(lines, i, olds)
    ensures OffAll(lines, olds, note) == lines
  {
    OffExactly(lines, olds, note);
  }

  lemma StripOnList(lines: seq<string>, olds: seq<Old>, i: nat)
    requires i < |lines| && OnList(StripAll(lines), i, olds)
    ensures OnList(lines, i, olds)
  {
    var k :| 0 <= k < |olds| && SetsIn(StripAll(lines), i, olds[k]);
    StripBody(lines, olds[k].section);
    StripCRReads(lines[i]);
    assert SetsIn(lines, i, olds[k]);
  }

  lemma {:induction false} TrimEndOneLine(s: string)
    requires '\n' !in s
    ensures '\n' !in TrimEnd(s)
  {
    if s != "" && IsSpace(s[|s| - 1]) {
      TrimEndOneLine(s[..|s| - 1]);
    }
  }

  lemma OffOneLine(lines: seq<string>, olds: seq<Old>, note: string)
    requires '\n' !in note && forall i :: 0 <= i < |lines| ==> '\n' !in lines[i]
    ensures forall i :: 0 <= i < |lines| ==> '\n' !in OffAll(lines, olds, note)[i]
  {
    OffExactly(lines, olds, note);
    forall i | 0 <= i < |lines|
      ensures '\n' !in OffAll(lines, olds, note)[i]
    {
      OffLine(lines[i], note);
    }
  }

  lemma OffLine(line: string, note: string)
    requires '\n' !in note && '\n' !in line
    ensures '\n' !in Off(line, note)
  {
    TrimEndOneLine(line);
  }

  /** Running `retire` on its own output is a no-op. */
  lemma RetireTwice(user: string, olds: seq<Old>, note: string, same: (string, string) -> bool, out: string)
    requires '\n' !in note && Retire(user, olds, note, same) == Some(out)
    ensures Retire(out, olds, note, same) == None
  {
    var lines := OffAll(Lines(user), olds, note);
    OffOneLine(Lines(user), olds, note);
    LinesOfUnlines(lines);
    forall i: nat | i < |lines|
      ensures !OnList(StripAll(lines), i, olds)
    {
      OffClears(Lines(user), olds, note, i);
      if OnList(StripAll(lines), i, olds) {
        StripOnList(lines, olds, i);
      }
    }
    NothingOnList(StripAll(lines), olds, note);
  }

  // ---------------------------------------------------------------------
  // The loops
  // ---------------------------------------------------------------------

  method SwitchOffIn(lines: seq<string>, s: nat, e: nat, key: string, note: string) returns (out: seq<string>, changed: bool)
    requires s <= e <= |lines|
    ensures out == OffIn(lines, s, e, key, note) && changed == (out != lines)
  {
    out, changed := lines, false;
    var i := s;
    while i < e
      invariant s <= i <= e && |out| == |lines| && changed == (out != lines)
      invariant forall j :: 0 <= j < |lines| ==>
                  out[j] == if s <= j < i && Hits(lines[j], key) then Off(lines[j], note) else lines[j]
    {
      if ActiveKey(out[i]) == Some(key) {
        HitReads(lines[i], key);
        OffReads(lines[i], note);
        out := out[i := Off(out[i], note)];
        changed := true;
        assert out[i] != lines[i];
      }
      i := i + 1;
    }
  }

  lemma OffStays(lines: seq<string>, cur: seq<string>, note: string, item: Old)
    requires PartlyOff(lines, cur, note)
    ensures OffOne(cur, item, note) == lines <==> cur == lines && OffOne(cur, item, note) == cur
  {
    var next := OffOne(cur, item, note);
    if next == lines {
      forall i: nat | i < |lines|
        ensures cur[i] == lines[i]
      {
        OffOneAt(lines, cur, note, item, i);
        OffReads(lines[i], note);
        if SetsIn(lines, i, item) {
          HitReads(lines[i], item.key);
        }
      }
    }
  }

  method SwitchOff(lines: seq<string>, item: Old, note: string) returns (out: seq<string>, changed: bool)
    ensures out == OffOne(lines, item, note) && changed == (out != lines)
  {
    out, changed := lines, false;
    match SectionBody(lines, item.section) {
      case None =>
      case Some(se) => out, changed := SwitchOffIn(lines, se.0, se.1, item.key, note);
    }
  }

  method SwitchOffAll(lines: seq<string>, olds: seq<Old>, note: string) returns (out: seq<string>, changed: bool)
    ensures out == OffAll(lines, olds, note) && changed == (out != lines)
  {
    out, changed := lines, false;
    var k := 0;
    while k < |olds|
      invariant 0 <= k <= |olds| && out == OffAll(lines, olds[..k], note)
      invariant changed == (out != lines)
    {
      assert olds[..k + 1][..k] == olds[..k];
      OffExactly(lines, olds[..k], note);
      OffStays(lines, out, note, olds[k]);
      var hit;
      out, hit := SwitchOff(out, olds[k], note);
      changed := changed || hit;
      k := k + 1;
    }
    assert olds[..k] == olds;
  }

  /** `retire` as the program runs it, with its own list; `same` stands for the comparison of
      the parsed texts. */
  method RetireFile(user: string, note: string, same: (string, string) -> bool) returns (r: Option<string>)
    ensures r == Retire(user, RETIRED, note, same)
  {
    var out, changed := SwitchOffAll(Lines(user), RETIRED, note);
    if !changed {
      return None;
    }
    r := if same(user, Unlines(out)) then Some(Unlines(out)) else None;
  }
}
