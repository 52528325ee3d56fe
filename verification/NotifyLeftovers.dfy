/** The temporary files failed writes leave in a channel's directory: how many there can
    be, what a restart over a crowded directory does about them, and that nothing but the
    number of failed writes bounds them. */
module NotifyLeftovers {
  import opened Common
  import RefIds
  import opened NotifyQueue
  import opened NotifyRuns

  ghost function TempFiles(disk: Disk): set<FileName> {
    set f | f in disk && IsTemp(f)
  }

  /** The steps that leave a temporary file. */
  predicate Tears(step: Step) {
    || (step.Write? && step.outcome.Failed? && step.outcome.left.Some?)
    || (step.Crash? && step.torn.Some?)
  }

  /** How many of the first `i` steps do. */
  function TearCount(steps: seq<Step>, i: nat): nat
    requires i <= |steps|
  {
    if i == 0 then 0 else TearCount(steps, i - 1) + if Tears(steps[i - 1]) then 1 else 0
  }

  lemma {:induction false} CountSame(steps: seq<Step>, step: Step, i: nat)
    requires i <= |steps|
    ensures TearCount(steps + [step], i) == TearCount(steps, i)
  {
    if i > 0 {
      CountSame(steps, step, i - 1);
    }
  }

  lemma CountMore(steps: seq<Step>, step: Step)
    ensures TearCount(steps + [step], |steps| + 1) == TearCount(steps, |steps|) + if Tears(step) then 1 else 0
  {
    CountSame(steps, step, |steps|);
  }

  lemma AddedTemps(s: State, step: Step)
    requires Enabled(s, step)
    ensures !Tears(step) ==> forall f :: f in Added(s, step) ==> !IsTemp(f)
    ensures |Added(s, step)| <= 1
  {
    if s.phase.Saving? {
      PickNotTemp(s.disk, s.phase.incoming.alert, 0);
    }
  }

  lemma StepLeaves(s: State, step: Step)
    requires Enabled(s, step)
    ensures |TempFiles(Apply(s, step).disk)| <= |TempFiles(s.disk)| + if Tears(step) then 1 else 0
  {
    StepAdds(s, step);
    AddedTemps(s, step);
    var before, after := TempFiles(s.disk), TempFiles(Apply(s, step).disk);
    if Tears(step) {
      assert after <= before + Added(s, step);
      SubsetCardinality(after, before + Added(s, step));
    } else {
      SubsetCardinality(after, before);
    }
  }

  lemma {:induction false} RunLeaves(trace: seq<State>, steps: seq<Step>, i: nat)
    requires Run(trace, steps) && i < |trace|
    ensures |TempFiles(trace[i].disk)| <= TearCount(steps, i)
  {
    if i > 0 {
      RunLeaves(trace, steps, i - 1);
      StepLeaves(trace[i - 1], steps[i - 1]);
    } else {
      assert TempFiles(trace[0].disk) == {};
    }
  }

  lemma FilesSplit(disk: Disk)
    ensures |disk| == |SavedPart(disk)| + |TempFiles(disk)|
  {
    assert disk.Keys == SavedPart(disk).Keys + TempFiles(disk);
    assert |disk.Keys| == |SavedPart(disk).Keys| + |TempFiles(disk)|;
  }

  /** At every point of every run the directory holds at most 500 finished saves and one
      leftover for each torn write so far; without torn writes, at most 500 files. */
  lemma DirectoryBound(trace: seq<State>, steps: seq<Step>, i: nat)
    requires Run(trace, steps) && i < |trace|
    ensures |trace[i].disk| <= 500 + TearCount(steps, i)
    ensures TempFiles(trace[i].disk) != {} ==> TearCount(steps, i) > 0
  {
    RunKeepsInv(trace, steps, i);
    RunLeaves(trace, steps, i);
    FilesSplit(trace[i].disk);
  }

  /** A restart at any point of any run deletes files unread exactly if leftovers and saves
      together exceed 500, then as many as exceed it, the first by name, all leftovers. */
  lemma RestartShedsExactly(trace: seq<State>, steps: seq<Step>, i: nat, order: seq<FileName>)
    requires Run(trace, steps) && i < |trace| && Listing(order, trace[i].disk)
    ensures var disk := trace[i].disk;
            && (Oldest(order) != [] <==> |SavedPart(disk)| + |TempFiles(disk)| > 500)
            && (Oldest(order) != [] ==> |Oldest(order)| == |SavedPart(disk)| + |TempFiles(disk)| - 500)
            && Oldest(order) <= order
            && forall f :: f in Oldest(order) ==> IsTemp(f)
  {
    var disk := trace[i].disk;
    RunKeepsInv(trace, steps, i);
    FilesSplit(disk);
    SortedDistinct(order);
    DistinctFiles(order);
    assert Members(order) == disk.Keys;
    forall f | f in Oldest(order)
      ensures IsTemp(f)
    {
      OldestAreLeftovers(order, disk, f);
    }
  }

  // ---------------------------------------------------------------------
  // Nothing else bounds them
  // ---------------------------------------------------------------------

  ghost predicate Reached(s: State, steps: seq<Step>) {
    exists trace :: Run(trace, steps) && trace[|steps|] == s
  }

  lemma ReachedMore(s: State, steps: seq<Step>, step: Step)
    requires Reached(s, steps) && Enabled(s, step)
    ensures Reached(Apply(s, step), steps + [step])
  {
    var trace :| Run(trace, steps) && trace[|steps|] == s;
    var trace', steps' := trace + [Apply(s, step)], steps + [step];
    forall i | 0 <= i < |steps'|
      ensures Enabled(trace'[i], steps'[i]) && trace'[i + 1] == Apply(trace'[i], steps'[i])
    {
      if i < |steps| {
        assert trace'[i] == trace[i] && trace'[i + 1] == trace[i + 1] && steps'[i] == steps[i];
      }
    }
    assert Run(trace', steps') && trace'[|steps'|] == Apply(s, step);
  }

  /** The alerts of one day, as the program stamps and numbers them: a millisecond apart. */
  function DayAlerts(day: string, from: nat): nat -> Alert {
    (k: nat) => Alert(from + k, RefIds.RefId(RefIds.Refs(day, k + 1)), High)
  }

  /** The temporary files of these alerts. */
  function Temps(alert: nat -> Alert, pid: nat): nat -> FileName {
    (k: nat) => TempFor(NameFor(alert(k), 0), pid)
  }

  /** A digit string ends at the first dash. */
  lemma NumberEnds(m: string, n: string, x: string, y: string)
    requires RefIds.AllDigits(m) && RefIds.AllDigits(n) && m + (['-'] + x) == n + (['-'] + y)
    ensures m == n
  {
    var a, b := m + (['-'] + x), n + (['-'] + y);
    assert a[|m|] == '-' && forall i :: 0 <= i < |m| ==> a[i] == m[i];
    assert b[|n|] == '-' && forall i :: 0 <= i < |n| ==> b[i] == n[i];
    if |m| == |n| {
      RefIds.EqualFront(m, n, ['-'] + x, ['-'] + y);
    }
  }

  lemma NamesTell(a: Alert, b: Alert)
    requires NameFor(a, 0) == NameFor(b, 0)
    ensures a.millis == b.millis
  {
    var x, y := a.refId + Suffix(0), b.refId + Suffix(0);
    assert ['-'] + a.refId + Suffix(0) == ['-'] + x && ['-'] + b.refId + Suffix(0) == ['-'] + y;
    NumberEnds(RefIds.Decimal(a.millis), RefIds.Decimal(b.millis), x, y);
    RefIds.DecimalValue(a.millis);
    RefIds.DecimalValue(b.millis);
  }

  lemma TempsTell(x: FileName, y: FileName, pid: nat)
    requires TempFor(x, pid) == TempFor(y, pid)
    ensures x == y
  {
    var end := ['.', 't', 'm', 'p'] + RefIds.Decimal(pid);
    assert TempFor(x, pid) == ['.'] + (x + end) && TempFor(y, pid) == ['.'] + (y + end);
    assert |x| == |y|;
    RefIds.EqualFront(['.'], ['.'], x + end, y + end);
    RefIds.EqualFront(x, y, end, end);
  }

  lemma DayAlertsDiffer(day: string, from: nat, pid: nat)
    ensures AllDiffer(Temps(DayAlerts(day, from), pid))
  {
    var alert := DayAlerts(day, from);
    forall i: nat, j: nat | Temps(alert, pid)(i) == Temps(alert, pid)(j)
      ensures i == j
    {
      TempsTell(NameFor(alert(i), 0), NameFor(alert(j), 0), pid);
      NamesTell(alert(i), alert(j));
    }
  }

  lemma TempShort(a: Alert, pid: nat)
    requires |RefIds.Decimal(a.millis)| <= 20 && |a.refId| <= 40 && |RefIds.Decimal(pid)| <= 20
    ensures |TempFor(NameFor(a, 0), pid)| <= 255
  {
    assert |Suffix(0)| == 5;
  }

  lemma IdShort(day: string, n: nat, digits: nat)
    requires |day| == 9 && digits == 20 && n < RefIds.Pow10(digits)
    ensures |RefIds.RefId(RefIds.Refs(day, n))| <= 40
  {
    RefIds.DecimalLength(n, digits, RefIds.Pow10(digits));
    assert |RefIds.Padded(n, 3)| <= 20;
  }

  /** Their names are short: numbers of up to 20 digits leave them far below 255. */
  lemma DayAlertsShort(day: string, from: nat, pid: nat, k: nat, digits: nat)
    requires |day| == 9 && digits == 20 && from + k + 1 < RefIds.Pow10(digits) && pid < RefIds.Pow10(digits)
    ensures |Temps(DayAlerts(day, from), pid)(k)| <= 255
  {
    var a := DayAlerts(day, from)(k);
    RefIds.DecimalLength(from + k, digits, RefIds.Pow10(digits));
    RefIds.DecimalLength(pid, digits, RefIds.Pow10(digits));
    IdShort(day, k + 1, digits);
    TempShort(a, pid);
  }

  ghost predicate IsOneOf(temps: nat -> FileName, k: nat, f: FileName) {
    exists j: nat :: j < k && f == temps(j)
  }

  /** Between messages, nothing saved, `k` leftovers, those of the first `k` alerts. */
  ghost predicate Piled(s: State, temps: nat -> FileName, k: nat) {
    && s.phase.Ready? && |s.queue| <= MAX_PENDING && |s.disk| == k
    && (forall i :: 0 <= i < |s.queue| ==> s.queue[i].file.None?)
    && (forall f :: f in s.disk ==> IsTemp(f) && IsOneOf(temps, k, f))
  }

  /** An alert has arrived and room is made for it. */
  ghost function Roomy(s: State, a: Alert): State
    requires s.phase.Ready?
  {
    var s1 := DoReceive(s, a);
    if s1.phase.Evicting? then DoForget(s1, s1.phase.victim.file, Saving(s1.phase.incoming)) else s1
  }

  /** Its write fails half way, and it is queued without a file. */
  ghost function Spilt(s: State): State
    requires s.phase.Saving?
  {
    var s' := DoSave(s, s.phase.incoming, Failed(Some(Garbage)));
    DoEnqueue(s', s'.phase.incoming, s'.phase.file)
  }

  ghost function FailedTake(s: State, a: Alert): State
    requires s.phase.Ready?
  {
    Spilt(Roomy(s, a))
  }

  lemma FreshName(disk: Disk, a: Alert, name: FileName)
    requires (forall f :: f in disk ==> IsTemp(f)) && name == PickName(disk, a, 0)
    ensures name == NameFor(a, 0)
  {
    NameNotTemp(a, 0);
  }

  lemma RoomyPiled(s: State, a: Alert)
    requires s.phase.Ready? && |s.queue| <= MAX_PENDING && forall i :: 0 <= i < |s.queue| ==> s.queue[i].file.None?
    ensures var s' := Roomy(s, a);
            && s'.phase == Saving(Item(a, s.serial)) && s'.disk == s.disk && s'.pid == s.pid
            && |s'.queue| < MAX_PENDING && forall i :: 0 <= i < |s'.queue| ==> s'.queue[i].file.None?
  {
    if |s.queue| >= MAX_PENDING {
      assert s.queue[Victim(s.queue)].file.None?;
    }
  }

  lemma TakePiles(s: State, alert: nat -> Alert, k: nat)
    requires Piled(s, Temps(alert, s.pid), k) && AllDiffer(Temps(alert, s.pid))
    ensures Piled(FailedTake(s, alert(k)), Temps(alert, s.pid), k + 1) && FailedTake(s, alert(k)).pid == s.pid
  {
    var name := PickName(s.disk, alert(k), 0);
    var temp := TempFor(name, s.pid);
    RoomyPiled(s, alert(k));
    FreshName(s.disk, alert(k), name);
    TempIsTemp(name, s.pid);
    SpiltAt(Roomy(s, alert(k)), alert(k), temp);
    OneMorePiled(s.disk, Temps(alert, s.pid), k, temp);
  }

  lemma OneMorePiled(disk: Disk, temps: nat -> FileName, k: nat, temp: FileName)
    requires |disk| == k && AllDiffer(temps) && temp == temps(k) && IsTemp(temp)
    requires forall f :: f in disk ==> IsTemp(f) && IsOneOf(temps, k, f)
    ensures |disk[temp := Garbage]| == k + 1
    ensures forall f :: f in disk[temp := Garbage] ==> IsTemp(f) && IsOneOf(temps, k + 1, f)
  {
    forall f | f in disk
      ensures f != temp && IsOneOf(temps, k + 1, f)
    {
      var j: nat :| j < k && f == temps(j);
    }
    assert disk[temp := Garbage].Keys == disk.Keys + {temp};
    assert IsOneOf(temps, k + 1, temp);
  }

  lemma SpiltAt(s: State, a: Alert, temp: FileName)
    requires s.phase.Saving? && s.phase.incoming.alert == a && temp == TempFor(PickName(s.disk, a, 0), s.pid)
    requires |s.queue| < MAX_PENDING && forall i :: 0 <= i < |s.queue| ==> s.queue[i].file.None?
    ensures var s' := Spilt(s);
            && s'.phase.Ready? && s'.disk == s.disk[temp := Garbage] && s'.pid == s.pid
            && |s'.queue| <= MAX_PENDING && forall i :: 0 <= i < |s'.queue| ==> s'.queue[i].file.None?
  {
  }

  /** No crash, and only alerts of the family. */
  ghost predicate Ordinary(steps: seq<Step>, alert: nat -> Alert) {
    forall i :: 0 <= i < |steps| ==>
      !steps[i].Crash? && (steps[i].Receive? ==> exists k: nat :: steps[i].alert == alert(k))
  }

  /** Reached by these steps, with `n` torn writes. */
  ghost predicate ReachedWith(s: State, steps: seq<Step>, n: nat, alert: nat -> Alert) {
    Reached(s, steps) && TearCount(steps, |steps|) == n && Ordinary(steps, alert)
  }

  lemma ReachedStep(s: State, steps: seq<Step>, n: nat, step: Step, n': nat, alert: nat -> Alert)
    requires ReachedWith(s, steps, n, alert) && Enabled(s, step) && n' == n + if Tears(step) then 1 else 0
    requires Ordinary([step], alert)
    ensures ReachedWith(Apply(s, step), steps + [step], n', alert)
  {
    ReachedMore(s, steps, step);
    CountMore(steps, step);
    OrdinaryMore(steps, step, alert);
  }

  lemma OrdinaryMore(steps: seq<Step>, step: Step, alert: nat -> Alert)
    requires Ordinary(steps, alert) && Ordinary([step], alert)
    ensures Ordinary(steps + [step], alert)
  {
    assert [step][0] == step;
  }

  lemma RoomyReached(s: State, alert: nat -> Alert, k: nat, steps: seq<Step>) returns (more: seq<Step>)
    requires s.phase.Ready? && ReachedWith(s, steps, k, alert)
    ensures ReachedWith(Roomy(s, alert(k)), more, k, alert)
  {
    var receive := Receive(alert(k));
    more := steps + [receive];
    ReachedStep(s, steps, k, receive, k, alert);
    var s1 := DoReceive(s, alert(k));
    if s1.phase.Evicting? {
      ReachedStep(s1, more, k, ForgetVictim, k, alert);
      more := more + [ForgetVictim];
    }
  }

  lemma SpiltReached(s: State, alert: nat -> Alert, k: nat, steps: seq<Step>) returns (more: seq<Step>)
    requires s.phase.Saving? && ReachedWith(s, steps, k, alert)
    ensures ReachedWith(Spilt(s), more, k + 1, alert)
  {
    var write := Write(Failed(Some(Garbage)));
    more := steps + [write];
    ReachedStep(s, steps, k, write, k + 1, alert);
    var s' := DoSave(s, s.phase.incoming, Failed(Some(Garbage)));
    ReachedStep(s', more, k + 1, Enqueue, k + 1, alert);
    more := more + [Enqueue];
  }

  lemma FirstRestart(pid: nat, alert: nat -> Alert) returns (s: State, steps: seq<Step>)
    ensures ReachedWith(s, steps, 0, alert) && Piled(s, Temps(alert, pid), 0) && s.pid == pid
  {
    var s0, none: seq<Step> := Start(), [];
    assert Run([s0], none) && [s0][|none|] == s0;
    steps := none + [Restart([], pid)];
    ReachedStep(s0, none, 0, Restart([], pid), 0, alert);
    s := Apply(s0, Restart([], pid));
  }

  lemma {:induction false} PileReached(n: nat, pid: nat, alert: nat -> Alert) returns (s: State, steps: seq<Step>)
    requires AllDiffer(Temps(alert, pid))
    ensures ReachedWith(s, steps, n, alert) && Piled(s, Temps(alert, pid), n) && s.pid == pid
  {
    if n == 0 {
      s, steps := FirstRestart(pid, alert);
    } else {
      var before, sofar := PileReached(n - 1, pid, alert);
      TakePiles(before, alert, n - 1);
      RoomyPiled(before, alert(n - 1));
      sofar := RoomyReached(before, alert, n - 1, sofar);
      steps := SpiltReached(Roomy(before, alert(n - 1)), alert, n - 1, sofar);
      s := FailedTake(before, alert(n - 1));
    }
  }

  /** For every number there is a run with that many torn writes and no crash, over alerts
      numbered through one day, whose directory holds that many files; none of their names
      is longer than 255 characters as long as numbers have at most 20 digits. The bound of
      500 is one on finished saves only. */
  lemma LeftoversPileUp(n: nat, date: RefIds.Date, from: nat, pid: nat, digits: nat) returns (trace: seq<State>, steps: seq<Step>)
    requires RefIds.ValidDate(date) && digits == 20
    ensures Run(trace, steps) && TearCount(steps, |steps|) == n && |trace[|steps|].disk| == n
    ensures Ordinary(steps, DayAlerts(RefIds.DayKey(date), from))
    ensures from + n < RefIds.Pow10(digits) && pid < RefIds.Pow10(digits) ==>
              forall f :: f in trace[|steps|].disk ==> |f| <= 255
  {
    var day := RefIds.DayKey(date);
    var alert := DayAlerts(day, from);
    RefIds.DayKeyShape(date);
    DayAlertsDiffer(day, from, pid);
    var s, taken := PileReached(n, pid, alert);
    steps := taken;
    trace :| Run(trace, steps) && trace[|steps|] == s;
    if from + n < RefIds.Pow10(digits) && pid < RefIds.Pow10(digits) {
      forall f | f in s.disk
        ensures |f| <= 255
      {
        var k: nat :| k < n && f == Temps(alert, pid)(k);
        DayAlertsShort(day, from, pid, k, digits);
      }
    }
  }
}
