/** One notifying channel's queue, from hermian/src/notify.rs: the in-memory FIFO, its
    on-disk mirror, and the operations that change them. The run-level guarantees are
    in module NotifyRuns. */
module NotifyQueue {
  import opened Common
  import RefIds

  const MAX_PENDING: nat := 500
  const MAX_NAMES: nat := 1000
  const FIRST_BACKOFF: nat := 5
  const MAX_BACKOFF: nat := 120

  datatype Alert = Alert(millis: nat, refId: string, severity: Severity)

  /** One accepted copy of an alert. `serial` is only bookkeeping: it tells two copies of
      the same alert apart in what is proved, and nothing decides on it. */
  datatype Item = Item(alert: Alert, serial: nat)

  /** The name of a file in the pending directory. */
  type FileName = string

  datatype Content = Json(item: Item) | Garbage

  type Disk = map<FileName, Content>

  datatype Pending = Pending(item: Item, file: Option<FileName>)

  datatype Message = NewAlert(item: Item) | NewConfig(cfg: string) | Closed

  // ---------------------------------------------------------------------
  // Making room
  // ---------------------------------------------------------------------

  /** Position of the first alert below CRITICAL, or 0 if there is none. */
  function Victim(queue: seq<Pending>): (r: nat)
    requires queue != []
    ensures r < |queue|
    ensures queue[r].item.alert.severity.Critical? ==>
              r == 0 && forall i :: 0 <= i < |queue| ==> queue[i].item.alert.severity.Critical?
    ensures !queue[r].item.alert.severity.Critical? ==>
              forall i :: 0 <= i < r ==> queue[i].item.alert.severity.Critical?
  {
    VictimFrom(queue, 0)
  }

  function VictimFrom(queue: seq<Pending>, i: nat): (r: nat)
    requires queue != [] && i <= |queue|
    requires forall j :: 0 <= j < i ==> queue[j].item.alert.severity.Critical?
    ensures r < |queue|
    ensures queue[r].item.alert.severity.Critical? ==>
              r == 0 && forall j :: 0 <= j < |queue| ==> queue[j].item.alert.severity.Critical?
    ensures !queue[r].item.alert.severity.Critical? ==>
              forall j :: 0 <= j < r ==> queue[j].item.alert.severity.Critical?
    decreases |queue| - i
  {
    if i == |queue| then 0
    else if queue[i].item.alert.severity.Rank() < Critical.Rank() then i
    else VictimFrom(queue, i + 1)
  }

  function Without<T>(s: seq<T>, i: nat): seq<T>
    requires i < |s|
  {
    s[..i] + s[i + 1..]
  }

  // ---------------------------------------------------------------------
  // Naming and forgetting files
  // ---------------------------------------------------------------------

  function Suffix(n: nat): string {
    if n == 0 then ['.', 'j', 's', 'o', 'n'] else ['.'] + RefIds.Decimal(n) + ['.', 'j', 's', 'o', 'n']
  }

  /** The name a save tries at its `n`-th attempt: `millis-ref.json`, `millis-ref.1.json`... */
  function NameFor(a: Alert, n: nat): FileName {
    RefIds.Decimal(a.millis) + (['-'] + a.refId + Suffix(n))
  }

  /** The file a write goes through before it is renamed to `name`. */
  function TempFor(name: FileName, pid: nat): FileName {
    ['.'] + (name + ['.', 't', 'm', 'p'] + RefIds.Decimal(pid))
  }

  predicate IsTemp(f: FileName) {
    f != [] && f[0] == '.'
  }

  lemma NameNotTemp(a: Alert, n: nat)
    ensures NameFor(a, n) != [] && '0' <= NameFor(a, n)[0] <= '9' && !IsTemp(NameFor(a, n))
  {
    assert NameFor(a, n)[0] == RefIds.Decimal(a.millis)[0];
  }

  lemma TempIsTemp(name: FileName, pid: nat)
    ensures IsTemp(TempFor(name, pid))
  {
  }

  lemma NameInjective(a: Alert, m: nat, n: nat)
    requires NameFor(a, m) == NameFor(a, n)
    ensures m == n
  {
    var front := RefIds.Decimal(a.millis);
    RefIds.EqualFront(front, front, ['-'] + a.refId + Suffix(m), ['-'] + a.refId + Suffix(n));
    RefIds.EqualFront(['-'] + a.refId, ['-'] + a.refId, Suffix(m), Suffix(n));
    SuffixInjective(m, n);
  }

  lemma SuffixInjective(m: nat, n: nat)
    requires Suffix(m) == Suffix(n)
    ensures m == n
  {
    if m != 0 && n != 0 {
      var x, y := RefIds.Decimal(m), RefIds.Decimal(n);
      var end := ['.', 'j', 's', 'o', 'n'];
      assert |x| == |y|;
      assert Suffix(m)[1..|x| + 1] == x && Suffix(n)[1..|x| + 1] == y;
      RefIds.DecimalValue(m);
      RefIds.DecimalValue(n);
    }
  }

  /** The first free name for `a`, trying at most 1000 of them. */
  function PickName(disk: Disk, a: Alert, n: nat): FileName
    requires n < MAX_NAMES
    decreases MAX_NAMES - n
  {
    if NameFor(a, n) in disk && n + 1 < MAX_NAMES then PickName(disk, a, n + 1) else NameFor(a, n)
  }

  /** Which name that is: the first one that is free, or the last one tried. */
  lemma {:induction false} PickIsFirstFree(disk: Disk, a: Alert, n: nat) returns (k: nat)
    requires n < 1000
    ensures n <= k < 1000 && PickName(disk, a, n) == NameFor(a, k)
    ensures forall j: nat :: n <= j < k ==> NameFor(a, j) in disk
    ensures k < 999 ==> NameFor(a, k) !in disk
    decreases 1000 - n
  {
    if NameFor(a, n) in disk && n < 999 {
      k := PickIsFirstFree(disk, a, n + 1);
    } else {
      k := n;
    }
  }

  lemma {:induction false} PickNotTemp(disk: Disk, a: Alert, n: nat)
    requires n < MAX_NAMES
    ensures !IsTemp(PickName(disk, a, n))
    decreases MAX_NAMES - n
  {
    NameNotTemp(a, n);
    if NameFor(a, n) in disk && n + 1 < MAX_NAMES {
      PickNotTemp(disk, a, n + 1);
    }
  }

  function Forgotten(disk: Disk, file: Option<FileName>): Disk {
    match file
    case None => disk
    case Some(f) => disk - {f}
  }

  /** The files of finished saves. */
  function SavedPart(disk: Disk): Disk {
    map f | f in disk && !IsTemp(f) :: disk[f]
  }

  /** The first `n` of the names `name` gives. */
  ghost function Names(name: nat -> FileName, n: nat): set<FileName> {
    if n == 0 then {} else Names(name, n - 1) + {name(n - 1)}
  }

  ghost predicate AllDiffer(name: nat -> FileName) {
    forall i: nat, j: nat :: name(i) == name(j) ==> i == j
  }

  lemma {:induction false} NamesCount(name: nat -> FileName, n: nat, m: nat)
    requires n <= m && AllDiffer(name)
    ensures |Names(name, n)| == n && name(m) !in Names(name, n)
  {
    if n > 0 {
      NamesCount(name, n - 1, n - 1);
      NamesCount(name, n - 1, m);
    }
  }

  function NamesFor(a: Alert): nat -> FileName {
    (n: nat) => NameFor(a, n)
  }

  lemma NamesDiffer(a: Alert)
    ensures AllDiffer(NamesFor(a))
  {
    forall i: nat, j: nat | NamesFor(a)(i) == NamesFor(a)(j)
      ensures i == j
    {
      NameInjective(a, i, j);
    }
  }

  lemma NamesGrow(disk: Disk, a: Alert, n: nat)
    requires Names(NamesFor(a), n) <= SavedPart(disk).Keys && NameFor(a, n) in disk
    ensures Names(NamesFor(a), n + 1) <= SavedPart(disk).Keys && n < |SavedPart(disk)|
  {
    NameNotTemp(a, n);
    NamesDiffer(a);
    NamesCount(NamesFor(a), n + 1, n + 1);
    SubsetCardinality(Names(NamesFor(a), n + 1), SavedPart(disk).Keys);
  }

  /** With fewer than a thousand finished saves no save overwrites another, however many
      leftovers there are: the name search ends on a free one. */
  lemma {:induction false} PickNameFree(disk: Disk, a: Alert, n: nat)
    requires |SavedPart(disk)| < MAX_NAMES && n < MAX_NAMES && Names(NamesFor(a), n) <= SavedPart(disk).Keys
    ensures PickName(disk, a, n) !in disk
    decreases MAX_NAMES - n
  {
    if NameFor(a, n) in disk {
      NamesGrow(disk, a, n);
      PickNameFree(disk, a, n + 1);
    }
  }

  // ---------------------------------------------------------------------
  // Writing through a temporary file
  // ---------------------------------------------------------------------

  /** How a write ends: renamed into place, or given up with nothing, part or all of the
      text left in the temporary file. Nobody removes that file. */
  datatype Outcome = Finished | Failed(left: Option<Content>)

  /** What a write of `item` can leave behind. */
  predicate CanLeave(item: Item, left: Option<Content>) {
    left.None? || left == Some(Garbage) || left == Some(Json(item))
  }

  predicate Possible(item: Item, outcome: Outcome) {
    outcome.Failed? ==> CanLeave(item, outcome.left)
  }

  function Torn(disk: Disk, temp: FileName, left: Option<Content>): Disk {
    match left
    case None => disk
    case Some(c) => disk[temp := c]
  }

  function Written(disk: Disk, name: FileName, temp: FileName, item: Item, outcome: Outcome): Disk {
    match outcome
    case Finished => (disk - {temp})[name := Json(item)]
    case Failed(left) => Torn(disk, temp, left)
  }

  /** The directory after saving `item`. */
  function Stored(disk: Disk, item: Item, pid: nat, outcome: Outcome): Disk {
    var name := PickName(disk, item.alert, 0);
    Written(disk, name, TempFor(name, pid), item, outcome)
  }

  function StoredAt(disk: Disk, item: Item, outcome: Outcome): Option<FileName> {
    if outcome.Finished? then Some(PickName(disk, item.alert, 0)) else None
  }

  // ---------------------------------------------------------------------
  // Loading what a previous run left
  // ---------------------------------------------------------------------

  ghost predicate Sorted(order: seq<FileName>) {
    forall i, j :: 0 <= i < j < |order| ==> RefIds.Less(order[i], order[j])
  }

  /** `order` lists the files of the directory, sorted by name. */
  ghost predicate Listing(order: seq<FileName>, disk: Disk) {
    (forall f :: f in order <==> f in disk) && Sorted(order)
  }

  predicate Distinct(order: seq<FileName>) {
    forall i, j :: 0 <= i < j < |order| ==> order[i] != order[j]
  }

  lemma SortedDistinct(order: seq<FileName>)
    requires Sorted(order)
    ensures Distinct(order)
  {
    forall i, j | 0 <= i < j < |order|
      ensures order[i] != order[j]
    {
      RefIds.LessIrreflexive(order[i]);
    }
  }

  /** What is left of a listing after shedding the oldest beyond the cap. */
  function Newest(order: seq<FileName>): seq<FileName> {
    if |order| > MAX_PENDING then order[|order| - MAX_PENDING..] else order
  }

  function Oldest(order: seq<FileName>): seq<FileName> {
    if |order| > MAX_PENDING then order[..|order| - MAX_PENDING] else []
  }

  /** A listing falls into what is shed and the last 500. */
  lemma ShedAndKept(order: seq<FileName>)
    ensures Oldest(order) + Newest(order) == order && |Newest(order)| <= 500
    ensures Oldest(order) != [] ==> |Newest(order)| == 500
  {
  }

  function Members(s: seq<FileName>): set<FileName> {
    set f | f in s
  }

  /** What one file adds to the queue. */
  function FromFile(f: FileName, c: Content): seq<Pending> {
    match c
    case Json(item) => [Pending(item, Some(f))]
    case Garbage => []
  }

  /** The readable files of a listing, in order. */
  function Readable(order: seq<FileName>, disk: Disk): seq<Pending>
    requires forall f :: f in order ==> f in disk
  {
    if order == [] then []
    else Readable(order[..|order| - 1], disk) + FromFile(order[|order| - 1], disk[order[|order| - 1]])
  }

  lemma {:induction false} ReadableFromFiles(order: seq<FileName>, disk: Disk, p: Pending)
    requires forall f :: f in order ==> f in disk
    requires p in Readable(order, disk)
    ensures p.file.Some? && p.file.value in order && disk[p.file.value] == Json(p.item)
  {
    var init, last := order[..|order| - 1], order[|order| - 1];
    assert order == init + [last];
    if p !in FromFile(last, disk[last]) {
      ReadableFromFiles(init, disk, p);
    }
  }

  lemma {:induction false} ReadableSorted(order: seq<FileName>, disk: Disk, i: nat, j: nat)
    requires (forall f :: f in order ==> f in disk) && Sorted(order)
    ensures forall p :: p in Readable(order, disk) ==> p.file.Some? && p.file.value in order
    ensures var r := Readable(order, disk);
            i < j < |r| ==> r[i].file.Some? && r[j].file.Some? && RefIds.Less(r[i].file.value, r[j].file.value)
  {
    if order != [] {
      var init, last := order[..|order| - 1], order[|order| - 1];
      assert order == init + [last];
      ReadableSorted(init, disk, i, j);
      if i < j < |Readable(order, disk)| && j == |Readable(init, disk)| {
        var p := Readable(init, disk)[i];
        assert p in Readable(init, disk);
        var k :| 0 <= k < |init| && init[k] == p.file.value;
        assert RefIds.Less(order[k], order[|order| - 1]);
      }
    }
  }

  /** Alerts saved at different times, in milliseconds of as many digits, are queued again in
      the order of those times. */
  lemma NamesByTime(a: Alert, m: nat, b: Alert, n: nat)
    requires |RefIds.Decimal(a.millis)| == |RefIds.Decimal(b.millis)| && a.millis < b.millis
    ensures RefIds.Less(NameFor(a, m), NameFor(b, n))
  {
    RefIds.LessSplit(RefIds.Decimal(a.millis), RefIds.Decimal(b.millis), ['-'] + a.refId + Suffix(m), ['-'] + b.refId + Suffix(n));
    RefIds.LessIsNumeric(RefIds.Decimal(a.millis), RefIds.Decimal(b.millis));
    RefIds.DecimalValue(a.millis);
    RefIds.DecimalValue(b.millis);
  }

  /** The unreadable files of a listing: they are removed, not retried. */
  function Unreadable(order: seq<FileName>, disk: Disk): set<FileName>
    requires forall f :: f in order ==> f in disk
  {
    set f | f in order && disk[f].Garbage?
  }

  /** The directory after loading. */
  function Loaded(order: seq<FileName>, disk: Disk): Disk
    requires forall f :: f in order ==> f in disk
  {
    disk - Members(Oldest(order)) - Unreadable(Newest(order), disk)
  }

  /** What loading leaves in the directory: exactly the readable ones of the last 500 files,
      as they were. */
  lemma LoadedExactly(order: seq<FileName>, disk: Disk, i: nat)
    requires Listing(order, disk) && i < |order|
    ensures var left := Loaded(order, disk);
            && (order[i] in left <==> disk[order[i]].Json? && |order| - i <= 500)
            && (order[i] in left ==> left[order[i]] == disk[order[i]])
            && left.Keys <= disk.Keys
  {
    SortedDistinct(order);
    var f := order[i];
    if |order| - i <= 500 {
      assert f in Newest(order) by {
        assert Newest(order)[i - (|order| - |Newest(order)|)] == f;
      }
      assert f !in Oldest(order);
    } else {
      assert Oldest(order)[i] == f;
    }
  }

  lemma {:induction false} ReadableHas(order: seq<FileName>, disk: Disk, f: FileName)
    requires forall g :: g in order ==> g in disk
    requires f in order && disk[f].Json?
    ensures Pending(disk[f].item, Some(f)) in Readable(order, disk)
  {
    var init, last := order[..|order| - 1], order[|order| - 1];
    assert order == init + [last];
    if f != last {
      ReadableHas(init, disk, f);
    } else {
      assert Readable(order, disk)[|Readable(init, disk)|] == Pending(disk[f].item, Some(f));
    }
  }

  lemma {:induction false} ReadableBounded(order: seq<FileName>, disk: Disk)
    requires forall g :: g in order ==> g in disk
    ensures |Readable(order, disk)| <= |order|
  {
    if order != [] {
      ReadableBounded(order[..|order| - 1], disk);
    }
  }

  // ---------------------------------------------------------------------
  // The mutable queue
  // ---------------------------------------------------------------------

  /** The queue as a value, with the directory it shares and the process that owns it. */
  datatype Queue = Queue(queue: seq<Pending>, disk: Disk, pid: nat, backoff: nat, dropped: nat, cfg: string)

  /** The alert to go is the oldest below CRITICAL, or the oldest if there is none. */
  predicate Sheds(queue: seq<Pending>, v: nat) {
    && v < |queue|
    && if queue[v].item.alert.severity == Critical then v == 0 && forall i :: 0 <= i < |queue| ==> queue[i].item.alert.severity == Critical
       else forall i :: 0 <= i < v ==> queue[i].item.alert.severity == Critical
  }

  function RoomMade(q: Queue): Queue {
    if |q.queue| < MAX_PENDING then q
    else
      var v := Victim(q.queue);
      q.(queue := Without(q.queue, v), disk := Forgotten(q.disk, q.queue[v].file), dropped := q.dropped + 1)
  }

  function SavedIn(q: Queue, item: Item, outcome: Outcome): Queue {
    q.(disk := Stored(q.disk, item, q.pid, outcome),
       queue := q.queue + [Pending(item, StoredAt(q.disk, item, outcome))])
  }

  /** What one `take` leaves, given how its write ends. */
  function Taken(q: Queue, msg: Message, outcome: Outcome): Queue {
    match msg
    case NewAlert(item) => SavedIn(RoomMade(q), item, outcome)
    case NewConfig(c) => q.(cfg := c, backoff := FIRST_BACKOFF)
    case Closed => q
  }

  /** The retry delay after another failure: doubled, capped. */
  function Longer(backoff: nat): nat {
    if backoff * 2 < MAX_BACKOFF then backoff * 2 else MAX_BACKOFF
  }

  /** The delay after this many failures in a row. */
  function DelayAfter(failures: nat): nat {
    if failures == 0 then FIRST_BACKOFF else Longer(DelayAfter(failures - 1))
  }

  function TwoTo(n: nat): nat {
    if n == 0 then 1 else 2 * TwoTo(n - 1)
  }

  /** It starts at five seconds and doubles up to two minutes. */
  lemma {:induction false} DelayClosedForm(failures: nat)
    ensures DelayAfter(failures) == if 5 * TwoTo(failures) < 120 then 5 * TwoTo(failures) else 120
  {
    if failures > 0 {
      DelayClosedForm(failures - 1);
    }
  }

  class ChannelQueue {
    var queue: seq<Pending>
    var disk: Disk
    var pid: nat
    var backoff: nat
    var dropped: nat
    var cfg: string

    ghost function View(): Queue
      reads this
    {
      Queue(queue, disk, pid, backoff, dropped, cfg)
    }

    ghost predicate Valid()
      reads this
    {
      |queue| <= MAX_PENDING && FIRST_BACKOFF <= backoff <= MAX_BACKOFF
    }

    /** A channel starting over the files earlier runs left, sorted by name. */
    constructor (files: Disk, listing: seq<FileName>, process: nat, config: string)
      requires Listing(listing, files)
      ensures Valid()
      ensures View() == Queue(Readable(Newest(listing), files), Loaded(listing, files), process, FIRST_BACKOFF, 0, config)
    {
      var order, left := ShedOldest(files, listing);
      ReadableBounded(order, files);
      var pending, rest := ReadAll(files, order, left);
      queue, disk, pid := pending, rest, process;
      backoff, dropped, cfg := FIRST_BACKOFF, 0, config;
    }

    static method ShedOldest(files: Disk, listing: seq<FileName>) returns (order: seq<FileName>, left: Disk)
      ensures order == Newest(listing)
      ensures left == files - Members(Oldest(listing))
    {
      order, left := listing, files;
      ghost var n := 0;
      while |order| > MAX_PENDING
        invariant n <= |listing| && order == listing[n..]
        invariant n > 0 ==> |order| >= MAX_PENDING
        invariant left == files - Members(listing[..n])
        decreases |order|
      {
        assert listing[..n + 1] == listing[..n] + [listing[n]];
        left := left - {order[0]};
        order := order[1..];
        n := n + 1;
      }
      assert listing[..n] == Oldest(listing);
    }

    static method ReadAll(files: Disk, order: seq<FileName>, left: Disk) returns (out: seq<Pending>, rest: Disk)
      requires forall f :: f in order ==> f in files
      ensures out == Readable(order, files)
      ensures rest == left - Unreadable(order, files)
    {
      out, rest := [], left;
      var i := 0;
      while i < |order|
        invariant 0 <= i <= |order|
        invariant out == Readable(order[..i], files)
        invariant rest == left - Unreadable(order[..i], files)
      {
        assert order[..i + 1][..i] == order[..i];
        assert order[..i + 1] == order[..i] + [order[i]];
        match files[order[i]] {
          case Json(item) => out := out + [Pending(item, Some(order[i]))];
          case Garbage => rest := rest - {order[i]};
        }
        i := i + 1;
      }
      assert order[..i] == order;
    }

    method Forget(file: Option<FileName>)
      modifies this`disk
      ensures disk == Forgotten(old(disk), file)
    {
      if file.Some? {
        disk := disk - {file.value};
      }
    }

    method MakeRoom()
      requires Valid()
      modifies this
      ensures View() == RoomMade(old(View())) && |queue| < 500 && Valid()
      ensures |old(queue)| < 500 ==> View() == old(View())
      ensures |old(queue)| == 500 ==>
                exists v: nat :: Sheds(old(queue), v)
                  && View() == old(View()).(queue := Without(old(queue), v), disk := Forgotten(old(disk), old(queue)[v].file),
                                            dropped := old(dropped) + 1)
    {
      if |queue| < MAX_PENDING {
        return;
      }
      var victim := 0;
      while victim < |queue| && queue[victim].item.alert.severity.Critical?
        invariant victim <= |queue|
        invariant forall j :: 0 <= j < victim ==> queue[j].item.alert.severity.Critical?
        invariant VictimFrom(queue, 0) == VictimFrom(queue, victim)
      {
        victim := victim + 1;
      }
      if victim == |queue| {
        victim := 0;
      }
      var p := queue[victim];
      assert Sheds(old(queue), victim);
      queue := Without(queue, victim);
      Forget(p.file);
      dropped := dropped + 1;
    }

    /** Persist one alert under a free name, through a temporary file; `outcome` is what
        the file system makes of it. */
    method Save(item: Item, outcome: Outcome) returns (file: Option<FileName>)
      requires Possible(item, outcome)
      modifies this`disk
      ensures file == StoredAt(old(disk), item, outcome)
      ensures disk == Stored(old(disk), item, pid, outcome)
    {
      var path := FindName(item.alert);
      var temp := TempFor(path, pid);
      match outcome {
        case Failed(left) =>
          if left.Some? {
            disk := disk[temp := left.value];
          }
          file := None;
        case Finished =>
          disk := disk[temp := Json(item)];
          disk := (disk - {temp})[path := disk[temp]];
          file := Some(path);
      }
    }

    method FindName(a: Alert) returns (path: FileName)
      ensures path == PickName(disk, a, 0)
    {
      var n := 0;
      path := NameFor(a, n);
      while path in disk && n + 1 < MAX_NAMES
        invariant n < MAX_NAMES && path == NameFor(a, n)
        invariant PickName(disk, a, 0) == PickName(disk, a, n)
        decreases MAX_NAMES - n
      {
        n := n + 1;
        path := NameFor(a, n);
      }
    }

    /** Handle one message; the result says whether the channel goes on. */
    method Take(msg: Message, outcome: Outcome) returns (open: bool)
      requires Valid() && (msg.NewAlert? ==> Possible(msg.item, outcome))
      modifies this
      ensures Valid() && open == !msg.Closed?
      ensures View() == Taken(old(View()), msg, outcome)
      ensures msg.NewAlert? ==>
                && dropped == old(dropped) + (if |old(queue)| == 500 then 1 else 0) && backoff == old(backoff) && cfg == old(cfg)
                && queue != [] && queue[|queue| - 1].item == msg.item && (outcome.Failed? ==> queue[|queue| - 1].file == None)
      ensures msg.NewConfig? ==> View() == old(View()).(cfg := msg.cfg, backoff := 5)
      ensures msg.Closed? ==> View() == old(View())
    {
      match msg {
        case NewAlert(item) =>
          MakeRoom();
          var file := Save(item, outcome);
          queue := queue + [Pending(item, file)];
          open := true;
        case NewConfig(c) =>
          cfg := c;
          backoff := FIRST_BACKOFF;
          open := true;
        case Closed =>
          open := false;
      }
    }

    /** The channel accepted or permanently refused the front alert. */
    method Finish(delivered: bool) returns (done: Item)
      requires Valid() && queue != []
      modifies this
      ensures Valid() && done == old(queue)[0].item
      ensures View() == old(View()).(queue := old(queue)[1..], disk := Forgotten(old(disk), old(queue)[0].file),
                                     backoff := if delivered then 5 else old(backoff),
                                     dropped := if delivered then old(dropped) else old(dropped) + 1)
    {
      var p := queue[0];
      queue := queue[1..];
      Forget(p.file);
      done := p.item;
      if delivered {
        backoff := FIRST_BACKOFF;
      } else {
        dropped := dropped + 1;
      }
    }

    /** A transient failure keeps everything and waits longer. */
    method Retry()
      requires Valid()
      modifies this`backoff
      ensures Valid() && backoff == Longer(old(backoff))
      ensures backoff == if 2 * old(backoff) <= 120 then 2 * old(backoff) else 120
    {
      backoff := if backoff * 2 < MAX_BACKOFF then backoff * 2 else MAX_BACKOFF;
    }
  }
}
