/** The channel task of hermian/src/notify.rs as a machine of atomic steps, with a crash
    possible between any two of them, and what holds over every run: nothing saved is
    lost, finished saves never outgrow the cap, and the queue is a conserving FIFO.
    Writes may fail and leave their temporary file; those leftovers are what a crowded
    directory sheds first. */
module NotifyRuns {
  import opened Common
  import RefIds
  import opened NotifyQueue

  /** Where the channel is between two steps. */
  datatype Phase =
    | Down                                              // not running
    | Ready                                             // between messages and sends
    | Evicting(victim: Pending, incoming: Item)         // out of the queue, file not yet deleted
    | Saving(incoming: Item)                            // room made, nothing written yet
    | Queueing(incoming: Item, file: Option<FileName>)  // written (or not), not yet queued
    | Sending(item: Item)                               // the channel has the front alert
    | Accepted(item: Item)                              // it said yes
    | Refused(item: Item)                               // it said never
    | Forgetting(file: Option<FileName>)                // popped, file not yet deleted

  /** What has happened to alerts over all process lives. */
  datatype Ledger = Ledger(saved: set<Item>, delivered: set<Item>, dropped: set<Item>)

  /** An overflow: who was shed and what the queue held at that moment. */
  datatype Overflow = Overflow(victim: Item, held: seq<Pending>)

  /** What has happened since this process started. */
  datatype Life = Life(arrived: seq<Item>, sent: seq<Item>, lost: seq<Item>, overflows: seq<Overflow>)

  datatype State = State(
    phase: Phase, queue: seq<Pending>, disk: Disk, pid: nat, serial: nat, life: Life, ledger: Ledger)

  datatype Step =
    | Receive(alert: Alert)
    | ForgetVictim
    | Write(outcome: Outcome)
    | Enqueue
    | Send
    | SendOk
    | SendPermanent
    | SendTransient
    | Pop
    | Forget
    | Crash(torn: Option<Content>)
    | Sweep(order: seq<FileName>, file: FileName)
    | Restart(order: seq<FileName>, pid: nat)

  ghost predicate Enabled(s: State, step: Step) {
    match step
    case Receive(_) => s.phase.Ready?
    case ForgetVictim => s.phase.Evicting?
    case Write(outcome) => s.phase.Saving? && Possible(s.phase.incoming, outcome)
    case Enqueue => s.phase.Queueing?
    case Send => s.phase.Ready? && s.queue != []
    case SendOk => s.phase.Sending?
    case SendPermanent => s.phase.Sending?
    case SendTransient => s.phase.Sending?
    case Pop => (s.phase.Accepted? || s.phase.Refused?) && s.queue != []
    case Forget => s.phase.Forgetting?
    // Only a write in progress leaves anything.
    case Crash(torn) =>
      && !s.phase.Down?
      && (torn.Some? ==> s.phase.Saving? && CanLeave(s.phase.incoming, torn))
    // A load cut short may have deleted what it deletes.
    case Sweep(order, f) =>
      && s.phase.Down? && Listing(order, s.disk)
      && ((|order| > MAX_PENDING && f == order[0]) || (f in s.disk && s.disk[f].Garbage?))
    case Restart(order, _) => s.phase.Down? && Listing(order, s.disk)
  }

  function Items(queue: seq<Pending>): (r: seq<Item>)
    ensures |r| == |queue|
  {
    seq(|queue|, i requires 0 <= i < |queue| => queue[i].item)
  }

  /** A new alert arrives; with a full queue one alert makes room for it. */
  function DoReceive(s: State, alert: Alert): State {
    var item := Item(alert, s.serial);
    var s' := s.(serial := s.serial + 1, life := s.life.(arrived := s.life.arrived + [item]));
    if |s.queue| < MAX_PENDING then s'.(phase := Saving(item))
    else
      var v := s.queue[Victim(s.queue)];
      s'.(phase := Evicting(v, item), queue := Without(s.queue, Victim(s.queue)),
          life := s'.life.(lost := s.life.lost + [v.item],
                           overflows := s.life.overflows + [Overflow(v.item, s.queue)]),
          ledger := s.ledger.(dropped := s.ledger.dropped + {v.item}))
  }

  /** A save that ends in this way, given the name and the temporary file it uses. */
  function DoWrite(s: State, item: Item, name: FileName, temp: FileName, outcome: Outcome): State {
    s.(phase := Queueing(item, if outcome.Finished? then Some(name) else None),
       disk := Written(s.disk, name, temp, item, outcome),
       ledger := if outcome.Finished? then s.ledger.(saved := s.ledger.saved + {item}) else s.ledger)
  }

  function DoSave(s: State, item: Item, outcome: Outcome): State {
    var name := PickName(s.disk, item.alert, 0);
    DoWrite(s, item, name, TempFor(name, s.pid), outcome)
  }

  function DoEnqueue(s: State, item: Item, file: Option<FileName>): State {
    s.(phase := Ready, queue := s.queue + [Pending(item, file)])
  }

  function DoPop(s: State): State
    requires s.queue != []
  {
    var p := s.queue[0];
    s.(phase := Forgetting(p.file), queue := s.queue[1..],
       life := if s.phase.Accepted? then s.life.(sent := s.life.sent + [p.item])
               else s.life.(lost := s.life.lost + [p.item]))
  }

  function DoForget(s: State, file: Option<FileName>, phase: Phase): State {
    s.(phase := phase, disk := Forgotten(s.disk, file))
  }

  /** The temporary file a save in progress uses. */
  function TempInUse(s: State): FileName {
    match s.phase
    case Saving(incoming) => TempFor(PickName(s.disk, incoming.alert, 0), s.pid)
    case _ => []
  }

  function DoCrash(s: State, temp: FileName, torn: Option<Content>): State {
    s.(phase := Down, queue := [], life := Life([], [], [], []), disk := Torn(s.disk, temp, torn))
  }

  function DoRestart(s: State, order: seq<FileName>, pid: nat): State
    requires forall f :: f in order ==> f in s.disk
  {
    var queue := Readable(Newest(order), s.disk);
    s.(phase := Ready, queue := queue, pid := pid, disk := Loaded(order, s.disk), life := Life(Items(queue), [], [], []))
  }

  ghost function Apply(s: State, step: Step): State
    requires Enabled(s, step)
  {
    match step
    case Receive(alert) => DoReceive(s, alert)
    case ForgetVictim => DoForget(s, s.phase.victim.file, Saving(s.phase.incoming))
    case Write(outcome) => DoSave(s, s.phase.incoming, outcome)
    case Enqueue => DoEnqueue(s, s.phase.incoming, s.phase.file)
    case Send => s.(phase := Sending(s.queue[0].item))
    case SendOk =>
      s.(phase := Accepted(s.phase.item), ledger := s.ledger.(delivered := s.ledger.delivered + {s.phase.item}))
    case SendPermanent =>
      s.(phase := Refused(s.phase.item), ledger := s.ledger.(dropped := s.ledger.dropped + {s.phase.item}))
    case SendTransient => s.(phase := Ready)
    case Pop => DoPop(s)
    case Forget => DoForget(s, s.phase.file, Ready)
    case Crash(torn) => DoCrash(s, TempInUse(s), torn)
    case Sweep(_, f) => s.(disk := s.disk - {f})
    case Restart(order, pid) => DoRestart(s, order, pid)
  }

  /** The first start, over an empty directory. */
  ghost function Start(): State {
    State(Down, [], map[], 0, 0, Life([], [], [], []), Ledger({}, {}, {}))
  }

  /** `trace` is a run taking these steps from the first start. */
  ghost predicate Run(trace: seq<State>, steps: seq<Step>) {
    && |trace| == |steps| + 1 && trace[0] == Start()
    && forall i :: 0 <= i < |steps| ==> Enabled(trace[i], steps[i]) && trace[i + 1] == Apply(trace[i], steps[i])
  }

  // ---------------------------------------------------------------------
  // Nothing saved is lost
  // ---------------------------------------------------------------------

  /** The alerts in these files. */
  ghost function Readables(disk: Disk): set<Item> {
    set f | f in disk && disk[f].Json? :: disk[f].item
  }

  /** The alerts in finished saves. */
  ghost function OnDisk(disk: Disk): set<Item> {
    Readables(SavedPart(disk))
  }

  ghost predicate Holds(disk: Disk, f: FileName, item: Item) {
    f in disk && disk[f] == Json(item)
  }

  /** Every saved alert is delivered, given up on, or still in one of these files. */
  ghost predicate Accounted(ledger: Ledger, disk: Disk) {
    ledger.saved <= ledger.delivered + ledger.dropped + Readables(disk)
  }

  /** The file held outside the queue in the middle of an operation. */
  function HeldFile(phase: Phase): Option<FileName> {
    match phase
    case Evicting(victim, _) => victim.file
    case Queueing(_, file) => file
    case Forgetting(file) => file
    case _ => None
  }

  predicate Holding(phase: Phase) {
    phase.Evicting? || phase.Saving? || phase.Queueing? || phase.Forgetting?
  }

  /** The file, if it is a finished save. */
  function Durable(file: Option<FileName>): Option<FileName> {
    if file.Some? && IsTemp(file.value) then None else file
  }

  /** Queue and finished saves mirror each other: each queued alert with such a file has
      one of its own holding it, and there is no other. */
  ghost predicate Mirrored(queue: seq<Pending>, disk: Disk) {
    if queue == [] then disk == map[]
    else
      var init, last := queue[..|queue| - 1], queue[|queue| - 1];
      match Durable(last.file)
      case None => Mirrored(init, disk)
      case Some(f) => Holds(disk, f, last.item) && Mirrored(init, disk - {f})
  }

  /** The same with one file held outside the queue. */
  ghost predicate MirroredBut(queue: seq<Pending>, disk: Disk, held: Option<FileName>) {
    && (held.Some? ==> held.value in disk)
    && Mirrored(queue, Forgotten(disk, held))
  }

  /** The alert in this file needs no copy any more. */
  ghost predicate Finished(ledger: Ledger, disk: Disk, f: FileName) {
    f in disk && disk[f].Json? && disk[f].item in ledger.delivered + ledger.dropped
  }

  /** What the phase says about the ledger, the queue and the finished saves. */
  ghost predicate PhaseRight(phase: Phase, queue: seq<Pending>, disk: Disk, ledger: Ledger) {
    match phase
    case Evicting(victim, _) =>
      && victim.item in ledger.dropped
      && (Durable(victim.file).Some? ==> Holds(disk, victim.file.value, victim.item))
    case Queueing(incoming, file) => Durable(file).Some? ==> Holds(disk, file.value, incoming)
    case Forgetting(file) => Durable(file).Some? ==> Finished(ledger, disk, file.value)
    case Sending(item) => queue != [] && queue[0].item == item
    case Accepted(item) => queue != [] && queue[0].item == item && item in ledger.delivered
    case Refused(item) => queue != [] && queue[0].item == item && item in ledger.dropped
    case _ => true
  }

  ghost predicate AllReadable(disk: Disk) {
    forall f :: f in disk ==> disk[f].Json?
  }

  /** The invariant, on the finished saves `saves` of a state. */
  ghost predicate InvOn(s: State, saves: Disk) {
    && Accounted(s.ledger, saves) && AllReadable(saves)
    && |saves| <= MAX_PENDING
    && |s.queue| <= (if Holding(s.phase) then MAX_PENDING - 1 else MAX_PENDING)
    && (!s.phase.Down? ==> MirroredBut(s.queue, saves, Durable(HeldFile(s.phase)))
                           && PhaseRight(s.phase, s.queue, saves, s.ledger))
  }

  ghost predicate Inv(s: State) {
    InvOn(s, SavedPart(s.disk))
  }

  // How the finished saves change.

  lemma SavedForget(disk: Disk, file: Option<FileName>)
    ensures SavedPart(Forgotten(disk, file)) == Forgotten(SavedPart(disk), Durable(file))
  {
  }

  lemma SavedTorn(disk: Disk, temp: FileName, left: Option<Content>)
    requires IsTemp(temp) || left.None?
    ensures SavedPart(Torn(disk, temp, left)) == SavedPart(disk)
  {
  }

  lemma SavedWritten(disk: Disk, name: FileName, temp: FileName, item: Item, outcome: Outcome)
    requires !IsTemp(name) && IsTemp(temp)
    ensures SavedPart(Written(disk, name, temp, item, outcome))
            == if outcome.Finished? then SavedPart(disk)[name := Json(item)] else SavedPart(disk)
  {
    if outcome.Failed? {
      SavedTorn(disk, temp, outcome.left);
    }
  }

  lemma {:induction false} MirrorBounded(queue: seq<Pending>, disk: Disk)
    requires Mirrored(queue, disk)
    ensures |disk| <= |queue|
  {
    if queue != [] {
      var init, last := queue[..|queue| - 1], queue[|queue| - 1];
      match Durable(last.file) {
        case None => MirrorBounded(init, disk);
        case Some(f) =>
          MirrorBounded(init, disk - {f});
          assert disk.Keys == (disk - {f}).Keys + {f};
          assert |disk.Keys| == |(disk - {f}).Keys| + 1;
      }
    }
  }

  lemma MirrorAppend(queue: seq<Pending>, disk: Disk, item: Item, file: Option<FileName>)
    requires MirroredBut(queue, disk, Durable(file))
    requires Durable(file).Some? ==> Holds(disk, file.value, item)
    ensures Mirrored(queue + [Pending(item, file)], disk)
  {
    assert (queue + [Pending(item, file)])[..|queue|] == queue;
  }

  lemma ForgetTwice(disk: Disk, a: Option<FileName>, b: Option<FileName>)
    ensures Forgotten(Forgotten(disk, a), b) == Forgotten(Forgotten(disk, b), a)
  {
  }

  lemma {:induction false} MirrorDrop(queue: seq<Pending>, disk: Disk, v: nat)
    requires Mirrored(queue, disk) && v < |queue|
    ensures var file := Durable(queue[v].file); file.Some? ==> Holds(disk, file.value, queue[v].item)
    ensures Mirrored(Without(queue, v), Forgotten(disk, Durable(queue[v].file)))
  {
    var init, last := queue[..|queue| - 1], queue[|queue| - 1];
    if v == |queue| - 1 {
      assert Without(queue, v) == init;
    } else {
      var rest := Without(queue, v);
      assert rest == Without(init, v) + [last];
      assert rest[..|rest| - 1] == Without(init, v);
      MirrorDrop(init, Forgotten(disk, Durable(last.file)), v);
      ForgetTwice(disk, Durable(last.file), Durable(queue[v].file));
    }
  }

  lemma MirrorWrite(queue: seq<Pending>, disk: Disk, name: FileName, item: Item)
    requires Mirrored(queue, disk) && name !in disk
    ensures MirroredBut(queue, disk[name := Json(item)], Some(name))
  {
    assert Forgotten(disk[name := Json(item)], Some(name)) == disk;
  }

  /** Deleting a file is safe once its alert is delivered or dropped. */
  lemma ForgetAccounted(ledger: Ledger, disk: Disk, file: Option<FileName>)
    requires Accounted(ledger, disk)
    requires file.Some? && file.value in disk && disk[file.value].Json? ==> Finished(ledger, disk, file.value)
    ensures Accounted(ledger, Forgotten(disk, file))
  {
    forall item | item in Readables(disk) && item !in ledger.delivered + ledger.dropped
      ensures item in Readables(Forgotten(disk, file))
    {
      var f :| f in disk && disk[f].Json? && disk[f].item == item;
      assert f in Forgotten(disk, file) && Forgotten(disk, file)[f] == disk[f];
    }
  }

  lemma AddFile(disk: Disk, name: FileName, item: Item)
    requires name !in disk
    ensures Readables(disk) <= Readables(disk[name := Json(item)])
    ensures item in Readables(disk[name := Json(item)])
    ensures |disk[name := Json(item)]| == |disk| + 1
  {
    var disk' := disk[name := Json(item)];
    forall x | x in Readables(disk)
      ensures x in Readables(disk')
    {
      var f :| f in disk && disk[f].Json? && disk[f].item == x;
      assert f in disk' && disk'[f] == disk[f];
    }
    assert disk'[name] == Json(item);
    assert disk'.Keys == disk.Keys + {name};
  }

  // ---------------------------------------------------------------------
  // Loading
  // ---------------------------------------------------------------------

  /** Names sort leftovers before finished saves. */
  lemma TempsFirst(order: seq<FileName>, disk: Disk, i: nat, j: nat)
    requires Listing(order, disk) && NamesGood(disk) && i < j < |order| && !IsTemp(order[i])
    ensures !IsTemp(order[j])
  {
    assert order[i] in disk && order[j] in disk;
    assert RefIds.Less(order[i], order[j]);
  }

  /** Finished saves have names that start with a digit. */
  ghost predicate NamesGood(disk: Disk) {
    forall f :: f in disk && !IsTemp(f) ==> f != [] && '0' <= f[0] <= '9'
  }

  lemma {:induction false} DistinctFiles(order: seq<FileName>)
    requires Distinct(order)
    ensures |Members(order)| == |order|
  {
    if order != [] {
      var init, last := order[..|order| - 1], order[|order| - 1];
      DistinctFiles(init);
      assert order == init + [last];
      assert Members(order) == Members(init) + {last};
      assert last !in init;
    }
  }

  /** At most 500 finished saves: whatever is shed beyond the cap is a leftover. */
  lemma ShedsLeftovers(order: seq<FileName>, disk: Disk, i: nat)
    requires Listing(order, disk) && NamesGood(disk) && |SavedPart(disk)| <= MAX_PENDING
    requires i < |order| - MAX_PENDING
    ensures IsTemp(order[i])
  {
    if !IsTemp(order[i]) {
      var tail := order[i..];
      SortedDistinct(order);
      DistinctFiles(tail);
      forall f | f in Members(tail)
        ensures f in SavedPart(disk).Keys
      {
        var j :| 0 <= j < |tail| && tail[j] == f;
        assert f == order[i + j] && f in order;
        if j > 0 {
          TempsFirst(order, disk, i, i + j);
        }
      }
      SubsetCardinality(Members(tail), SavedPart(disk).Keys);
    }
  }

  /** The finished saves among these files. */
  ghost function PartOf(order: seq<FileName>, disk: Disk): Disk {
    map f | f in order && f in disk && !IsTemp(f) :: disk[f]
  }

  lemma PartInit(init: seq<FileName>, last: FileName, disk: Disk)
    requires last !in init
    ensures IsTemp(last) ==> PartOf(init + [last], disk) == PartOf(init, disk)
    ensures !IsTemp(last) && last in disk ==>
              && PartOf(init + [last], disk) - {last} == PartOf(init, disk)
              && last in PartOf(init + [last], disk) && PartOf(init + [last], disk)[last] == disk[last]
  {
  }

  /** What a list of files reads mirrors the finished saves in it. */
  lemma {:induction false} ReadableMirrors(order: seq<FileName>, disk: Disk)
    requires Distinct(order) && (forall f :: f in order ==> f in disk) && AllReadable(SavedPart(disk))
    ensures Mirrored(Readable(order, disk), PartOf(order, disk))
  {
    if order == [] {
      assert PartOf(order, disk) == map[];
    } else {
      var init, last := order[..|order| - 1], order[|order| - 1];
      assert order == init + [last] && last !in init;
      ReadableMirrors(init, disk);
      PartInit(init, last, disk);
      if disk[last].Json? {
        MirrorAppend(Readable(init, disk), PartOf(order, disk), disk[last].item, Some(last));
      } else {
        assert last in SavedPart(disk) || IsTemp(last);
        assert Readable(order, disk) == Readable(init, disk);
      }
    }
  }

  lemma OldestAreLeftovers(order: seq<FileName>, disk: Disk, f: FileName)
    requires Listing(order, disk) && NamesGood(disk) && |SavedPart(disk)| <= MAX_PENDING
    requires f in Oldest(order)
    ensures IsTemp(f)
  {
    var i :| 0 <= i < |Oldest(order)| && Oldest(order)[i] == f;
    ShedsLeftovers(order, disk, i);
  }

  lemma NewestOrOldest(order: seq<FileName>, f: FileName)
    requires f in order
    ensures f in Newest(order) || f in Oldest(order)
  {
    var i :| 0 <= i < |order| && order[i] == f;
    if |order| > MAX_PENDING {
      var k := |order| - MAX_PENDING;
      if i < k {
        assert Oldest(order)[i] == f;
      } else {
        assert Newest(order)[i - k] == f;
      }
    }
  }

  lemma NewestListed(order: seq<FileName>, disk: Disk)
    requires Listing(order, disk)
    ensures Distinct(Newest(order)) && forall f :: f in Newest(order) ==> f in disk
  {
    SortedDistinct(order);
    forall f | f in Newest(order)
      ensures f in disk
    {
      assert f in order;
    }
  }

  /** Loading keeps every finished save, and each of them is read. */
  lemma LoadKeepsSaves(order: seq<FileName>, disk: Disk)
    requires Listing(order, disk) && NamesGood(disk)
    requires |SavedPart(disk)| <= MAX_PENDING && AllReadable(SavedPart(disk))
    ensures SavedPart(Loaded(order, disk)) == SavedPart(disk)
    ensures PartOf(Newest(order), disk) == SavedPart(disk)
  {
    NewestListed(order, disk);
    forall f | f in SavedPart(disk)
      ensures f in Newest(order) && disk[f].Json? && f !in Oldest(order)
    {
      SaveIsLoaded(order, disk, f);
    }
    SavedKept(disk, Oldest(order), Newest(order));
  }

  lemma SaveIsLoaded(order: seq<FileName>, disk: Disk, f: FileName)
    requires Listing(order, disk) && NamesGood(disk)
    requires |SavedPart(disk)| <= MAX_PENDING && AllReadable(SavedPart(disk)) && f in SavedPart(disk)
    ensures f in Newest(order) && disk[f].Json? && f !in Oldest(order)
  {
    assert SavedPart(disk)[f].Json?;
    NewestOrOldest(order, f);
    if f in Oldest(order) {
      OldestAreLeftovers(order, disk, f);
    }
  }

  lemma SavedKept(disk: Disk, oldest: seq<FileName>, newest: seq<FileName>)
    requires forall f :: f in newest ==> f in disk
    requires forall f :: f in SavedPart(disk) ==> f in newest && disk[f].Json? && f !in oldest
    ensures SavedPart(disk - Members(oldest) - Unreadable(newest, disk)) == SavedPart(disk)
    ensures PartOf(newest, disk) == SavedPart(disk)
  {
  }

  /** A restart sheds leftovers only: every finished save is queued again, and the
      finished saves mirror the queue. */
  lemma RestartLoadsAll(disk: Disk, order: seq<FileName>)
    requires Listing(order, disk) && NamesGood(disk)
    requires |SavedPart(disk)| <= MAX_PENDING && AllReadable(SavedPart(disk))
    ensures |Readable(Newest(order), disk)| <= MAX_PENDING
    ensures Mirrored(Readable(Newest(order), disk), SavedPart(disk))
    ensures SavedPart(Loaded(order, disk)) == SavedPart(disk)
    ensures forall item :: item in OnDisk(disk) ==> item in Items(Readable(Newest(order), disk))
  {
    LoadKeepsSaves(order, disk);
    NewestListed(order, disk);
    ReadableBounded(Newest(order), disk);
    ReadableMirrors(Newest(order), disk);
    forall item | item in OnDisk(disk)
      ensures item in Items(Readable(Newest(order), disk))
    {
      LoadedAgain(Newest(order), disk, item);
    }
  }

  lemma LoadedAgain(order: seq<FileName>, disk: Disk, item: Item)
    requires (forall f :: f in order ==> f in disk) && item in OnDisk(disk) && PartOf(order, disk) == SavedPart(disk)
    ensures item in Items(Readable(order, disk))
  {
    var f :| f in SavedPart(disk) && disk[f].Json? && disk[f].item == item;
    assert f in PartOf(order, disk);
    ReadableHas(order, disk, f);
    var queue := Readable(order, disk);
    var k :| 0 <= k < |queue| && queue[k] == Pending(item, Some(f));
    assert Items(queue)[k] == item;
  }

  // ---------------------------------------------------------------------
  // Every step keeps the invariant
  // ---------------------------------------------------------------------

  /** A save finds a free name, because there are fewer than 500 finished saves. */
  lemma SaveIsFresh(s: State)
    requires Inv(s) && s.phase.Saving?
    ensures var name := PickName(s.disk, s.phase.incoming.alert, 0);
            && !IsTemp(name) && name !in SavedPart(s.disk) && |SavedPart(s.disk)| < MAX_PENDING
            && IsTemp(TempFor(name, s.pid))
  {
    MirrorBounded(s.queue, SavedPart(s.disk));
    PickNameFree(s.disk, s.phase.incoming.alert, 0);
    PickNotTemp(s.disk, s.phase.incoming.alert, 0);
    TempIsTemp(PickName(s.disk, s.phase.incoming.alert, 0), s.pid);
  }

  lemma FailKeepsInv(s: State, saves: Disk, name: FileName, temp: FileName, outcome: Outcome)
    requires InvOn(s, saves) && s.phase.Saving? && outcome.Failed?
    ensures InvOn(DoWrite(s, s.phase.incoming, name, temp, outcome), saves)
  {
  }

  lemma FinishKeepsInv(s: State, saves: Disk, name: FileName, temp: FileName)
    requires InvOn(s, saves) && s.phase.Saving? && |saves| < MAX_PENDING && name !in saves && !IsTemp(name)
    ensures var item := s.phase.incoming;
            InvOn(DoWrite(s, item, name, temp, Outcome.Finished), saves[name := Json(item)])
  {
    var item := s.phase.incoming;
    AddFile(saves, name, item);
    MirrorWrite(s.queue, saves, name, item);
    assert Durable(Some(name)) == Some(name);
    assert Accounted(s.ledger.(saved := s.ledger.saved + {item}), saves[name := Json(item)]);
  }

  lemma SaveKeepsInv(s: State, outcome: Outcome)
    requires Inv(s) && s.phase.Saving?
    ensures Inv(DoSave(s, s.phase.incoming, outcome))
  {
    var name := PickName(s.disk, s.phase.incoming.alert, 0);
    SaveIsFresh(s);
    if outcome.Finished? {
      FinishKeepsInv(s, SavedPart(s.disk), name, TempFor(name, s.pid));
    } else {
      FailKeepsInv(s, SavedPart(s.disk), name, TempFor(name, s.pid), outcome);
    }
    SavedWritten(s.disk, name, TempFor(name, s.pid), s.phase.incoming, outcome);
  }

  lemma ForgetKeepsInv(s: State, saves: Disk, file: Option<FileName>, phase: Phase)
    requires InvOn(s, saves) && HeldFile(s.phase) == file
    requires s.phase.Evicting? || s.phase.Forgetting?
    requires phase.Ready? || phase.Saving?
    ensures InvOn(DoForget(s, file, phase), Forgotten(saves, Durable(file)))
  {
    ForgetAccounted(s.ledger, saves, Durable(file));
    MirrorBounded(s.queue, Forgotten(saves, Durable(file)));
  }

  lemma CrashKeepsInv(s: State, torn: Option<Content>)
    requires Inv(s) && Enabled(s, Crash(torn))
    ensures Inv(DoCrash(s, TempInUse(s), torn))
  {
    if torn.Some? {
      SaveIsFresh(s);
    }
    SavedTorn(s.disk, TempInUse(s), torn);
  }

  lemma RestartKeepsInv(s: State, order: seq<FileName>, pid: nat)
    requires Inv(s) && NamesGood(s.disk) && Enabled(s, Restart(order, pid))
    ensures Inv(DoRestart(s, order, pid))
  {
    var s', saves := DoRestart(s, order, pid), SavedPart(s.disk);
    RestartLoadsAll(s.disk, order);
    assert s'.queue == Readable(Newest(order), s.disk);
    LoadedInv(s, s', saves);
  }

  lemma LoadedInv(s: State, s': State, saves: Disk)
    requires InvOn(s, saves) && SavedPart(s'.disk) == saves && s'.ledger == s.ledger
    requires s'.phase.Ready? && |s'.queue| <= MAX_PENDING && Mirrored(s'.queue, saves)
    ensures Inv(s')
  {
  }

  lemma GarbageIsTemp(disk: Disk, f: FileName)
    requires AllReadable(SavedPart(disk)) && f in disk && disk[f].Garbage?
    ensures IsTemp(f)
  {
    assert !IsTemp(f) ==> f in SavedPart(disk);
  }

  lemma SweepKeepsInv(s: State, order: seq<FileName>, f: FileName)
    requires Inv(s) && NamesGood(s.disk) && Enabled(s, Sweep(order, f))
    ensures IsTemp(f) && Inv(Apply(s, Sweep(order, f)))
  {
    if |order| > MAX_PENDING && f == order[0] {
      ShedsLeftovers(order, s.disk, 0);
    } else {
      GarbageIsTemp(s.disk, f);
    }
    SavedForget(s.disk, Some(f));
  }

  lemma ReceiveKeepsInv(s: State, saves: Disk, alert: Alert)
    requires InvOn(s, saves) && s.phase.Ready?
    ensures InvOn(DoReceive(s, alert), saves)
  {
    if |s.queue| >= MAX_PENDING {
      MirrorDrop(s.queue, saves, Victim(s.queue));
    }
  }

  lemma PopKeepsInv(s: State, saves: Disk)
    requires InvOn(s, saves) && (s.phase.Accepted? || s.phase.Refused?)
    ensures InvOn(DoPop(s), saves)
  {
    var s' := DoPop(s);
    MirrorDrop(s.queue, saves, 0);
    assert Without(s.queue, 0) == s.queue[1..];
    PoppedRight(s.queue[0], saves, s.ledger);
    assert s'.phase == Forgetting(s.queue[0].file) && s'.queue == s.queue[1..] && s'.ledger == s.ledger;
  }

  lemma PoppedRight(p: Pending, saves: Disk, ledger: Ledger)
    requires Durable(p.file).Some? ==> Holds(saves, Durable(p.file).value, p.item)
    requires p.item in ledger.delivered || p.item in ledger.dropped
    ensures PhaseRight(Forgetting(p.file), [], saves, ledger)
  {
  }

  lemma EnqueueKeepsInv(s: State, saves: Disk)
    requires InvOn(s, saves) && s.phase.Queueing?
    ensures InvOn(DoEnqueue(s, s.phase.incoming, s.phase.file), saves)
  {
    MirrorAppend(s.queue, saves, s.phase.incoming, s.phase.file);
  }

  /** A change of phase in which no file is held, with more alerts settled. */
  lemma PhaseKeepsInv(s: State, saves: Disk, phase: Phase, ledger: Ledger)
    requires InvOn(s, saves) && !Holding(s.phase) && !s.phase.Down? && !Holding(phase) && !phase.Down?
    requires ledger.saved == s.ledger.saved && s.ledger.delivered <= ledger.delivered && s.ledger.dropped <= ledger.dropped
    requires PhaseRight(phase, s.queue, saves, ledger)
    ensures InvOn(s.(phase := phase, ledger := ledger), saves)
  {
    assert HeldFile(s.phase) == None && HeldFile(phase) == None;
  }

  lemma SendKeepsInv(s: State, saves: Disk, step: Step)
    requires InvOn(s, saves) && Enabled(s, step)
    requires step.Send? || step.SendOk? || step.SendPermanent? || step.SendTransient?
    ensures InvOn(Apply(s, step), saves)
  {
    var s' := Apply(s, step);
    PhaseKeepsInv(s, saves, s'.phase, s'.ledger);
    assert s' == s.(phase := s'.phase, ledger := s'.ledger);
  }

  lemma StepKeepsInv(s: State, step: Step)
    requires Inv(s) && NamesGood(s.disk) && Enabled(s, step)
    ensures Inv(Apply(s, step))
  {
    var saves := SavedPart(s.disk);
    match step
    case Receive(alert) => ReceiveKeepsInv(s, saves, alert);
    case ForgetVictim =>
      ForgetKeepsInv(s, saves, s.phase.victim.file, Saving(s.phase.incoming));
      SavedForget(s.disk, s.phase.victim.file);
    case Write(outcome) => SaveKeepsInv(s, outcome);
    case Enqueue => EnqueueKeepsInv(s, saves);
    case Send => SendKeepsInv(s, saves, step);
    case SendOk => SendKeepsInv(s, saves, step);
    case SendPermanent => SendKeepsInv(s, saves, step);
    case SendTransient => SendKeepsInv(s, saves, step);
    case Pop => PopKeepsInv(s, saves);
    case Forget =>
      ForgetKeepsInv(s, saves, s.phase.file, Ready);
      SavedForget(s.disk, s.phase.file);
    case Crash(torn) => CrashKeepsInv(s, torn);
    case Sweep(order, f) => SweepKeepsInv(s, order, f);
    case Restart(order, pid) => RestartKeepsInv(s, order, pid);
  }

  /** Which files a step can add. */
  ghost function Added(s: State, step: Step): set<FileName>
    requires Enabled(s, step)
  {
    match step
    case Write(outcome) =>
      var name := PickName(s.disk, s.phase.incoming.alert, 0);
      if outcome.Finished? then {name} else if outcome.left.Some? then {TempFor(name, s.pid)} else {}
    case Crash(torn) => if torn.Some? then {TempInUse(s)} else {}
    case _ => {}
  }

  lemma StepAdds(s: State, step: Step)
    requires Enabled(s, step)
    ensures Apply(s, step).disk.Keys <= s.disk.Keys + Added(s, step)
  {
  }

  lemma {:induction false} PickStartsWithDigit(disk: Disk, a: Alert, n: nat)
    requires n < MAX_NAMES
    ensures var name := PickName(disk, a, n); name != [] && '0' <= name[0] <= '9'
    decreases MAX_NAMES - n
  {
    NameNotTemp(a, n);
    if NameFor(a, n) in disk && n + 1 < MAX_NAMES {
      PickStartsWithDigit(disk, a, n + 1);
    }
  }

  lemma StepNamesGood(s: State, step: Step)
    requires NamesGood(s.disk) && Enabled(s, step)
    ensures NamesGood(Apply(s, step).disk)
  {
    StepAdds(s, step);
    if s.phase.Saving? {
      var name := PickName(s.disk, s.phase.incoming.alert, 0);
      PickStartsWithDigit(s.disk, s.phase.incoming.alert, 0);
      TempIsTemp(name, s.pid);
    }
  }

  lemma {:induction false} RunKeepsInv(trace: seq<State>, steps: seq<Step>, i: nat)
    requires Run(trace, steps) && i < |trace|
    ensures Inv(trace[i]) && NamesGood(trace[i].disk)
  {
    if i > 0 {
      RunKeepsInv(trace, steps, i - 1);
      StepKeepsInv(trace[i - 1], steps[i - 1]);
      StepNamesGood(trace[i - 1], steps[i - 1]);
    } else {
      assert SavedPart(trace[0].disk) == map[];
    }
  }

  /** A restart keeps every finished save and queues its alert. */
  ghost predicate AllQueuedAgain(s: State, order: seq<FileName>, pid: nat)
    requires Enabled(s, Restart(order, pid))
  {
    var s' := Apply(s, Restart(order, pid));
    SavedPart(s'.disk) == SavedPart(s.disk) && forall item :: item in OnDisk(s.disk) ==> item in Items(s'.queue)
  }

  lemma RestartQueuesAll(s: State, order: seq<FileName>, pid: nat)
    requires Inv(s) && NamesGood(s.disk) && Enabled(s, Restart(order, pid))
    ensures AllQueuedAgain(s, order, pid)
  {
    RestartLoadsAll(s.disk, order);
  }

  lemma InvMeans(s: State)
    requires Inv(s)
    ensures s.ledger.saved <= s.ledger.delivered + s.ledger.dropped + OnDisk(s.disk) && |SavedPart(s.disk)| <= MAX_PENDING
  {
  }

  /** At-least-once delivery: at every point of every run, with crashes anywhere and writes
      failing at will, each alert ever saved has been delivered, was dropped (overflow or
      permanent refusal), or is in a finished save; there are at most 500 of those; and a
      restart at that point keeps and queues every one. */
  lemma AtLeastOnce(trace: seq<State>, steps: seq<Step>, i: nat)
    requires Run(trace, steps) && i < |trace|
    ensures trace[i].ledger.saved <= trace[i].ledger.delivered + trace[i].ledger.dropped + OnDisk(trace[i].disk)
    ensures |SavedPart(trace[i].disk)| <= 500
    ensures forall order, pid :: Enabled(trace[i], Restart(order, pid)) ==> AllQueuedAgain(trace[i], order, pid)
  {
    RunKeepsInv(trace, steps, i);
    InvMeans(trace[i]);
    forall order, pid | Enabled(trace[i], Restart(order, pid))
      ensures AllQueuedAgain(trace[i], order, pid)
    {
      RestartQueuesAll(trace[i], order, pid);
    }
  }

  // ---------------------------------------------------------------------
  // The queue conserves and orders
  // ---------------------------------------------------------------------

  /** `a` is what is left of `b` after deleting some elements. */
  predicate Subsequence(a: seq<Item>, b: seq<Item>)
    decreases |b|
  {
    if a == [] then true
    else if b == [] then false
    else if a[|a| - 1] == b[|b| - 1] then Subsequence(a[..|a| - 1], b[..|b| - 1])
    else Subsequence(a, b[..|b| - 1])
  }

  lemma {:induction false} SubsequenceInit(a: seq<Item>, b: seq<Item>)
    requires Subsequence(a, b) && a != []
    ensures Subsequence(a[..|a| - 1], b)
    decreases |b|, 0
  {
    var a', b' := a[..|a| - 1], b[..|b| - 1];
    if a[|a| - 1] == b[|b| - 1] {
      SubsequenceMore(a', b', b[|b| - 1]);
      assert b' + [b[|b| - 1]] == b;
    } else {
      SubsequenceInit(a, b');
      SubsequenceMore(a', b', b[|b| - 1]);
      assert b' + [b[|b| - 1]] == b;
    }
  }

  lemma {:induction false} SubsequenceMore(a: seq<Item>, b: seq<Item>, x: Item)
    requires Subsequence(a, b)
    ensures Subsequence(a, b + [x])
    decreases |b|, 1
  {
    assert (b + [x])[..|b|] == b;
    if a != [] && a[|a| - 1] == x {
      SubsequenceInit(a, b);
    }
  }

  lemma SubsequenceBoth(a: seq<Item>, b: seq<Item>, x: Item)
    requires Subsequence(a, b)
    ensures Subsequence(a + [x], b + [x])
  {
    assert (a + [x])[..|a|] == a && (b + [x])[..|b|] == b;
  }

  lemma WithoutInit(a: seq<Item>, i: nat)
    requires i < |a| - 1
    ensures Without(a, i) == Without(a[..|a| - 1], i) + [a[|a| - 1]]
  {
  }

  lemma WithoutLast(a: seq<Item>, i: nat)
    requires i == |a| - 1
    ensures Without(a, i) == a[..|a| - 1]
  {
  }

  lemma {:induction false} SubsequenceWithout(a: seq<Item>, b: seq<Item>, i: nat)
    requires Subsequence(a, b) && i < |a|
    ensures Subsequence(Without(a, i), b)
    decreases |b|
  {
    var a', b', y := a[..|a| - 1], b[..|b| - 1], b[|b| - 1];
    assert b == b' + [y];
    if i == |a| - 1 {
      SubsequenceInit(a, b);
      WithoutLast(a, i);
    } else if a[|a| - 1] == y {
      SubsequenceWithout(a', b', i);
      SubsequenceBoth(Without(a', i), b', y);
      WithoutInit(a, i);
    } else {
      SubsequenceWithout(a, b', i);
      SubsequenceMore(Without(a, i), b', y);
    }
  }

  /** The accepted alert not yet in the queue. */
  function Incoming(phase: Phase): seq<Item> {
    match phase
    case Evicting(_, incoming) => [incoming]
    case Saving(incoming) => [incoming]
    case Queueing(incoming, _) => [incoming]
    case _ => []
  }

  /** Everything of this life still in play, oldest first: what was sent, what is queued,
      what is being queued. */
  function Line(s: State): seq<Item> {
    s.life.sent + Items(s.queue) + Incoming(s.phase)
  }

  /** What arrived is what is in the line or was lost. */
  ghost predicate Balanced(s: State) {
    multiset(s.life.arrived) == multiset(Line(s)) + multiset(s.life.lost)
  }

  ghost predicate InOrder(s: State) {
    Subsequence(Line(s), s.life.arrived)
  }

  /** The queue was full, and what went was its oldest alert below CRITICAL, or its oldest
      if it held nothing else. */
  ghost predicate JustOverflow(o: Overflow) {
    |o.held| == 500 && exists v: nat :: Sheds(o.held, v) && o.held[v].item == o.victim
  }

  lemma ItemsSplit(queue: seq<Pending>, v: nat)
    requires v < |queue|
    ensures Items(queue) == Items(queue[..v]) + [queue[v].item] + Items(queue[v + 1..])
    ensures Items(Without(queue, v)) == Items(queue[..v]) + Items(queue[v + 1..])
  {
  }

  lemma DropBalances(sent: seq<Item>, queue: seq<Pending>, v: nat)
    requires v < |queue|
    ensures multiset(sent + Items(queue)) == multiset(sent + Items(Without(queue, v))) + multiset{queue[v].item}
  {
    ItemsSplit(queue, v);
  }

  lemma DropInOrder(sent: seq<Item>, queue: seq<Pending>, v: nat, arrived: seq<Item>)
    requires v < |queue| && Subsequence(sent + Items(queue), arrived)
    ensures Subsequence(sent + Items(Without(queue, v)), arrived)
  {
    ItemsSplit(queue, v);
    SubsequenceWithout(sent + Items(queue), arrived, |sent| + v);
    assert Without(sent + Items(queue), |sent| + v) == sent + Items(Without(queue, v));
  }

  lemma ReceiveBalances(s: State, alert: Alert)
    requires |s.queue| <= MAX_PENDING && s.phase.Ready? && Balanced(s)
    ensures Balanced(DoReceive(s, alert))
  {
    var s', item := DoReceive(s, alert), Item(alert, s.serial);
    var line := s.life.sent + Items(s'.queue);
    assert Line(s) == s.life.sent + Items(s.queue) && Line(s') == line + [item];
    assert multiset(Line(s')) == multiset(line) + multiset{item};
    if |s.queue| == MAX_PENDING {
      DropBalances(s.life.sent, s.queue, Victim(s.queue));
    }
  }

  lemma ReceiveInOrder(s: State, alert: Alert)
    requires |s.queue| <= MAX_PENDING && s.phase.Ready? && InOrder(s)
    ensures InOrder(DoReceive(s, alert))
  {
    var s', item := DoReceive(s, alert), Item(alert, s.serial);
    assert Line(s) == s.life.sent + Items(s.queue);
    if |s.queue| == MAX_PENDING {
      DropInOrder(s.life.sent, s.queue, Victim(s.queue), s.life.arrived);
    }
    SubsequenceBoth(s.life.sent + Items(s'.queue), s.life.arrived, item);
  }

  lemma ItemsFront(queue: seq<Pending>)
    requires queue != []
    ensures Items(queue) == [queue[0].item] + Items(queue[1..]) && Without(queue, 0) == queue[1..]
  {
  }

  lemma Regroup(a: seq<Item>, x: Item, b: seq<Item>)
    ensures (a + [x]) + b + [] == a + ([x] + b)
  {
  }

  lemma PopLine(s: State)
    requires s.queue != [] && (s.phase.Accepted? || s.phase.Refused?)
    ensures Line(s) == s.life.sent + Items(s.queue)
    ensures Without(s.queue, 0) == s.queue[1..]
    ensures s.phase.Accepted? ==> Line(DoPop(s)) == Line(s)
    ensures s.phase.Refused? ==> Line(DoPop(s)) == s.life.sent + Items(Without(s.queue, 0))
  {
    ItemsFront(s.queue);
    Regroup(s.life.sent, s.queue[0].item, Items(s.queue[1..]));
  }

  lemma PopBalances(s: State)
    requires s.queue != [] && (s.phase.Accepted? || s.phase.Refused?) && Balanced(s)
    ensures Balanced(DoPop(s))
  {
    PopLine(s);
    DropBalances(s.life.sent, s.queue, 0);
  }

  lemma PopInOrder(s: State)
    requires s.queue != [] && (s.phase.Accepted? || s.phase.Refused?) && InOrder(s)
    ensures InOrder(DoPop(s))
  {
    PopLine(s);
    if s.phase.Refused? {
      DropInOrder(s.life.sent, s.queue, 0, s.life.arrived);
    }
  }

  lemma {:induction false} SubsequenceSelf(a: seq<Item>)
    ensures Subsequence(a, a)
  {
    if a != [] {
      SubsequenceSelf(a[..|a| - 1]);
    }
  }

  lemma EnqueueLine(sent: seq<Item>, queue: seq<Pending>, item: Item, file: Option<FileName>)
    ensures sent + Items(queue + [Pending(item, file)]) + [] == sent + Items(queue) + [item]
  {
    assert Items(queue + [Pending(item, file)]) == Items(queue) + [item];
  }

  /** All other steps leave the line and this life's record alone, or start afresh. */
  lemma StepLine(s: State, step: Step)
    requires Enabled(s, step) && !step.Receive? && !step.Pop?
    ensures var s' := Apply(s, step);
            && (!step.Crash? && !step.Restart? ==> Line(s') == Line(s) && s'.life == s.life)
            && (step.Crash? || step.Restart? ==> Line(s') == s'.life.arrived && s'.life.lost == [] && s'.life.overflows == [])
  {
    if step.Enqueue? {
      EnqueueLine(s.life.sent, s.queue, s.phase.incoming, s.phase.file);
    }
  }

  lemma StepConserves(s: State, step: Step)
    requires Inv(s) && Enabled(s, step)
    ensures Balanced(s) ==> Balanced(Apply(s, step))
    ensures InOrder(s) ==> InOrder(Apply(s, step))
  {
    if step.Receive? {
      if Balanced(s) { ReceiveBalances(s, step.alert); }
      if InOrder(s) { ReceiveInOrder(s, step.alert); }
    } else if step.Pop? {
      if Balanced(s) { PopBalances(s); }
      if InOrder(s) { PopInOrder(s); }
    } else {
      StepLine(s, step);
      SubsequenceSelf(Apply(s, step).life.arrived);
    }
  }

  ghost predicate Justified(overflows: seq<Overflow>) {
    forall i :: 0 <= i < |overflows| ==> JustOverflow(overflows[i])
  }

  lemma StepJustified(s: State, step: Step)
    requires Inv(s) && Enabled(s, step) && Justified(s.life.overflows)
    ensures Justified(Apply(s, step).life.overflows)
  {
    if !step.Receive? && !step.Pop? {
      StepLine(s, step);
    } else if step.Receive? && |s.queue| == MAX_PENDING {
      assert Sheds(s.queue, Victim(s.queue));
    }
  }

  lemma {:induction false} RunConserves(trace: seq<State>, steps: seq<Step>, i: nat)
    requires Run(trace, steps) && i < |trace|
    ensures Balanced(trace[i]) && InOrder(trace[i]) && Justified(trace[i].life.overflows)
  {
    if i > 0 {
      RunConserves(trace, steps, i - 1);
      RunKeepsInv(trace, steps, i - 1);
      StepConserves(trace[i - 1], steps[i - 1]);
      StepJustified(trace[i - 1], steps[i - 1]);
    }
  }

  lemma {:induction false} SubsequencePrefix(a: seq<Item>, rest: seq<Item>, b: seq<Item>)
    requires Subsequence(a + rest, b)
    ensures Subsequence(a, b)
    decreases |rest|
  {
    if rest == [] {
      assert a + rest == a;
    } else {
      SubsequenceInit(a + rest, b);
      assert (a + rest)[..|a + rest| - 1] == a + rest[..|rest| - 1];
      SubsequencePrefix(a, rest[..|rest| - 1], b);
    }
  }

  /** The queue over every run: since the last start, what arrived (loaded or received)
      is exactly what was sent, given up on, queued or is being queued; what was sent is
      in arrival order; the queue never exceeds 500; a CRITICAL is shed only from a
      queue of CRITICALs; and what is popped is what the channel was just given. */
  lemma QueueGuarantees(trace: seq<State>, steps: seq<Step>, i: nat)
    requires Run(trace, steps) && i < |trace|
    ensures var s := trace[i];
            multiset(s.life.arrived)
            == multiset(s.life.sent + Items(s.queue) + Incoming(s.phase)) + multiset(s.life.lost)
    ensures Subsequence(trace[i].life.sent, trace[i].life.arrived)
    ensures |trace[i].queue| <= 500
    ensures Justified(trace[i].life.overflows)
    ensures trace[i].phase.Accepted? || trace[i].phase.Refused? ==>
              trace[i].queue != [] && trace[i].queue[0].item == trace[i].phase.item
  {
    RunKeepsInv(trace, steps, i);
    RunConserves(trace, steps, i);
    var s := trace[i];
    var rest := Items(s.queue) + Incoming(s.phase);
    assert Line(s) == s.life.sent + rest;
    SubsequencePrefix(s.life.sent, rest, s.life.arrived);
  }

  // ---------------------------------------------------------------------
  // Copies are told apart
  // ---------------------------------------------------------------------

  predicate Below(xs: seq<Item>, n: nat) {
    forall x :: x in xs ==> x.serial < n
  }

  ghost predicate SetBelow(xs: set<Item>, n: nat) {
    forall x :: x in xs ==> x.serial < n
  }

  /** Every copy seen so far was numbered before now. */
  ghost predicate Numbered(s: State) {
    && SetBelow(s.ledger.saved, s.serial) && SetBelow(s.ledger.delivered, s.serial) && SetBelow(s.ledger.dropped, s.serial)
    && SetBelow(Readables(s.disk), s.serial)
    && Below(Line(s), s.serial)
    && (s.phase.Sending? || s.phase.Accepted? || s.phase.Refused? ==> s.phase.item.serial < s.serial)
  }

  lemma BelowConcat(a: seq<Item>, b: seq<Item>, n: nat)
    ensures Below(a + b, n) <==> Below(a, n) && Below(b, n)
  {
    forall x | x in a || x in b
      ensures x in a + b
    {
    }
  }

  lemma BelowOne(x: Item, n: nat)
    ensures Below([x], n) <==> x.serial < n
  {
    assert x in [x];
  }

  /** One copy out of the middle leaves the rest. */
  lemma BelowWithout(queue: seq<Pending>, v: nat, n: nat)
    requires v < |queue| && Below(Items(queue), n)
    ensures Below(Items(Without(queue, v)), n) && queue[v].item.serial < n
  {
    var a, b := Items(queue[..v]), Items(queue[v + 1..]);
    ItemsSplit(queue, v);
    BelowConcat(a + [queue[v].item], b, n);
    BelowConcat(a, [queue[v].item], n);
    BelowConcat(a, b, n);
    BelowOne(queue[v].item, n);
  }

  lemma LineBelow(s: State, n: nat)
    ensures Below(Line(s), n) <==> Below(s.life.sent, n) && Below(Items(s.queue), n) && Below(Incoming(s.phase), n)
  {
    BelowConcat(s.life.sent + Items(s.queue), Incoming(s.phase), n);
    BelowConcat(s.life.sent, Items(s.queue), n);
  }

  lemma FilesBelow(disk: Disk, name: FileName, c: Content, n: nat)
    requires SetBelow(Readables(disk), n) && (c.Json? ==> c.item.serial < n)
    ensures SetBelow(Readables(disk[name := c]), n)
  {
    var disk' := disk[name := c];
    forall x | x in Readables(disk')
      ensures x.serial < n
    {
      var f :| f in disk' && disk'[f].Json? && disk'[f].item == x;
      if f != name {
        assert f in disk && disk[f] == disk'[f];
      }
    }
  }

  lemma FewerBelow(disk: Disk, gone: set<FileName>, n: nat)
    requires SetBelow(Readables(disk), n)
    ensures SetBelow(Readables(disk - gone), n)
  {
    forall x | x in Readables(disk - gone)
      ensures x in Readables(disk)
    {
      var f :| f in disk - gone && (disk - gone)[f].Json? && (disk - gone)[f].item == x;
      assert f in disk && disk[f] == (disk - gone)[f];
    }
  }

  lemma TornBelow(disk: Disk, temp: FileName, left: Option<Content>, item: Item, n: nat)
    requires SetBelow(Readables(disk), n) && CanLeave(item, left) && item.serial < n
    ensures SetBelow(Readables(Torn(disk, temp, left)), n)
  {
    if left.Some? {
      FilesBelow(disk, temp, left.value, n);
    }
  }

  lemma WrittenBelow(disk: Disk, name: FileName, temp: FileName, item: Item, outcome: Outcome, n: nat)
    requires SetBelow(Readables(disk), n) && Possible(item, outcome) && item.serial < n
    ensures SetBelow(Readables(Written(disk, name, temp, item, outcome)), n)
  {
    match outcome
    case Finished =>
      FewerBelow(disk, {temp}, n);
      FilesBelow(disk - {temp}, name, Json(item), n);
    case Failed(left) => TornBelow(disk, temp, left, item, n);
  }

  lemma ReadableBelow(order: seq<FileName>, disk: Disk, n: nat)
    requires (forall f :: f in order ==> f in disk) && SetBelow(Readables(disk), n)
    ensures Below(Items(Readable(order, disk)), n)
  {
    var queue := Readable(order, disk);
    forall x | x in Items(queue)
      ensures x.serial < n
    {
      var k :| 0 <= k < |queue| && queue[k].item == x;
      ReadableFromFiles(order, disk, queue[k]);
      assert x in Readables(disk);
    }
  }

  lemma WriteNumbered(s: State, outcome: Outcome)
    requires Numbered(s) && Enabled(s, Write(outcome))
    ensures Numbered(DoSave(s, s.phase.incoming, outcome))
  {
    var item, name := s.phase.incoming, PickName(s.disk, s.phase.incoming.alert, 0);
    LineBelow(s, s.serial);
    BelowOne(item, s.serial);
    WrittenBelow(s.disk, name, TempFor(name, s.pid), item, outcome, s.serial);
    assert Line(DoSave(s, item, outcome)) == Line(s);
  }

  lemma CrashNumbered(s: State, torn: Option<Content>)
    requires Numbered(s) && Enabled(s, Crash(torn))
    ensures Numbered(DoCrash(s, TempInUse(s), torn))
  {
    LineBelow(s, s.serial);
    if torn.Some? {
      BelowOne(s.phase.incoming, s.serial);
      TornBelow(s.disk, TempInUse(s), torn, s.phase.incoming, s.serial);
    }
    assert Line(DoCrash(s, TempInUse(s), torn)) == [];
  }

  lemma RestartNumbered(s: State, order: seq<FileName>, pid: nat)
    requires Numbered(s) && Enabled(s, Restart(order, pid))
    ensures Numbered(DoRestart(s, order, pid))
  {
    var s' := DoRestart(s, order, pid);
    forall f | f in Newest(order)
      ensures f in s.disk
    {
      assert f in order;
    }
    ReadableBelow(Newest(order), s.disk, s.serial);
    FewerBelow(s.disk, Members(Oldest(order)), s.serial);
    FewerBelow(s.disk - Members(Oldest(order)), Unreadable(Newest(order), s.disk), s.serial);
    LineBelow(s', s.serial);
  }

  lemma ReceiveNumbered(s: State, alert: Alert)
    requires Numbered(s) && s.phase.Ready?
    ensures Numbered(DoReceive(s, alert))
  {
    var s', item, n := DoReceive(s, alert), Item(alert, s.serial), s.serial;
    LineBelow(s, n);
    LineBelow(s', n + 1);
    BelowOne(item, n + 1);
    if |s.queue| >= MAX_PENDING {
      BelowWithout(s.queue, Victim(s.queue), n);
    }
  }

  lemma PopNumbered(s: State)
    requires Numbered(s) && s.queue != [] && (s.phase.Accepted? || s.phase.Refused?)
    ensures Numbered(DoPop(s))
  {
    var n := s.serial;
    LineBelow(s, n);
    LineBelow(DoPop(s), n);
    BelowWithout(s.queue, 0, n);
    assert Without(s.queue, 0) == s.queue[1..];
    BelowConcat(s.life.sent, [s.queue[0].item], n);
    BelowOne(s.queue[0].item, n);
  }

  lemma ForgetNumbered(s: State, file: Option<FileName>, phase: Phase)
    requires Numbered(s) && Incoming(phase) == Incoming(s.phase) && (phase.Ready? || phase.Saving?)
    ensures Numbered(DoForget(s, file, phase))
  {
    if file.Some? {
      FewerBelow(s.disk, {file.value}, s.serial);
    }
    assert Line(DoForget(s, file, phase)) == Line(s);
  }

  lemma StepNumbered(s: State, step: Step)
    requires Enabled(s, step) && Numbered(s)
    ensures Numbered(Apply(s, step))
  {
    match step
    case Receive(alert) => ReceiveNumbered(s, alert);
    case ForgetVictim => ForgetNumbered(s, s.phase.victim.file, Saving(s.phase.incoming));
    case Write(outcome) => WriteNumbered(s, outcome);
    case Enqueue => StepLine(s, step);
    case Send =>
      LineBelow(s, s.serial);
      BelowWithout(s.queue, 0, s.serial);
      StepLine(s, step);
    case SendOk => StepLine(s, step);
    case SendPermanent => StepLine(s, step);
    case SendTransient => StepLine(s, step);
    case Pop => PopNumbered(s);
    case Forget => ForgetNumbered(s, s.phase.file, Ready);
    case Crash(torn) => CrashNumbered(s, torn);
    case Sweep(order, f) =>
      FewerBelow(s.disk, {f}, s.serial);
      StepLine(s, step);
    case Restart(order, pid) => RestartNumbered(s, order, pid);
  }

  lemma {:induction false} RunNumbered(trace: seq<State>, steps: seq<Step>, i: nat)
    requires Run(trace, steps) && i < |trace|
    ensures Numbered(trace[i])
  {
    if i > 0 {
      RunNumbered(trace, steps, i - 1);
      StepNumbered(trace[i - 1], steps[i - 1]);
    }
  }

  /** The number a new alert gets belongs to no copy saved, delivered, dropped or in play,
      so each accepted copy is accounted for by itself. */
  lemma CopiesAreDistinct(trace: seq<State>, steps: seq<Step>, i: nat, x: Item)
    requires Run(trace, steps) && i < |steps| && steps[i].Receive?
    requires var s := trace[i]; x in s.ledger.saved + s.ledger.delivered + s.ledger.dropped || x in Line(s)
    ensures x != Item(steps[i].alert, trace[i].serial)
  {
    RunNumbered(trace, steps, i);
  }

  // ---------------------------------------------------------------------
  // The steps are the operations of the queue
  // ---------------------------------------------------------------------

  /** Receiving one alert without a crash, step by step, is one `take`. */
  lemma TakeIsSteps(s: State, alert: Alert, outcome: Outcome, q: Queue)
    requires |s.queue| <= MAX_PENDING && s.phase.Ready? && q.queue == s.queue && q.disk == s.disk && q.pid == s.pid
    requires Possible(Item(alert, s.serial), outcome)
    ensures var item := Item(alert, s.serial);
            var s1 := Apply(s, Receive(alert));
            var s2 := if |s.queue| < MAX_PENDING then s1 else Apply(s1, ForgetVictim);
            var s3 := Apply(s2, Write(outcome));
            var s4 := Apply(s3, Enqueue);
            var q' := Taken(q, NewAlert(item), outcome);
            s4.phase.Ready? && s4.queue == q'.queue && s4.disk == q'.disk
  {
  }
}
