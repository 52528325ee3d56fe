/** Alert reference ids, `RefGen` of hermian-core/src/alert.rs: `HER-YYYY-MMDD-NNN`,
    numbered per day, never issued twice even if the clock steps back or the daemon
    restarts. */
module RefIds {
  import opened Common

  // ---------------------------------------------------------------------
  // Decimal text
  // ---------------------------------------------------------------------

  function Digit(d: nat): char
    requires d < 10
  {
    '0' + d as char
  }

  predicate AllDigits(s: string) {
    forall i :: 0 <= i < |s| ==> '0' <= s[i] <= '9'
  }

  function Zeros(k: nat): (s: string)
    ensures |s| == k && AllDigits(s)
  {
    seq(k, _ => '0')
  }

  /** Decimal, without padding. */
  function Decimal(n: nat): (s: string)
    ensures |s| >= 1
    ensures AllDigits(s)
  {
    if n < 10 then [Digit(n)] else Decimal(n / 10) + [Digit(n % 10)]
  }

  /** Zero-padded to at least `width` characters, as `{:0width}` prints. */
  function Padded(n: nat, width: nat): (s: string)
    ensures |s| >= width
    ensures AllDigits(s)
  {
    Pad(Decimal(n), width)
  }

  function Pad(d: string, width: nat): (s: string)
    requires AllDigits(d)
    ensures |s| >= width && |s| >= |d|
    ensures AllDigits(s)
  {
    if |d| >= width then d else Zeros(width - |d|) + d
  }

  /** The number a digit string stands for. */
  function Value(s: string): nat
    requires AllDigits(s)
  {
    if s == [] then 0 else Value(s[..|s| - 1]) * 10 + (s[|s| - 1] - '0') as nat
  }

  lemma {:induction false} DecimalValue(n: nat)
    ensures Value(Decimal(n)) == n
  {
    var s := Decimal(n);
    if n < 10 {
      assert Value(s[..0]) == 0;
    } else {
      DecimalValue(n / 10);
      assert s[..|s| - 1] == Decimal(n / 10);
    }
  }

  lemma {:induction false} ZerosValue(k: nat, s: string)
    requires AllDigits(s)
    ensures Value(Zeros(k) + s) == Value(s)
    decreases |s|, k
  {
    var all := Zeros(k) + s;
    if s != [] {
      ZerosValue(k, s[..|s| - 1]);
      assert all[..|all| - 1] == Zeros(k) + s[..|s| - 1];
    } else if k > 0 {
      ZerosValue(k - 1, []);
      assert all[..|all| - 1] == Zeros(k - 1) + [];
    }
  }

  /** Padding loses nothing. */
  lemma {:induction false} PaddedValue(n: nat, width: nat)
    ensures Value(Padded(n, width)) == n
  {
    DecimalValue(n);
    PadValue(Decimal(n), width);
  }

  lemma {:induction false} PadValue(d: string, width: nat)
    requires AllDigits(d)
    ensures Value(Pad(d, width)) == Value(d)
  {
    if |d| < width {
      ZerosValue(width - |d|, d);
    }
  }

  lemma {:induction false} DecimalLength(n: nat, k: nat, bound: nat)
    requires k >= 1 && n < bound && bound == Pow10(k)
    ensures |Decimal(n)| <= k
  {
    assert Pow10(k) == 10 * Pow10(k - 1) && (k == 1 ==> Pow10(k - 1) == 1);
    if n >= 10 {
      DecimalLength(n / 10, k - 1, Pow10(k - 1));
    }
  }

  function Pow10(k: nat): nat {
    if k == 0 then 1 else 10 * Pow10(k - 1)
  }

  // ---------------------------------------------------------------------
  // Text order
  // ---------------------------------------------------------------------

  /** Byte order of ASCII strings. */
  predicate Less(a: string, b: string) {
    if b == [] then false
    else if a == [] then true
    else a[0] < b[0] || (a[0] == b[0] && Less(a[1..], b[1..]))
  }

  lemma {:induction false} LessSplit(a1: string, b1: string, a2: string, b2: string)
    requires |a1| == |b1|
    ensures Less(a1 + a2, b1 + b2) <==> Less(a1, b1) || (a1 == b1 && Less(a2, b2))
  {
    if a1 == [] {
      assert a1 + a2 == a2 && b1 + b2 == b2;
    } else {
      assert (a1 + a2)[1..] == a1[1..] + a2 && (b1 + b2)[1..] == b1[1..] + b2;
      LessSplit(a1[1..], b1[1..], a2, b2);
      assert a1 == [a1[0]] + a1[1..] && b1 == [b1[0]] + b1[1..];
    }
  }

  lemma {:induction false} LessTotal(a: string, b: string)
    ensures Less(a, b) || a == b || Less(b, a)
    ensures !(Less(a, b) && Less(b, a)) && !Less(a, a)
  {
    if a != [] && b != [] {
      LessTotal(a[1..], b[1..]);
      assert a == [a[0]] + a[1..] && b == [b[0]] + b[1..];
    }
    if a != [] {
      LessIrreflexive(a);
    }
  }

  lemma {:induction false} LessIrreflexive(a: string)
    ensures !Less(a, a)
  {
    if a != [] {
      LessIrreflexive(a[1..]);
    }
  }

  lemma {:induction false} LessTransitive(a: string, b: string, c: string)
    requires Less(a, b) && Less(b, c)
    ensures Less(a, c)
  {
    if a != [] {
      if a[0] == b[0] && b[0] == c[0] {
        LessTransitive(a[1..], b[1..], c[1..]);
      }
    }
  }

  lemma LessOne(x: char, y: char)
    ensures Less([x], [y]) <==> x < y
  {
  }

  lemma LessLast(a: string, b: string, x: char, y: char)
    requires |a| == |b|
    ensures Less(a + [x], b + [y]) <==> Less(a, b) || (a == b && x < y)
  {
    LessSplit(a, b, [x], [y]);
    LessOne(x, y);
  }

  lemma ValueLast(a: string, x: char)
    requires AllDigits(a) && '0' <= x <= '9'
    ensures AllDigits(a + [x]) && Value(a + [x]) == Value(a) * 10 + (x - '0') as nat
  {
    assert (a + [x])[..|a|] == a;
  }

  /** Digit strings of one length sort as numbers. */
  lemma {:induction false} LessIsNumeric(a: string, b: string)
    requires |a| == |b|
    requires AllDigits(a) && AllDigits(b)
    ensures Less(a, b) <==> Value(a) < Value(b)
    decreases |a|
  {
    if a != [] {
      var a', b' := a[..|a| - 1], b[..|b| - 1];
      var x, y := a[|a| - 1], b[|b| - 1];
      assert a == a' + [x] && b == b' + [y];
      LessIsNumeric(a', b');
      LessIsNumeric(b', a');
      LessTotal(a', b');
      LessLast(a', b', x, y);
      ValueLast(a', x);
      ValueLast(b', y);
    }
  }

  // ---------------------------------------------------------------------
  // Days
  // ---------------------------------------------------------------------

  /** A calendar date of the years 0000 to 9999. */
  datatype Date = Date(year: nat, month: nat, day: nat)

  predicate ValidDate(d: Date) {
    d.year < 10000 && 1 <= d.month <= 12 && 1 <= d.day <= 31
  }

  function DayNumber(d: Date): nat {
    d.year * 10000 + d.month * 100 + d.day
  }

  /** `YYYY-MMDD`. */
  function DayKey(d: Date): string {
    Padded(d.year, 4) + ['-'] + Padded(d.month, 2) + Padded(d.day, 2)
  }

  predicate IsDayKey(s: string) {
    |s| == 9 && s[4] == '-' && forall i :: 0 <= i < 9 ==> i == 4 || '0' <= s[i] <= '9'
  }

  lemma PaddedLength(n: nat, k: nat)
    requires k >= 1 && n < Pow10(k)
    ensures |Padded(n, k)| == k
  {
    DecimalLength(n, k, Pow10(k));
  }

  lemma DayKeyShape(d: Date)
    requires ValidDate(d)
    ensures |Padded(d.year, 4)| == 4 && |Padded(d.month, 2)| == 2 && |Padded(d.day, 2)| == 2
    ensures IsDayKey(DayKey(d))
  {
    assert Pow10(1) == 10 && Pow10(2) == 100 && Pow10(3) == 1000 && Pow10(4) == 10000;
    PaddedLength(d.year, 4);
    PaddedLength(d.month, 2);
    PaddedLength(d.day, 2);
  }

  lemma PaddedOrder(m: nat, n: nat, k: nat)
    requires |Padded(m, k)| == |Padded(n, k)| == k
    ensures Less(Padded(m, k), Padded(n, k)) <==> m < n
    ensures Padded(m, k) == Padded(n, k) <==> m == n
  {
    PaddedValue(m, k);
    PaddedValue(n, k);
    LessIsNumeric(Padded(m, k), Padded(n, k));
  }

  /** Texts in three parts of equal lengths sort part by part. */
  lemma PartsOrder(y1: string, y2: string, sep: string, m1: string, m2: string, d1: string, d2: string)
    requires |y1| == |y2| && |m1| == |m2| && |d1| == |d2|
    ensures Less(y1 + (sep + (m1 + d1)), y2 + (sep + (m2 + d2))) <==>
            Less(y1, y2) || (y1 == y2 && (Less(m1, m2) || (m1 == m2 && Less(d1, d2))))
  {
    LessSplit(y1, y2, sep + (m1 + d1), sep + (m2 + d2));
    LessSplit(sep, sep, m1 + d1, m2 + d2);
    LessIrreflexive(sep);
    LessSplit(m1, m2, d1, d2);
  }

  lemma EqualFront(a1: string, a2: string, b1: string, b2: string)
    requires |a1| == |a2| && a1 + b1 == a2 + b2
    ensures a1 == a2 && b1 == b2
  {
    assert a1 == (a1 + b1)[..|a1|] == (a2 + b2)[..|a1|] == a2;
    assert b1 == (a1 + b1)[|a1|..] == (a2 + b2)[|a1|..] == b2;
  }

  lemma PartsEqual(y1: string, y2: string, sep: string, m1: string, m2: string, d1: string, d2: string)
    requires |y1| == |y2| && |m1| == |m2| && |d1| == |d2|
    requires y1 + (sep + (m1 + d1)) == y2 + (sep + (m2 + d2))
    ensures y1 == y2 && m1 == m2 && d1 == d2
  {
    EqualFront(y1, y2, sep + (m1 + d1), sep + (m2 + d2));
    EqualFront(sep, sep, m1 + d1, m2 + d2);
    EqualFront(m1, m2, d1, d2);
  }

  lemma FourParts(y: string, sep: string, m: string, d: string)
    ensures y + sep + m + d == y + (sep + (m + d))
  {
  }

  lemma DayNumberOrder(a: Date, b: Date)
    requires ValidDate(a) && ValidDate(b)
    ensures DayNumber(a) < DayNumber(b) <==>
            a.year < b.year || (a.year == b.year && (a.month < b.month || (a.month == b.month && a.day < b.day)))
  {
  }

  lemma KeyParts(d: Date, sep: string, y: string, m: string, dd: string)
    requires sep == ['-'] && y == Padded(d.year, 4) && m == Padded(d.month, 2) && dd == Padded(d.day, 2)
    ensures DayKey(d) == y + (sep + (m + dd))
  {
    FourParts(y, sep, m, dd);
  }

  /** The key sorts as a date. */
  lemma DayKeyOrder(a: Date, b: Date)
    requires ValidDate(a) && ValidDate(b)
    ensures Less(DayKey(a), DayKey(b)) <==> DayNumber(a) < DayNumber(b)
    ensures DayKey(a) == DayKey(b) <==> a == b
  {
    DayKeyShape(a);
    DayKeyShape(b);
    DayNumberOrder(a, b);
    PaddedOrder(a.year, b.year, 4);
    PaddedOrder(a.month, b.month, 2);
    PaddedOrder(a.day, b.day, 2);
    KeysOrder(a, b, Padded(a.year, 4), Padded(b.year, 4), Padded(a.month, 2), Padded(b.month, 2),
              Padded(a.day, 2), Padded(b.day, 2));
  }

  lemma KeysOrder(a: Date, b: Date, y1: string, y2: string, m1: string, m2: string, d1: string, d2: string)
    requires y1 == Padded(a.year, 4) && m1 == Padded(a.month, 2) && d1 == Padded(a.day, 2)
    requires y2 == Padded(b.year, 4) && m2 == Padded(b.month, 2) && d2 == Padded(b.day, 2)
    requires |y1| == |y2| && |m1| == |m2| && |d1| == |d2|
    ensures Less(DayKey(a), DayKey(b)) <==>
            Less(y1, y2) || (y1 == y2 && (Less(m1, m2) || (m1 == m2 && Less(d1, d2))))
    ensures DayKey(a) == DayKey(b) <==> y1 == y2 && m1 == m2 && d1 == d2
  {
    var sep := ['-'];
    KeyParts(a, sep, y1, m1, d1);
    KeyParts(b, sep, y2, m2, d2);
    PartsOrder(y1, y2, sep, m1, m2, d1, d2);
    if DayKey(a) == DayKey(b) {
      PartsEqual(y1, y2, sep, m1, m2, d1, d2);
    }
  }

  // ---------------------------------------------------------------------
  // The generator
  // ---------------------------------------------------------------------

  datatype Refs = Refs(day: string, n: nat)

  function Fresh(today: string): Refs {
    Refs(today, 0)
  }

  function Resumed(today: string, saved: Refs): Refs {
    if !Less(saved.day, today) && IsDayKey(saved.day) then saved else Fresh(today)
  }

  function Advanced(r: Refs, today: string): Refs {
    if Less(r.day, today) then Refs(today, 1) else Refs(r.day, r.n + 1)
  }

  function RefId(r: Refs): string {
    ['H', 'E', 'R', '-'] + r.day + ['-'] + Padded(r.n, 3)
  }

  /** Issued later. */
  predicate Before(a: Refs, b: Refs) {
    Less(a.day, b.day) || (a.day == b.day && a.n < b.n)
  }

  lemma BeforeTransitive(a: Refs, b: Refs, c: Refs)
    requires Before(a, b) && Before(b, c)
    ensures Before(a, c)
  {
    if Less(a.day, b.day) && Less(b.day, c.day) {
      LessTransitive(a.day, b.day, c.day);
    }
  }

  /** Different positions print differently. */
  lemma RefIdInjective(a: Refs, b: Refs)
    requires |a.day| == |b.day| && RefId(a) == RefId(b)
    ensures a == b
  {
    SameTail(['H', 'E', 'R', '-'], a.day, b.day, ['-'], Padded(a.n, 3), Padded(b.n, 3));
    PaddedValue(a.n, 3);
    PaddedValue(b.n, 3);
  }

  lemma SameTail(front: string, d1: string, d2: string, sep: string, n1: string, n2: string)
    requires |d1| == |d2| && front + d1 + sep + n1 == front + d2 + sep + n2
    ensures d1 == d2 && n1 == n2
  {
    FourParts(front, d1, sep, n1);
    FourParts(front, d2, sep, n2);
    EqualFront(front, front, d1 + (sep + n1), d2 + (sep + n2));
    EqualFront(d1, d2, sep + n1, sep + n2);
    EqualFront(sep, sep, n1, n2);
  }

  class RefGen {
    var day: string
    var n: nat

    ghost function View(): Refs
      reads this
    {
      Refs(day, n)
    }

    constructor (today: string)
      ensures View() == Fresh(today)
    {
      day, n := today, 0;
    }

    constructor Resume(today: string, saved: Refs)
      ensures View() == Resumed(today, saved)
      ensures View() == if IsDayKey(saved.day) && !Less(saved.day, today) then saved else Refs(today, 0)
    {
      if !Less(saved.day, today) && IsDayKey(saved.day) {
        day, n := saved.day, saved.n;
      } else {
        day, n := today, 0;
      }
    }

    method Next(today: string) returns (id: string)
      modifies this
      ensures View() == Advanced(old(View()), today)
      ensures id == RefId(View())
      ensures day == (if Less(old(day), today) then today else old(day)) && n == if Less(old(day), today) then 1 else old(n) + 1
    {
      if Less(day, today) {
        day := today;
        n := 0;
      }
      n := n + 1;
      id := ['H', 'E', 'R', '-'] + day + ['-'] + Padded(n, 3);
    }
  }

  // ---------------------------------------------------------------------
  // Runs
  // ---------------------------------------------------------------------

  /** An id is asked for, or the daemon restarts and resumes from its latest state. */
  datatype Event = Ask(date: Date) | Restart(date: Date)

  /** State and issued positions along a run; the clock may do anything. */
  function Play(events: seq<Event>, start: Date): (Refs, seq<Refs>) {
    if events == [] then (Fresh(DayKey(start)), [])
    else
      var (r, issued) := Play(events[..|events| - 1], start);
      match events[|events| - 1]
      case Ask(d) => (Advanced(r, DayKey(d)), issued + [Advanced(r, DayKey(d))])
      case Restart(d) => (Resumed(DayKey(d), r), issued)
  }

  ghost predicate Increasing(issued: seq<Refs>) {
    forall i, j :: 0 <= i < j < |issued| ==> Before(issued[i], issued[j])
  }

  /** `r` is the latest position of these. */
  ghost predicate Latest(r: Refs, issued: seq<Refs>) {
    && IsDayKey(r.day) && Increasing(issued)
    && forall i :: 0 <= i < |issued| ==> IsDayKey(issued[i].day) && (issued[i] == r || Before(issued[i], r))
  }

  /** Moving to a later position, or staying, keeps it the latest. */
  lemma LatestMoves(r: Refs, issued: seq<Refs>, r': Refs)
    requires Latest(r, issued) && IsDayKey(r'.day) && (r' == r || Before(r, r'))
    ensures Latest(r', issued)
    ensures Before(r, r') ==> Latest(r', issued + [r'])
  {
    forall i | 0 <= i < |issued|
      ensures issued[i] == r' || Before(issued[i], r')
      ensures Before(r, r') ==> Before(issued[i], r')
    {
      if issued[i] != r && r' != r {
        BeforeTransitive(issued[i], r, r');
      }
    }
  }

  lemma AdvancedLater(r: Refs, today: string)
    requires IsDayKey(r.day) && IsDayKey(today)
    ensures Before(r, Advanced(r, today)) && IsDayKey(Advanced(r, today).day)
  {
  }

  lemma ResumedLater(r: Refs, today: string)
    requires IsDayKey(r.day) && IsDayKey(today)
    ensures IsDayKey(Resumed(today, r).day) && (Resumed(today, r) == r || Before(r, Resumed(today, r)))
  {
  }

  lemma {:induction false} PlayIncreases(events: seq<Event>, start: Date)
    requires ValidDate(start) && forall e :: e in events ==> ValidDate(e.date)
    ensures Latest(Play(events, start).0, Play(events, start).1)
  {
    if events == [] {
      DayKeyShape(start);
    } else {
      var init, last := events[..|events| - 1], events[|events| - 1];
      assert last in events && forall e :: e in init ==> e in events;
      PlayIncreases(init, start);
      DayKeyShape(last.date);
      var (r, issued) := Play(init, start);
      var today := DayKey(last.date);
      AdvancedLater(r, today);
      ResumedLater(r, today);
      LatestMoves(r, issued, if last.Ask? then Advanced(r, today) else Resumed(today, r));
    }
  }

  /** Reference ids never repeat: over any run of requests and restarts, with the clock
      moving forward and back at will, positions strictly increase and the printed ids
      are pairwise distinct. */
  lemma RefIdsNeverRepeat(events: seq<Event>, start: Date, i: nat, j: nat)
    requires ValidDate(start) && forall e :: e in events ==> ValidDate(e.date)
    requires i < j < |Play(events, start).1|
    ensures var issued := Play(events, start).1;
            Before(issued[i], issued[j]) && RefId(issued[i]) != RefId(issued[j])
  {
    PlayIncreases(events, start);
    var issued := Play(events, start).1;
    if RefId(issued[i]) == RefId(issued[j]) {
      RefIdInjective(issued[i], issued[j]);
      LessIrreflexive(issued[i].day);
    }
  }

  // ---------------------------------------------------------------------
  // No gaps, and the text of an id
  // ---------------------------------------------------------------------

  /** The `i`-th id is the first of its day or follows the one before it. */
  ghost predicate Follows(issued: seq<Refs>, i: nat)
    requires i < |issued|
  {
    if i > 0 && issued[i].day == issued[i - 1].day then issued[i].n == issued[i - 1].n + 1 else issued[i].n == 1
  }

  /** `r` is where the last id left off, or the start of a day without ids. */
  ghost predicate LeftOff(r: Refs, issued: seq<Refs>) {
    if issued != [] && issued[|issued| - 1].day == r.day then issued[|issued| - 1] == r else r.n == 0
  }

  lemma AskFollows(r: Refs, issued: seq<Refs>, today: string)
    requires LeftOff(r, issued) && Latest(r, issued)
    ensures var r' := Advanced(r, today);
            Follows(issued + [r'], |issued|) && LeftOff(r', issued + [r'])
  {
    if issued != [] && Less(r.day, today) {
      LaterDay(issued[|issued| - 1], r, today);
    }
  }

  lemma LaterDay(a: Refs, r: Refs, today: string)
    requires (a == r || Before(a, r)) && Less(r.day, today)
    ensures a.day != today
  {
    LessIrreflexive(today);
    if Less(a.day, r.day) {
      LessTransitive(a.day, r.day, today);
    }
  }

  lemma RestartLeavesOff(r: Refs, issued: seq<Refs>, today: string)
    requires LeftOff(r, issued) && Latest(r, issued)
    ensures LeftOff(Resumed(today, r), issued)
  {
    if issued != [] && Less(r.day, today) {
      LaterDay(issued[|issued| - 1], r, today);
    }
  }

  lemma FollowsStays(issued: seq<Refs>, more: seq<Refs>, i: nat)
    requires i < |issued| && Follows(issued, i)
    ensures Follows(issued + more, i)
  {
  }

  /** No number of a day is left out: over any such run the ids of a day are numbered 1, 2,
      3 and so on. */
  lemma {:induction false} NumbersHaveNoGaps(events: seq<Event>, start: Date, i: nat)
    requires ValidDate(start) && forall e :: e in events ==> ValidDate(e.date)
    ensures LeftOff(Play(events, start).0, Play(events, start).1)
    ensures i < |Play(events, start).1| ==> Follows(Play(events, start).1, i)
  {
    if events != [] {
      var init, last := events[..|events| - 1], events[|events| - 1];
      assert last in events && forall e :: e in init ==> e in events;
      var (r, issued) := Play(init, start);
      NumbersHaveNoGaps(init, start, i);
      PlayIncreases(init, start);
      if last.Ask? {
        AskFollows(r, issued, DayKey(last.date));
        if i < |issued| {
          FollowsStays(issued, [Advanced(r, DayKey(last.date))], i);
        }
      } else {
        RestartLeavesOff(r, issued, DayKey(last.date));
      }
    }
  }

  /** No date of the run is later than `d`. */
  ghost predicate NoneLater(events: seq<Event>, start: Date, d: Date) {
    DayNumber(start) <= DayNumber(d) && forall e :: e in events ==> DayNumber(e.date) <= DayNumber(d)
  }

  lemma DayNotAfter(r: Refs, today: string, d: Date, now: Date)
    requires ValidDate(d) && ValidDate(now) && DayNumber(now) <= DayNumber(d) && today == DayKey(now)
    requires !Less(DayKey(d), r.day)
    ensures !Less(DayKey(d), Advanced(r, today).day) && !Less(DayKey(d), Resumed(today, r).day)
  {
    DayKeyOrder(d, now);
  }

  lemma {:induction false} DaysSeen(events: seq<Event>, start: Date, d: Date)
    requires ValidDate(start) && ValidDate(d) && (forall e :: e in events ==> ValidDate(e.date)) && NoneLater(events, start, d)
    ensures !Less(DayKey(d), Play(events, start).0.day)
  {
    if events == [] {
      DayKeyOrder(d, start);
    } else {
      var init, last := events[..|events| - 1], events[|events| - 1];
      assert last in events && forall e :: e in init ==> e in events;
      DaysSeen(init, start, d);
      DayNotAfter(Play(init, start).0, DayKey(last.date), d, last.date);
    }
  }

  /** An id carries the date it is asked for on, unless the clock has stepped back. */
  lemma IdIsOfToday(events: seq<Event>, start: Date, d: Date)
    requires ValidDate(start) && ValidDate(d) && (forall e :: e in events ==> ValidDate(e.date)) && NoneLater(events, start, d)
    ensures Advanced(Play(events, start).0, DayKey(d)).day == DayKey(d)
  {
    DaysSeen(events, start, d);
    LessTotal(Play(events, start).0.day, DayKey(d));
  }

  /** The parts of a text. */
  lemma CutText(a: string, b: string, c: string, d: string, e: string, f: string, g: string)
    requires |a| == 4 && |b| == 4 && |c| == 1 && |d| == 2 && |e| == 2 && |f| == 1
    ensures var s := a + (b + c + d + e) + f + g;
            |s| == 14 + |g| && s[..4] == a && s[4..8] == b && s[8..9] == c && s[9..11] == d && s[11..13] == e
            && s[13..14] == f && s[14..] == g
  {
  }

  /** What an id says to its reader: HER, the year in four digits, month and day in two each,
      and the number of the day in three or more. */
  lemma IdReads(d: Date, n: nat)
    requires ValidDate(d)
    ensures var s := RefId(Refs(DayKey(d), n));
            && |s| >= 17 && s[..4] == "HER-" && s[8..9] == "-" && s[13..14] == "-"
            && AllDigits(s[4..8]) && Value(s[4..8]) == d.year && AllDigits(s[9..11]) && Value(s[9..11]) == d.month
            && AllDigits(s[11..13]) && Value(s[11..13]) == d.day && AllDigits(s[14..]) && Value(s[14..]) == n
  {
    DayKeyShape(d);
    var y, m, dd, t := Padded(d.year, 4), Padded(d.month, 2), Padded(d.day, 2), Padded(n, 3);
    CutText(['H', 'E', 'R', '-'], y, ['-'], m, dd, ['-'], t);
    PaddedValue(d.year, 4);
    PaddedValue(d.month, 2);
    PaddedValue(d.day, 2);
    PaddedValue(n, 3);
  }
}
