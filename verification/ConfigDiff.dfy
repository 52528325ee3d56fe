/** hermian/src/configdiff.rs: which fields differ between two configs, in which order they
    are reported, whether a change loosens protection, and the redacted summary. Configs
    are JSON values. */
module ConfigDiff {
  import opened Common
  import RefIds

  datatype Value =
    | Null
    | Bool(b: bool)
    | Num(n: real)
    | Str(s: string)
    | Arr(items: seq<Value>)
    | Obj(fields: map<string, Value>)

  datatype Change = Change(path: string, before: Value, after: Value, weak: bool)

  datatype Diff = Diff(changed: seq<string>, summary: string, destinations: bool, weakens: bool)

  // ---------------------------------------------------------------------
  // Judging one field
  // ---------------------------------------------------------------------

  /** What a change of a field must not do. */
  datatype Rule =
    | Harmless        // anything goes
    | NoneRemoved     // no entry of the old list may go
    | NotQuieter      // the severity threshold may not rise
    | NotSwitchedOn
    | NotSwitchedOff
    | NotLogOnly
    | NotHigher
    | NotLower
    | NoneAdded       // no new entry
    | Unchanged       // unknown or a destination: assume the worst

  const HARMLESS: seq<string> := [
    "general.alert_retention_days", "general.hostname", "baseline.duration_hours",
    "ssh.brute_digest_hours", "ssh.brute_digest_days", "notifications.dedup_window_secs",
    "notifications.content", "notifications.telegram.silent_below_critical",
    "notifications.telegram.timeout_secs", "notifications.telegram.action_ttl_mins",
    "notifications.email.subject_prefix", "notifications.email.from",
    "notifications.email.timeout_secs", "notifications.webhook.format",
    "notifications.webhook.timeout_secs", "response.block_duration_hours",
    "response.auto_isolate_revert_mins"]

  const DESTINATIONS: seq<string> := [
    "notifications.channels", "notifications.min_severity", "notifications.webhook.url",
    "notifications.webhook.token", "notifications.telegram.bot_token",
    "notifications.telegram.chat_id", "notifications.telegram.message_thread_id",
    "notifications.telegram.actions", "notifications.telegram.allowed_user_ids",
    "notifications.email.transport", "notifications.email.to", "notifications.email.smtp_host",
    "notifications.email.smtp_port", "notifications.email.sendmail_path"]

  function RuleOf(path: string): Rule {
    if path in HARMLESS then Harmless
    else if Named(path).Some? then Named(path).value
    else if "allowlist." <= path then NoneAdded
    else if "detections." <= path then NotSwitchedOff
    else Unchanged
  }

  /** The fields judged one by one. */
  function Named(path: string): Option<Rule> {
    if path == "notifications.channels" then Some(NoneRemoved)
    else if path == "notifications.min_severity" then Some(NotQuieter)
    else if path == "notifications.telegram.actions" then Some(NotSwitchedOn)
    else if path == "notifications.telegram.allowed_user_ids" || path == "response.management_cidrs" then Some(NoneAdded)
    else if path == "baseline.enabled" || path == "response.auto_isolate" then Some(NotSwitchedOff)
    else NamedSsh(path)
  }

  function NamedSsh(path: string): Option<Rule> {
    if path == "ssh.permit_root" then Some(NotSwitchedOn)
    else if path == "ssh.known_key_new_network" then Some(NotLogOnly)
    else if path == "ssh.failed_burst_count" || path == "ssh.brute_min_attempts"
            || path == "ssh.failed_burst_window_secs" || path == "ssh.brute_alert_count" then Some(NotHigher)
    else if path == "ssh.brute_alert_window_secs" then Some(NotLower)
    else None
  }

  function Upper(c: char): char {
    if 'a' <= c <= 'z' then c - 'a' + 'A' else c
  }

  function ToUpper(s: string): (r: string)
    ensures |r| == |s|
  {
    seq(|s|, i requires 0 <= i < |s| => Upper(s[i]))
  }

  function SeverityRank(v: Value): nat {
    if !v.Str? then 4
    else
      var s := ToUpper(v.s);
      if s == "INFO" then 0 else if s == "LOW" then 1 else if s == "HIGH" then 2 else if s == "CRITICAL" then 3 else 4
  }

  function Number(v: Value): real {
    if v.Num? then v.n else 0.0
  }

  function Entries(v: Value): seq<Value> {
    if v.Arr? then v.items else []
  }

  /** `b` has an entry that `a` does not. */
  predicate Added(a: Value, b: Value) {
    exists i :: 0 <= i < |Entries(b)| && Entries(b)[i] !in Entries(a)
  }

  predicate Breaks(rule: Rule, a: Value, b: Value) {
    match rule
    case Harmless => false
    case NoneRemoved => Added(b, a)
    case NotQuieter => SeverityRank(b) > SeverityRank(a)
    case NotSwitchedOn => b == Bool(true)
    case NotSwitchedOff => b == Bool(false)
    case NotLogOnly => b == Str("log")
    case NotHigher => Number(b) > Number(a)
    case NotLower => Number(b) < Number(a)
    case NoneAdded => Added(a, b)
    case Unchanged => true
  }

  predicate Loosens(path: string, a: Value, b: Value) {
    Breaks(RuleOf(path), a, b)
  }

  /** An unchanged field, or a change that does not loosen. */
  predicate Holds(rule: Rule, a: Value, b: Value) {
    a == b || !Breaks(rule, a, b)
  }

  lemma AddedTransitive(a: Value, b: Value, c: Value)
    requires Added(a, c)
    ensures Added(a, b) || Added(b, c)
  {
    var i :| 0 <= i < |Entries(c)| && Entries(c)[i] !in Entries(a);
    if Entries(c)[i] in Entries(b) {
      var j :| 0 <= j < |Entries(b)| && Entries(b)[j] == Entries(c)[i];
    }
  }

  /** Every rule is transitive: what two steps do not loosen, both together do not. */
  lemma RuleTransitive(rule: Rule, a: Value, b: Value, c: Value)
    requires Holds(rule, a, b) && Holds(rule, b, c)
    ensures Holds(rule, a, c)
  {
    if rule.NoneRemoved? && Added(c, a) {
      AddedTransitive(c, b, a);
    }
    if rule.NoneAdded? && Added(a, c) {
      AddedTransitive(a, b, c);
    }
  }

  // ---------------------------------------------------------------------
  // Where two configs differ
  // ---------------------------------------------------------------------

  function Join(path: string, key: string): string {
    if path == "" then key else path + ['.'] + key
  }

  function Get(fields: map<string, Value>, key: string): Value {
    if key in fields then fields[key] else Null
  }

  /** The value at the end of a list of keys; a missing one reads as null. */
  function At(v: Value, ks: seq<string>): Value
    decreases |ks|
  {
    if ks == [] then v else if v.Obj? then At(Get(v.fields, ks[0]), ks[1..]) else Null
  }

  /** Both sides are objects at every key before the last. */
  predicate Reached(a: Value, b: Value, ks: seq<string>)
    decreases |ks|
  {
    ks == [] || (a.Obj? && b.Obj? && Reached(Get(a.fields, ks[0]), Get(b.fields, ks[0]), ks[1..]))
  }

  function PathFrom(path: string, ks: seq<string>): string
    decreases |ks|
  {
    if ks == [] then path else PathFrom(Join(path, ks[0]), ks[1..])
  }

  /** A field that differs: reached, unequal, and not two objects. */
  predicate Differs(a: Value, b: Value, ks: seq<string>) {
    Reached(a, b, ks) && At(a, ks) != At(b, ks) && !(At(a, ks).Obj? && At(b, ks).Obj?)
  }

  function ChangeAt(path: string, a: Value, b: Value, ks: seq<string>): Change {
    var p := PathFrom(path, ks);
    Change(p, At(a, ks), At(b, ks), Loosens(p, At(a, ks), At(b, ks)))
  }

  /** Dictionary order of lists of keys. */
  predicate Sooner(x: seq<string>, y: seq<string>) {
    if y == [] then false
    else if x == [] then true
    else RefIds.Less(x[0], y[0]) || (x[0] == y[0] && Sooner(x[1..], y[1..]))
  }

  ghost predicate Increasing(kss: seq<seq<string>>) {
    forall i, j :: 0 <= i < j < |kss| ==> Sooner(kss[i], kss[j])
  }

  /** These changes are at these fields, in dictionary order. */
  ghost predicate ChangesAt(path: string, a: Value, b: Value, changes: seq<Change>, kss: seq<seq<string>>) {
    && |changes| == |kss| && Increasing(kss)
    && forall i :: 0 <= i < |kss| ==> Differs(a, b, kss[i]) && changes[i] == ChangeAt(path, a, b, kss[i])
  }

  /** They are at exactly the differing fields. */
  ghost predicate AllChanges(path: string, a: Value, b: Value, changes: seq<Change>, kss: seq<seq<string>>) {
    ChangesAt(path, a, b, changes, kss) && forall ks :: Differs(a, b, ks) ==> ks in kss
  }

  /** These are the changes at exactly the differing fields, in dictionary order. */
  ghost predicate Lists(path: string, a: Value, b: Value, changes: seq<Change>) {
    exists kss :: AllChanges(path, a, b, changes, kss)
  }

  lemma {:induction false} SameNoDiff(a: Value, ks: seq<string>)
    ensures !Differs(a, a, ks)
    decreases |ks|
  {
    if ks != [] && a.Obj? {
      SameNoDiff(Get(a.fields, ks[0]), ks[1..]);
    }
  }

  lemma BelowKey(path: string, a: Value, b: Value, k: string, ks: seq<string>)
    requires a.Obj? && b.Obj?
    ensures Differs(a, b, [k] + ks) <==> Differs(Get(a.fields, k), Get(b.fields, k), ks)
    ensures ChangeAt(path, a, b, [k] + ks) == ChangeAt(Join(path, k), Get(a.fields, k), Get(b.fields, k), ks)
  {
    assert ([k] + ks)[1..] == ks;
  }

  lemma SameAll(path: string, a: Value)
    ensures AllChanges(path, a, a, [], [])
  {
    forall ks
      ensures !Differs(a, a, ks)
    {
      SameNoDiff(a, ks);
    }
  }

  lemma LeafAll(path: string, a: Value, b: Value)
    requires a != b && !(a.Obj? && b.Obj?)
    ensures AllChanges(path, a, b, [Change(path, a, b, Loosens(path, a, b))], [[]])
  {
    forall ks | Differs(a, b, ks)
      ensures ks == []
    {
    }
    assert Differs(a, b, []);
  }

  // ---------------------------------------------------------------------
  // Walking two configs
  // ---------------------------------------------------------------------

  ghost predicate SortedKeys(keys: seq<string>) {
    forall i, j :: 0 <= i < j < |keys| ==> RefIds.Less(keys[i], keys[j])
  }

  /** All the keys, sorted, each once. */
  method KeysInOrder(all: set<string>) returns (keys: seq<string>)
    ensures SortedKeys(keys) && forall k :: k in keys <==> k in all
  {
    keys := [];
    var todo := all;
    while todo != {}
      invariant todo <= all && SortedKeys(keys) && forall k :: k in keys <==> k in all && k !in todo
      decreases todo
    {
      var k :| k in todo;
      keys := InsertKey(keys, k);
      todo := todo - {k};
    }
  }

  method InsertKey(keys: seq<string>, k: string) returns (out: seq<string>)
    requires SortedKeys(keys) && k !in keys
    ensures SortedKeys(out) && forall x :: x in out <==> x in keys || x == k
  {
    var i := 0;
    while i < |keys| && RefIds.Less(keys[i], k)
      invariant 0 <= i <= |keys| && forall j :: 0 <= j < i ==> RefIds.Less(keys[j], k)
    {
      i := i + 1;
    }
    out := keys[..i] + [k] + keys[i..];
    InsertedSorted(keys, k, i, out);
  }

  lemma InsertedSorted(keys: seq<string>, k: string, i: nat, out: seq<string>)
    requires SortedKeys(keys) && k !in keys && i <= |keys| && out == keys[..i] + [k] + keys[i..]
    requires forall j :: 0 <= j < i ==> RefIds.Less(keys[j], k)
    requires i < |keys| ==> !RefIds.Less(keys[i], k)
    ensures SortedKeys(out) && forall x :: x in out <==> x in keys || x == k
  {
    forall j | i <= j < |keys|
      ensures RefIds.Less(k, keys[j])
    {
      RefIds.LessTotal(keys[i], k);
      if j > i {
        RefIds.LessTransitive(k, keys[i], keys[j]);
      }
    }
    InsertedAll(keys, k, i, out);
  }

  lemma InsertedAll(keys: seq<string>, k: string, i: nat, out: seq<string>)
    requires i <= |keys| && out == keys[..i] + [k] + keys[i..]
    ensures forall x :: x in out <==> x in keys || x == k
  {
    assert keys == keys[..i] + keys[i..];
  }

  function Prefixed(k: string, kss: seq<seq<string>>): (r: seq<seq<string>>)
    ensures |r| == |kss| && forall i :: 0 <= i < |kss| ==> r[i] == [k] + kss[i]
  {
    seq(|kss|, i requires 0 <= i < |kss| => [k] + kss[i])
  }

  /** The same, for the fields under the first `n` keys. */
  ghost predicate ChangesUnder(path: string, a: Value, b: Value, changes: seq<Change>, kss: seq<seq<string>>,
                               keys: seq<string>, n: nat)
    requires n <= |keys|
  {
    && ChangesAt(path, a, b, changes, kss)
    && (forall i :: 0 <= i < |kss| ==> kss[i] != [] && kss[i][0] in keys[..n])
    && forall ks :: Differs(a, b, ks) && ks != [] && ks[0] in keys[..n] ==> ks in kss
  }

  lemma SoonerBelow(k: string, x: seq<string>, y: seq<string>)
    ensures Sooner([k] + x, [k] + y) <==> Sooner(x, y)
  {
    RefIds.LessIrreflexive(k);
    assert ([k] + x)[1..] == x && ([k] + y)[1..] == y;
  }

  /** What one more key adds comes after all before it. */
  lemma IncreasingMore(kss: seq<seq<string>>, k: string, sub: seq<seq<string>>)
    requires Increasing(kss) && Increasing(sub)
    requires forall i :: 0 <= i < |kss| ==> kss[i] != [] && RefIds.Less(kss[i][0], k)
    ensures Increasing(kss + Prefixed(k, sub))
  {
    var all := kss + Prefixed(k, sub);
    forall i, j | 0 <= i < j < |all|
      ensures Sooner(all[i], all[j])
    {
      if i >= |kss| {
        SoonerBelow(k, sub[i - |kss|], sub[j - |kss|]);
      }
    }
  }

  lemma FirstKeys(keys: seq<string>, n: nat, x: string)
    requires SortedKeys(keys) && n < |keys| && x in keys[..n]
    ensures RefIds.Less(x, keys[n])
  {
    var i :| 0 <= i < n && keys[i] == x;
  }

  /** Changes below one key are changes of the whole. */
  lemma ChangesBelow(path: string, a: Value, b: Value, k: string, more: seq<Change>, sub: seq<seq<string>>)
    requires a.Obj? && b.Obj? && ChangesAt(Join(path, k), Get(a.fields, k), Get(b.fields, k), more, sub)
    ensures forall i :: 0 <= i < |sub| ==>
              Differs(a, b, [k] + sub[i]) && more[i] == ChangeAt(path, a, b, [k] + sub[i])
  {
    forall i | 0 <= i < |sub|
      ensures Differs(a, b, [k] + sub[i]) && more[i] == ChangeAt(path, a, b, [k] + sub[i])
    {
      BelowKey(path, a, b, k, sub[i]);
    }
  }

  lemma ChangesJoin(path: string, a: Value, b: Value, changes: seq<Change>, kss: seq<seq<string>>,
                    more: seq<Change>, others: seq<seq<string>>)
    requires ChangesAt(path, a, b, changes, kss) && |more| == |others| && Increasing(kss + others)
    requires forall i :: 0 <= i < |others| ==> Differs(a, b, others[i]) && more[i] == ChangeAt(path, a, b, others[i])
    ensures ChangesAt(path, a, b, changes + more, kss + others)
  {
  }

  lemma UnderMoreAt(path: string, a: Value, b: Value, changes: seq<Change>, kss: seq<seq<string>>,
                    keys: seq<string>, n: nat, more: seq<Change>, sub: seq<seq<string>>)
    requires a.Obj? && b.Obj? && SortedKeys(keys) && n < |keys|
    requires ChangesUnder(path, a, b, changes, kss, keys, n)
    requires ChangesAt(Join(path, keys[n]), Get(a.fields, keys[n]), Get(b.fields, keys[n]), more, sub)
    ensures ChangesAt(path, a, b, changes + more, kss + Prefixed(keys[n], sub))
  {
    var k := keys[n];
    forall i | 0 <= i < |kss|
      ensures RefIds.Less(kss[i][0], k)
    {
      FirstKeys(keys, n, kss[i][0]);
    }
    IncreasingMore(kss, k, sub);
    ChangesBelow(path, a, b, k, more, sub);
    ChangesJoin(path, a, b, changes, kss, more, Prefixed(k, sub));
  }

  lemma UnderMore(path: string, a: Value, b: Value, changes: seq<Change>, kss: seq<seq<string>>,
                  keys: seq<string>, n: nat, more: seq<Change>, sub: seq<seq<string>>)
    requires a.Obj? && b.Obj? && SortedKeys(keys) && n < |keys|
    requires ChangesUnder(path, a, b, changes, kss, keys, n)
    requires AllChanges(Join(path, keys[n]), Get(a.fields, keys[n]), Get(b.fields, keys[n]), more, sub)
    ensures ChangesUnder(path, a, b, changes + more, kss + Prefixed(keys[n], sub), keys, n + 1)
  {
    var all := kss + Prefixed(keys[n], sub);
    UnderMoreAt(path, a, b, changes, kss, keys, n, more, sub);
    assert keys[..n + 1] == keys[..n] + [keys[n]];
    forall ks | Differs(a, b, ks) && ks != [] && ks[0] in keys[..n + 1]
      ensures ks in all
    {
      if ks[0] == keys[n] {
        FoundBelow(path, a, b, keys[n], more, sub, ks);
      }
    }
  }

  lemma FoundBelow(path: string, a: Value, b: Value, k: string, more: seq<Change>, sub: seq<seq<string>>, ks: seq<string>)
    requires a.Obj? && b.Obj? && AllChanges(Join(path, k), Get(a.fields, k), Get(b.fields, k), more, sub)
    requires ks != [] && ks[0] == k && Differs(a, b, ks)
    ensures ks in Prefixed(k, sub)
  {
    assert ks == [k] + ks[1..];
    BelowKey(path, a, b, k, ks[1..]);
    var i :| 0 <= i < |sub| && sub[i] == ks[1..];
    assert Prefixed(k, sub)[i] == ks;
  }

  lemma UnderAll(path: string, a: Value, b: Value, changes: seq<Change>, kss: seq<seq<string>>, keys: seq<string>)
    requires a.Obj? && b.Obj? && (forall k :: k in keys <==> k in a.fields || k in b.fields)
    requires ChangesUnder(path, a, b, changes, kss, keys, |keys|)
    ensures AllChanges(path, a, b, changes, kss)
  {
    assert keys[..|keys|] == keys;
    forall ks | Differs(a, b, ks)
      ensures ks in kss
    {
      SameNoDiff(Null, if ks == [] then [] else ks[1..]);
    }
  }

  lemma Pushed(out: seq<Change>, part: seq<Change>)
    ensures out <= out + part && (out + part)[|out|..] == part
  {
  }

  /** `walk`: push every difference onto `out`, in dictionary order of the keys. */
  method Walk(path: string, a: Value, b: Value, out: seq<Change>) returns (out': seq<Change>)
    ensures out <= out' && Lists(path, a, b, out'[|out|..])
    decreases a, 2
  {
    if a == b {
      SameAll(path, a);
      Pushed(out, []);
      return out + [];
    }
    if a.Obj? && b.Obj? {
      out' := WalkFields(path, a, b, out);
      return;
    }
    var change := Change(path, a, b, Loosens(path, a, b));
    LeafAll(path, a, b);
    Pushed(out, [change]);
    out' := out + [change];
  }

  method WalkField(path: string, a: Value, b: Value, k: string, out: seq<Change>) returns (out': seq<Change>)
    requires a.Obj? && b.Obj? && (k in a.fields || k in b.fields)
    ensures out <= out' && Lists(Join(path, k), Get(a.fields, k), Get(b.fields, k), out'[|out|..])
    decreases a, 0
  {
    if k in a.fields {
      out' := Walk(Join(path, k), a.fields[k], Get(b.fields, k), out);
    } else if b.fields[k] != Null {
      var change := Change(Join(path, k), Null, b.fields[k], Loosens(Join(path, k), Null, b.fields[k]));
      LeafAll(Join(path, k), Null, b.fields[k]);
      Pushed(out, [change]);
      out' := out + [change];
    } else {
      SameAll(Join(path, k), Null);
      Pushed(out, []);
      out' := out + [];
    }
  }

  lemma UnderNone(path: string, a: Value, b: Value, keys: seq<string>)
    ensures ChangesUnder(path, a, b, [], [], keys, 0)
  {
  }

  lemma PushMore(out: seq<Change>, part: seq<Change>, more: seq<Change>)
    ensures out + part + more == out + (part + more)
  {
  }

  lemma Taken(out: seq<Change>, out': seq<Change>)
    requires out <= out'
    ensures out' == out + out'[|out|..]
  {
  }

  method WalkFields(path: string, a: Value, b: Value, out: seq<Change>) returns (out': seq<Change>)
    requires a.Obj? && b.Obj?
    ensures out <= out' && Lists(path, a, b, out'[|out|..])
    decreases a, 1
  {
    var keys := KeysInOrder(a.fields.Keys + b.fields.Keys);
    out' := out;
    ghost var part, kss := [], [];
    UnderNone(path, a, b, keys);
    var n := 0;
    while n < |keys|
      invariant 0 <= n <= |keys| && out' == out + part
      invariant ChangesUnder(path, a, b, part, kss, keys, n)
    {
      assert keys[n] in keys;
      ghost var before := out';
      out' := WalkField(path, a, b, keys[n], out');
      ghost var more := out'[|before|..];
      Taken(before, out');
      PushMore(out, part, more);
      kss := AddKey(path, a, b, part, kss, keys, n, more);
      part := part + more;
      n := n + 1;
    }
    UnderAll(path, a, b, part, kss, keys);
    Pushed(out, part);
  }

  lemma AddKey(path: string, a: Value, b: Value, part: seq<Change>, kss: seq<seq<string>>,
               keys: seq<string>, n: nat, more: seq<Change>) returns (all: seq<seq<string>>)
    requires a.Obj? && b.Obj? && SortedKeys(keys) && n < |keys|
    requires ChangesUnder(path, a, b, part, kss, keys, n)
    requires Lists(Join(path, keys[n]), Get(a.fields, keys[n]), Get(b.fields, keys[n]), more)
    ensures ChangesUnder(path, a, b, part + more, all, keys, n + 1)
  {
    var sub :| AllChanges(Join(path, keys[n]), Get(a.fields, keys[n]), Get(b.fields, keys[n]), more, sub);
    all := kss + Prefixed(keys[n], sub);
    UnderMore(path, a, b, part, kss, keys, n, more, sub);
  }

  // ---------------------------------------------------------------------
  // The summary line
  // ---------------------------------------------------------------------

  const SECRET: seq<string> := ["token", "bot_token", "smtp_password", "smtp_username", "url"]

  /** The last part of a dotted path. */
  function FieldOf(path: string): string {
    if path == "" || path[|path| - 1] == '.' then "" else FieldOf(path[..|path| - 1]) + [path[|path| - 1]]
  }

  predicate Secret(path: string) {
    FieldOf(path) in SECRET
  }

  lemma {:induction false} FieldOfJoined(front: string, k: string)
    requires '.' !in k && (front == "" || front[|front| - 1] == '.')
    ensures FieldOf(front + k) == k
  {
    if k != "" {
      var init := k[..|k| - 1];
      FieldOfJoined(front, init);
      assert (front + k)[..|front + k| - 1] == front + init && k == init + [k[|k| - 1]];
    } else {
      assert front + k == front;
    }
  }

  lemma {:induction false} PathOfLast(path: string, ks: seq<string>, k: string)
    ensures PathFrom(path, ks + [k]) == Join(PathFrom(path, ks), k)
    decreases |ks|
  {
    if ks == [] {
      assert [] + [k] == [k];
    } else {
      assert (ks + [k])[1..] == ks[1..] + [k];
      PathOfLast(Join(path, ks[0]), ks[1..], k);
    }
  }

  /** A field is secret by its own key, wherever it is. */
  lemma SecretByKey(path: string, ks: seq<string>, k: string)
    requires '.' !in k
    ensures Secret(PathFrom(path, ks + [k])) <==>
            k == "token" || k == "bot_token" || k == "smtp_password" || k == "smtp_username" || k == "url"
  {
    PathOfLast(path, ks, k);
    var p := PathFrom(path, ks);
    if p == "" {
      FieldOfJoined("", k);
      assert "" + k == k;
    } else {
      FieldOfJoined(p + ['.'], k);
    }
  }

  /** A printed value, cut after 60 characters. */
  function Short(v: Value, show: Value -> string): (r: string)
    ensures var s := if v.Str? then v.s else show(v);
            if |s| <= 60 then r == s else |r| == 60 && r[..59] == s[..59] && r[59] == '\U{2026}'
  {
    var s := if v.Str? then v.s else show(v);
    if |s| > 60 then s[..59] + ['\U{2026}'] else s
  }

  function LineOf(c: Change, show: Value -> string): string {
    if Secret(c.path) then c.path + " changed"
    else if "allowlist." <= c.path then
      c.path + ": " + RefIds.Decimal(|Entries(c.before)|) + " -> " + RefIds.Decimal(|Entries(c.after)|) + " entries"
    else c.path + ": " + Short(c.before, show) + " -> " + Short(c.after, show)
  }

  function Printer(show: Value -> string): Change -> string {
    c => LineOf(c, show)
  }

  /** The lines of these changes, with separators. */
  function Lines(changes: seq<Change>, line: Change -> string): string {
    if changes == [] then ""
    else if |changes| == 1 then line(changes[0])
    else Lines(changes[..|changes| - 1], line) + [';', ' '] + line(changes[|changes| - 1])
  }

  /** Each line follows those before it after a semicolon and a blank. */
  lemma {:induction false} LinesInOrder(changes: seq<Change>, i: nat, line: Change -> string) returns (front: string, back: string)
    requires i < |changes|
    ensures Lines(changes, line) == front + line(changes[i]) + back
    ensures front == (if i == 0 then "" else Lines(changes[..i], line) + "; ")
    ensures if i == |changes| - 1 then back == "" else |back| >= 2 && back[..2] == "; "
  {
    if i == |changes| - 1 {
      front, back := if i == 0 then "" else Lines(changes[..i], line) + "; ", "";
      assert [';', ' '] == "; ";
    } else {
      var init, last := changes[..|changes| - 1], changes[|changes| - 1];
      var back0;
      front, back0 := LinesInOrder(init, i, line);
      back := back0 + "; " + line(last);
      assert init[..i] == changes[..i];
    }
  }

  function Summary(changes: seq<Change>, show: Value -> string): string {
    if changes == [] then "no functional change" else Lines(changes, Printer(show))
  }

  /** Equal, or changes of one secret field. */
  predicate LooksSame(c: Change, d: Change) {
    c == d || (c.path == d.path && Secret(c.path))
  }

  lemma {:induction false} LinesSame(x: seq<Change>, y: seq<Change>, line: Change -> string)
    requires |x| == |y| && forall i :: 0 <= i < |x| ==> line(x[i]) == line(y[i])
    ensures Lines(x, line) == Lines(y, line)
  {
    if |x| > 1 {
      LinesSame(x[..|x| - 1], y[..|y| - 1], line);
    }
  }

  /** Changes that look the same give one summary, whatever prints values. */
  lemma SummarySame(x: seq<Change>, y: seq<Change>, show: Value -> string)
    requires |x| == |y| && forall i :: 0 <= i < |x| ==> LooksSame(x[i], y[i])
    ensures Summary(x, show) == Summary(y, show)
  {
    forall i | 0 <= i < |x|
      ensures Printer(show)(x[i]) == Printer(show)(y[i])
    {
      assert LooksSame(x[i], y[i]);
    }
    LinesSame(x, y, Printer(show));
  }

  lemma {:induction false} SoonerOneWay(x: seq<string>, y: seq<string>)
    ensures !(Sooner(x, y) && Sooner(y, x))
    decreases |x|
  {
    if x != [] && y != [] {
      RefIds.LessTotal(x[0], y[0]);
      SoonerOneWay(x[1..], y[1..]);
    }
  }

  /** Sorted lists of the same elements are the same. */
  lemma {:induction false} SortedSame(x: seq<seq<string>>, y: seq<seq<string>>)
    requires Increasing(x) && Increasing(y) && forall k :: k in x <==> k in y
    ensures x == y
    decreases |x|
  {
    assert y != [] ==> y[0] in y;
    if x != [] {
      assert x[|x| - 1] in x;
      var m, n := |x| - 1, |y| - 1;
      LastSame(x, y, m, n);
      forall k
        ensures k in x[..m] <==> k in y[..n]
      {
        InitOf(x, k);
        InitOf(y, k);
      }
      SortedSame(x[..m], y[..n]);
      assert x == x[..m] + [x[m]] && y == y[..n] + [y[n]];
    }
  }

  lemma LastSame(x: seq<seq<string>>, y: seq<seq<string>>, m: nat, n: nat)
    requires Increasing(x) && Increasing(y) && (forall k :: k in x <==> k in y) && |x| == m + 1 && |y| == n + 1
    ensures x[m] == y[n]
  {
    assert x[m] in x && y[n] in y;
    var i :| 0 <= i < |y| && y[i] == x[m];
    var j :| 0 <= j < |x| && x[j] == y[n];
    SoonerOneWay(x[m], y[n]);
  }

  lemma InitOf(x: seq<seq<string>>, k: seq<string>)
    requires Increasing(x) && x != []
    ensures k in x[..|x| - 1] <==> k in x && k != x[|x| - 1]
  {
    if k in x[..|x| - 1] {
      var i :| 0 <= i < |x| - 1 && x[i] == k;
      SoonerOneWay(k, k);
    }
  }

  /** The same fields differ in both pairs, and their changes look the same. */
  ghost predicate DifferAlike(path: string, a: Value, b: Value, a': Value, b': Value) {
    forall ks :: (Differs(a, b, ks) <==> Differs(a', b', ks))
                 && (Differs(a, b, ks) ==> LooksSame(ChangeAt(path, a, b, ks), ChangeAt(path, a', b', ks)))
  }

  lemma ReportsAlike(path: string, a: Value, b: Value, a': Value, b': Value, x: seq<Change>, y: seq<Change>)
    requires DifferAlike(path, a, b, a', b') && Lists(path, a, b, x) && Lists(path, a', b', y)
    ensures |x| == |y| && forall i :: 0 <= i < |x| ==> LooksSame(x[i], y[i])
  {
    var ks :| AllChanges(path, a, b, x, ks);
    var ks' :| AllChanges(path, a', b', y, ks');
    forall k
      ensures k in ks <==> k in ks'
    {
      InReport(path, a, b, x, ks, k);
      InReport(path, a', b', y, ks', k);
    }
    SortedSame(ks, ks');
    forall i | 0 <= i < |x|
      ensures LooksSame(x[i], y[i])
    {
      assert Differs(a, b, ks[i]);
    }
  }

  lemma InReport(path: string, a: Value, b: Value, x: seq<Change>, kss: seq<seq<string>>, k: seq<string>)
    requires AllChanges(path, a, b, x, kss)
    ensures k in kss <==> Differs(a, b, k)
  {
  }

  lemma LinesMore(changes: seq<Change>, c: Change, line: Change -> string)
    requires changes != []
    ensures Lines(changes + [c], line) == Lines(changes, line) + [';', ' '] + line(c)
  {
    assert (changes + [c])[..|changes|] == changes;
  }

  method JoinLines(changes: seq<Change>, line: Change -> string) returns (s: string)
    ensures s == Lines(changes, line)
  {
    if changes == [] {
      return "";
    }
    s := line(changes[0]);
    var i := 1;
    while i < |changes|
      invariant 1 <= i <= |changes| && s == Lines(changes[..i], line)
    {
      LinesMore(changes[..i], changes[i], line);
      assert changes[..i + 1] == changes[..i] + [changes[i]];
      s := s + [';', ' '] + line(changes[i]);
      i := i + 1;
    }
    assert changes[..i] == changes;
  }

  // ---------------------------------------------------------------------
  // The whole judgement
  // ---------------------------------------------------------------------

  /** Some differing field below `path` loosens. */
  ghost predicate WeakensBelow(path: string, a: Value, b: Value) {
    exists ks :: Differs(a, b, ks) && ChangeAt(path, a, b, ks).weak
  }

  ghost predicate Weakens(a: Value, b: Value) {
    WeakensBelow("", a, b)
  }

  /** Some differing field below `path` is one of these. */
  ghost predicate MovesBelow(path: string, a: Value, b: Value, places: seq<string>) {
    exists ks :: Differs(a, b, ks) && ChangeAt(path, a, b, ks).path in places
  }

  /** The fields that decide where alerts go: to which channels and from which severity on,
      and for each channel its address, account and sender. */
  predicate IsDestination(path: string) {
    || path == "notifications.channels" || path == "notifications.min_severity"
    || path == "notifications.email.sendmail_path" || path == "notifications.email.smtp_host"
    || path == "notifications.email.smtp_port" || path == "notifications.email.to"
    || path == "notifications.email.transport"
    || path == "notifications.telegram.actions" || path == "notifications.telegram.allowed_user_ids"
    || path == "notifications.telegram.bot_token" || path == "notifications.telegram.chat_id"
    || path == "notifications.telegram.message_thread_id"
    || path == "notifications.webhook.token" || path == "notifications.webhook.url"
  }

  /** Some differing field decides where alerts go. */
  ghost predicate MovesDestination(a: Value, b: Value) {
    exists ks :: Differs(a, b, ks) && IsDestination(ChangeAt("", a, b, ks).path)
  }

  lemma DestinationsListed(path: string)
    ensures path in DESTINATIONS <==> IsDestination(path)
  {
  }

  lemma MovesListed(a: Value, b: Value)
    ensures MovesBelow("", a, b, DESTINATIONS) <==> MovesDestination(a, b)
  {
    forall path: string
      ensures path in DESTINATIONS <==> IsDestination(path)
    {
      DestinationsListed(path);
    }
  }

  /** One pass over the changes. */
  method Judge(changes: seq<Change>, places: seq<string>, show: Value -> string) returns (d: Diff)
    ensures d.weakens <==> exists i :: 0 <= i < |changes| && changes[i].weak
    ensures d.destinations <==> exists i :: 0 <= i < |changes| && changes[i].path in places
    ensures |d.changed| == |changes| && forall i :: 0 <= i < |changes| ==> d.changed[i] == changes[i].path
    ensures d.summary == Summary(changes, show)
  {
    var paths, destinations, weakens := [], false, false;
    var i := 0;
    while i < |changes|
      invariant 0 <= i <= |changes| && |paths| == i
      invariant forall j :: 0 <= j < i ==> paths[j] == changes[j].path
      invariant destinations <==> exists j :: 0 <= j < i && changes[j].path in places
      invariant weakens <==> exists j :: 0 <= j < i && changes[j].weak
    {
      destinations := destinations || changes[i].path in places;
      weakens := weakens || changes[i].weak;
      paths := paths + [changes[i].path];
      i := i + 1;
    }
    var summary := "no functional change";
    if changes != [] {
      summary := JoinLines(changes, Printer(show));
    }
    d := Diff(paths, summary, destinations, weakens);
  }

  /** A report over exactly the differing fields has one for each of them. */
  lemma Reported(path: string, a: Value, b: Value, changes: seq<Change>, kss: seq<seq<string>>, ks: seq<string>)
    requires AllChanges(path, a, b, changes, kss) && Differs(a, b, ks)
    ensures exists i :: 0 <= i < |changes| && changes[i] == ChangeAt(path, a, b, ks)
  {
    var i :| 0 <= i < |kss| && kss[i] == ks;
    assert changes[i] == ChangeAt(path, a, b, ks);
  }

  lemma WeakReported(path: string, a: Value, b: Value, changes: seq<Change>, kss: seq<seq<string>>)
    requires AllChanges(path, a, b, changes, kss)
    ensures WeakensBelow(path, a, b) <==> exists i :: 0 <= i < |changes| && changes[i].weak
  {
    if ks :| Differs(a, b, ks) && ChangeAt(path, a, b, ks).weak {
      Reported(path, a, b, changes, kss, ks);
    }
    if i :| 0 <= i < |changes| && changes[i].weak {
      assert Differs(a, b, kss[i]) && changes[i] == ChangeAt(path, a, b, kss[i]);
    }
  }

  lemma MoveReported(path: string, a: Value, b: Value, changes: seq<Change>, kss: seq<seq<string>>, places: seq<string>)
    requires AllChanges(path, a, b, changes, kss)
    ensures MovesBelow(path, a, b, places) <==> exists i :: 0 <= i < |changes| && changes[i].path in places
  {
    if ks :| Differs(a, b, ks) && ChangeAt(path, a, b, ks).path in places {
      Reported(path, a, b, changes, kss, ks);
    }
    if i :| 0 <= i < |changes| && changes[i].path in places {
      assert Differs(a, b, kss[i]) && changes[i] == ChangeAt(path, a, b, kss[i]);
    }
  }

  lemma ReportMeans(path: string, a: Value, b: Value, changes: seq<Change>, places: seq<string>)
    requires Lists(path, a, b, changes)
    ensures WeakensBelow(path, a, b) <==> exists i :: 0 <= i < |changes| && changes[i].weak
    ensures MovesBelow(path, a, b, places) <==> exists i :: 0 <= i < |changes| && changes[i].path in places
  {
    var kss :| AllChanges(path, a, b, changes, kss);
    WeakReported(path, a, b, changes, kss);
    MoveReported(path, a, b, changes, kss, places);
  }

  /** Paths and summary are those of exactly the differing fields, in order. */
  ghost predicate Describes(d: Diff, a: Value, b: Value, root: string, show: Value -> string) {
    exists changes :: Lists(root, a, b, changes) && DescribesAll(d, changes, show)
  }

  predicate DescribesAll(d: Diff, changes: seq<Change>, show: Value -> string) {
    && |d.changed| == |changes| && (forall i :: 0 <= i < |changes| ==> d.changed[i] == changes[i].path)
    && d.summary == Summary(changes, show)
  }

  /** `diff`, on the two configs' JSON, or on configs that cannot be turned into JSON: then
      the worst is assumed. */
  method DiffConfigs(a: Option<Value>, b: Option<Value>, show: Value -> string) returns (d: Diff)
    ensures a.Some? && b.Some? ==>
              && Describes(d, a.value, b.value, "", show)
              && (d.weakens <==> Weakens(a.value, b.value))
              && (d.destinations <==> MovesDestination(a.value, b.value))
    ensures a.None? || b.None? ==> d.weakens && d.destinations && d.changed == ["(unknown)"]
  {
    if a.None? || b.None? {
      return Diff(["(unknown)"], "configuration changed (could not compare)", true, true);
    }
    var changes := Walk("", a.value, b.value, []);
    assert changes[0..] == changes;
    d := Judge(changes, DESTINATIONS, show);
    ReportMeans("", a.value, b.value, changes, DESTINATIONS);
    MovesListed(a.value, b.value);
    assert DescribesAll(d, changes, show);
  }
}
