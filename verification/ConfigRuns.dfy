/** What the judgement of hermian/src/configdiff.rs means: that it composes over runs of
    reloads of configs of one type, and what a run judged harmless keeps protected. */
module ConfigRuns {
  import opened Common
  import opened ConfigDiff

  // ---------------------------------------------------------------------
  // The judgement is a preorder on configs of one shape
  // ---------------------------------------------------------------------

  /** Objects and other values sit in the same places, as in two configs of one type. */
  predicate SameShape(a: Value, b: Value)
    decreases a
  {
    if a.Obj? && b.Obj? then
      && (forall k :: k in a.fields ==> SameShape(a.fields[k], Get(b.fields, k)))
      && (forall k :: k in b.fields && k !in a.fields ==> !b.fields[k].Obj?)
    else !a.Obj? && !b.Obj?
  }

  lemma ShapeBelow(a: Value, b: Value, k: string)
    requires SameShape(a, b) && a.Obj? && b.Obj?
    ensures SameShape(Get(a.fields, k), Get(b.fields, k))
  {
  }

  lemma {:induction false} ShapeReached(a: Value, b: Value, c: Value, ks: seq<string>)
    requires SameShape(a, b) && SameShape(b, c) && Reached(a, c, ks)
    ensures Reached(a, b, ks) && Reached(b, c, ks)
    ensures SameShape(At(a, ks), At(b, ks)) && SameShape(At(b, ks), At(c, ks))
    decreases |ks|
  {
    if ks != [] {
      ShapeBelow(a, b, ks[0]);
      ShapeBelow(b, c, ks[0]);
      ShapeReached(Get(a.fields, ks[0]), Get(b.fields, ks[0]), Get(c.fields, ks[0]), ks[1..]);
    }
  }

  /** In a reload judged not weakening every field keeps its rule. */
  lemma NotWeakAt(a: Value, b: Value, ks: seq<string>)
    requires !Weakens(a, b) && Reached(a, b, ks) && !(At(a, ks).Obj? && At(b, ks).Obj?)
    ensures Holds(RuleOf(PathFrom("", ks)), At(a, ks), At(b, ks))
  {
    if At(a, ks) != At(b, ks) {
      assert Differs(a, b, ks);
    }
  }

  lemma NotWeakTransitive(a: Value, b: Value, c: Value)
    requires SameShape(a, b) && SameShape(b, c) && !Weakens(a, b) && !Weakens(b, c)
    ensures !Weakens(a, c)
  {
    forall ks | Differs(a, c, ks)
      ensures !Loosens(PathFrom("", ks), At(a, ks), At(c, ks))
    {
      ShapeReached(a, b, c, ks);
      NotWeakAt(a, b, ks);
      NotWeakAt(b, c, ks);
      RuleTransitive(RuleOf(PathFrom("", ks)), At(a, ks), At(b, ks), At(c, ks));
    }
  }

  // ---------------------------------------------------------------------
  // The type of configs
  // ---------------------------------------------------------------------

  /** The layout of a serialized struct: a table with exactly these fields, or a value that
      is not a table (text, number, switch, list, or null for an unset option). */
  datatype Schema = Table(fields: map<string, Schema>) | Plain

  predicate HasType(v: Value, s: Schema) {
    match s
    case Plain => !v.Obj?
    case Table(fields) =>
      v.Obj? && v.fields.Keys == fields.Keys && forall k :: k in fields ==> HasType(v.fields[k], fields[k])
  }

  function PlainTable(keys: seq<string>): Schema {
    Table(map k | k in keys :: Plain)
  }

  /** The layout of `Config`, from hermian-core/src/config.rs and allowlist.rs. */
  function ConfigSchema(): Schema {
    Table(map[
      "general" := PlainTable(["hostname", "log_level", "alert_retention_days"]),
      "baseline" := PlainTable(["enabled", "duration_hours"]),
      "ssh" := PlainTable(["permit_root", "failed_burst_count", "failed_burst_window_secs", "off_hours_start",
                           "off_hours_end", "brute_digest_hours", "brute_digest_days", "brute_alert_count",
                           "brute_alert_window_secs", "brute_min_attempts", "known_key_new_network"]),
      "detections" := PlainTable(["d1_process_chains", "d2_auth", "d3_persistence", "d4_priv_esc", "d5_network"]),
      "notifications" := NotificationsSchema(),
      "response" := PlainTable(["auto_isolate", "management_cidrs", "auto_isolate_revert_mins", "block_duration_hours"]),
      "allowlist" := PlainTable(["process_chains", "persistence", "ssh_sources", "binaries", "destinations",
                                 "debuggers", "ssh_keys"])])
  }

  function NotificationsSchema(): Schema {
    Table(map[
      "channels" := Plain, "dedup_window_secs" := Plain, "min_severity" := Plain, "content" := Plain,
      "webhook" := PlainTable(["url", "format", "token", "timeout_secs"]),
      "telegram" := PlainTable(["bot_token", "chat_id", "message_thread_id", "silent_below_critical", "timeout_secs",
                                "actions", "allowed_user_ids", "action_ttl_mins"]),
      "email" := PlainTable(["transport", "from", "to", "subject_prefix", "smtp_host", "smtp_port", "smtp_security",
                             "smtp_username", "smtp_password", "timeout_secs", "sendmail_path"])])
  }

  /** Two values of one type have objects in the same places. */
  lemma {:induction false} TypedShape(a: Value, b: Value, s: Schema)
    requires HasType(a, s) && HasType(b, s)
    ensures SameShape(a, b)
    decreases s
  {
    if s.Table? {
      forall k | k in a.fields
        ensures SameShape(a.fields[k], Get(b.fields, k))
      {
        TypedShape(a.fields[k], b.fields[k], s.fields[k]);
      }
    }
  }

  /** A run of reloads of configs of one type, none of them judged weakening. */
  ghost predicate QuietRun(configs: seq<Value>, s: Schema) {
    && (forall i :: 0 <= i < |configs| ==> HasType(configs[i], s))
    && forall i: nat :: i < |configs| - 1 ==> QuietStep(configs, i)
  }

  ghost predicate QuietStep(configs: seq<Value>, i: nat)
    requires i < |configs| - 1
  {
    !Weakens(configs[i], configs[i + 1])
  }

  lemma SelfQuiet(a: Value)
    ensures SameShape(a, a) && !Weakens(a, a)
  {
    SelfShape(a);
    forall ks
      ensures !Differs(a, a, ks)
    {
      SameNoDiff(a, ks);
    }
  }

  lemma {:induction false} SelfShape(a: Value)
    ensures SameShape(a, a)
    decreases a
  {
    if a.Obj? {
      forall k | k in a.fields
        ensures SameShape(a.fields[k], a.fields[k])
      {
        SelfShape(a.fields[k]);
      }
    }
  }

  lemma TypedTransitive(a: Value, b: Value, c: Value, s: Schema)
    requires HasType(a, s) && HasType(b, s) && HasType(c, s) && !Weakens(a, b) && !Weakens(b, c)
    ensures !Weakens(a, c)
  {
    TypedShape(a, b, s);
    TypedShape(b, c, s);
    NotWeakTransitive(a, b, c);
  }

  /** The judgement composes: if no reload of a run is judged weakening, nor is the
      change from any earlier config of the run to any later one. */
  lemma {:induction false} QuietRunNotWeak(configs: seq<Value>, s: Schema, i: nat, j: nat)
    requires QuietRun(configs, s) && i <= j < |configs|
    ensures !Weakens(configs[i], configs[j])
    decreases j
  {
    if i == j {
      SelfQuiet(configs[i]);
    } else {
      QuietRunNotWeak(configs, s, i, j - 1);
      assert QuietStep(configs, j - 1);
      TypedTransitive(configs[i], configs[j - 1], configs[j], s);
    }
  }

  /** In particular for runs of Hermian's own configs. */
  lemma ReloadsNotWeak(configs: seq<Value>, i: nat, j: nat, s: Schema)
    requires s == ConfigSchema() && i <= j < |configs|
    requires forall k :: 0 <= k < |configs| ==> HasType(configs[k], s)
    requires forall k: nat :: k < |configs| - 1 ==> QuietStep(configs, k)
    ensures !Weakens(configs[i], configs[j])
  {
    QuietRunNotWeak(configs, s, i, j);
  }

  // ---------------------------------------------------------------------
  // What a quiet run keeps
  // ---------------------------------------------------------------------

  predicate EntriesWithin(a: Value, b: Value) {
    forall i :: 0 <= i < |Entries(a)| ==> Entries(a)[i] in Entries(b)
  }

  /** `b` is on (off, "log") only if `a` was. */
  predicate OnlyIfAlready(a: Value, b: Value, bad: Value) {
    b == bad ==> a == bad
  }

  /** The text is this word, in either case. */
  predicate Spells(v: Value, word: string) {
    v.Str? && |v.s| == |word|
    && forall i :: 0 <= i < |word| ==> v.s[i] == word[i] || ('a' <= v.s[i] <= 'z' && v.s[i] as int == word[i] as int + 32)
  }

  /** Thresholds from the loudest to the quietest: all, from LOW, from HIGH, only CRITICAL,
      and anything that is not a level. */
  predicate NoQuieter(a: Value, b: Value) {
    || Spells(b, "INFO")
    || (Spells(b, "LOW") && !Spells(a, "INFO"))
    || (Spells(b, "HIGH") && !Spells(a, "INFO") && !Spells(a, "LOW"))
    || (Spells(b, "CRITICAL") && !Spells(a, "INFO") && !Spells(a, "LOW") && !Spells(a, "HIGH"))
    || !(Spells(a, "INFO") || Spells(a, "LOW") || Spells(a, "HIGH") || Spells(a, "CRITICAL"))
  }

  lemma SpellsUpper(v: Value, word: string)
    requires v.Str? && forall i :: 0 <= i < |word| ==> 'A' <= word[i] <= 'Z'
    ensures ToUpper(v.s) == word <==> Spells(v, word)
  {
    if Spells(v, word) {
      assert forall i :: 0 <= i < |word| ==> ToUpper(v.s)[i] == word[i];
    }
    if ToUpper(v.s) == word {
      forall i | 0 <= i < |word|
        ensures v.s[i] == word[i] || ('a' <= v.s[i] <= 'z' && v.s[i] as int == word[i] as int + 32)
      {
        assert Upper(v.s[i]) == word[i];
      }
    }
  }

  lemma RankSpells(v: Value)
    ensures Spells(v, "INFO") <==> SeverityRank(v) == 0
    ensures Spells(v, "LOW") <==> SeverityRank(v) == 1
    ensures Spells(v, "HIGH") <==> SeverityRank(v) == 2
    ensures Spells(v, "CRITICAL") <==> SeverityRank(v) == 3
    ensures SeverityRank(v) <= 4
  {
    if v.Str? {
      SpellsUpper(v, "INFO");
      SpellsUpper(v, "LOW");
      SpellsUpper(v, "HIGH");
      SpellsUpper(v, "CRITICAL");
    }
  }

  /** INFO before LOW before HIGH before CRITICAL before anything else. */
  lemma RankMeans(a: Value, b: Value)
    ensures SeverityRank(b) <= SeverityRank(a) <==> NoQuieter(a, b)
  {
    RankSpells(a);
    RankSpells(b);
  }

  /** Protecting at least as much as before, as the documentation describes it: alerts
      reach every place they reached, nothing shows later, no exception was added, no
      rule went off, and what is not known to be harmless is as it was. */
  predicate Protects(rule: Rule, a: Value, b: Value) {
    match rule
    case Harmless => true
    case NoneRemoved => EntriesWithin(a, b)
    case NoneAdded => EntriesWithin(b, a)
    case NotQuieter => NoQuieter(a, b)
    case NotSwitchedOn => OnlyIfAlready(a, b, Bool(true))
    case NotSwitchedOff => OnlyIfAlready(a, b, Bool(false))
    case NotLogOnly => OnlyIfAlready(a, b, Str("log"))
    case NotHigher => Number(b) <= Number(a)
    case NotLower => Number(b) >= Number(a)
    case Unchanged => a == b
  }

  /** A field passes the judgement exactly if it protects at least as much as before. */
  lemma RuleMeaning(rule: Rule, a: Value, b: Value)
    ensures Holds(rule, a, b) <==> Protects(rule, a, b)
  {
    if rule.NotQuieter? {
      RankMeans(a, b);
    }
    if rule.NoneRemoved? && !EntriesWithin(a, b) {
      var i :| 0 <= i < |Entries(a)| && Entries(a)[i] !in Entries(b);
      assert Added(b, a);
    }
    if rule.NoneAdded? && !EntriesWithin(b, a) {
      var i :| 0 <= i < |Entries(b)| && Entries(b)[i] !in Entries(a);
      assert Added(a, b);
    }
  }

  /** The fields that only tune. */
  predicate Tunes(path: string) {
    || path == "baseline.duration_hours" || path == "general.alert_retention_days" || path == "general.hostname"
    || path == "notifications.content" || path == "notifications.dedup_window_secs"
    || path == "notifications.email.from" || path == "notifications.email.subject_prefix"
    || path == "notifications.email.timeout_secs" || path == "notifications.telegram.action_ttl_mins"
    || path == "notifications.telegram.silent_below_critical" || path == "notifications.telegram.timeout_secs"
    || path == "notifications.webhook.format" || path == "notifications.webhook.timeout_secs"
    || path == "response.auto_isolate_revert_mins" || path == "response.block_duration_hours"
    || path == "ssh.brute_digest_days" || path == "ssh.brute_digest_hours"
  }

  /** No field with a rule of its own is spelled like a family. */
  lemma HarmlessFront(path: string)
    requires path in HARMLESS
    ensures path != "" && path[0] != 'a' && path[0] != 'd' && |path| < 45
  {
  }

  lemma NamedFront(path: string, c: char)
    requires path != "" && path[0] == c && c != 'n' && c != 's' && c != 'b' && c != 'r' && NamedSsh(path).None?
    ensures Named(path).None?
  {
  }

  lemma SshFront(path: string, c: char)
    requires path != "" && path[0] == c && c != 's'
    ensures NamedSsh(path).None?
  {
  }

  lemma NamedLength(path: string)
    requires |path| >= 45
    ensures Named(path).None?
  {
  }

  lemma NoOwnRule(path: string)
    requires path != "" && (path[0] == 'a' || path[0] == 'd' || |path| >= 45)
    ensures path !in HARMLESS && Named(path).None?
  {
    if path in HARMLESS {
      HarmlessFront(path);
    }
    if |path| >= 45 {
      NamedLength(path);
    } else {
      SshFront(path, path[0]);
      NamedFront(path, path[0]);
    }
  }

  lemma FamilyFront(path: string)
    ensures "allowlist." <= path ==> path[0] == 'a'
    ensures "detections." <= path ==> path[0] == 'd'
  {
  }

  lemma TunesListed(path: string)
    ensures path in HARMLESS <==> Tunes(path)
  {
  }

  /** What each field promises, by its path. */
  function Promise(path: string): Rule {
    if Tunes(path) then Harmless
    else if path == "ssh.permit_root" then NotSwitchedOn
    else if path == "ssh.known_key_new_network" then NotLogOnly
    else if path == "ssh.brute_alert_window_secs" then NotLower
    else if path == "ssh.brute_alert_count" || path == "ssh.brute_min_attempts"
            || path == "ssh.failed_burst_count" || path == "ssh.failed_burst_window_secs" then NotHigher
    else if path == "notifications.channels" then NoneRemoved
    else if path == "notifications.min_severity" then NotQuieter
    else if path == "notifications.telegram.actions" then NotSwitchedOn
    else if path == "notifications.telegram.allowed_user_ids" || path == "response.management_cidrs" then NoneAdded
    else if path == "response.auto_isolate" || path == "baseline.enabled" then NotSwitchedOff
    else if "detections." <= path then NotSwitchedOff
    else if "allowlist." <= path then NoneAdded
    else Unchanged
  }

  lemma SshPromise(path: string)
    requires NamedSsh(path).Some? && !Tunes(path)
    ensures NamedSsh(path) == Some(Promise(path))
  {
  }

  lemma NamedPromise(path: string)
    requires Named(path).Some? && NamedSsh(path).None? && !Tunes(path)
    ensures Named(path) == Some(Promise(path))
  {
  }

  lemma FamilyPromise(path: string)
    requires Named(path).None? && !Tunes(path)
    ensures Promise(path) == if "detections." <= path then NotSwitchedOff
                             else if "allowlist." <= path then NoneAdded else Unchanged
  {
    assert NamedSsh(path).None?;
  }

  lemma FamilyRule(path: string)
    requires Named(path).None? && path !in HARMLESS
    ensures RuleOf(path) == if "detections." <= path then NotSwitchedOff
                            else if "allowlist." <= path then NoneAdded else Unchanged
  {
    FamilyFront(path);
  }

  lemma SshFirst(path: string)
    requires NamedSsh(path).Some?
    ensures Named(path) == NamedSsh(path)
  {
    assert path[0] == 's';
  }

  lemma NamedRule(path: string)
    requires path !in HARMLESS && Named(path).Some?
    ensures Some(RuleOf(path)) == Named(path)
  {
  }

  /** Every field is judged by what it promises. */
  lemma RulesKeepPromises(path: string)
    ensures RuleOf(path) == Promise(path)
  {
    TunesListed(path);
    if path !in HARMLESS {
      if NamedSsh(path).Some? {
        SshFirst(path);
        SshPromise(path);
        NamedRule(path);
      } else if Named(path).Some? {
        NamedPromise(path);
        NamedRule(path);
      } else {
        FamilyPromise(path);
        FamilyRule(path);
      }
    }
  }

  /** What a run of reloads keeps, if none of them is judged weakening: from any config
      of the run to any later one every field keeps its promise. Every channel
      is still there, no exception was added, every detection that was on is on, and what
      is not known to be harmless is as it was. */
  lemma QuietRunProtects(configs: seq<Value>, s: Schema, i: nat, j: nat, ks: seq<string>)
    requires QuietRun(configs, s) && i <= j < |configs| && Reached(configs[i], configs[j], ks) && !At(configs[i], ks).Obj?
    ensures Protects(Promise(PathFrom("", ks)), At(configs[i], ks), At(configs[j], ks))
  {
    var path, a, b := PathFrom("", ks), At(configs[i], ks), At(configs[j], ks);
    QuietRunNotWeak(configs, s, i, j);
    NotWeakAt(configs[i], configs[j], ks);
    RuleMeaning(RuleOf(path), a, b);
    RulesKeepPromises(path);
  }

  // ---------------------------------------------------------------------
  // What the summary tells
  // ---------------------------------------------------------------------

  /** The keys lead to a field of the layout that is not a table. */
  predicate FieldAt(s: Schema, ks: seq<string>)
    decreases |ks|
  {
    if ks == [] then s.Plain? else s.Table? && ks[0] in s.fields && FieldAt(s.fields[ks[0]], ks[1..])
  }

  lemma {:induction false} NullAt(ks: seq<string>)
    ensures At(Null, ks) == Null
  {
  }

  /** Two configs of one type differ at just those fields whose values are different. */
  lemma {:induction false} TypedDiffers(a: Value, b: Value, s: Schema, ks: seq<string>)
    requires HasType(a, s) && HasType(b, s)
    ensures Differs(a, b, ks) <==> FieldAt(s, ks) && At(a, ks) != At(b, ks)
    decreases |ks|
  {
    if ks != [] && s.Table? {
      assert [ks[0]] + ks[1..] == ks;
      BelowKey("", a, b, ks[0], ks[1..]);
      if ks[0] in s.fields {
        TypedDiffers(a.fields[ks[0]], b.fields[ks[0]], s.fields[ks[0]], ks[1..]);
      } else {
        NullAt(ks[1..]);
      }
    }
  }

  /** Equal at every field that is not secret. */
  ghost predicate AgreeInTheOpen(a: Value, b: Value, s: Schema, root: string) {
    forall ks :: FieldAt(s, ks) && !Secret(PathFrom(root, ks)) ==> At(a, ks) == At(b, ks)
  }

  /** The same secret fields changed. */
  ghost predicate SameSecretsMoved(a: Value, b: Value, a': Value, b': Value, s: Schema, root: string) {
    forall ks :: FieldAt(s, ks) && Secret(PathFrom(root, ks)) ==> (At(a, ks) == At(b, ks) <==> At(a', ks) == At(b', ks))
  }

  lemma FieldLooksSame(a: Value, b: Value, a': Value, b': Value, s: Schema, root: string, ks: seq<string>)
    requires HasType(a, s) && HasType(b, s) && HasType(a', s) && HasType(b', s)
    requires AgreeInTheOpen(a, a', s, root) && AgreeInTheOpen(b, b', s, root) && SameSecretsMoved(a, b, a', b', s, root)
    ensures Differs(a, b, ks) <==> Differs(a', b', ks)
    ensures Differs(a, b, ks) ==> LooksSame(ChangeAt(root, a, b, ks), ChangeAt(root, a', b', ks))
  {
    TypedDiffers(a, b, s, ks);
    TypedDiffers(a', b', s, ks);
  }

  lemma TypedAlike(a: Value, b: Value, a': Value, b': Value, s: Schema, root: string)
    requires HasType(a, s) && HasType(b, s) && HasType(a', s) && HasType(b', s)
    requires AgreeInTheOpen(a, a', s, root) && AgreeInTheOpen(b, b', s, root) && SameSecretsMoved(a, b, a', b', s, root)
    ensures DifferAlike(root, a, b, a', b')
  {
    forall ks
      ensures Differs(a, b, ks) <==> Differs(a', b', ks)
      ensures Differs(a, b, ks) ==> LooksSame(ChangeAt(root, a, b, ks), ChangeAt(root, a', b', ks))
    {
      FieldLooksSame(a, b, a', b', s, root, ks);
    }
  }

  lemma DescribedSame(d: Diff, d': Diff, x: seq<Change>, y: seq<Change>, show: Value -> string)
    requires DescribesAll(d, x, show) && DescribesAll(d', y, show)
    requires |x| == |y| && forall i :: 0 <= i < |x| ==> LooksSame(x[i], y[i])
    ensures d.summary == d'.summary && d.changed == d'.changed
  {
    SummarySame(x, y, show);
    forall i | 0 <= i < |x|
      ensures d.changed[i] == d'.changed[i]
    {
      assert LooksSame(x[i], y[i]);
    }
  }

  /** Secrets never show: if two reloads, of configs of one type, agree at every field that
      is not secret and change the same secret ones, they are reported by the same paths
      and the same summary, whatever the secrets are and whatever prints values. */
  lemma SecretsNeverShow(a: Value, b: Value, a': Value, b': Value, s: Schema, root: string, d: Diff, d': Diff, show: Value -> string)
    requires HasType(a, s) && HasType(b, s) && HasType(a', s) && HasType(b', s)
    requires AgreeInTheOpen(a, a', s, root) && AgreeInTheOpen(b, b', s, root) && SameSecretsMoved(a, b, a', b', s, root)
    requires Describes(d, a, b, root, show) && Describes(d', a', b', root, show)
    ensures d.summary == d'.summary && d.changed == d'.changed
  {
    var x :| Lists(root, a, b, x) && DescribesAll(d, x, show);
    var y :| Lists(root, a', b', y) && DescribesAll(d', y, show);
    TypedAlike(a, b, a', b', s, root);
    ReportsAlike(root, a, b, a', b', x, y);
    DescribedSame(d, d', x, y, show);
  }

  // ---------------------------------------------------------------------
  // Why one type
  // ---------------------------------------------------------------------

  lemma OnlyWhole(path: string, a: Value, b: Value)
    requires !(a.Obj? && b.Obj?) && !Breaks(RuleOf(path), a, b)
    ensures !WeakensBelow(path, a, b)
  {
    forall ks | Differs(a, b, ks)
      ensures ks == []
    {
    }
  }

  /** Values of different layouts would not do: below a field that may change freely, an
      object that goes through null can change inside unseen. */
  lemma ShapeNeeded(path: string, k: string, x: Value, y: Value)
    requires RuleOf(path) == Harmless && RuleOf(Join(path, k)) == Unchanged && x != y && !x.Obj? && !y.Obj?
    ensures !WeakensBelow(path, Obj(map[k := x]), Null) && !WeakensBelow(path, Null, Obj(map[k := y]))
    ensures WeakensBelow(path, Obj(map[k := x]), Obj(map[k := y]))
  {
    var a, b := Obj(map[k := x]), Obj(map[k := y]);
    OnlyWhole(path, a, Null);
    OnlyWhole(path, Null, b);
    assert Get(a.fields, k) == x && Get(b.fields, k) == y;
    BelowKey(path, a, b, k, []);
    assert Differs(x, y, []) && [k] + [] == [k];
    assert PathFrom(path, [k]) == Join(path, k) && At(a, [k]) == x && At(b, [k]) == y;
  }

  /** Below every such field there are unknown ones. */
  lemma LongKeyBelow(path: string, k: string, below: string)
    requires path in HARMLESS && |k| >= 45 && below == Join(path, k)
    ensures RuleOf(path) == Harmless && RuleOf(below) == Unchanged
  {
    HarmlessFront(path);
    assert below[0] == path[0];
    FamilyFront(below);
    NoOwnRule(below);
  }
}
