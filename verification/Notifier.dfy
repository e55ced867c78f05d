/**
 The notification bus: an index of the notices it has raised, per zone and kind, beside the store
 that shows them to the user under ids derived from the zone's name.

 `Board` is the two together as a value. The index agrees with the store on every run exactly as
 long as no two zones share an id; the classes carry the calls out.
 */
module Notifier {
  import opened Strings
  import opened Wrappers

  datatype Kind =
    | CommandFailed | UnreachablePassive | UnreachableAtIrrigation | FlowMeterDead | DeliveryUncredited
    | StuckOpen | LeakDetected | ZoneDisabled | BatteryLow | IrrigationIneffective | ModelDrift
    | WaterMeNow | WatchdogTriggered | DeficitAnomaly

  datatype Severity = Info | Warning | Critical

  datatype OperatingMode = Active | Away | Stopped

  function KindValue(k: Kind): string {
    match k
    case CommandFailed => "command_failed"
    case UnreachablePassive => "unreachable_passive"
    case UnreachableAtIrrigation => "unreachable_at_irrigation"
    case FlowMeterDead => "flow_meter_dead"
    case DeliveryUncredited => "delivery_uncredited"
    case StuckOpen => "stuck_open"
    case LeakDetected => "leak_detected"
    case ZoneDisabled => "zone_disabled"
    case BatteryLow => "battery_low"
    case IrrigationIneffective => "irrigation_ineffective"
    case ModelDrift => "model_drift"
    case WaterMeNow => "water_me_now"
    case WatchdogTriggered => "watchdog_triggered"
    case DeficitAnomaly => "deficit_anomaly"
  }

  function Label(s: Severity): string {
    match s case Info => "INFO" case Warning => "WARNING" case Critical => "CRITICAL"
  }

  /** Away, only requests to a person are withheld; stopped, everything is. */
  predicate Admits(mode: OperatingMode, k: Kind) {
    mode != Stopped && !(k == WaterMeNow && mode != Active)
  }

  // ---------- Ids

  predicate IsWordChar(c: char) {
    IsDigit(c) || 'a' <= c <= 'z' || 'A' <= c <= 'Z' || c == '_'
  }

  /** Every run of characters outside words becomes one underscore. */
  function Collapsed(s: string): string {
    if s == "" then ""
    else if IsWordChar(s[0]) then [s[0]] + Collapsed(s[1..])
    else if |s| > 1 && !IsWordChar(s[1]) then Collapsed(s[1..])
    else "_" + Collapsed(s[1..])
  }

  function Trimmed(s: string): string
    decreases |s|
  {
    if s == "" then ""
    else if s[0] == '_' then Trimmed(s[1..])
    else if s[|s| - 1] == '_' then Trimmed(s[..|s| - 1])
    else s
  }

  /** A zone's name as it appears in an id; what names no zone at all is global. */
  function Slug(zone: Option<string>): string {
    var safe := Trimmed(Collapsed(Lower(if zone.Some? then zone.value else "")));
    if safe == "" then "global" else safe
  }

  datatype Key = Key(zone: Option<string>, kind: Kind)

  function NotificationId(k: Key): string {
    "never_dry_" + Slug(k.zone) + "_" + KindValue(k.kind)
  }

  /** The last four characters of a kind's value, which tell the kinds apart. */
  function Ending(k: Kind): string {
    match k
    case CommandFailed => "iled"
    case UnreachablePassive => "sive"
    case UnreachableAtIrrigation => "tion"
    case FlowMeterDead => "dead"
    case DeliveryUncredited => "ited"
    case StuckOpen => "open"
    case LeakDetected => "cted"
    case ZoneDisabled => "bled"
    case BatteryLow => "_low"
    case IrrigationIneffective => "tive"
    case ModelDrift => "rift"
    case WaterMeNow => "_now"
    case WatchdogTriggered => "ered"
    case DeficitAnomaly => "maly"
  }

  predicate EndsAsListed(k: Kind) {
    |KindValue(k)| >= 4 && KindValue(k)[|KindValue(k)| - 4..] == Ending(k)
  }

  lemma EndingEnds(k: Kind)
    ensures EndsAsListed(k)
  {
    hide EndsAsListed;
    EndingsOfFaults();
    EndingsOfStates();
  }

  lemma EndingsOfFaults()
    ensures EndsAsListed(CommandFailed) && EndsAsListed(UnreachablePassive) && EndsAsListed(UnreachableAtIrrigation)
    ensures EndsAsListed(FlowMeterDead) && EndsAsListed(DeliveryUncredited) && EndsAsListed(StuckOpen)
    ensures EndsAsListed(LeakDetected)
  {
  }

  lemma EndingsOfStates()
    ensures EndsAsListed(ZoneDisabled) && EndsAsListed(BatteryLow) && EndsAsListed(IrrigationIneffective)
    ensures EndsAsListed(ModelDrift) && EndsAsListed(WaterMeNow) && EndsAsListed(WatchdogTriggered)
    ensures EndsAsListed(DeficitAnomaly)
  {
  }

  lemma EndingsDiffer(k: Kind, k': Kind)
    requires Ending(k) == Ending(k')
    ensures k == k'
  {
    var e, e' := Ending(k), Ending(k');
    assert e[0] == e'[0] && e[1] == e'[1] && e[2] == e'[2] && e[3] == e'[3];
  }

  lemma EndOf(a: string, b: string, n: nat)
    requires n <= |b|
    ensures (a + b)[|a + b| - n..] == b[|b| - n..]
  {
  }

  /** Two notices share an id exactly when they are of one kind and their zones share a slug. */
  lemma IdsCollide(k: Key, k': Key)
    ensures NotificationId(k) == NotificationId(k') <==> (k.kind == k'.kind && Slug(k.zone) == Slug(k'.zone))
  {
    hide Slug, KindValue, Ending;
    if NotificationId(k) == NotificationId(k') {
      var prefix := "never_dry_";
      EndingEnds(k.kind);
      EndingEnds(k'.kind);
      EndOf(prefix + Slug(k.zone) + "_", KindValue(k.kind), 4);
      EndOf(prefix + Slug(k'.zone) + "_", KindValue(k'.kind), 4);
      EndingsDiffer(k.kind, k'.kind);
      assert NotificationId(k) == prefix + Slug(k.zone) + ("_" + KindValue(k.kind));
      assert NotificationId(k') == prefix + Slug(k'.zone) + ("_" + KindValue(k.kind));
      SameMiddle(prefix, Slug(k.zone), Slug(k'.zone), "_" + KindValue(k.kind));
    }
  }

  lemma SameMiddle(p: string, a: string, b: string, s: string)
    ensures p + a + s == p + b + s ==> a == b
  {
    if p + a + s == p + b + s {
      assert a == (p + a + s)[|p|..|p| + |a|] && b == (p + b + s)[|p|..|p| + |b|];
    }
  }

  // ---------- The board on values

  type Context = map<string, string>

  /** What the index remembers of a notice. */
  datatype Entry = Entry(severity: Severity, id: string, title: string, message: string, context: Context)

  /** What the store shows. */
  datatype Notice = Notice(title: string, message: string)

  datatype Board = Board(mode: OperatingMode, active: map<Key, Entry>, notices: map<string, Notice>)

  const BLANK := Board(Active, map[], map[])

  /** The translated words of a kind, the message filled in for its context. */
  datatype Words = Words(titleText: string, message: string)

  function WithZone(context: Context, zone: Option<string>): Context {
    if zone.Some? && "zone" !in context then context["zone" := zone.value] else context
  }

  function Title(severity: Severity, w: Words): string {
    "[" + Label(severity) + "] " + w.titleText
  }

  /** Neither withheld by the mode nor a repeat of what is already shown. */
  predicate Surfaces(b: Board, k: Key, severity: Severity, context: Context) {
    Admits(b.mode, k.kind) &&
    !(k in b.active && b.active[k].context == WithZone(context, k.zone) && b.active[k].severity == severity)
  }

  function Notified(b: Board, k: Key, severity: Severity, context: Context, w: Words): Board {
    if !Surfaces(b, k, severity, context) then b
    else
      var e := Entry(severity, NotificationId(k), Title(severity, w), w.message, WithZone(context, k.zone));
      b.(active := b.active[k := e], notices := b.notices[e.id := Notice(e.title, e.message)])
  }

  /** The index without these keys, the store without what they showed. */
  function Withdrawn(b: Board, keys: set<Key>): Board {
    b.(active := b.active - keys, notices := b.notices - set k | k in keys && k in b.active :: b.active[k].id)
  }

  function ActiveWhere(b: Board, mode: OperatingMode): set<Key> {
    set k | k in b.active && !Admits(mode, k.kind)
  }

  function OfZone(b: Board, zone: Option<string>): set<Key> {
    set k | k in b.active && k.zone == zone
  }

  /** The public calls. */
  datatype Call =
    | Notify(key: Key, severity: Severity, context: Context, words: Words)
    | Clear(cleared: Key)
    | ClearZone(zone: Option<string>)
    | ClearAll
    | ApplyMode(mode: OperatingMode)

  function Called(b: Board, c: Call): Board {
    match c
    case Notify(key, severity, context, words) => Notified(b, key, severity, context, words)
    case Clear(key) => Withdrawn(b, {key})
    case ClearZone(zone) => Withdrawn(b, OfZone(b, zone))
    case ClearAll => Withdrawn(b, b.active.Keys)
    case ApplyMode(mode) => Withdrawn(b, ActiveWhere(b, mode)).(mode := mode)
  }

  function After(b: Board, calls: seq<Call>): Board {
    if calls == [] then b else Called(After(b, calls[..|calls| - 1]), calls[|calls| - 1])
  }

  // ---------- The agreement of index and store

  /** The store shows exactly what the index holds, in the same words, and all of it is admitted. */
  ghost predicate Agrees(b: Board) {
    && (forall k :: k in b.active ==>
          && b.active[k].id == NotificationId(k)
          && b.active[k].id in b.notices
          && b.notices[b.active[k].id] == Notice(b.active[k].title, b.active[k].message))
    && (forall id :: id in b.notices ==> exists k :: k in b.active && b.active[k].id == id)
    && (forall k :: k in b.active ==> Admits(b.mode, k.kind))
  }

  /** The zones the notices are about. */
  ghost predicate About(b: Board, zones: set<Option<string>>) {
    forall k :: k in b.active ==> k.zone in zones
  }

  ghost predicate DistinctSlugs(zones: set<Option<string>>) {
    forall z, z' :: z in zones && z' in zones && Slug(z) == Slug(z') ==> z == z'
  }

  ghost predicate CallsAbout(calls: seq<Call>, zones: set<Option<string>>) {
    forall i :: 0 <= i < |calls| && calls[i].Notify? ==> calls[i].key.zone in zones
  }

  lemma NotifyKeepsAgreement(b: Board, k: Key, severity: Severity, context: Context, w: Words,
                             zones: set<Option<string>>)
    requires Agrees(b) && About(b, zones) && DistinctSlugs(zones) && k.zone in zones
    ensures Agrees(Notified(b, k, severity, context, w)) && About(Notified(b, k, severity, context, w), zones)
  {
    hide Slug, NotificationId, Admits, Title, WithZone;
    forall k' | k' in b.active ensures NotificationId(k') == NotificationId(k) <==> k' == k {
      IdsCollide(k', k);
    }
    var after := Notified(b, k, severity, context, w);
    forall id | id in after.notices ensures exists k' :: k' in after.active && after.active[k'].id == id {
      if id in b.notices && id != NotificationId(k) {
        var k' :| k' in b.active && b.active[k'].id == id;
        assert k' in after.active;
      } else if Surfaces(b, k, severity, context) {
        assert k in after.active;
      }
    }
  }

  lemma WithdrawKeepsAgreement(b: Board, keys: set<Key>, zones: set<Option<string>>)
    requires Agrees(b) && About(b, zones) && DistinctSlugs(zones)
    ensures Agrees(Withdrawn(b, keys)) && About(Withdrawn(b, keys), zones)
  {
    hide Slug, NotificationId, Admits;
    forall k, k' | k in b.active && k' in b.active && b.active[k].id == b.active[k'].id ensures k == k' {
      IdsCollide(k, k');
    }
    var after := Withdrawn(b, keys);
    forall id | id in after.notices ensures exists k :: k in after.active && after.active[k].id == id {
      var k :| k in b.active && b.active[k].id == id;
      assert k in after.active;
    }
  }

  /** Over zones with distinct slugs, index and store agree after every run of calls. */
  lemma {:induction false} AgreesOnEveryRun(calls: seq<Call>, zones: set<Option<string>>)
    requires DistinctSlugs(zones) && CallsAbout(calls, zones)
    ensures Agrees(After(BLANK, calls)) && About(After(BLANK, calls), zones)
  {
    if calls != [] {
      var n := |calls| - 1;
      assert forall i :: 0 <= i < n ==> calls[..n][i] == calls[i];
      AgreesOnEveryRun(calls[..n], zones);
      var b := After(BLANK, calls[..n]);
      match calls[n]
      case Notify(key, severity, context, words) => NotifyKeepsAgreement(b, key, severity, context, words, zones);
      case Clear(key) => WithdrawKeepsAgreement(b, {key}, zones);
      case ClearZone(zone) => WithdrawKeepsAgreement(b, OfZone(b, zone), zones);
      case ClearAll => WithdrawKeepsAgreement(b, b.active.Keys, zones);
      case ApplyMode(mode) => WithdrawKeepsAgreement(b, ActiveWhere(b, mode), zones);
    }
  }

  /**
   And only over those: any two zones with one slug have a run after which the index holds a notice
   the store no longer shows.
   */
  lemma SharedSlugBreaksAgreement(z: Option<string>, z': Option<string>, w: Words) returns (calls: seq<Call>)
    requires z != z' && Slug(z) == Slug(z')
    ensures CallsAbout(calls, {z, z'})
    ensures !Agrees(After(BLANK, calls))
  {
    hide Slug, NotificationId, Title, WithZone;
    var k, k' := Key(z, StuckOpen), Key(z', StuckOpen);
    IdsCollide(k, k');
    var first, second := Notify(k, Critical, map[], w), Notify(k', Critical, map[], w);
    calls := [first, second, Clear(k)];
    assert calls[..2] == [first, second] && calls[..2][..1] == [first] && calls[..2][..1][..0] == [];
    var b1 := Called(BLANK, first);
    var b2 := Called(b1, second);
    assert After(BLANK, [first]) == b1;
    assert After(BLANK, [first, second]) == b2;
    assert After(BLANK, calls) == Called(b2, Clear(k));
    assert k' in Called(b2, Clear(k)).active;
  }

  // ---------- The objects

  /** The service that shows notices. */
  class Store {
    var notices: map<string, Notice>

    constructor ()
      ensures notices == map[]
    {
      notices := map[];
    }

    method Create(id: string, notice: Notice)
      modifies this
      ensures notices == old(notices)[id := notice]
    {
      notices := notices[id := notice];
    }

    method Dismiss(id: string)
      modifies this
      ensures notices == old(notices) - {id}
    {
      notices := notices - {id};
    }
  }

  class ValveNotifier {
    const store: Store
    var mode: OperatingMode
    var active: map<Key, Entry>

    ghost function Value(): Board
      reads this, store
    {
      Board(mode, active, store.notices)
    }

    constructor (store: Store)
      ensures this.store == store
      ensures Value() == Board(Active, map[], store.notices)
    {
      this.store := store;
      mode, active := Active, map[];
    }

    /** Show a notice, and say whether the store was touched. */
    method Notify(zone: Option<string>, kind: Kind, severity: Severity, context: Context, w: Words)
      returns (shown: bool)
      modifies this, store
      ensures shown <==> Surfaces(old(Value()), Key(zone, kind), severity, context)
      ensures Value() == Notified(old(Value()), Key(zone, kind), severity, context, w)
    {
      if !Admits(mode, kind) {
        return false;
      }
      var ctx := WithZone(context, zone);
      var key := Key(zone, kind);
      if key in active && active[key].context == ctx && active[key].severity == severity {
        return false;
      }
      var id, title := NotificationId(key), Title(severity, w);
      store.Create(id, Notice(title, w.message));
      active := active[key := Entry(severity, id, title, w.message, ctx)];
      return true;
    }

    /** Take one notice down, if it is up. */
    method Clear(zone: Option<string>, kind: Kind) returns (dismissed: bool)
      modifies this`active, store
      ensures dismissed <==> Key(zone, kind) in old(active)
      ensures Value() == Withdrawn(old(Value()), {Key(zone, kind)})
    {
      var key := Key(zone, kind);
      if key !in active {
        WithdrawStrangers(Value(), {key});
        return false;
      }
      var id := active[key].id;
      active := active - {key};
      store.Dismiss(id);
      assert {id} == set k | k in {key} && k in old(active) :: old(active)[k].id;
      return true;
    }

    /** Clear a snapshot of keys, one by one. */
    method ClearKeys(keys: set<Key>) returns (count: nat)
      requires keys <= active.Keys
      modifies this`active, store
      ensures count == |keys|
      ensures Value() == Withdrawn(old(Value()), keys)
    {
      var rest := keys;
      count := 0;
      WithdrawStrangers(Value(), {});
      while rest != {}
        invariant rest <= keys && count == |keys| - |rest|
        invariant Value() == Withdrawn(old(Value()), keys - rest)
        decreases |rest|
      {
        var key :| key in rest;
        WithdrawMore(old(Value()), keys - rest, key);
        assert keys - (rest - {key}) == keys - rest + {key};
        var dismissed := Clear(key.zone, key.kind);
        rest := rest - {key};
        count := count + 1;
      }
      assert keys - rest == keys;
    }

    method ClearZone(zone: Option<string>) returns (count: nat)
      modifies this`active, store
      ensures count == |OfZone(old(Value()), zone)|
      ensures Value() == Called(old(Value()), Call.ClearZone(zone))
    {
      count := ClearKeys(set k | k in active && k.zone == zone);
    }

    method ClearAll() returns (count: nat)
      modifies this`active, store
      ensures count == |old(active)|
      ensures Value() == Called(old(Value()), Call.ClearAll)
    {
      count := ClearKeys(active.Keys);
    }

    /** Switch modes; notices the new one forbids are taken down and counted. */
    method ApplyOperatingMode(mode: OperatingMode) returns (count: nat)
      modifies this, store
      ensures count == |ActiveWhere(old(Value()), mode)|
      ensures Value() == Called(old(Value()), ApplyMode(mode))
    {
      this.mode := mode;
      count := ClearKeys(set k | k in active && !Admits(mode, k.kind));
    }
  }

  lemma WithdrawStrangers(b: Board, keys: set<Key>)
    requires keys !! b.active.Keys
    ensures Withdrawn(b, keys) == b
  {
    assert b.active - keys == b.active;
    assert (set k | k in keys && k in b.active :: b.active[k].id) == {};
    assert b.notices - {} == b.notices;
  }

  /** Withdrawing one more key is withdrawing it from what is left. */
  lemma WithdrawMore(b: Board, keys: set<Key>, key: Key)
    requires key !in keys
    ensures Withdrawn(b, keys + {key}) == Withdrawn(Withdrawn(b, keys), {key})
  {
    var left := Withdrawn(b, keys);
    assert b.active - (keys + {key}) == left.active - {key};
    var all := set k | k in keys + {key} && k in b.active :: b.active[k].id;
    var some := set k | k in keys && k in b.active :: b.active[k].id;
    var last := set k | k in {key} && k in left.active :: left.active[k].id;
    forall id | id in all ensures id in some + last {
      var k :| k in keys + {key} && k in b.active && b.active[k].id == id;
      assert k == key ==> key in left.active && left.active[key].id == id;
    }
    forall id | id in some + last ensures id in all {
      if id in some {
        var k :| k in keys && k in b.active && b.active[k].id == id;
        assert k in keys + {key};
      } else {
        assert key in keys + {key} && key in b.active && b.active[key].id == id;
      }
    }
    assert all == some + last;
    assert b.notices - all == b.notices - some - last;
  }

  // ---------- What is admitted, shown and taken back

  /** Active admits everything, away everything but the request to water by hand, stopped nothing. */
  lemma AdmitsByMode(k: Kind)
    ensures Admits(Active, k)
    ensures Admits(Away, k) <==> k != WaterMeNow
    ensures !Admits(Stopped, k)
  {
  }

  /** A call shows a notice exactly if it is admitted and changes severity or context; it then shows its own words. */
  lemma ShownExactly(b: Board, k: Key, severity: Severity, context: Context, w: Words)
    ensures var after := Notified(b, k, severity, context, w);
      var joined := WithZone(context, k.zone);
      var repeats := k in b.active && b.active[k].severity == severity && b.active[k].context == joined;
      if Admits(b.mode, k.kind) && !repeats
      then
        && k in after.active && after.active[k].severity == severity
        && after.active[k].context == WithZone(context, k.zone)
        && NotificationId(k) in after.notices
        && after.notices[NotificationId(k)]
           == Notice((match severity case Info => "[INFO] " case Warning => "[WARNING] " case Critical => "[CRITICAL] ")
                     + w.titleText, w.message)
        && (forall k' :: k' != k ==> (k' in after.active <==> k' in b.active)
                                     && (k' in b.active ==> after.active[k'] == b.active[k']))
      else after == b
  {
    hide NotificationId, Admits, WithZone;
    assert "[" + "INFO" + "] " == "[INFO] " && "[" + "WARNING" + "] " == "[WARNING] ";
    assert "[" + "CRITICAL" + "] " == "[CRITICAL] ";
  }

  /** The zone joins a context that does not name one, and overwrites nothing. */
  lemma ZoneJoinsContext(context: Context, zone: Option<string>, key: string)
    ensures key in WithZone(context, zone) <==> key in context || (key == "zone" && zone.Some?)
    ensures key in context ==> WithZone(context, zone)[key] == context[key]
    ensures key !in context && key == "zone" && zone.Some? ==> WithZone(context, zone)[key] == zone.value
  {
  }

  /** Clearing a notice that was not there before it was shown leaves everything as before. */
  lemma ClearUndoesNotify(b: Board, k: Key, severity: Severity, context: Context, w: Words)
    requires k !in b.active && NotificationId(k) !in b.notices
    ensures Called(Called(b, Notify(k, severity, context, w)), Clear(k)) == b
  {
    hide NotificationId, Admits, WithZone, Title;
    var shown := Notified(b, k, severity, context, w);
    if Surfaces(b, k, severity, context) {
      var id := NotificationId(k);
      assert shown.active[k].id == id;
      assert (set k' | k' in {k} && k' in shown.active :: shown.active[k'].id) == {id};
      assert b.active[k := shown.active[k]] - {k} == b.active;
      assert b.notices[id := shown.notices[id]] - {id} == b.notices;
    } else {
      WithdrawStrangers(b, {k});
    }
  }

  /** A withdrawn key is gone, and every other stays as it was. */
  lemma WithdrawnExactly(b: Board, keys: set<Key>, k: Key)
    ensures k in Withdrawn(b, keys).active <==> k in b.active && k !in keys
    ensures k in Withdrawn(b, keys).active ==> Withdrawn(b, keys).active[k] == b.active[k]
    ensures Withdrawn(b, keys).mode == b.mode
  {
  }

  // ---------- Names as ids show them

  predicate IsCleanChar(c: char) {
    IsWordChar(c) && !('A' <= c <= 'Z')
  }

  lemma {:induction false} CollapsedWord(s: string)
    requires forall i :: 0 <= i < |s| ==> IsWordChar(s[i])
    ensures Collapsed(s) == s
  {
    if s != "" { CollapsedWord(s[1..]); }
  }

  /** A name of lower-case word characters, without underscores at its ends, is its own slug. */
  lemma CleanNameIsItsSlug(name: string)
    requires name != "" && forall i :: 0 <= i < |name| ==> IsCleanChar(name[i])
    requires name[0] != '_' && name[|name| - 1] != '_'
    ensures Slug(Some(name)) == name
  {
    LowerOfLower(name);
    CollapsedWord(name);
  }

  /** Case does not tell zones apart. */
  lemma SlugForgetsCase(a: string, b: string)
    requires |a| == |b| && Lower(a) == Lower(b)
    ensures Slug(Some(a)) == Slug(Some(b))
  {
  }

  lemma {:induction false} WordsStand(a: string, rest: string)
    requires forall i :: 0 <= i < |a| ==> IsWordChar(a[i])
    ensures Collapsed(a + rest) == a + Collapsed(rest)
  {
    if a == "" {
      assert a + rest == rest;
    } else {
      assert (a + rest)[1..] == a[1..] + rest;
      WordsStand(a[1..], rest);
      assert Collapsed(a + rest) == [a[0]] + Collapsed(a[1..] + rest);
      hide Collapsed;
      assert [a[0]] + (a[1..] + Collapsed(rest)) == a + Collapsed(rest);
    }
  }

  lemma {:induction false} GapIsOneUnderscore(gap: string, b: string)
    requires gap != "" && forall i :: 0 <= i < |gap| ==> !IsWordChar(gap[i])
    requires b != "" && IsWordChar(b[0])
    ensures Collapsed(gap + b) == "_" + Collapsed(b)
  {
    assert (gap + b)[1..] == gap[1..] + b;
    if |gap| > 1 {
      assert (gap + b)[1] == gap[1];
      GapIsOneUnderscore(gap[1..], b);
    } else {
      assert gap[1..] + b == b;
    }
  }

  /** A run of other characters between two words is one underscore. */
  lemma RunIsOneUnderscore(a: string, gap: string, b: string)
    requires forall i :: 0 <= i < |a| ==> IsWordChar(a[i])
    requires gap != "" && forall i :: 0 <= i < |gap| ==> !IsWordChar(gap[i])
    requires b != "" && IsWordChar(b[0])
    ensures Collapsed(a + gap + b) == a + "_" + Collapsed(b)
  {
    hide Collapsed, IsWordChar;
    assert a + gap + b == a + (gap + b);
    WordsStand(a, gap + b);
    GapIsOneUnderscore(gap, b);
    assert a + ("_" + Collapsed(b)) == a + "_" + Collapsed(b);
  }

  /** What names no zone is global. */
  lemma NothingIsGlobal(zone: Option<string>)
    requires zone.Some? ==> forall i :: 0 <= i < |zone.value| ==> !IsWordChar(zone.value[i])
    ensures Slug(zone) == "global"
  {
    var name := if zone.Some? then zone.value else "";
    NoLetters(name);
    CollapsedGap(name);
    assert "_"[1..] == "" && Trimmed("_") == Trimmed("_"[1..]);
  }

  lemma {:induction false} NoLetters(s: string)
    requires forall i :: 0 <= i < |s| ==> !IsWordChar(s[i])
    ensures Lower(s) == s
  {
    if s != "" { NoLetters(s[1..]); }
  }

  lemma {:induction false} CollapsedGap(s: string)
    requires forall i :: 0 <= i < |s| ==> !IsWordChar(s[i])
    ensures Collapsed(s) == if s == "" then "" else "_"
  {
    if |s| > 1 { CollapsedGap(s[1..]); }
  }

  /** Never an underscore at either end. */
  lemma SlugIsTrimmed(zone: Option<string>)
    ensures Slug(zone) != "" && Slug(zone)[0] != '_' && Slug(zone)[|Slug(zone)| - 1] != '_'
  {
    hide Collapsed, Lower;
    TrimmedAtBothEnds(Collapsed(Lower(if zone.Some? then zone.value else "")));
    assert "global"[0] == 'g' && "global"[5] == 'l';
  }

  lemma {:induction false} TrimmedAtBothEnds(s: string)
    ensures var t := Trimmed(s); t != "" ==> t[0] != '_' && t[|t| - 1] != '_'
    decreases |s|
  {
    if s != "" {
      if s[0] == '_' { TrimmedAtBothEnds(s[1..]); }
      else if s[|s| - 1] == '_' { TrimmedAtBothEnds(s[..|s| - 1]); }
    }
  }

  /** What each call that takes notices down leaves up, exactly. */
  lemma LeftUp(b: Board, zone: Option<string>, mode: OperatingMode, k: Key)
    ensures k in Called(b, ClearZone(zone)).active <==> k in b.active && k.zone != zone
    ensures k !in Called(b, ClearAll).active
    ensures k in Called(b, ApplyMode(mode)).active <==> k in b.active && Admits(mode, k.kind)
    ensures Called(b, ApplyMode(mode)).mode == mode
  {
    hide Admits;
  }
}
