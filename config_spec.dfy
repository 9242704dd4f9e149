/**
  * The feed configuration of the transit module. Each section of the feeds
  * file names a feed; its flat settings (`live_class`, `static_class`,
  * `live_argument_keys` / `live_argument_vals`,
  * `all_override_<obj>_<field>_keys` / `…_vals`, …) become one entry with
  * a system name and up to two parser (provider) descriptions.
  *
  * Two classes build this structure: the stand-alone feed parser and a copy
  * embedded in the view model. They share the operations below and differ
  * only in which flat keys they accept (`Variant`).
  */
module ConfigSpec {
  import opened Wrappers
  import opened Dicts
  import opened Strings

  /** An ini value: a string, or a list written `key[] = …`. */
  datatype ConfigValue = Scalar(text: string) | List(items: seq<string>)

  /** One feed's section: setting name to value, in file order. */
  type Section = Dict<string, ConfigValue>

  /** Field name to value; a value missing from its list is stored as null (None). */
  type FieldMap = Dict<string, Option<string>>

  /** `overrides[obj][field][key] = value`. */
  type Overrides = Dict<string, Dict<string, FieldMap>>

  /**
    * One provider of a feed: its class, constructor arguments and field
    * overrides. `routes` is the per-parser whitelist slot the whitelist
    * getters read; no operation writes it.
    */
  datatype ParserConf = ParserConf(cls: string, arguments: FieldMap, overrides: Overrides, routes: Option<ConfigValue>)

  /** One feed: its system name, its providers and its (entry-level) route whitelist. */
  datatype Entry = Entry(system: string, liveParser: Option<ParserConf>, staticParser: Option<ParserConf>, routes: Option<ConfigValue>)

  type Entries = Dict<string, Entry>

  datatype Slot = Live | Static

  /** The stand-alone parser (TransitConfig.php) or the copy inside the view model file. */
  datatype Variant = FileParser | ViewParser

  /** A string setting; a list where a string is expected is read as absent. */
  function Setting(sec: Section, key: string): (r: Option<string>)
    ensures r.Some? <==> key in sec.vals && sec.vals[key].Scalar?
    ensures r.Some? ==> sec.vals[key] == Scalar(r.value)
  {
    if key in sec.vals && sec.vals[key].Scalar? then Some(sec.vals[key].text) else None
  }

  /** `isset($config[$key]) && $config[$key]`: a class name that is set and truthy, else null. */
  function ClassSetting(sec: Section, key: string): (r: Option<string>)
    ensures r.Some? <==> Setting(sec, key).Some? && Truthy(Setting(sec, key).value)
    ensures r.Some? ==> r == Setting(sec, key)
  {
    var s := Setting(sec, key);
    if s.Some? && Truthy(s.value) then s else None
  }

  /** PHP's `count` of a setting: the length of a list, 1 for a string. */
  function Count(v: ConfigValue): nat {
    match v
    case List(xs) => |xs|
    case Scalar(_) => 1
  }

  /** `$fieldKeys` iterated by `foreach`: the items of a list, nothing for a string. */
  function Items(v: ConfigValue): seq<string> {
    match v
    case List(xs) => xs
    case Scalar(_) => []
  }

  /**
    * `$fieldValues[$i]`: the i-th item of a list, null when there is none;
    * on a string, PHP's string offset: its i-th character, or the empty
    * string past its end.
    */
  function ValueAt(v: ConfigValue, i: nat): (r: Option<string>)
    ensures v.List? ==> (r.Some? <==> i < |v.items|)
    ensures v.List? && r.Some? ==> r.value == v.items[i]
    ensures v.Scalar? ==> r.Some? && |r.value| <= 1 && (|r.value| == 1 <==> i < |v.text|)
    ensures v.Scalar? && i < |v.text| ==> r.value[0] == v.text[i]
  {
    match v
    case List(xs) => if i < |xs| then Some(xs[i]) else None
    case Scalar(text) => if i < |text| then Some([text[i]]) else Some("")
  }

  function SlotOf(e: Entry, slot: Slot): Option<ParserConf> {
    match slot
    case Live => e.liveParser
    case Static => e.staticParser
  }

  function WithSlot(e: Entry, slot: Slot, p: ParserConf): (r: Entry)
    ensures SlotOf(r, slot) == Some(p)
    ensures forall other :: other != slot ==> SlotOf(r, other) == SlotOf(e, other)
    ensures r.system == e.system && r.routes == e.routes
  {
    match slot
    case Live => e.(liveParser := Some(p))
    case Static => e.(staticParser := Some(p))
  }

  /** A freshly added provider: its class, no arguments, no overrides. */
  function NewParser(cls: string): ParserConf {
    ParserConf(cls, Empty(), Empty(), None)
  }

  /**
    * `addParser`: a feed gets an entry, holding only its system, when either
    * class is given (not null); each truthy class adds a fresh provider.
    * An existing entry for the same id is replaced in place.
    */
  function WithParser(entries: Entries, id: string, system: string, liveCls: Option<string>, staticCls: Option<string>): (r: Entries)
    ensures liveCls.None? && staticCls.None? ==> r == entries
    ensures liveCls.Some? || staticCls.Some? ==>
      id in r.vals && r.vals[id].system == system && r.vals[id].routes.None? &&
      r.vals[id].liveParser == (if liveCls.Some? && Truthy(liveCls.value) then Some(NewParser(liveCls.value)) else None) &&
      r.vals[id].staticParser == (if staticCls.Some? && Truthy(staticCls.value) then Some(NewParser(staticCls.value)) else None)
    ensures forall other :: other != id ==> (other in r.vals <==> other in entries.vals)
    ensures forall other :: other != id && other in r.vals ==> r.vals[other] == entries.vals[other]
  {
    if liveCls.None? && staticCls.None? then entries
    else
      var live := if liveCls.Some? && Truthy(liveCls.value) then Some(NewParser(liveCls.value)) else None;
      var stat := if staticCls.Some? && Truthy(staticCls.value) then Some(NewParser(staticCls.value)) else None;
      Put(entries, id, Entry(system, live, stat, None))
  }

  /**
    * The loop `foreach ($slots as $slot) if (isset($entries[$id][$slot])) …`
    * shared by `setArgument` and `setFieldOverride`: `update` is applied to
    * the provider of every named slot that exists.
    */
  function UpdateSlots(entries: Entries, id: string, slots: seq<Slot>, update: ParserConf -> ParserConf): Entries
    decreases |slots|
  {
    if slots == [] then entries
    else UpdateSlot(UpdateSlots(entries, id, slots[..|slots| - 1], update), id, slots[|slots| - 1], update)
  }

  /** One iteration of that loop: `update` applied to the feed's provider in `slot`, if there is one. */
  function UpdateSlot(entries: Entries, id: string, slot: Slot, update: ParserConf -> ParserConf): Entries {
    if id in entries.vals && SlotOf(entries.vals[id], slot).Some? then
      Put(entries, id, WithSlot(entries.vals[id], slot, update(SlotOf(entries.vals[id], slot).value)))
    else entries
  }

  /** One iteration changes only the provider in its slot of the one feed. */
  lemma UpdateSlotEffect(entries: Entries, id: string, last: Slot, update: ParserConf -> ParserConf, slot: Slot)
    ensures UpdateSlot(entries, id, last, update).keys == entries.keys
    ensures forall other :: other in entries.vals && other != id ==> UpdateSlot(entries, id, last, update).vals[other] == entries.vals[other]
    ensures id in entries.vals ==>
      var e, e' := entries.vals[id], UpdateSlot(entries, id, last, update).vals[id];
      e'.system == e.system && e'.routes == e.routes &&
      SlotOf(e', slot) == match SlotOf(e, slot) case None => None case Some(p) => Some(if slot == last then update(p) else p)
  {
  }

  /** The effect of `UpdateSlots` on one slot, for an update that is idempotent. */
  lemma {:induction false} UpdateSlotsEffect(entries: Entries, id: string, slots: seq<Slot>, update: ParserConf -> ParserConf, slot: Slot)
    requires forall p :: update(update(p)) == update(p)
    ensures UpdateSlots(entries, id, slots, update).keys == entries.keys
    ensures forall other :: other in entries.vals && other != id ==> UpdateSlots(entries, id, slots, update).vals[other] == entries.vals[other]
    ensures id in entries.vals ==>
      var e, e' := entries.vals[id], UpdateSlots(entries, id, slots, update).vals[id];
      e'.system == e.system && e'.routes == e.routes &&
      SlotOf(e', slot) == match SlotOf(e, slot) case None => None case Some(p) => Some(if slot in slots then update(p) else p)
    decreases |slots|
  {
    if slots != [] {
      var init, last := slots[..|slots| - 1], slots[|slots| - 1];
      var acc := UpdateSlots(entries, id, init, update);
      assert UpdateSlots(entries, id, slots, update) == UpdateSlot(acc, id, last, update);
      UpdateSlotsEffect(entries, id, init, update, slot);
      UpdateSlotEffect(acc, id, last, update, slot);
      assert slot in slots <==> slot in init || slot == last;
      if id in entries.vals && SlotOf(entries.vals[id], slot).Some? {
        var p := SlotOf(entries.vals[id], slot).value;
        var q := if slot in init then update(p) else p;
        assert SlotOf(acc.vals[id], slot) == Some(q);
        if slot == last && slot in init {
          assert update(q) == update(p);
        }
      }
    }
  }

  /** `arguments[key] = value` on one provider. */
  function ArgumentSetter(key: string, value: Option<string>): ParserConf -> ParserConf {
    (p: ParserConf) => p.(arguments := Put(p.arguments, key, value))
  }

  lemma ArgumentSetterIdempotent(key: string, value: Option<string>)
    ensures forall p :: ArgumentSetter(key, value)(ArgumentSetter(key, value)(p)) == ArgumentSetter(key, value)(p)
  {
    forall p: ParserConf ensures ArgumentSetter(key, value)(ArgumentSetter(key, value)(p)) == ArgumentSetter(key, value)(p) {
      assert Put(Put(p.arguments, key, value), key, value) == Put(p.arguments, key, value);
    }
  }

  /** `setArgument`. */
  function WithArgument(entries: Entries, id: string, slots: seq<Slot>, key: string, value: Option<string>): Entries {
    UpdateSlots(entries, id, slots, ArgumentSetter(key, value))
  }

  /**
    * `setArgument` sets `arguments[key] = value` for every named slot whose
    * provider exists, and changes nothing else.
    */
  lemma WithArgumentEffect(entries: Entries, id: string, slots: seq<Slot>, key: string, value: Option<string>, slot: Slot)
    ensures WithArgument(entries, id, slots, key, value).keys == entries.keys
    ensures forall other :: other in entries.vals && other != id ==> WithArgument(entries, id, slots, key, value).vals[other] == entries.vals[other]
    ensures id in entries.vals ==>
      var e, e' := entries.vals[id], WithArgument(entries, id, slots, key, value).vals[id];
      e'.system == e.system && e'.routes == e.routes &&
      SlotOf(e', slot).Some? == SlotOf(e, slot).Some? &&
      (SlotOf(e, slot).Some? ==>
        var p, q := SlotOf(e, slot).value, SlotOf(e', slot).value;
        q.cls == p.cls && q.overrides == p.overrides && q.routes == p.routes &&
        q.arguments == if slot in slots then Put(p.arguments, key, value) else p.arguments)
  {
    ArgumentSetterIdempotent(key, value);
    UpdateSlotsEffect(entries, id, slots, ArgumentSetter(key, value), slot);
  }

  /** The override stored at `overrides[obj][field][key]`, if any. */
  function OverrideAt(ov: Overrides, obj: string, field: string, key: string): Option<Option<string>> {
    if obj in ov.vals && field in ov.vals[obj].vals && key in ov.vals[obj].vals[field].vals
    then Some(ov.vals[obj].vals[field].vals[key])
    else None
  }

  /**
    * The body of `setFieldOverride` for one provider: the object and field
    * levels are created when missing, then `overrides[obj][field][key] = value`.
    */
  function SetOverride(ov: Overrides, obj: string, field: string, key: string, value: Option<string>): Overrides {
    var fields := if obj in ov.vals then ov.vals[obj] else Empty();
    var inner := if field in fields.vals then fields.vals[field] else Empty();
    Put(ov, obj, Put(fields, field, Put(inner, key, value)))
  }

  /** Storing an override sets that one entry and preserves every other. */
  lemma SetOverrideEffect(ov: Overrides, obj: string, field: string, key: string, value: Option<string>, o: string, f: string, k: string)
    ensures OverrideAt(SetOverride(ov, obj, field, key, value), o, f, k) ==
      if o == obj && f == field && k == key then Some(value) else OverrideAt(ov, o, f, k)
    ensures o in SetOverride(ov, obj, field, key, value).vals <==> o in ov.vals || o == obj
  {
  }

  /** `overrides[obj][field][key] = value` on one provider. */
  function OverrideSetter(obj: string, field: string, key: string, value: Option<string>): ParserConf -> ParserConf {
    (p: ParserConf) => p.(overrides := SetOverride(p.overrides, obj, field, key, value))
  }

  /** Storing the same override twice stores it once. */
  lemma SetOverrideTwice(ov: Overrides, obj: string, field: string, key: string, value: Option<string>)
    ensures SetOverride(SetOverride(ov, obj, field, key, value), obj, field, key, value) == SetOverride(ov, obj, field, key, value)
  {
    var once := SetOverride(ov, obj, field, key, value);
    assert obj in once.vals;
    var fields := once.vals[obj];
    assert field in fields.vals;
    var inner := fields.vals[field];
    PutSame(inner, key, value);
    PutSame(fields, field, inner);
    PutSame(once, obj, fields);
  }

  lemma OverrideSetterIdempotent(obj: string, field: string, key: string, value: Option<string>)
    ensures forall p :: OverrideSetter(obj, field, key, value)(OverrideSetter(obj, field, key, value)(p)) == OverrideSetter(obj, field, key, value)(p)
  {
    forall p: ParserConf
      ensures OverrideSetter(obj, field, key, value)(OverrideSetter(obj, field, key, value)(p)) == OverrideSetter(obj, field, key, value)(p)
    {
      SetOverrideTwice(p.overrides, obj, field, key, value);
    }
  }

  /** `setFieldOverride`. */
  function WithOverride(entries: Entries, id: string, slots: seq<Slot>, obj: string, field: string, key: string, value: Option<string>): Entries {
    UpdateSlots(entries, id, slots, OverrideSetter(obj, field, key, value))
  }

  /**
    * `setFieldOverride` stores the override for every named slot whose
    * provider exists, and changes nothing else.
    */
  lemma WithOverrideEffect(entries: Entries, id: string, slots: seq<Slot>, obj: string, field: string, key: string, value: Option<string>, slot: Slot)
    ensures WithOverride(entries, id, slots, obj, field, key, value).keys == entries.keys
    ensures forall other :: other in entries.vals && other != id ==> WithOverride(entries, id, slots, obj, field, key, value).vals[other] == entries.vals[other]
    ensures id in entries.vals ==>
      var e, e' := entries.vals[id], WithOverride(entries, id, slots, obj, field, key, value).vals[id];
      e'.system == e.system && e'.routes == e.routes &&
      SlotOf(e', slot).Some? == SlotOf(e, slot).Some? &&
      (SlotOf(e, slot).Some? ==>
        var p, q := SlotOf(e, slot).value, SlotOf(e', slot).value;
        q.cls == p.cls && q.arguments == p.arguments && q.routes == p.routes &&
        q.overrides == if slot in slots then SetOverride(p.overrides, obj, field, key, value) else p.overrides)
  {
    OverrideSetterIdempotent(obj, field, key, value);
    UpdateSlotsEffect(entries, id, slots, OverrideSetter(obj, field, key, value), slot);
  }

  /** `setRouteWhitelist`: stores the list on the feed entry, when the feed has one. */
  function WithWhitelist(entries: Entries, id: string, routes: ConfigValue): (r: Entries)
    ensures r.keys == entries.keys
    ensures id in entries.vals ==> r.vals[id] == entries.vals[id].(routes := Some(routes))
    ensures forall other :: other in entries.vals && other != id ==> r.vals[other] == entries.vals[other]
  {
    if id in entries.vals then Put(entries, id, entries.vals[id].(routes := Some(routes))) else entries
  }

  /** What one flat setting asks for. */
  datatype KeyAction =
    | Skip
    | Arguments(slots: seq<Slot>, fieldKeys: ConfigValue, fieldValues: ConfigValue)
    | FieldOverrides(slots: seq<Slot>, obj: string, field: string, fieldKeys: ConfigValue, fieldValues: ConfigValue)

  /** `all` names both providers; `live` and `static` name one. */
  function SlotsFor(prefix: string): seq<Slot> {
    if prefix == "all" then [Live, Static] else if prefix == "live" then [Live] else [Static]
  }

  /** The setting paired with a keys setting: its last part replaced by `vals`. */
  function ValsKey(parts: seq<string>): string
    requires |parts| >= 1
  {
    Join("_", parts[..|parts| - 1]) + "_vals"
  }

  /**
    * Whether a setting with these `_`-separated parts names a keys list:
    * the stand-alone parser takes `live` and `static` with any type and `all`
    * only with `override`, and every last part except `vals`; the embedded
    * copy takes `live`, `static` and `all` with any type, and only the last
    * part `keys`.
    */
  predicate Accepted(variant: Variant, parts: seq<string>)
    requires |parts| >= 3
  {
    var prefix, kind, last := parts[0], parts[1], parts[|parts| - 1];
    match variant
    case FileParser => (prefix == "live" || prefix == "static" || (kind == "override" && prefix == "all")) && last != "vals"
    case ViewParser => (prefix == "live" || prefix == "static" || prefix == "all") && last == "keys"
  }

  /** The loop body of the constructors for one setting `key` of section `sec`. */
  function ClassifyKey(variant: Variant, sec: Section, key: string): (r: KeyAction)
    requires key in sec.vals
    ensures |Explode("_", key)| < 3 ==> r.Skip?
    ensures !r.Skip? ==>
      var parts := Explode("_", key);
      |parts| >= 3 && Accepted(variant, parts) && ValsKey(parts) in sec.vals &&
      r.slots == SlotsFor(parts[0]) && r.fieldKeys == sec.vals[key] && r.fieldValues == sec.vals[ValsKey(parts)]
    ensures r.Arguments? <==>
      var parts := Explode("_", key);
      |parts| >= 3 && Accepted(variant, parts) && ValsKey(parts) in sec.vals && parts[1] == "argument"
    ensures r.FieldOverrides? <==>
      var parts := Explode("_", key);
      |parts| == 5 && Accepted(variant, parts) && ValsKey(parts) in sec.vals && parts[1] == "override"
    ensures r.FieldOverrides? ==> r.obj == Explode("_", key)[2] && r.field == Explode("_", key)[3]
  {
    var parts := Explode("_", key);
    if |parts| < 3 || !Accepted(variant, parts) then Skip
    else
      var valsKey := ValsKey(parts);
      if valsKey !in sec.vals then Skip
      else if parts[1] == "argument" then Arguments(SlotsFor(parts[0]), sec.vals[key], sec.vals[valsKey])
      else if parts[1] == "override" && |parts| == 5 then
        FieldOverrides(SlotsFor(parts[0]), parts[2], parts[3], sec.vals[key], sec.vals[valsKey])
      else Skip
  }

  /** `foreach ($fieldKeys as $i => $fieldKey) setArgument(…, $fieldKey, $fieldValues[$i])` over the first n keys. */
  function ApplyArguments(entries: Entries, id: string, slots: seq<Slot>, keys: seq<string>, values: ConfigValue, n: nat): Entries
    requires n <= |keys|
  {
    if n == 0 then entries
    else WithArgument(ApplyArguments(entries, id, slots, keys, values, n - 1), id, slots, keys[n - 1], ValueAt(values, n - 1))
  }

  /** The same loop for `setFieldOverride`. */
  function ApplyOverrides(entries: Entries, id: string, slots: seq<Slot>, obj: string, field: string, keys: seq<string>, values: ConfigValue, n: nat): Entries
    requires n <= |keys|
  {
    if n == 0 then entries
    else WithOverride(ApplyOverrides(entries, id, slots, obj, field, keys, values, n - 1), id, slots, obj, field, keys[n - 1], ValueAt(values, n - 1))
  }

  function ApplyAction(entries: Entries, id: string, action: KeyAction): Entries {
    match action
    case Skip => entries
    case Arguments(slots, ks, vs) => ApplyArguments(entries, id, slots, Items(ks), vs, |Items(ks)|)
    case FieldOverrides(slots, obj, field, ks, vs) => ApplyOverrides(entries, id, slots, obj, field, Items(ks), vs, |Items(ks)|)
  }

  /** The settings loop over the keys `ks` of a section. */
  function ParseKeys(variant: Variant, entries: Entries, id: string, sec: Section, ks: seq<string>): Entries
    requires forall k :: k in ks ==> k in sec.vals
  {
    if ks == [] then entries
    else ApplyAction(ParseKeys(variant, entries, id, sec, ks[..|ks| - 1]), id, ClassifyKey(variant, sec, ks[|ks| - 1]))
  }

  /** The section with the class settings (and, for the stand-alone parser, the whitelist) removed. */
  function Remaining(variant: Variant, sec: Section): Section {
    var rest := Unset(Unset(sec, "live_class"), "static_class");
    match variant
    case FileParser => Unset(rest, "route_whitelist")
    case ViewParser => rest
  }

  /** The system of a feed: its `system` setting, or the feed id. */
  function SystemOf(sec: Section, id: string): string {
    Setting(sec, "system").GetOr(id)
  }

  /** The whitelist the stand-alone parser stores: a `route_whitelist` with a non-zero count. */
  function WhitelistSetting(sec: Section): Option<ConfigValue> {
    var wl := Get(sec, "route_whitelist");
    if wl.Some? && Count(wl.value) > 0 then wl else None
  }

  /** The entries before a feed's settings loop, which keeps every skeleton. */
  function FeedStart(variant: Variant, entries: Entries, id: string, sec: Section): Entries {
    var e1 := WithParser(entries, id, SystemOf(sec, id), ClassSetting(sec, "live_class"), ClassSetting(sec, "static_class"));
    var wl := WhitelistSetting(sec);
    if variant == FileParser && wl.Some? then WithWhitelist(e1, id, wl.value) else e1
  }

  /** One iteration of the constructors' loop over the feeds. */
  function FeedStep(variant: Variant, entries: Entries, id: string, sec: Section): Entries {
    var rest := Remaining(variant, sec);
    ParseKeys(variant, FeedStart(variant, entries, id, sec), id, rest, rest.keys)
  }

  /** The constructors' loop over the feeds `ids`. */
  function ParseFeeds(variant: Variant, feeds: Dict<string, Section>, ids: seq<string>): Entries
    requires forall id :: id in ids ==> id in feeds.vals
  {
    if ids == [] then Empty()
    else
      var id := ids[|ids| - 1];
      FeedStep(variant, ParseFeeds(variant, feeds, ids[..|ids| - 1]), id, feeds.vals[id])
  }

  /** One more feed of the loop. */
  lemma ParseFeedsNext(variant: Variant, feeds: Dict<string, Section>, ids: seq<string>, n: nat)
    requires forall id :: id in ids ==> id in feeds.vals
    requires n < |ids|
    ensures ids[n] in feeds.vals
    ensures ParseFeeds(variant, feeds, ids[..n + 1]) == FeedStep(variant, ParseFeeds(variant, feeds, ids[..n]), ids[n], feeds.vals[ids[n]])
  {
    assert ids[n] in ids;
    assert ids[..n + 1][..n] == ids[..n];
  }

  //
  // What the settings loop does
  //

  /** A provider with its arguments and overrides cleared. */
  function Bare(p: Option<ParserConf>): Option<ParserConf> {
    match p
    case None => None
    case Some(q) => Some(q.(arguments := Empty(), overrides := Empty()))
  }

  /** An entry without the arguments and overrides of its providers. */
  function Skeleton(e: Entry): Entry {
    Entry(e.system, Bare(e.liveParser), Bare(e.staticParser), e.routes)
  }

  /** The same feeds, in the same order, with the same systems, classes and whitelists. */
  predicate SameSkeleton(a: Entries, b: Entries) {
    a.keys == b.keys && forall id :: id in a.vals ==> Skeleton(a.vals[id]) == Skeleton(b.vals[id])
  }

  lemma SameSkeletonTrans(a: Entries, b: Entries, c: Entries)
    requires SameSkeleton(a, b) && SameSkeleton(b, c)
    ensures SameSkeleton(a, c)
  {
    forall id | id in a.vals ensures Skeleton(a.vals[id]) == Skeleton(c.vals[id]) {
      assert id in b.vals;
    }
  }

  /** A slot update that touches only arguments and overrides keeps the skeleton. */
  lemma UpdateSlotsSkeleton(entries: Entries, id: string, slots: seq<Slot>, update: ParserConf -> ParserConf)
    requires forall p :: update(update(p)) == update(p)
    requires forall p :: update(p).cls == p.cls && update(p).routes == p.routes
    ensures SameSkeleton(entries, UpdateSlots(entries, id, slots, update))
  {
    var r := UpdateSlots(entries, id, slots, update);
    UpdateSlotsEffect(entries, id, slots, update, Live);
    UpdateSlotsEffect(entries, id, slots, update, Static);
    if id in entries.vals {
      var e, e' := entries.vals[id], r.vals[id];
      assert Bare(e'.liveParser) == Bare(e.liveParser) by {
        assert e'.liveParser == SlotOf(e', Live) && e.liveParser == SlotOf(e, Live);
      }
      assert Bare(e'.staticParser) == Bare(e.staticParser) by {
        assert e'.staticParser == SlotOf(e', Static) && e.staticParser == SlotOf(e, Static);
      }
    }
  }

  /**
    * One flat setting changes arguments and overrides only: the feeds, their
    * order, systems, classes and whitelists stay as they are.
    */
  lemma ApplyActionSkeleton(entries: Entries, id: string, action: KeyAction)
    ensures SameSkeleton(entries, ApplyAction(entries, id, action))
  {
    match action
    case Skip =>
    case Arguments(slots, ks, vs) =>
      ApplyArgumentsSkeleton(entries, id, slots, Items(ks), vs, |Items(ks)|);
    case FieldOverrides(slots, obj, field, ks, vs) =>
      ApplyOverridesSkeleton(entries, id, slots, obj, field, Items(ks), vs, |Items(ks)|);
  }

  lemma {:induction false} ApplyArgumentsSkeleton(entries: Entries, id: string, slots: seq<Slot>, keys: seq<string>, values: ConfigValue, n: nat)
    requires n <= |keys|
    ensures SameSkeleton(entries, ApplyArguments(entries, id, slots, keys, values, n))
  {
    if n > 0 {
      var prev := ApplyArguments(entries, id, slots, keys, values, n - 1);
      ApplyArgumentsSkeleton(entries, id, slots, keys, values, n - 1);
      ArgumentSetterIdempotent(keys[n - 1], ValueAt(values, n - 1));
      UpdateSlotsSkeleton(prev, id, slots, ArgumentSetter(keys[n - 1], ValueAt(values, n - 1)));
      SameSkeletonTrans(entries, prev, ApplyArguments(entries, id, slots, keys, values, n));
    }
  }

  lemma {:induction false} ApplyOverridesSkeleton(entries: Entries, id: string, slots: seq<Slot>, obj: string, field: string, keys: seq<string>, values: ConfigValue, n: nat)
    requires n <= |keys|
    ensures SameSkeleton(entries, ApplyOverrides(entries, id, slots, obj, field, keys, values, n))
  {
    if n > 0 {
      var prev := ApplyOverrides(entries, id, slots, obj, field, keys, values, n - 1);
      ApplyOverridesSkeleton(entries, id, slots, obj, field, keys, values, n - 1);
      OverrideSetterIdempotent(obj, field, keys[n - 1], ValueAt(values, n - 1));
      UpdateSlotsSkeleton(prev, id, slots, OverrideSetter(obj, field, keys[n - 1], ValueAt(values, n - 1)));
      SameSkeletonTrans(entries, prev, ApplyOverrides(entries, id, slots, obj, field, keys, values, n));
    }
  }

  /** The whole settings loop of a feed keeps the skeleton. */
  lemma {:induction false} ParseKeysSkeleton(variant: Variant, entries: Entries, id: string, sec: Section, ks: seq<string>)
    requires forall k :: k in ks ==> k in sec.vals
    ensures SameSkeleton(entries, ParseKeys(variant, entries, id, sec, ks))
  {
    if ks != [] {
      var prev := ParseKeys(variant, entries, id, sec, ks[..|ks| - 1]);
      ParseKeysSkeleton(variant, entries, id, sec, ks[..|ks| - 1]);
      ApplyActionSkeleton(prev, id, ClassifyKey(variant, sec, ks[|ks| - 1]));
      SameSkeletonTrans(entries, prev, ParseKeys(variant, entries, id, sec, ks));
    }
  }

  /**
    * Settings the loop skips leave the structure unchanged: fewer than three
    * parts, a prefix or last part the variant does not accept (for the
    * stand-alone parser this covers the `_vals` settings themselves), no
    * matching `_vals` setting, or a type that is neither `argument` nor a
    * five-part `override`.
    */
  lemma IgnoredKey(variant: Variant, entries: Entries, id: string, sec: Section, ks: seq<string>, key: string)
    requires forall k :: k in ks ==> k in sec.vals
    requires key in sec.vals
    requires var parts := Explode("_", key);
      |parts| < 3 || !Accepted(variant, parts) || ValsKey(parts) !in sec.vals ||
      (parts[1] != "argument" && (parts[1] != "override" || |parts| != 5))
    ensures ParseKeys(variant, entries, id, sec, ks + [key]) == ParseKeys(variant, entries, id, sec, ks)
  {
    assert (ks + [key])[..|ks|] == ks;
  }

  /** One `setArgument` seen through the argument getters. */
  lemma ArgumentStep(entries: Entries, id: string, slots: seq<Slot>, key: string, value: Option<string>, slot: Slot, k: string)
    ensures var r := WithArgument(entries, id, slots, key, value);
      ParserOf(r, id, slot).Some? == ParserOf(entries, id, slot).Some? &&
      (ParserOf(entries, id, slot).Some? ==>
        Get(ArgumentsOf(r, id, slot), k) == if slot in slots && k == key then Some(value) else Get(ArgumentsOf(entries, id, slot), k))
  {
    WithArgumentEffect(entries, id, slots, key, value, slot);
  }

  /** One `setFieldOverride` seen through the override getters. */
  lemma OverrideStep(entries: Entries, id: string, slots: seq<Slot>, obj: string, field: string, key: string, value: Option<string>, slot: Slot, o: string, f: string, k: string)
    ensures var r := WithOverride(entries, id, slots, obj, field, key, value);
      ParserOf(r, id, slot).Some? == ParserOf(entries, id, slot).Some? &&
      (ParserOf(entries, id, slot).Some? ==>
        OverrideAt(OverridesOf(r, id, slot), o, f, k) ==
          if slot in slots && o == obj && f == field && k == key then Some(value) else OverrideAt(OverridesOf(entries, id, slot), o, f, k))
  {
    WithOverrideEffect(entries, id, slots, obj, field, key, value, slot);
    if ParserOf(entries, id, slot).Some? {
      SetOverrideEffect(OverridesOf(entries, id, slot), obj, field, key, value, o, f, k);
    }
  }

  /**
    * An argument list: after the first n keys, the provider in every named
    * slot maps `keys[i]` to `values[i]` for the last i naming that key, and
    * every other argument (and every provider in another slot) is as before.
    */
  lemma {:induction false} ApplyArgumentsEffect(entries: Entries, id: string, slots: seq<Slot>, keys: seq<string>, values: ConfigValue, n: nat, slot: Slot, k: string, i: nat)
    requires n <= |keys|
    ensures var r := ApplyArguments(entries, id, slots, keys, values, n);
      ParserOf(r, id, slot).Some? == ParserOf(entries, id, slot).Some?
    ensures var r := ApplyArguments(entries, id, slots, keys, values, n);
      ParserOf(entries, id, slot).Some? && slot in slots && i < n && keys[i] == k && (forall j :: i < j < n ==> keys[j] != k) ==>
        Get(ArgumentsOf(r, id, slot), k) == Some(ValueAt(values, i))
    ensures var r := ApplyArguments(entries, id, slots, keys, values, n);
      slot !in slots || k !in keys[..n] ==> Get(ArgumentsOf(r, id, slot), k) == Get(ArgumentsOf(entries, id, slot), k)
  {
    if n > 0 {
      var m := n - 1;
      var prev := ApplyArguments(entries, id, slots, keys, values, m);
      var r := ApplyArguments(entries, id, slots, keys, values, n);
      assert r == WithArgument(prev, id, slots, keys[m], ValueAt(values, m));
      ApplyArgumentsEffect(entries, id, slots, keys, values, m, slot, k, i);
      ArgumentStep(prev, id, slots, keys[m], ValueAt(values, m), slot, k);
      assert keys[..n] == keys[..m] + [keys[m]];
      if ParserOf(entries, id, slot).None? {
        assert ArgumentsOf(r, id, slot) == Empty();
        assert ArgumentsOf(entries, id, slot) == Empty();
      } else if slot in slots && i < n && keys[i] == k && (forall j :: i < j < n ==> keys[j] != k) {
        if i < m {
          assert keys[m] != k;
        }
      }
    }
  }

  /** An override list leaves every provider where it was. */
  lemma {:induction false} ApplyOverridesPresence(entries: Entries, id: string, slots: seq<Slot>, obj: string, field: string, keys: seq<string>, values: ConfigValue, n: nat, slot: Slot)
    requires n <= |keys|
    ensures ParserOf(ApplyOverrides(entries, id, slots, obj, field, keys, values, n), id, slot).Some? == ParserOf(entries, id, slot).Some?
  {
    if n > 0 {
      var prev := ApplyOverrides(entries, id, slots, obj, field, keys, values, n - 1);
      ApplyOverridesPresence(entries, id, slots, obj, field, keys, values, n - 1, slot);
      WithOverrideEffect(prev, id, slots, obj, field, keys[n - 1], ValueAt(values, n - 1), slot);
    }
  }

  /**
    * An override list sets `overrides[obj][field][keys[i]] = values[i]` in
    * every named slot whose provider exists, for the last i naming that key.
    */
  lemma {:induction false} ApplyOverridesSets(entries: Entries, id: string, slots: seq<Slot>, obj: string, field: string, keys: seq<string>, values: ConfigValue, n: nat, slot: Slot, k: string, i: nat)
    requires n <= |keys|
    requires ParserOf(entries, id, slot).Some? && slot in slots
    requires i < n && keys[i] == k && forall j :: i < j < n ==> keys[j] != k
    ensures OverrideAt(OverridesOf(ApplyOverrides(entries, id, slots, obj, field, keys, values, n), id, slot), obj, field, k) == Some(ValueAt(values, i))
  {
    var prev := ApplyOverrides(entries, id, slots, obj, field, keys, values, n - 1);
    ApplyOverridesPresence(entries, id, slots, obj, field, keys, values, n - 1, slot);
    OverrideStep(prev, id, slots, obj, field, keys[n - 1], ValueAt(values, n - 1), slot, obj, field, k);
    if i < n - 1 {
      ApplyOverridesSets(entries, id, slots, obj, field, keys, values, n - 1, slot, k, i);
    }
  }

  /** Every other override is as before. */
  lemma {:induction false} ApplyOverridesKeeps(entries: Entries, id: string, slots: seq<Slot>, obj: string, field: string, keys: seq<string>, values: ConfigValue, n: nat, slot: Slot, o: string, f: string, k: string)
    requires n <= |keys|
    requires slot !in slots || o != obj || f != field || k !in keys[..n]
    ensures OverrideAt(OverridesOf(ApplyOverrides(entries, id, slots, obj, field, keys, values, n), id, slot), o, f, k) ==
      OverrideAt(OverridesOf(entries, id, slot), o, f, k)
  {
    if n > 0 {
      var prev := ApplyOverrides(entries, id, slots, obj, field, keys, values, n - 1);
      assert keys[..n] == keys[..n - 1] + [keys[n - 1]];
      ApplyOverridesKeeps(entries, id, slots, obj, field, keys, values, n - 1, slot, o, f, k);
      ApplyOverridesPresence(entries, id, slots, obj, field, keys, values, n - 1, slot);
      OverrideStep(prev, id, slots, obj, field, keys[n - 1], ValueAt(values, n - 1), slot, o, f, k);
      if ParserOf(entries, id, slot).None? {
        assert OverridesOf(ApplyOverrides(entries, id, slots, obj, field, keys, values, n), id, slot) == Empty();
      }
    }
  }

  //
  // What the feed loop builds
  //

  /** A feed gets an entry exactly when one of its classes is set and truthy. */
  predicate Configured(sec: Section) {
    ClassSetting(sec, "live_class").Some? || ClassSetting(sec, "static_class").Some?
  }

  /** The feeds among `ids` that get an entry, in order. */
  function ConfiguredIds(feeds: Dict<string, Section>, ids: seq<string>): seq<string> {
    FilterIn(ids, set id | id in feeds.vals && Configured(feeds.vals[id]))
  }

  function ProviderFor(cls: Option<string>): Option<ParserConf> {
    match cls
    case None => None
    case Some(c) => Some(NewParser(c))
  }

  /**
    * The skeleton a feed's section gives its entry: the system (defaulting to
    * the feed id), a provider per truthy class, and for the stand-alone parser
    * the whitelist.
    */
  function FeedSkeleton(variant: Variant, sec: Section, id: string): Entry {
    Entry(SystemOf(sec, id), ProviderFor(ClassSetting(sec, "live_class")), ProviderFor(ClassSetting(sec, "static_class")),
          if variant == FileParser then WhitelistSetting(sec) else None)
  }

  lemma FeedStartShape(variant: Variant, entries: Entries, id: string, sec: Section)
    requires id !in entries.vals
    ensures var r := FeedStart(variant, entries, id, sec);
      r.keys == entries.keys + (if Configured(sec) then [id] else []) &&
      (forall other :: other in entries.vals ==> other in r.vals && r.vals[other] == entries.vals[other]) &&
      (Configured(sec) ==> Skeleton(r.vals[id]) == FeedSkeleton(variant, sec, id))
  {
    var e1 := WithParser(entries, id, SystemOf(sec, id), ClassSetting(sec, "live_class"), ClassSetting(sec, "static_class"));
    if Configured(sec) {
      assert e1.keys == entries.keys + [id];
    } else {
      assert e1 == entries;
    }
  }

  lemma FeedStepShape(variant: Variant, entries: Entries, id: string, sec: Section)
    requires id !in entries.vals
    ensures var r := FeedStep(variant, entries, id, sec);
      r.keys == entries.keys + (if Configured(sec) then [id] else []) &&
      (forall other :: other in entries.vals ==> Skeleton(r.vals[other]) == Skeleton(entries.vals[other])) &&
      (Configured(sec) ==> Skeleton(r.vals[id]) == FeedSkeleton(variant, sec, id))
  {
    var e2 := FeedStart(variant, entries, id, sec);
    var rest := Remaining(variant, sec);
    FeedStartShape(variant, entries, id, sec);
    ParseKeysSkeleton(variant, e2, id, rest, rest.keys);
  }

  /**
    * The feed loop: the entries are the configured feeds in file order, and
    * each has the skeleton its own section gives it.
    */
  lemma {:induction false} ParseFeedsShape(variant: Variant, feeds: Dict<string, Section>, ids: seq<string>)
    requires Distinct(ids)
    requires forall id :: id in ids ==> id in feeds.vals
    ensures ParseFeeds(variant, feeds, ids).keys == ConfiguredIds(feeds, ids)
    ensures forall id :: id in ParseFeeds(variant, feeds, ids).vals ==>
      id in feeds.vals && Skeleton(ParseFeeds(variant, feeds, ids).vals[id]) == FeedSkeleton(variant, feeds.vals[id], id)
  {
    if ids != [] {
      var init, id := ids[..|ids| - 1], ids[|ids| - 1];
      var prev := ParseFeeds(variant, feeds, init);
      assert forall x :: x in init ==> x in ids;
      DistinctInit(ids);
      ParseFeedsShape(variant, feeds, init);
      assert id !in prev.vals;
      FeedStepShape(variant, prev, id, feeds.vals[id]);
      var r := ParseFeeds(variant, feeds, ids);
      assert r == FeedStep(variant, prev, id, feeds.vals[id]);
      forall x | x in r.vals ensures x in feeds.vals && Skeleton(r.vals[x]) == FeedSkeleton(variant, feeds.vals[x], x) {
        if x != id {
          assert x in r.keys;
          assert x in prev.keys;
        }
      }
    }
  }

  /**
    * Per feed of the file: it has an entry exactly when a class is set and
    * truthy; its system is the `system` setting or the feed id (and the id
    * itself for a feed without an entry).
    */
  lemma ParsedFeed(variant: Variant, feeds: Dict<string, Section>, id: string)
    ensures var r := ParseFeeds(variant, feeds, feeds.keys);
      (id in r.vals <==> id in feeds.vals && Configured(feeds.vals[id])) &&
      SystemFor(r, id) == (if id in r.vals then SystemOf(feeds.vals[id], id) else id)
  {
    ParseFeedsShape(variant, feeds, feeds.keys);
    var r := ParseFeeds(variant, feeds, feeds.keys);
    if id in r.vals {
      assert Skeleton(r.vals[id]) == FeedSkeleton(variant, feeds.vals[id], id);
    }
  }

  /** Each provider exists exactly when its class setting is set and truthy, and carries that class. */
  lemma ParsedProvider(variant: Variant, feeds: Dict<string, Section>, id: string, slot: Slot)
    ensures ClassOf(ParseFeeds(variant, feeds, feeds.keys), id, slot) ==
      if id in feeds.vals then ClassSetting(feeds.vals[id], ClassKey(slot)) else None
  {
    ParseFeedsShape(variant, feeds, feeds.keys);
    ShapedProvider(variant, feeds, ParseFeeds(variant, feeds, feeds.keys), id, slot);
  }

  lemma ShapedProvider(variant: Variant, feeds: Dict<string, Section>, r: Entries, id: string, slot: Slot)
    requires r.keys == ConfiguredIds(feeds, feeds.keys)
    requires forall x :: x in r.vals ==> x in feeds.vals && Skeleton(r.vals[x]) == FeedSkeleton(variant, feeds.vals[x], x)
    ensures ClassOf(r, id, slot) == if id in feeds.vals then ClassSetting(feeds.vals[id], ClassKey(slot)) else None
  {
    if id in r.vals {
      var e, sec := r.vals[id], feeds.vals[id];
      assert Skeleton(e) == FeedSkeleton(variant, sec, id);
      match slot
      case Live => assert Bare(e.liveParser) == ProviderFor(ClassSetting(sec, "live_class"));
      case Static => assert Bare(e.staticParser) == ProviderFor(ClassSetting(sec, "static_class"));
    } else if id in feeds.vals {
      assert id in feeds.keys;
      assert !Configured(feeds.vals[id]);
    }
  }

  lemma ShapedWhitelists(variant: Variant, feeds: Dict<string, Section>, r: Entries, id: string, slot: Slot)
    requires r.keys == ConfiguredIds(feeds, feeds.keys)
    requires forall x :: x in r.vals ==> x in feeds.vals && Skeleton(r.vals[x]) == FeedSkeleton(variant, feeds.vals[x], x)
    ensures ProviderWhitelistOf(r, id, slot) == List([])
    ensures WhitelistOf(r, id) ==
      if id in r.vals && variant == FileParser && WhitelistSetting(feeds.vals[id]).Some? then WhitelistSetting(feeds.vals[id]).value else List([])
  {
    if id in r.vals {
      var e, sec := r.vals[id], feeds.vals[id];
      assert Skeleton(e) == FeedSkeleton(variant, sec, id);
      match slot
      case Live => assert Bare(e.liveParser) == ProviderFor(ClassSetting(sec, "live_class"));
      case Static => assert Bare(e.staticParser) == ProviderFor(ClassSetting(sec, "static_class"));
    }
  }

  /**
    * The whitelist getters as written never see a whitelist: whatever the
    * file says, they give an empty array for every feed and provider.
    */
  lemma ProviderWhitelistAlwaysEmpty(variant: Variant, feeds: Dict<string, Section>, id: string, slot: Slot)
    ensures ProviderWhitelistOf(ParseFeeds(variant, feeds, feeds.keys), id, slot) == List([])
  {
    ParseFeedsShape(variant, feeds, feeds.keys);
    ShapedWhitelists(variant, feeds, ParseFeeds(variant, feeds, feeds.keys), id, slot);
  }

  /**
    * Read where it is stored, the whitelist of a configured feed is its
    * `route_whitelist` setting when that has a non-zero count.
    */
  lemma StoredWhitelist(feeds: Dict<string, Section>, id: string)
    ensures WhitelistOf(ParseFeeds(FileParser, feeds, feeds.keys), id) ==
      if id in feeds.vals && Configured(feeds.vals[id]) && WhitelistSetting(feeds.vals[id]).Some?
      then WhitelistSetting(feeds.vals[id]).value else List([])
  {
    ParseFeedsShape(FileParser, feeds, feeds.keys);
    ParsedFeed(FileParser, feeds, id);
    ShapedWhitelists(FileParser, feeds, ParseFeeds(FileParser, feeds, feeds.keys), id, Live);
  }

  /** A setting name of three `_`-free parts, and its paired `_vals` name. */
  lemma ThreeParts(a: string, b: string, c: string)
    requires '_' !in a && '_' !in b && '_' !in c
    ensures Explode("_", a + "_" + b + "_" + c) == [a, b, c]
    ensures ValsKey([a, b, c]) == a + "_" + b + "_vals"
  {
    ThreePartsSplit(a, b, c);
    ThreePartsVals(a, b, c);
  }

  lemma ThreePartsSplit(a: string, b: string, c: string)
    requires '_' !in a && '_' !in b && '_' !in c
    ensures Explode("_", a + "_" + b + "_" + c) == [a, b, c]
  {
    assert a + "_" + b + "_" + c == a + ['_'] + (b + ['_'] + c);
    ExplodeHead('_', a, b + ['_'] + c);
    ExplodeHead('_', b, c);
    ExplodeFree('_', c);
  }

  lemma ThreePartsVals(a: string, b: string, c: string)
    ensures ValsKey([a, b, c]) == a + "_" + b + "_vals"
  {
    assert [a, b, c][..2] == [a, b];
    JoinCons("_", a, [b]);
  }

  /**
    * A three-part setting `a_b_c` is an argument list or nothing: it is
    * applied when the variant accepts it, its `a_b_vals` partner exists and
    * its type is `argument`.
    */
  lemma ThreePartKey(variant: Variant, sec: Section, a: string, b: string, c: string)
    requires '_' !in a && '_' !in b && '_' !in c
    requires a + "_" + b + "_" + c in sec.vals
    ensures ClassifyKey(variant, sec, a + "_" + b + "_" + c) ==
      if Accepted(variant, [a, b, c]) && a + "_" + b + "_vals" in sec.vals && b == "argument"
      then Arguments(SlotsFor(a), sec.vals[a + "_" + b + "_" + c], sec.vals[a + "_" + b + "_vals"])
      else Skip
  {
    ThreeParts(a, b, c);
  }

  /** `all_argument_keys`: skipped by the stand-alone parser, applied to both providers by the embedded copy. */
  lemma AllArgumentKeys(sec: Section, key: string)
    requires key == "all_argument_keys" && key in sec.vals && "all_argument_vals" in sec.vals
    ensures ClassifyKey(FileParser, sec, key) == Skip
    ensures ClassifyKey(ViewParser, sec, key) == Arguments([Live, Static], sec.vals[key], sec.vals["all_argument_vals"])
  {
    assert key == "all" + "_" + "argument" + "_" + "keys";
    assert "all" + "_" + "argument" + "_vals" == "all_argument_vals";
    assert Accepted(ViewParser, ["all", "argument", "keys"]);
    ThreePartKey(FileParser, sec, "all", "argument", "keys");
    ThreePartKey(ViewParser, sec, "all", "argument", "keys");
  }

  /**
    * `live_argument_list` with `live_argument_vals`: applied by the
    * stand-alone parser, skipped by the embedded copy (its last part is not
    * `keys`).
    */
  lemma LiveArgumentList(sec: Section, key: string)
    requires key == "live_argument_list" && key in sec.vals && "live_argument_vals" in sec.vals
    ensures ClassifyKey(FileParser, sec, key) == Arguments([Live], sec.vals[key], sec.vals["live_argument_vals"])
    ensures ClassifyKey(ViewParser, sec, key) == Skip
  {
    assert key == "live" + "_" + "argument" + "_" + "list";
    assert "live" + "_" + "argument" + "_vals" == "live_argument_vals";
    assert Accepted(FileParser, ["live", "argument", "list"]);
    ThreePartKey(FileParser, sec, "live", "argument", "list");
    ThreePartKey(ViewParser, sec, "live", "argument", "list");
  }

  /** The class setting of a slot. */
  function ClassKey(slot: Slot): string {
    match slot
    case Live => "live_class"
    case Static => "static_class"
  }

  //
  // Queries
  //

  /** `isset($parsers[$id], $parsers[$id][$type])`: the provider in a slot, if any. */
  function ParserOf(entries: Entries, id: string, slot: Slot): (r: Option<ParserConf>)
    ensures r.Some? ==> id in entries.vals && r == SlotOf(entries.vals[id], slot)
    ensures id !in entries.vals ==> r.None?
  {
    if id in entries.vals then SlotOf(entries.vals[id], slot) else None
  }

  /** `getSystem`: the stored system, or the id itself for an unknown feed. */
  function SystemFor(entries: Entries, id: string): (r: string)
    ensures id !in entries.vals ==> r == id
    ensures id in entries.vals ==> r == entries.vals[id].system
  {
    if id in entries.vals then entries.vals[id].system else id
  }

  /** The class getters: the class, or null (PHP's `false`) when there is no provider. */
  function ClassOf(entries: Entries, id: string, slot: Slot): (r: Option<string>)
    ensures r.Some? <==> ParserOf(entries, id, slot).Some?
    ensures r.Some? ==> r.value == ParserOf(entries, id, slot).value.cls
  {
    match ParserOf(entries, id, slot)
    case Some(p) => Some(p.cls)
    case None => None
  }

  /** The argument getters: the arguments, or an empty array. */
  function ArgumentsOf(entries: Entries, id: string, slot: Slot): (r: FieldMap)
    ensures ParserOf(entries, id, slot).None? ==> r.keys == []
    ensures ParserOf(entries, id, slot).Some? ==> r == ParserOf(entries, id, slot).value.arguments
  {
    match ParserOf(entries, id, slot)
    case Some(p) => p.arguments
    case None => Empty()
  }

  /** The override getters: the overrides, or an empty array. */
  function OverridesOf(entries: Entries, id: string, slot: Slot): (r: Overrides)
    ensures ParserOf(entries, id, slot).None? ==> r.keys == []
    ensures ParserOf(entries, id, slot).Some? ==> r == ParserOf(entries, id, slot).value.overrides
  {
    match ParserOf(entries, id, slot)
    case Some(p) => p.overrides
    case None => Empty()
  }

  /**
    * The whitelist getters as written: they read the whitelist slot of the
    * provider, and give an empty array when it is not set.
    */
  function ProviderWhitelistOf(entries: Entries, id: string, slot: Slot): (r: ConfigValue)
    ensures ParserOf(entries, id, slot).None? || ParserOf(entries, id, slot).value.routes.None? ==> r == List([])
  {
    match ParserOf(entries, id, slot)
    case Some(p) => p.routes.GetOr(List([]))
    case None => List([])
  }

  /** The whitelist where `setRouteWhitelist` stores it: on the feed entry. */
  function WhitelistOf(entries: Entries, id: string): (r: ConfigValue)
    ensures id in entries.vals && entries.vals[id].routes.Some? ==> r == entries.vals[id].routes.value
    ensures id !in entries.vals || entries.vals[id].routes.None? ==> r == List([])
  {
    if id in entries.vals then entries.vals[id].routes.GetOr(List([])) else List([])
  }
}
