/**
  * The copy of the feed configuration parser that the view model file
  * carries: the same walk over the feeds file, filling `models`, with the
  * embedded copy's key rules and without route whitelists.
  */
module ViewConfig {
  import opened Wrappers
  import opened Dicts
  import opened Strings
  import opened ConfigSpec

  class TransitConfig {
    var models: Entries

    /** Builds one entry per configured feed, then applies its argument and override lists. */
    constructor (feedConfig: Dict<string, Section>)
      ensures models == ParseFeeds(ViewParser, feedConfig, feedConfig.keys)
    {
      models := Empty();
      new;
      var ids := feedConfig.keys;
      for n := 0 to |ids|
        invariant models == ParseFeeds(ViewParser, feedConfig, ids[..n])
      {
        ParseFeedsNext(ViewParser, feedConfig, ids, n);
        ParseFeed(ids[n], feedConfig.vals[ids[n]]);
      }
      assert ids[..|ids|] == ids;
    }

    /** One iteration of the feeds loop: the entry, then the settings loop. */
    method ParseFeed(id: string, config: Section)
      modifies this
      ensures models == FeedStep(ViewParser, old(models), id, config)
    {
      var system := Setting(config, "system").GetOr(id);
      var rest := config;

      var liveModelClass := ClassSetting(rest, "live_class");
      rest := Unset(rest, "live_class");
      var staticModelClass := ClassSetting(rest, "static_class");
      rest := Unset(rest, "static_class");
      assert staticModelClass == ClassSetting(config, "static_class") by {
        assert Setting(Unset(config, "live_class"), "static_class") == Setting(config, "static_class");
      }

      if liveModelClass.Some? || staticModelClass.Some? {
        var entry := Entry(system, None, None, None);
        if liveModelClass.Some? && Truthy(liveModelClass.value) {
          entry := entry.(liveParser := Some(NewParser(liveModelClass.value)));
        }
        if staticModelClass.Some? && Truthy(staticModelClass.value) {
          entry := entry.(staticParser := Some(NewParser(staticModelClass.value)));
        }
        models := Put(models, id, entry);
      }
      assert models == WithParser(old(models), id, SystemOf(config, id), ClassSetting(config, "live_class"), ClassSetting(config, "static_class"));
      assert rest == Remaining(ViewParser, config);
      ParseSettings(id, rest);
    }

    /** The settings loop of one feed. */
    method ParseSettings(id: string, config: Section)
      modifies this
      ensures models == ParseKeys(ViewParser, old(models), id, config, config.keys)
    {
      var keys := config.keys;
      for j := 0 to |keys|
        invariant models == ParseKeys(ViewParser, old(models), id, config, keys[..j])
      {
        assert keys[..j + 1][..j] == keys[..j];
        ApplySetting(id, config, keys[j]);
      }
      assert keys[..|keys|] == keys;
    }

    /** One iteration of the settings loop. */
    method ApplySetting(id: string, config: Section, configKey: string)
      requires configKey in config.vals
      modifies this
      ensures models == ApplyAction(old(models), id, ClassifyKey(ViewParser, config, configKey))
    {
      match ClassifyKey(ViewParser, config, configKey)
      case Skip =>
      case Arguments(slots, fieldKeys, fieldValues) =>
        ghost var start := models;
        var keys := Items(fieldKeys);
        for i := 0 to |keys|
          invariant models == ApplyArguments(start, id, slots, keys, fieldValues, i)
        {
          SetArgument(id, slots, keys[i], ValueAt(fieldValues, i));
        }
      case FieldOverrides(slots, obj, field, fieldKeys, fieldValues) =>
        ghost var start := models;
        var keys := Items(fieldKeys);
        for i := 0 to |keys|
          invariant models == ApplyOverrides(start, id, slots, obj, field, keys, fieldValues, i)
        {
          SetFieldOverride(id, slots, obj, field, keys[i], ValueAt(fieldValues, i));
        }
    }

    /** `setArgument`: `arguments[key] = value` in every named provider that exists. */
    method SetArgument(id: string, slots: seq<Slot>, key: string, value: Option<string>)
      modifies this
      ensures models == WithArgument(old(models), id, slots, key, value)
    {
      ghost var start := models;
      for i := 0 to |slots|
        invariant models == UpdateSlots(start, id, slots[..i], ArgumentSetter(key, value))
      {
        assert slots[..i + 1][..i] == slots[..i];
        var slot := slots[i];
        if id in models.vals && SlotOf(models.vals[id], slot).Some? {
          var p := SlotOf(models.vals[id], slot).value;
          models := Put(models, id, WithSlot(models.vals[id], slot, p.(arguments := Put(p.arguments, key, value))));
        }
      }
      assert slots[..|slots|] == slots;
    }

    /**
      * `setFieldOverride`: in every named provider that exists, create the
      * object and field levels when missing, then store the value.
      */
    method SetFieldOverride(id: string, slots: seq<Slot>, obj: string, field: string, key: string, value: Option<string>)
      modifies this
      ensures models == WithOverride(old(models), id, slots, obj, field, key, value)
    {
      ghost var start := models;
      for i := 0 to |slots|
        invariant models == UpdateSlots(start, id, slots[..i], OverrideSetter(obj, field, key, value))
      {
        assert slots[..i + 1][..i] == slots[..i];
        var slot := slots[i];
        if id in models.vals && SlotOf(models.vals[id], slot).Some? {
          var p := SlotOf(models.vals[id], slot).value;
          var fields: Dict<string, FieldMap> := Empty();
          if obj in p.overrides.vals {
            fields := p.overrides.vals[obj];
          }
          var inner: FieldMap := Empty();
          if field in fields.vals {
            inner := fields.vals[field];
          }
          var overrides := Put(p.overrides, obj, Put(fields, field, Put(inner, key, value)));
          models := Put(models, id, WithSlot(models.vals[id], slot, p.(overrides := overrides)));
        }
      }
      assert slots[..|slots|] == slots;
    }

    //
    // Queries
    //

    function GetModelIDs(): (r: seq<string>)
      reads this
      ensures forall id :: id in r <==> id in models.vals
    {
      models.keys
    }

    function HasLiveModel(id: string): (r: bool)
      reads this
      ensures r <==> id in models.vals && models.vals[id].liveParser.Some?
    {
      ParserOf(models, id, Live).Some?
    }

    function HasStaticModel(id: string): (r: bool)
      reads this
      ensures r <==> id in models.vals && models.vals[id].staticParser.Some?
    {
      ParserOf(models, id, Static).Some?
    }

    function GetSystem(id: string): (r: string)
      reads this
      ensures id !in models.vals ==> r == id
    {
      SystemFor(models, id)
    }

    function GetLiveModelClass(id: string): (r: Option<string>)
      reads this
      ensures r.Some? <==> HasLiveModel(id)
      ensures r.Some? ==> r.value == models.vals[id].liveParser.value.cls
    {
      ClassOf(models, id, Live)
    }

    function GetStaticModelClass(id: string): (r: Option<string>)
      reads this
      ensures r.Some? <==> HasStaticModel(id)
      ensures r.Some? ==> r.value == models.vals[id].staticParser.value.cls
    {
      ClassOf(models, id, Static)
    }

    function GetLiveModelArgs(id: string): (r: FieldMap)
      reads this
      ensures !HasLiveModel(id) ==> r.keys == []
    {
      ArgumentsOf(models, id, Live)
    }

    function GetStaticModelArgs(id: string): (r: FieldMap)
      reads this
      ensures !HasStaticModel(id) ==> r.keys == []
    {
      ArgumentsOf(models, id, Static)
    }

    function GetLiveModelOverrides(id: string): (r: Overrides)
      reads this
      ensures !HasLiveModel(id) ==> r.keys == []
    {
      OverridesOf(models, id, Live)
    }

    function GetStaticModelOverrides(id: string): (r: Overrides)
      reads this
      ensures !HasStaticModel(id) ==> r.keys == []
    {
      OverridesOf(models, id, Static)
    }
  }
}
