/**
  * The stand-alone feed configuration parser (TransitConfig.php): its
  * constructor walks the feeds file and fills `parsers` in place.
  */
module TransitConfigFile {
  import opened Wrappers
  import opened Dicts
  import opened Strings
  import opened ConfigSpec

  class TransitConfig {
    var parsers: Entries

    /** Builds one entry per configured feed, then applies its argument and override lists. */
    constructor (feedConfig: Dict<string, Section>)
      ensures parsers == ParseFeeds(FileParser, feedConfig, feedConfig.keys)
    {
      parsers := Empty();
      new;
      var ids := feedConfig.keys;
      for n := 0 to |ids|
        invariant parsers == ParseFeeds(FileParser, feedConfig, ids[..n])
      {
        ParseFeedsNext(FileParser, feedConfig, ids, n);
        ParseFeed(ids[n], feedConfig.vals[ids[n]]);
      }
      assert ids[..|ids|] == ids;
    }

    /** One iteration of the feeds loop: the entry, the whitelist, then the settings loop. */
    method ParseFeed(id: string, config: Section)
      modifies this
      ensures parsers == FeedStep(FileParser, old(parsers), id, config)
    {
      var system := Setting(config, "system").GetOr(id);
      var rest := config;

      var liveParserClass := ClassSetting(rest, "live_class");
      rest := Unset(rest, "live_class");
      var staticParserClass := ClassSetting(rest, "static_class");
      rest := Unset(rest, "static_class");
      assert staticParserClass == ClassSetting(config, "static_class") by {
        assert Setting(Unset(config, "live_class"), "static_class") == Setting(config, "static_class");
      }

      AddParser(id, system, liveParserClass, staticParserClass);
      ghost var e1 := parsers;
      assert e1 == WithParser(old(parsers), id, SystemOf(config, id), ClassSetting(config, "live_class"), ClassSetting(config, "static_class"));

      var whitelist := Get(rest, "route_whitelist");
      assert whitelist == Get(config, "route_whitelist");
      if whitelist.Some? && Count(whitelist.value) > 0 {
        SetRouteWhitelist(id, whitelist.value);
      }
      rest := Unset(rest, "route_whitelist");
      assert rest == Remaining(FileParser, config);

      ghost var start := parsers;
      assert start == FeedStart(FileParser, old(parsers), id, config);
      ParseSettings(id, rest);
    }

    /** The settings loop of one feed. */
    method ParseSettings(id: string, config: Section)
      modifies this
      ensures parsers == ParseKeys(FileParser, old(parsers), id, config, config.keys)
    {
      var keys := config.keys;
      for j := 0 to |keys|
        invariant parsers == ParseKeys(FileParser, old(parsers), id, config, keys[..j])
      {
        assert keys[..j + 1][..j] == keys[..j];
        ApplySetting(id, config, keys[j]);
      }
      assert keys[..|keys|] == keys;
    }

    /** One iteration of the settings loop. */
    method ApplySetting(id: string, config: Section, configKey: string)
      requires configKey in config.vals
      modifies this
      ensures parsers == ApplyAction(old(parsers), id, ClassifyKey(FileParser, config, configKey))
    {
      match ClassifyKey(FileParser, config, configKey)
      case Skip =>
      case Arguments(slots, fieldKeys, fieldValues) =>
        ghost var start := parsers;
        var keys := Items(fieldKeys);
        for i := 0 to |keys|
          invariant parsers == ApplyArguments(start, id, slots, keys, fieldValues, i)
        {
          SetArgument(id, slots, keys[i], ValueAt(fieldValues, i));
        }
      case FieldOverrides(slots, obj, field, fieldKeys, fieldValues) =>
        ghost var start := parsers;
        var keys := Items(fieldKeys);
        for i := 0 to |keys|
          invariant parsers == ApplyOverrides(start, id, slots, obj, field, keys, fieldValues, i)
        {
          SetFieldOverride(id, slots, obj, field, keys[i], ValueAt(fieldValues, i));
        }
    }

    /** `addParser`. */
    method AddParser(id: string, system: string, liveParserClass: Option<string>, staticParserClass: Option<string>)
      modifies this
      ensures parsers == WithParser(old(parsers), id, system, liveParserClass, staticParserClass)
    {
      if liveParserClass.Some? || staticParserClass.Some? {
        var entry := Entry(system, None, None, None);
        if liveParserClass.Some? && Truthy(liveParserClass.value) {
          entry := entry.(liveParser := Some(NewParser(liveParserClass.value)));
        }
        if staticParserClass.Some? && Truthy(staticParserClass.value) {
          entry := entry.(staticParser := Some(NewParser(staticParserClass.value)));
        }
        parsers := Put(parsers, id, entry);
      }
    }

    /** `setArgument`: `arguments[key] = value` in every named provider that exists. */
    method SetArgument(id: string, slots: seq<Slot>, key: string, value: Option<string>)
      modifies this
      ensures parsers == WithArgument(old(parsers), id, slots, key, value)
    {
      ghost var start := parsers;
      for i := 0 to |slots|
        invariant parsers == UpdateSlots(start, id, slots[..i], ArgumentSetter(key, value))
      {
        assert slots[..i + 1][..i] == slots[..i];
        var slot := slots[i];
        if id in parsers.vals && SlotOf(parsers.vals[id], slot).Some? {
          var p := SlotOf(parsers.vals[id], slot).value;
          parsers := Put(parsers, id, WithSlot(parsers.vals[id], slot, p.(arguments := Put(p.arguments, key, value))));
        }
      }
      assert slots[..|slots|] == slots;
    }

    /**
      * `setFieldOverride`: in every named provider that exists, create the
      * object and field levels when missing, then store the value.
      */
    method SetFieldOverride(id: string, slots: seq<Slot>, obj: string, field: string, key: string, value: Option<string>)
      modifies this
      ensures parsers == WithOverride(old(parsers), id, slots, obj, field, key, value)
    {
      ghost var start := parsers;
      for i := 0 to |slots|
        invariant parsers == UpdateSlots(start, id, slots[..i], OverrideSetter(obj, field, key, value))
      {
        assert slots[..i + 1][..i] == slots[..i];
        var slot := slots[i];
        if id in parsers.vals && SlotOf(parsers.vals[id], slot).Some? {
          var p := SlotOf(parsers.vals[id], slot).value;
          var fields: Dict<string, FieldMap> := Empty();
          if obj in p.overrides.vals {
            fields := p.overrides.vals[obj];
          }
          var inner: FieldMap := Empty();
          if field in fields.vals {
            inner := fields.vals[field];
          }
          var overrides := Put(p.overrides, obj, Put(fields, field, Put(inner, key, value)));
          parsers := Put(parsers, id, WithSlot(parsers.vals[id], slot, p.(overrides := overrides)));
        }
      }
      assert slots[..|slots|] == slots;
    }

    /** `setRouteWhitelist`. */
    method SetRouteWhitelist(id: string, routes: ConfigValue)
      modifies this
      ensures parsers == WithWhitelist(old(parsers), id, routes)
    {
      if id in parsers.vals {
        parsers := Put(parsers, id, parsers.vals[id].(routes := Some(routes)));
      }
    }

    //
    // Queries
    //

    function GetParserIDs(): (r: seq<string>)
      reads this
      ensures forall id :: id in r <==> id in parsers.vals
    {
      parsers.keys
    }

    function HasLiveParser(id: string): (r: bool)
      reads this
      ensures r <==> id in parsers.vals && parsers.vals[id].liveParser.Some?
    {
      ParserOf(parsers, id, Live).Some?
    }

    function HasStaticParser(id: string): (r: bool)
      reads this
      ensures r <==> id in parsers.vals && parsers.vals[id].staticParser.Some?
    {
      ParserOf(parsers, id, Static).Some?
    }

    function GetSystem(id: string): (r: string)
      reads this
      ensures id !in parsers.vals ==> r == id
    {
      SystemFor(parsers, id)
    }

    function GetLiveParserClass(id: string): (r: Option<string>)
      reads this
      ensures r.Some? <==> HasLiveParser(id)
      ensures r.Some? ==> r.value == parsers.vals[id].liveParser.value.cls
    {
      ClassOf(parsers, id, Live)
    }

    function GetStaticParserClass(id: string): (r: Option<string>)
      reads this
      ensures r.Some? <==> HasStaticParser(id)
      ensures r.Some? ==> r.value == parsers.vals[id].staticParser.value.cls
    {
      ClassOf(parsers, id, Static)
    }

    /**
      * The whitelist getters as written: they read a whitelist slot of the
      * parser, which `setRouteWhitelist` never fills.
      */
    function GetLiveParserRouteWhitelist(id: string): (r: ConfigValue)
      reads this
      ensures !HasLiveParser(id) || parsers.vals[id].liveParser.value.routes.None? ==> r == List([])
      ensures HasLiveParser(id) && parsers.vals[id].liveParser.value.routes.Some? ==> r == parsers.vals[id].liveParser.value.routes.value
    {
      ProviderWhitelistOf(parsers, id, Live)
    }

    function GetStaticParserRouteWhitelist(id: string): (r: ConfigValue)
      reads this
      ensures !HasStaticParser(id) || parsers.vals[id].staticParser.value.routes.None? ==> r == List([])
      ensures HasStaticParser(id) && parsers.vals[id].staticParser.value.routes.Some? ==> r == parsers.vals[id].staticParser.value.routes.value
    {
      ProviderWhitelistOf(parsers, id, Static)
    }

    function GetLiveParserArgs(id: string): (r: FieldMap)
      reads this
      ensures !HasLiveParser(id) ==> r.keys == []
    {
      ArgumentsOf(parsers, id, Live)
    }

    function GetStaticParserArgs(id: string): (r: FieldMap)
      reads this
      ensures !HasStaticParser(id) ==> r.keys == []
    {
      ArgumentsOf(parsers, id, Static)
    }

    function GetLiveParserOverrides(id: string): (r: Overrides)
      reads this
      ensures !HasLiveParser(id) ==> r.keys == []
    {
      OverridesOf(parsers, id, Live)
    }

    function GetStaticParserOverrides(id: string): (r: Overrides)
      reads this
      ensures !HasStaticParser(id) ==> r.keys == []
    {
      OverridesOf(parsers, id, Static)
    }
  }

  /**
    * On a configuration the constructor built, both whitelist getters give
    * an empty list for every feed, whatever `route_whitelist` says; the
    * whitelist itself sits on the feed entry.
    */
  lemma ParsedWhitelistGetters(feedConfig: Dict<string, Section>, c: TransitConfig, id: string)
    requires c.parsers == ParseFeeds(FileParser, feedConfig, feedConfig.keys)
    ensures c.GetLiveParserRouteWhitelist(id) == List([]) && c.GetStaticParserRouteWhitelist(id) == List([])
    ensures WhitelistOf(c.parsers, id) ==
      if id in feedConfig.vals && Configured(feedConfig.vals[id]) && WhitelistSetting(feedConfig.vals[id]).Some?
      then WhitelistSetting(feedConfig.vals[id]).value else List([])
  {
    ProviderWhitelistAlwaysEmpty(FileParser, feedConfig, id, Live);
    ProviderWhitelistAlwaysEmpty(FileParser, feedConfig, id, Static);
    StoredWhitelist(feedConfig, id);
  }
}
