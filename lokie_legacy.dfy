/**
  The earlier adapter of src/LokieJS.ts. `setItem`, `removeItem` and `sync`
  are the same code as in src/index.ts; `getItem` has no `defaultValue` and
  falls back to `null` alone. `AgreesWithIndex` shows that the two reads
  coincide whenever src/index.ts is called without a default.
 */
module LokieLegacy {
  import opened Wrappers
  import opened Json
  import opened Types
  import opened Protocol
  import opened Storage
  import Lokie

  /** What `getItem(key)` returns and leaves behind when the clock reads `now`. */
  function GetSpec(items: map<string, Raw>, key: string, now: int): (o: GetOutcome)
    ensures o.warned <==> key !in items || items[key].Foreign?
    ensures o.items == items || o.items == items - {key}
    ensures o.items != items <==> key in items && items[key].Envelope? && IsExpired(items[key].expire, now)
    ensures o.value == Null || (key in items && items[key].Envelope? && o.value == items[key].data)
  {
    if key in items && items[key].Envelope? then
      if IsExpired(items[key].expire, now) then GetOutcome(Null, items - {key}, false)
      else GetOutcome(items[key].data, items, false)
    else
      GetOutcome(Null, items, true)
  }

  method SetItem(ls: LocalStorage, key: string, value: Value, options: Option<SetItemOptions>)
    modifies ls
    ensures ls.items == Written(old(ls.items), key, value, options)
  {
    var expire := if options.Some? then options.value.expire else None;
    var exp: Option<int> := None;
    if expire.Some? && expire.value.Date? {
      exp := Some(expire.value.time);
    } else if expire.Some? && expire.value.Number? {
      exp := Some(expire.value.ms);
    }
    ls.SetItem(key, Envelope(exp, value));
  }

  method GetItem(ls: LocalStorage, console: Console, key: string, now: int) returns (r: Value)
    modifies ls, console
    ensures var o := GetSpec(old(ls.items), key, now);
      && r == o.value
      && ls.items == o.items
      && console.warnings == old(console.warnings) + (if o.warned then [WarnMessage(key)] else [])
  {
    var stored := ls.GetItem(key);
    if stored.Some? && stored.value.Envelope? {
      var entry := stored.value;
      if IsExpired(entry.expire, now) {
        ls.RemoveItem(key);
        return Null;
      }
      return entry.data;
    }
    console.Warn(WarnMessage(key));
    return Null;
  }

  method RemoveItem(ls: LocalStorage, key: string)
    modifies ls
    ensures ls.items == old(ls.items) - {key}
  {
    ls.RemoveItem(key);
  }

  method Sync(ls: LocalStorage, excludeKeys: Option<seq<string>>)
    modifies ls
    ensures ls.items == Synced(old(ls.items), excludeKeys)
  {
    var keys := ls.Keys();
    while keys != {}
      invariant keys <= old(ls.items).Keys
      invariant ls.items.Keys == old(ls.items).Keys
      invariant forall k | k in ls.items && k in keys :: ls.items[k] == old(ls.items)[k]
      invariant forall k | k in ls.items && k !in keys :: ls.items[k] == Synced(old(ls.items), excludeKeys)[k]
      decreases keys
    {
      var key :| key in keys;
      var value := ls.GetItem(key);
      if !Includes(excludeKeys, key) {
        SetItem(ls, key, Str(RawText(value.value)), None);
      }
      keys := keys - {key};
    }
  }

  /** On every store, key and clock, this read agrees with src/index.ts's read without a default. */
  lemma AgreesWithIndex(items: map<string, Raw>, key: string, now: int)
    ensures GetSpec(items, key, now) == Lokie.GetSpec(items, key, None, now)
  {
  }

  /** The two reads differ only in the fallback: with a default they agree wherever no fallback is taken. */
  lemma DiffersOnlyInFallback(items: map<string, Raw>, key: string, defaultValue: Option<Value>, now: int)
    ensures var o, p := GetSpec(items, key, now), Lokie.GetSpec(items, key, defaultValue, now);
      && o.items == p.items && o.warned == p.warned
      && (o.value == p.value || (o.value == Null && p.value == Lokie.Fallback(defaultValue)))
  {
  }

  /** A truthy expiry strictly before `now` evicts exactly `key` and the read returns `null`. */
  lemma GetEvictsExpired(items: map<string, Raw>, key: string, now: int)
    requires key in items && items[key].Envelope? && IsExpired(items[key].expire, now)
    ensures GetSpec(items, key, now) == GetOutcome(Null, items - {key}, false)
  {
  }

  /** An unexpired envelope yields its data and the store is unchanged. */
  lemma GetReturnsUnexpiredData(items: map<string, Raw>, key: string, now: int)
    requires key in items && items[key].Envelope? && !IsExpired(items[key].expire, now)
    ensures GetSpec(items, key, now) == GetOutcome(items[key].data, items, false)
  {
  }

  /** An absent or unreadable entry returns `null`, logs one warning and leaves the store alone. */
  lemma GetUnreadableWarns(items: map<string, Raw>, key: string, now: int)
    requires key !in items || items[key].Foreign?
    ensures GetSpec(items, key, now) == GetOutcome(Null, items, true)
  {
  }
}
