/**
  The exported adapter of src/index.ts: `setItem`, `getItem` with a
  `defaultValue`, `removeItem` and `sync`, each a method over the injected
  store and console, proved against the functions of `Protocol` and
  `GetSpec` below; the lemmas state what the adapter promises.
 */
module Lokie {
  import opened Wrappers
  import opened Json
  import opened Types
  import opened Protocol
  import opened Storage

  /** `defaultValue || null`: a missing or falsy default becomes `null`. */
  function Fallback(defaultValue: Option<Value>): (r: Value)
    ensures r == Null || (defaultValue == Some(r) && Truthy(r))
    ensures Truthy(r) <==> defaultValue.Some? && Truthy(defaultValue.value)
  {
    if defaultValue.Some? && Truthy(defaultValue.value) then defaultValue.value else Null
  }

  /** What `getItem(key, defaultValue)` returns and leaves behind when the clock reads `now`. */
  function GetSpec(items: map<string, Raw>, key: string, defaultValue: Option<Value>, now: int)
    : (o: GetOutcome)
    ensures o.warned <==> key !in items || items[key].Foreign?
    ensures o.items == items || o.items == items - {key}
    ensures o.items != items <==> key in items && items[key].Envelope? && IsExpired(items[key].expire, now)
    ensures o.value == Fallback(defaultValue) || (key in items && items[key].Envelope? && o.value == items[key].data)
  {
    if key in items && items[key].Envelope? then
      if IsExpired(items[key].expire, now) then GetOutcome(Fallback(defaultValue), items - {key}, false)
      else GetOutcome(items[key].data, items, false)
    else
      GetOutcome(Fallback(defaultValue), items, true)
  }

  method SetItem(ls: LocalStorage, key: string, value: Value, options: Option<SetItemOptions>)
    modifies ls
    ensures ls.items == Written(old(ls.items), key, value, options)
  {
    var expire := if options.Some? then options.value.expire else None;
    var exp: Option<int> := None;
    if expire.Some? && expire.value.Date? {
      exp := Some(expire.value.time);
    } else if expire.Some? && expire.value.Number? {
      exp := Some(expire.value.ms);
    }
    ls.SetItem(key, Envelope(exp, value));
  }

  method GetItem(ls: LocalStorage, console: Console, key: string, defaultValue: Option<Value>, now: int)
    returns (r: Value)
    modifies ls, console
    ensures var o := GetSpec(old(ls.items), key, defaultValue, now);
      && r == o.value
      && ls.items == o.items
      && console.warnings == old(console.warnings) + (if o.warned then [WarnMessage(key)] else [])
  {
    var stored := ls.GetItem(key);
    if stored.Some? && stored.value.Envelope? {
      var entry := stored.value;
      if IsExpired(entry.expire, now) {
        ls.RemoveItem(key);
        return Fallback(defaultValue);
      }
      return entry.data;
    }
    console.Warn(WarnMessage(key));
    return Fallback(defaultValue);
  }

  method RemoveItem(ls: LocalStorage, key: string)
    modifies ls
    ensures ls.items == old(ls.items) - {key}
  {
    ls.RemoveItem(key);
  }

  method Sync(ls: LocalStorage, excludeKeys: Option<seq<string>>)
    modifies ls
    ensures ls.items == Synced(old(ls.items), excludeKeys)
  {
    var keys := ls.Keys();
    while keys != {}
      invariant keys <= old(ls.items).Keys
      invariant ls.items.Keys == old(ls.items).Keys
      invariant forall k | k in ls.items && k in keys :: ls.items[k] == old(ls.items)[k]
      invariant forall k | k in ls.items && k !in keys :: ls.items[k] == Synced(old(ls.items), excludeKeys)[k]
      decreases keys
    {
      var key :| key in keys;
      var value := ls.GetItem(key);
      if !Includes(excludeKeys, key) {
        SetItem(ls, key, Str(RawText(value.value)), None);
      }
      keys := keys - {key};
    }
  }

  // setItem

  /** A `Date` expiry is stored as its milliseconds, a number as it is, and no expiry leaves the field out. */
  lemma SetItemResolvesExpiry(items: map<string, Raw>, key: string, value: Value, ms: int)
    ensures Written(items, key, value, Some(SetItemOptions(Some(Date(ms)))))[key] == Envelope(Some(ms), value)
    ensures Written(items, key, value, Some(SetItemOptions(Some(Number(ms)))))[key] == Envelope(Some(ms), value)
    ensures Written(items, key, value, Some(SetItemOptions(None)))[key] == Envelope(None, value)
    ensures Written(items, key, value, None)[key] == Envelope(None, value)
  {
  }

  // getItem

  /** An envelope without expiry yields its data, falsy data included, and nothing changes. */
  lemma GetWithoutExpiryReturnsData(items: map<string, Raw>, key: string, defaultValue: Option<Value>, now: int)
    requires key in items && items[key].Envelope? && items[key].expire.None?
    ensures GetSpec(items, key, defaultValue, now) == GetOutcome(items[key].data, items, false)
  {
  }

  /** A truthy expiry strictly before `now` evicts exactly `key`, returns the fallback and logs nothing. */
  lemma GetEvictsExpired(items: map<string, Raw>, key: string, defaultValue: Option<Value>, now: int)
    requires key in items && items[key].Envelope? && items[key].expire.Some?
    requires items[key].expire.value != 0 && items[key].expire.value < now
    ensures GetSpec(items, key, defaultValue, now) == GetOutcome(Fallback(defaultValue), items - {key}, false)
  {
  }

  /** An expiry equal to or after `now`, or equal to `0`, is not evicted. */
  lemma GetKeepsUnexpired(items: map<string, Raw>, key: string, defaultValue: Option<Value>, now: int)
    requires key in items && items[key].Envelope? && items[key].expire.Some?
    requires now <= items[key].expire.value || items[key].expire.value == 0
    ensures GetSpec(items, key, defaultValue, now) == GetOutcome(items[key].data, items, false)
  {
  }

  /** An absent key or unreadable text logs one warning, returns the fallback and changes nothing. */
  lemma GetUnreadableWarns(items: map<string, Raw>, key: string, defaultValue: Option<Value>, now: int)
    requires key !in items || items[key].Foreign?
    ensures GetSpec(items, key, defaultValue, now) == GetOutcome(Fallback(defaultValue), items, true)
  {
  }

  /** A falsy default (`0`, `false`, `""`, `null`) collapses to `null`, on both fallback paths. */
  lemma FalsyDefaultIsNull(items: map<string, Raw>, key: string, d: Value, now: int)
    requires !Truthy(d)
    ensures GetSpec(items, key, Some(d), now).value == Null
         || (key in items && items[key].Envelope? && !IsExpired(items[key].expire, now))
  {
  }

  // round trips through setItem and getItem

  /** A value written without expiry is read back unchanged, at any time. */
  lemma SetThenGet(items: map<string, Raw>, key: string, value: Value, defaultValue: Option<Value>, now: int)
    ensures var written := Written(items, key, value, None);
      GetSpec(written, key, defaultValue, now) == GetOutcome(value, written, false)
  {
  }

  /** A value written with an expiry is read back until the expiry has strictly passed. */
  lemma SetThenGetBeforeExpiry(items: map<string, Raw>, key: string, value: Value, expire: Expire,
                               defaultValue: Option<Value>, now: int)
    requires now <= (if expire.Date? then expire.time else expire.ms)
    ensures var written := Written(items, key, value, Some(SetItemOptions(Some(expire))));
      GetSpec(written, key, defaultValue, now) == GetOutcome(value, written, false)
  {
  }

  /** Once a non-zero expiry has passed, the read evicts the key and the store is as if it were removed. */
  lemma SetThenGetAfterExpiry(items: map<string, Raw>, key: string, value: Value, expire: Expire,
                              defaultValue: Option<Value>, now: int)
    requires var ms := if expire.Date? then expire.time else expire.ms; ms != 0 && ms < now
    ensures var written := Written(items, key, value, Some(SetItemOptions(Some(expire))));
      GetSpec(written, key, defaultValue, now) == GetOutcome(Fallback(defaultValue), items - {key}, false)
  {
    var written := Written(items, key, value, Some(SetItemOptions(Some(expire))));
    assert written - {key} == items - {key};
  }

  // removeItem

  /** After `removeItem` the key reads as absent, with the warning and the fallback. */
  lemma RemoveThenGet(items: map<string, Raw>, key: string, defaultValue: Option<Value>, now: int)
    ensures GetSpec(items - {key}, key, defaultValue, now) == GetOutcome(Fallback(defaultValue), items - {key}, true)
  {
  }

  // sync

  /** After `sync`, a rewritten key reads back as its old raw text, never evicted and without a warning. */
  lemma SyncThenGet(items: map<string, Raw>, excludeKeys: Option<seq<string>>, key: string,
                    defaultValue: Option<Value>, now: int)
    requires key in items && !Includes(excludeKeys, key)
    ensures var synced := Synced(items, excludeKeys);
      GetSpec(synced, key, defaultValue, now) == GetOutcome(Str(RawText(items[key])), synced, false)
  {
  }
}
