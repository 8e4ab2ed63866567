/**
  The collaborators the adapter calls: the browser's `localStorage` (a
  string-keyed map of entries, updated in place) and the console, whose
  warnings are kept as a ghost log. Both are passed to the adapter's
  operations instead of being reached as globals.
 */
module Storage {
  import opened Wrappers
  import opened Types

  class LocalStorage {
    var items: map<string, Raw>

    constructor (initial: map<string, Raw>)
      ensures items == initial
    {
      items := initial;
    }

    /** `localStorage.getItem(key)`: `None` plays the part of `null`. */
    method GetItem(key: string) returns (r: Option<Raw>)
      ensures r.Some? <==> key in items
      ensures r.Some? ==> r.value == items[key]
    {
      if key in items {
        r := Some(items[key]);
      } else {
        r := None;
      }
    }

    /** `localStorage.setItem(key, text)`. */
    method SetItem(key: string, raw: Raw)
      modifies this
      ensures items == old(items)[key := raw]
    {
      items := items[key := raw];
    }

    /** `localStorage.removeItem(key)`: harmless when `key` is absent. */
    method RemoveItem(key: string)
      modifies this
      ensures items == old(items) - {key}
    {
      items := items - {key};
    }

    /** `Object.keys(localStorage)`, as a snapshot set. */
    method Keys() returns (keys: set<string>)
      ensures keys == items.Keys
    {
      keys := items.Keys;
    }
  }

  class Console {
    ghost var warnings: seq<string>

    constructor ()
      ensures warnings == []
    {
      warnings := [];
    }

    /** `console.warn(message)`. */
    method Warn(message: string)
      modifies this
      ensures warnings == old(warnings) + [message]
    {
      warnings := warnings + [message];
    }
  }
}
