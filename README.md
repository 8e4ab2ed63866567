# lokiejs: an expiring key-value adapter over `localStorage`, in Dafny

The library wraps the browser's `localStorage`. Every value is stored as an
envelope `{expire?, data}`. The adapter has four operations:

- `setItem(key, value, options?)` resolves the expiry and writes the
  envelope. A `Date` becomes its `getTime()` milliseconds, a number is
  kept as it is, and with no expiry the field is left out.
- `getItem(key, defaultValue?)` reads the entry back. An absent or
  unparsable entry logs a warning and returns `defaultValue || null`. An
  entry whose truthy `expire` is strictly before the clock is removed, and
  the read returns the same fallback. Any other entry returns its `data`.
- `removeItem(key)` deletes the key.
- `sync(excludeKeys?)` rewrites every key that is not excluded. Each one
  becomes a no-expiry envelope whose `data` is the entry's old raw text.

`src/index.ts` is the exported adapter. `src/LokieJS.ts` is an earlier copy
whose `getItem` has no `defaultValue`. Both are modelled.

Modules:

- `Wrappers`: an `Option` datatype.
- `Json`: the payload `Value`, JavaScript truthiness and the text that
  `JSON.stringify` writes for a value.
- `Types`: the shapes of src/types.ts: `Expire` (`number | Date`),
  `SetItemOptions`, and the entry view `Raw`. `Raw` is either
  `Envelope(expire, data)` (a `LokieObject`) or `Foreign(text)`.
- `Protocol`: the pure helpers that both adapters share, and the whole-store
  effect of `setItem` (`Written`) and of `sync` (`Synced`).
- `Storage`: `localStorage` as a class over `items: map<string, Raw>`. It
  also holds a `Console` class with a ghost log of warnings.
- `Lokie`: the src/index.ts adapter. Its methods are proved against
  `Written`, `Synced` and `GetSpec`; the lemmas state the promised
  behaviour.
- `LokieLegacy`: the src/LokieJS.ts adapter, with its own `GetSpec` and a
  proof that it agrees with `Lokie.GetSpec` when no default is passed.

The store and the console are passed to every operation as parameters.
The source reaches them as globals. The clock value
`(new Date()).getTime()` is a parameter `now`.

Two details of the code decide the behaviour:

- The code returns `defaultValue || null`, so a falsy default (`0`,
  `false`, `""`) turns into `null`, not into the default itself.
- The code tests `object.expire && object.expire < now`, so an expiry of `0`
  never evicts, although it is present.

## Model

| member | source | states |
|---|---|---|
| `Lokie.SetItem` | src/index.ts:4-19 | the new store is `Written(old, key, value, options)`: the envelope of `value` with the resolved expiry under `key`, every other key unchanged |
| `Protocol.Written` | src/index.ts:13-18 | `setItem` adds or replaces exactly `key` with `Envelope(ResolveExpire(options), value)`, and every other key keeps its entry |
| `Lokie.SetItemResolvesExpiry` | src/index.ts:5-11 | a `Date` expiry is stored as its `getTime()` value and a number as it is; with no options or no `expire` the envelope has no expiry |
| `Lokie.Fallback` | src/index.ts:30 | `defaultValue \|\| null` is either `null` or the given default; it is truthy exactly when a truthy default was given |
| `Lokie.GetSpec` | src/index.ts:21-39 | a warning is logged exactly when the key is absent or its entry is unreadable; the only possible store change is removing `key`, and that happens exactly when the envelope's truthy expiry is `< now`; the result is the fallback or the envelope's `data` |
| `Lokie.GetItem` | src/index.ts:21-39 | the method returns `GetSpec`'s value, leaves `GetSpec`'s store, and appends the message `Could not get item from localstorage with <key>` to the console log exactly when `GetSpec` warns |
| `Lokie.GetWithoutExpiryReturnsData` | src/index.ts:27-33 | an envelope without expiry returns its `data`, falsy data such as `false` included, with no removal and no warning |
| `Lokie.GetEvictsExpired` | src/index.ts:27-31 | a non-zero expiry strictly before `now` removes exactly `key`, returns `defaultValue \|\| null` and logs nothing |
| `Lokie.GetKeepsUnexpired` | src/index.ts:27 | an expiry equal to `now`, after `now`, or equal to `0` is not evicted: `data` is returned and the store is unchanged |
| `Lokie.GetUnreadableWarns` | src/index.ts:34-38 | an absent key or foreign text logs one warning and returns `defaultValue \|\| null`, and the store is not changed |
| `Lokie.FalsyDefaultIsNull` | src/index.ts:30-37 | a falsy default gives `null` wherever a fallback is taken |
| `Lokie.SetThenGet` | src/index.ts:4-39 | a value written without expiry reads back as `data`, at any time |
| `Lokie.SetThenGetBeforeExpiry` | src/index.ts:4-39 | a value written with an expiry reads back unchanged while `now` is at or before that expiry |
| `Lokie.SetThenGetAfterExpiry` | src/index.ts:4-39 | once a non-zero expiry has strictly passed, the read returns the fallback and the store is the old store without `key` |
| `Lokie.RemoveItem` | src/index.ts:41-43 | the new store is the old store without `key` |
| `Lokie.RemoveThenGet` | src/index.ts:21-43 | after removal the key reads as absent, with the warning and the fallback |
| `Lokie.Sync` | src/index.ts:45-53 | the new store is `Synced(old, excludeKeys)` |
| `Protocol.Synced` | src/index.ts:45-53 | no key is added or removed; an excluded key keeps its entry unchanged; every other key becomes `Envelope(None, Str(RawText(old entry)))` |
| `Protocol.SyncWithoutExcludeKeysRewritesAll` | src/index.ts:49 | with no exclusion list every key is rewritten |
| `Protocol.SyncChangesEveryRewrittenKey` | src/index.ts:45-53 | every rewritten key changes, so an entry that is already an envelope is wrapped again and is never recognised |
| `Protocol.SyncTwiceWrapsTwice` | src/index.ts:45-53 | a second `sync` wraps the text of the first envelope again |
| `Protocol.SyncTestAllKeys` | __tests__/index.spec.ts:185-202 | `sync()` on `{key1: "value1", key2: "value2"}` rewrites both keys as no-expiry envelopes of their text |
| `Protocol.SyncTestExcludedKey` | __tests__/index.spec.ts:204-221 | `sync(["key1"])` leaves `key1` untouched and rewrites only `key2` |
| `Protocol.SyncTestText` | __tests__/index.spec.ts:200 | the text written for the envelope of `value1` is `{"data":"value1"}`, as the test expects |
| `Protocol.SyncTestTextValue2` | __tests__/index.spec.ts:201 | the text written for the envelope of `value2` is `{"data":"value2"}`, as both tests expect |
| `Protocol.PlainStringEnvelopeText` | src/index.ts:13-18 | a no-expiry envelope of a string without quotes, backslashes or control characters is written as `{"data":"<text>"}` |
| `Lokie.SyncThenGet` | src/index.ts:21-53 | after `sync`, a rewritten key reads back as its old raw text, is never evicted and logs no warning |
| `Json.Escape` | src/index.ts:18 | the escaped body of a JSON string is at least as long as the string and holds no raw control character |
| `Json.EscapeChar` | src/index.ts:18 | one character escapes to one to six characters, none below the space, and stays itself exactly when it needs no escape |
| `LokieLegacy.SetItem` | src/LokieJS.ts:17-32 | the same whole-store effect as `Lokie.SetItem`: only `key` is written, with the resolved expiry |
| `LokieLegacy.GetSpec` | src/LokieJS.ts:34-52 | a warning is logged exactly when the entry is absent or unreadable; the store changes only by removing `key`, exactly on expiry; the result is `null` or the envelope's `data` |
| `LokieLegacy.GetItem` | src/LokieJS.ts:34-52 | the method returns `GetSpec`'s value, leaves `GetSpec`'s store, and logs the warning exactly when `GetSpec` says so |
| `LokieLegacy.GetEvictsExpired` | src/LokieJS.ts:40-44 | a truthy expiry strictly before `now` removes exactly `key` and returns `null` |
| `LokieLegacy.GetReturnsUnexpiredData` | src/LokieJS.ts:40-46 | otherwise an envelope returns its `data` and the store is unchanged |
| `LokieLegacy.GetUnreadableWarns` | src/LokieJS.ts:47-51 | an absent or unreadable entry returns `null`, logs one warning and does not change the store |
| `LokieLegacy.RemoveItem` | src/LokieJS.ts:54-56 | the new store is the old store without `key` |
| `LokieLegacy.Sync` | src/LokieJS.ts:58-67 | the new store is `Synced(old, excludeKeys)` |
| `LokieLegacy.AgreesWithIndex` | src/LokieJS.ts:34-52 | for every store, key and clock, this read equals src/index.ts's read called without a default |
| `LokieLegacy.DiffersOnlyInFallback` | src/index.ts:21-39 | with any default the two reads leave the same store and log the same warnings; their values differ only where src/index.ts returns `defaultValue \|\| null` and this one returns `null` |

## Left out

- JSON parsing is not modelled. An entry is held as its decoded view
  `Raw`, and unparsable text is `Foreign`. Some text parses without
  throwing but is not an object, such as `"5"`; `getItem` then returns
  `undefined` with no warning. That case is not modelled. The same goes
  for objects that parse but have no `data` field.
- An entry is held either as an `Envelope`, assumed to be stored as exactly
  the text `setItem` writes (`expire` first, no spaces), or as `Foreign`
  text, assumed not to parse. Text written by other code that parses as an
  envelope in another layout, such as `{"data":1,"expire":5}` or
  `{ "data": 1 }`, has no faithful state: `sync` would wrap a different text
  for it, or `getItem` would warn where the source returns `data`.
- `NumberText` writes every integer in plain decimal, which matches
  `JSON.stringify` only for magnitudes up to 2^53. Above that, an integer is
  either not a JavaScript number at all (2^53+1, for one) or a double that
  `JSON.stringify` writes in shortest round-trip form: for 2^57 that is
  `144115188075855870`, and from 10^21 on it is exponent form, such as
  `1e+21`. Neither case is modelled.
- `Json.Obj` holds its fields as a sequence. That allows duplicate names
  and key orders that no JavaScript object has, since integer-like keys are
  always listed first, in ascending order. `Stringify` therefore also gives
  text for objects that cannot occur in JavaScript.
- Numbers are integers. Fractional expiries, `NaN` (an invalid `Date`) and
  `-0` are not modelled. `JSON.stringify` writes `NaN` as `null`, and that
  is not modelled either.
- Lone UTF-16 surrogates in strings are not modelled, because Dafny
  characters are Unicode scalar values. Their `\uXXXX` escape in
  `JSON.stringify` is left out with them.
- `undefined` as a payload, and the dynamic typing of `T`/`any`, are not
  modelled. The payload is the JSON value type `Json.Value`.
- `console.warn` is modelled only as a ghost log of messages.
- `localStorage` errors, such as running out of quota, propagate uncaught
  in the source and are not modelled.
- The order of `Object.keys(localStorage)` is not modelled. `sync` takes
  the keys as a set snapshot and rewrites them in any order. The result
  does not depend on the order.
- src/types.ts holds only interfaces. Its shapes are the datatypes of
  `Types`. The same shapes are declared inline in src/LokieJS.ts.
