/**
  The pure parts of the envelope protocol that src/index.ts and
  src/LokieJS.ts share: how an expiry is resolved, when an entry counts as
  expired, the text of a stored entry, and the whole-store effect of
  `setItem` and `sync`.
 */
module Protocol {
  import opened Wrappers
  import opened Json
  import opened Types

  /** `options?.expire`, normalised: a `Date` gives its milliseconds, a number is kept, anything else is absent. */
  function ResolveExpire(options: Option<SetItemOptions>): Option<int> {
    match options
    case Some(SetItemOptions(Some(Date(t)))) => Some(t)
    case Some(SetItemOptions(Some(Number(n)))) => Some(n)
    case _ => None
  }

  /** `object.expire && object.expire < now`: absent and `0` are falsy; the comparison is strict. */
  predicate IsExpired(expire: Option<int>, now: int) {
    expire.Some? && expire.value != 0 && expire.value < now
  }

  /** `excludeKeys?.includes(key)`, with an absent list excluding nothing. */
  predicate Includes(excludeKeys: Option<seq<string>>, key: string) {
    excludeKeys.Some? && key in excludeKeys.value
  }

  /** The message `getItem` logs when an entry cannot be read. */
  function WarnMessage(key: string): string {
    "Could not get item from localstorage with " + key
  }

  /**
    The text the store holds for an entry: foreign text as it is, an envelope
    as `setItem`'s `JSON.stringify({expire, data})` writes it, with `expire`
    first and left out when absent.
   */
  function RawText(r: Raw): string {
    match r
    case Foreign(text) => text
    case Envelope(expire, data) =>
      "{" + (if expire.Some? then "\"expire\":" + NumberText(expire.value) + "," else "")
      + "\"data\":" + Stringify(data) + "}"
  }

  /** The store after `setItem(key, value, options)`: only `key` is written. */
  function Written(items: map<string, Raw>, key: string, value: Value, options: Option<SetItemOptions>)
    : (r: map<string, Raw>)
    ensures r.Keys == items.Keys + {key}
    ensures r[key] == Envelope(ResolveExpire(options), value)
    ensures forall k | k in items && k != key :: r[k] == items[k]
  {
    items[key := Envelope(ResolveExpire(options), value)]
  }

  /** What `setItem(key, rawText)` stores in place of an entry during `sync`. */
  function Rewrapped(r: Raw): Raw {
    Envelope(ResolveExpire(None), Str(RawText(r)))
  }

  /** The store after `sync(excludeKeys)`. */
  function Synced(items: map<string, Raw>, excludeKeys: Option<seq<string>>): (r: map<string, Raw>)
    ensures r.Keys == items.Keys
    ensures forall k | k in items && Includes(excludeKeys, k) :: r[k] == items[k]
    ensures forall k | k in items && !Includes(excludeKeys, k) :: r[k] == Envelope(None, Str(RawText(items[k])))
  {
    map k | k in items :: if Includes(excludeKeys, k) then items[k] else Rewrapped(items[k])
  }

  /** What a read returns, what the store holds afterwards, and whether a warning was logged. */
  datatype GetOutcome = GetOutcome(value: Value, items: map<string, Raw>, warned: bool)

  /** The text of a re-wrapped entry is strictly longer than the entry's own text. */
  lemma RewrappedTextGrows(r: Raw)
    ensures |RawText(Rewrapped(r))| > |RawText(r)|
  {
    var t := RawText(r);
    assert RawText(Rewrapped(r)) == "{" + "" + "\"data\":" + Quote(t) + "}";
  }

  /** `sync` never recognises an entry as already wrapped: every entry it rewrites changes. */
  lemma SyncChangesEveryRewrittenKey(items: map<string, Raw>, excludeKeys: Option<seq<string>>, key: string)
    requires key in items && !Includes(excludeKeys, key)
    ensures Synced(items, excludeKeys)[key] != items[key]
  {
    RewrappedTextGrows(items[key]);
  }

  /** With no exclusion list every key is rewritten. */
  lemma SyncWithoutExcludeKeysRewritesAll(items: map<string, Raw>)
    ensures Synced(items, None) == map k | k in items :: Envelope(None, Str(RawText(items[k])))
  {
  }

  /** An entry re-wrapped twice holds the text of the once-wrapped envelope. */
  lemma SyncTwiceWrapsTwice(items: map<string, Raw>, excludeKeys: Option<seq<string>>, key: string)
    requires key in items && !Includes(excludeKeys, key)
    ensures Synced(Synced(items, excludeKeys), excludeKeys)[key]
         == Envelope(None, Str(RawText(Envelope(None, Str(RawText(items[key]))))))
  {
  }

  /** The test suite's `sync` case without an exclusion list: both keys are rewritten. */
  lemma SyncTestAllKeys()
    ensures Synced(map["key1" := Foreign("value1"), "key2" := Foreign("value2")], None)
         == map["key1" := Envelope(None, Str("value1")), "key2" := Envelope(None, Str("value2"))]
  {
    var before := map["key1" := Foreign("value1"), "key2" := Foreign("value2")];
    assert Synced(before, None).Keys == {"key1", "key2"};
  }

  /** The test suite's `sync(['key1'])` case: only `key2` is rewritten. */
  lemma SyncTestExcludedKey()
    ensures Synced(map["key1" := Foreign("value1"), "key2" := Foreign("value2")], Some(["key1"]))
         == map["key1" := Foreign("value1"), "key2" := Envelope(None, Str("value2"))]
  {
    var before := map["key1" := Foreign("value1"), "key2" := Foreign("value2")];
    assert Synced(before, Some(["key1"])).Keys == {"key1", "key2"};
    assert Includes(Some(["key1"]), "key1");
    assert !Includes(Some(["key1"]), "key2");
  }

  /** A character that `JSON.stringify` writes as it is inside a string. */
  predicate PlainChar(c: char) {
    c >= ' ' && c != '"' && c != '\\'
  }

  /** A no-expiry envelope of a plain string is written as `{"data":"<text>"}`. */
  lemma PlainStringEnvelopeText(s: string)
    requires forall i | 0 <= i < |s| :: PlainChar(s[i])
    ensures RawText(Envelope(None, Str(s))) == "{\"data\":\"" + s + "\"}"
  {
    EscapePlain(s);
    NoExpiryEnvelopeText(Str(s));
    QuotedDataShape(s);
  }

  /** Without an expiry the envelope text is `{"data":` and the payload's text. */
  lemma NoExpiryEnvelopeText(data: Value)
    ensures RawText(Envelope(None, data)) == "{\"data\":" + Stringify(data) + "}"
  {
  }

  lemma QuotedDataShape(s: string)
    ensures "{\"data\":" + ("\"" + s + "\"") + "}" == "{\"data\":\"" + s + "\"}"
  {
    var lhs, rhs := "{\"data\":" + ("\"" + s + "\"") + "}", "{\"data\":\"" + s + "\"}";
    assert |lhs| == |rhs|;
    forall i | 0 <= i < |lhs| ensures lhs[i] == rhs[i] {
    }
  }

  /** The text the test suite expects `sync` to write for `value1`. */
  lemma SyncTestText()
    ensures RawText(Envelope(None, Str("value1"))) == "{\"data\":\"value1\"}"
  {
    var s := ['v', 'a', 'l', 'u', 'e', '1'];
    assert PlainChar(s[0]) && PlainChar(s[1]) && PlainChar(s[2]);
    assert PlainChar(s[3]) && PlainChar(s[4]) && PlainChar(s[5]);
    PlainStringEnvelopeText(s);
    assert s == "value1";
  }

  /** The text the test suite expects `sync` to write for `value2`. */
  lemma SyncTestTextValue2()
    ensures RawText(Envelope(None, Str("value2"))) == "{\"data\":\"value2\"}"
  {
    var s := ['v', 'a', 'l', 'u', 'e', '2'];
    assert PlainChar(s[0]) && PlainChar(s[1]) && PlainChar(s[2]);
    assert PlainChar(s[3]) && PlainChar(s[4]) && PlainChar(s[5]);
    PlainStringEnvelopeText(s);
    assert s == "value2";
  }

  /** A string with no quote, backslash or control character is its own escape. */
  lemma {:induction false} EscapePlain(s: string)
    requires forall i | 0 <= i < |s| :: PlainChar(s[i])
    ensures Escape(s) == s
  {
    if s != [] {
      EscapePlain(s[1..]);
      assert Escape(s) == [s[0]] + s[1..];
    }
  }
}
