/**
  The shapes declared in src/types.ts (and repeated inline at the top of
  src/LokieJS.ts), together with the view of one stored entry that the
  adapter works on.
 */
module Types {
  import opened Wrappers
  import opened Json

  /** `number | Date`. A `Date` is represented by the milliseconds its `getTime()` returns. */
  datatype Expire = Number(ms: int) | Date(time: int)

  /** `SetItemOptions`: `{ expire?: Expire }`. */
  datatype SetItemOptions = SetItemOptions(expire: Option<Expire>)

  /**
    An entry of the underlying store as the adapter reads it back. `Envelope`
    is a `LokieObject` after a JSON round trip, so its expiry is already a
    number; `Foreign` is text that `JSON.parse` rejects or that parses to
    `null`, for instance a value written by other code.
   */
  datatype Raw = Envelope(expire: Option<int>, data: Value) | Foreign(text: string)
}
