/** Values the aggregator works on: feed items, the records that wrap them, instants. */
module FeedTypes {

  datatype Option<+T> = None | Some(value: T)

  /** A storage key: the aggregator's prefix segments followed by the item's id. */
  type Key = seq<string>

  /**
   * A JSON Feed item.  Only the fields the aggregator inspects are spelled
   * out; every other field (url, content_html, title, ...) is kept by name
   * in `rest`, with its value abstracted to its serialized text.
   */
  datatype Item = Item(
    id: string,
    datePublished: Option<string>,
    dateModified: Option<string>,
    rest: map<string, string>)

  /**
   * A record as `add` receives it and as the store holds it: the item, an
   * optional expiry in milliseconds since the epoch, and the optional
   * "approximate date" flag.
   */
  datatype Record = Record(
    item: Item,
    expireAt: Option<int>,
    shouldApproximateDate: Option<bool>)

  /** A `Date`: its time value in milliseconds and the text `toISOString` gives for it. */
  datatype Instant = Instant(ms: int, iso: string)

  /** JavaScript truthiness of an optional boolean: only `true` is truthy. */
  predicate IsOn(flag: Option<bool>) {
    flag == Some(true)
  }

  /** JavaScript truthiness of an optional date string: present and not empty. */
  predicate HasDate(date: Option<string>) {
    date.Some? && date.value != ""
  }
}
