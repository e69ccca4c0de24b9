/** `window.localStorage` as the game uses it: string values under string keys,
    and calls that throw when storage is blocked (private mode, disabled
    storage). */
module WebStorage {
  import opened Prelude

  /** What `localStorage.getItem(key)` does: it throws, or it returns the stored
      string or `null`. */
  datatype Read = Threw | Got(value: Option<string>)

  class Storage {
    var available: bool
    var items: map<string, string>

    constructor(available: bool, items: map<string, string>)
      ensures this.available == available && this.items == items
    {
      this.available := available;
      this.items := items;
    }

    /** `localStorage.getItem(key)`. */
    function GetItem(key: string): (r: Read)
      reads this
      ensures r.Threw? <==> !available
      ensures r.Got? ==> (r.value.Some? <==> key in items) && (key in items ==> r.value == Some(items[key]))
    {
      if !available then Threw
      else if key in items then Got(Some(items[key]))
      else Got(None)
    }

    /** `localStorage.setItem(key, value)` inside a `try` whose `catch` ignores
        the failure: blocked storage keeps what it had. */
    method SetItem(key: string, value: string)
      modifies this
      ensures available == old(available)
      ensures items == if available then old(items)[key := value] else old(items)
    {
      if available {
        items := items[key := value];
      }
    }
  }
}
