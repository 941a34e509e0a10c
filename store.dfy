/** `sessionStorage` and `localStorage`: string values under string keys. */
module Store {
  import opened Records

  /** `getItem`: the value under `key`, or null (None) when there is none. */
  function Get(items: map<string, string>, key: string): (r: Option<string>)
    ensures r.Some? <==> key in items
    ensures r.Some? ==> r.value == items[key]
  {
    if key in items then Some(items[key]) else None
  }

  /** One store of the browser; `setItem` replaces the value under a key. */
  class Storage {
    var items: map<string, string>

    constructor(items: map<string, string>)
      ensures this.items == items
    {
      this.items := items;
    }

    method GetItem(key: string) returns (value: Option<string>)
      ensures value == Get(items, key)
    {
      if key in items {
        value := Some(items[key]);
      } else {
        value := None;
      }
    }

    method SetItem(key: string, value: string)
      modifies this
      ensures items == old(items)[key := value]
    {
      items := items[key := value];
    }
  }
}
