/**
 * The memory of recently seen keys. In the plugin this is a memcached
 * server reached through a client handle; the model keeps only what the
 * plugin relies on: a map from key to stored value and expiry time, read
 * against an explicit clock, and two injected faults that make every get
 * or every set fail. A ghost trace records the calls made, so that
 * callers can state when the store is not touched at all.
 */
module RecentlySeen {
  import opened Wrappers

  /** A stored value and the time from which it no longer counts. */
  datatype Item = Item(value: string, expiry: int)

  /** A call made against the store. */
  datatype Access = Read(key: string) | Write(key: string)

  /** Operational failures the store may report: of every get, of every set. */
  datatype Faults = Faults(getFails: bool, setFails: bool)

  /** `key` holds an entry that has not expired at time `now`. */
  predicate Live(items: map<string, Item>, key: string, now: int)
  {
    key in items && now < items[key].expiry
  }

  class Store {
    var items: map<string, Item>
    const faults: Faults
    ghost var trace: seq<Access>

    constructor (items0: map<string, Item>, faults: Faults)
      ensures items == items0 && this.faults == faults && trace == []
    {
      items := items0;
      this.faults := faults;
      trace := [];
    }

    /**
     * `memcached_get`: the stored value of a live entry; nothing when the
     * key is absent, has expired, or the get fails.
     */
    method Get(key: string, now: int) returns (val: Option<string>)
      modifies this`trace
      ensures trace == old(trace) + [Read(key)]
      ensures val.Some? <==> !faults.getFails && Live(items, key, now)
      ensures val.Some? ==> val.value == items[key].value
    {
      trace := trace + [Read(key)];
      if !faults.getFails && Live(items, key, now) {
        val := Some(items[key].value);
      } else {
        val := None;
      }
    }

    /**
     * `memcached_set` with an expiry of `ttl` seconds from `now`: replaces
     * whatever `key` held, unless the set fails, which leaves the store as
     * it was.
     */
    method Set(key: string, value: string, ttl: int, now: int) returns (ok: bool)
      modifies this`items, this`trace
      ensures trace == old(trace) + [Write(key)]
      ensures ok <==> !faults.setFails
      ensures items == if ok then old(items)[key := Item(value, now + ttl)] else old(items)
    {
      trace := trace + [Write(key)];
      ok := !faults.setFails;
      if ok {
        items := items[key := Item(value, now + ttl)];
      }
    }
  }
}
