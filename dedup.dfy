/**
 * The per-message decision of `on_message` (dedupmq.c:40-84) as a
 * specification. The topic is compared with the configured filters in
 * order, stopping at the first that matches; with none it passes untouched.
 * Otherwise the payload's key is looked up in the store: a live entry means
 * the payload was seen within the window and the message is dropped; else
 * the key is marked with "1" for `ttl` seconds and the message passes, even
 * when the mark could not be written.
 */
module Dedup {
  import opened HexKey
  import opened RecentlySeen

  /** What the plugin tells the broker to do with a message. */
  datatype Decision = Pass | Drop

  /** `MOSQ_ERR_SUCCESS`: deliver the message. */
  const ErrSuccess: int := 0
  /** `MOSQ_ERR_PLUGIN_IGNORE` (dedupmq.c:21-23): discard the message. */
  const ErrPluginIgnore: int := 17

  /** The value `on_message` returns to the broker for a decision. */
  function ReturnCode(d: Decision): (rc: int)
    ensures rc == ErrSuccess || rc == ErrPluginIgnore
    ensures rc == ErrPluginIgnore <==> d == Drop
  {
    match d
    case Pass => ErrSuccess
    case Drop => ErrPluginIgnore
  }

  /**
   * What `mosquitto_topic_matches_sub(filter, topic, &result)` reports: its
   * return code and the result it wrote.
   */
  datatype MatchReply = MatchReply(rc: int, result: bool)

  /** The filter counts as matching only when the call succeeds and says so. */
  predicate Accepts(reply: MatchReply)
  {
    reply.rc == ErrSuccess && reply.result
  }

  /**
   * The library calls the plugin relies on, left abstract: the topic
   * matcher of the broker library, and XXH64 with seed 0.
   */
  datatype Foreign = Foreign(matches: (string, string) -> MatchReply, hash: seq<bv8> -> U64)

  /**
   * The position of the first filter that accepts `topic`, or `|filters|`
   * when none does.
   */
  function FirstMatch(filters: seq<string>, topic: string, matches: (string, string) -> MatchReply): (i: nat)
    ensures i <= |filters|
    ensures i < |filters| ==> Accepts(matches(filters[i], topic))
    ensures forall j :: 0 <= j < i ==> !Accepts(matches(filters[j], topic))
  {
    if filters == [] then 0
    else if Accepts(matches(filters[0], topic)) then 0
    else 1 + FirstMatch(filters[1..], topic, matches)
  }

  /** What one message does: the decision, the store afterwards and the calls made on it. */
  datatype Outcome = Outcome(decision: Decision, items: map<string, Item>, accesses: seq<Access>)

  /**
   * The decision for a message on `topic` carrying `payload`, with the
   * filters and ttl in force, the store holding `items`, at time `now`.
   */
  function Decide(filters: seq<string>, ttl: int, topic: string, payload: seq<bv8>,
                  items: map<string, Item>, faults: Faults, now: int, ext: Foreign): (r: Outcome)
    // The store is touched at all only when some filter accepts the topic.
    ensures r.accesses == [] <==> forall i :: 0 <= i < |filters| ==> !Accepts(ext.matches(filters[i], topic))
    // A drop, and any message the store fails to mark, leave the store as it was.
    ensures r.decision == Drop || faults.setFails ==> r.items == items
    // Only the payload's own key can change, and only to a fresh mark.
    ensures forall k :: k in items && k != Key(ext.hash(payload)) ==> k in r.items && r.items[k] == items[k]
    ensures r.items.Keys <= items.Keys + {Key(ext.hash(payload))}
    ensures r.items != items ==>
      r.decision == Pass && Key(ext.hash(payload)) in r.items &&
      r.items[Key(ext.hash(payload))] == Item("1", now + ttl)
  {
    if FirstMatch(filters, topic, ext.matches) == |filters| then
      Outcome(Pass, items, [])
    else
      var key := Key(ext.hash(payload));
      if !faults.getFails && Live(items, key, now) then
        Outcome(Drop, items, [Read(key)])
      else if faults.setFails then
        Outcome(Pass, items, [Read(key), Write(key)])
      else
        Outcome(Pass, items[key := Item("1", now + ttl)], [Read(key), Write(key)])
  }

  /** A topic that no filter accepts passes without any call on the store. */
  lemma NoMatchPasses(filters: seq<string>, ttl: int, topic: string, payload: seq<bv8>,
                      items: map<string, Item>, faults: Faults, now: int, ext: Foreign)
    requires forall i :: 0 <= i < |filters| ==> !Accepts(ext.matches(filters[i], topic))
    ensures Decide(filters, ttl, topic, payload, items, faults, now, ext) == Outcome(Pass, items, [])
  {
  }

  /**
   * The scan stops at the first accepting filter: the decision depends only
   * on the filters up to and including it, so the filters after it are
   * never consulted.
   */
  lemma {:induction false} ScanStopsAtFirstMatch(filters: seq<string>, rest: seq<string>, topic: string,
                                                 matches: (string, string) -> MatchReply)
    requires FirstMatch(filters, topic, matches) < |filters|
    ensures FirstMatch(filters + rest, topic, matches) == FirstMatch(filters, topic, matches)
  {
    if !Accepts(matches(filters[0], topic)) {
      ScanStopsAtFirstMatch(filters[1..], rest, topic, matches);
      assert (filters + rest)[1..] == filters[1..] + rest;
    }
  }

  /**
   * A message is dropped exactly when its topic is accepted by some filter,
   * the get succeeds and the store holds a live entry for its key; a drop
   * leaves the store as it was.
   */
  lemma DropIff(filters: seq<string>, ttl: int, topic: string, payload: seq<bv8>,
                items: map<string, Item>, faults: Faults, now: int, ext: Foreign)
    ensures var o := Decide(filters, ttl, topic, payload, items, faults, now, ext);
            (o.decision == Drop <==>
              (exists i :: 0 <= i < |filters| && Accepts(ext.matches(filters[i], topic))) &&
              !faults.getFails && Live(items, Key(ext.hash(payload)), now)) &&
            (o.decision == Drop ==> o.items == items && o.accesses == [Read(Key(ext.hash(payload)))])
  {
    var i := FirstMatch(filters, topic, ext.matches);
    if i < |filters| {
      assert Accepts(ext.matches(filters[i], topic));
    }
  }

  /**
   * On a matched topic whose key is not live, or whose get fails, the
   * message passes after a get and a set; when the set succeeds the key now
   * holds "1" until `now + ttl` and no other key changes, and when it fails
   * the store is unchanged (fail-open).
   */
  lemma MissMarks(filters: seq<string>, ttl: int, topic: string, payload: seq<bv8>,
                  items: map<string, Item>, faults: Faults, now: int, ext: Foreign)
    requires FirstMatch(filters, topic, ext.matches) < |filters|
    requires faults.getFails || !Live(items, Key(ext.hash(payload)), now)
    ensures var key := Key(ext.hash(payload));
            var o := Decide(filters, ttl, topic, payload, items, faults, now, ext);
            o.decision == Pass && o.accesses == [Read(key), Write(key)] &&
            (!faults.setFails ==>
              key in o.items && o.items[key] == Item("1", now + ttl) &&
              o.items.Keys == items.Keys + {key} &&
              forall k :: k in items && k != key ==> o.items[k] == items[k]) &&
            (faults.setFails ==> o.items == items)
  {
  }

  /**
   * Two messages with the same payload on accepted topics, the second
   * before the first one's mark expires, give Pass then Drop when the store
   * works and had no live entry for the key.
   */
  lemma PassThenDrop(filters: seq<string>, ttl: int, topic1: string, topic2: string, payload: seq<bv8>,
                     items: map<string, Item>, now1: int, now2: int, ext: Foreign)
    requires FirstMatch(filters, topic1, ext.matches) < |filters|
    requires FirstMatch(filters, topic2, ext.matches) < |filters|
    requires !Live(items, Key(ext.hash(payload)), now1)
    requires now1 <= now2 < now1 + ttl
    ensures var o1 := Decide(filters, ttl, topic1, payload, items, Faults(false, false), now1, ext);
            var o2 := Decide(filters, ttl, topic2, payload, o1.items, Faults(false, false), now2, ext);
            o1.decision == Pass && o2.decision == Drop
  {
  }

  /** Once the mark has expired the same payload passes again, and is marked anew. */
  lemma PassAgainAfterExpiry(filters: seq<string>, ttl: int, topic1: string, topic2: string, payload: seq<bv8>,
                             items: map<string, Item>, now1: int, now2: int, ext: Foreign)
    requires FirstMatch(filters, topic1, ext.matches) < |filters|
    requires FirstMatch(filters, topic2, ext.matches) < |filters|
    requires !Live(items, Key(ext.hash(payload)), now1)
    requires now1 + ttl <= now2
    ensures var key := Key(ext.hash(payload));
            var o1 := Decide(filters, ttl, topic1, payload, items, Faults(false, false), now1, ext);
            var o2 := Decide(filters, ttl, topic2, payload, o1.items, Faults(false, false), now2, ext);
            o1.decision == Pass && o2.decision == Pass && o2.items[key] == Item("1", now2 + ttl)
  {
  }

  /**
   * Fail-open: when every store call fails, every message passes and the
   * store is never changed.
   */
  lemma StoreDownPasses(filters: seq<string>, ttl: int, topic: string, payload: seq<bv8>,
                        items: map<string, Item>, now: int, ext: Foreign)
    ensures var o := Decide(filters, ttl, topic, payload, items, Faults(true, true), now, ext);
            o.decision == Pass && o.items == items
  {
  }
}
