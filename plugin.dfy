/**
 * The plugin's global state and entry points (dedupmq.c): the filter table
 * `topics` with its fill count `topic_count`, `ttl_seconds` and
 * `verbose_log`, the option loop of `mosquitto_plugin_init`, the message
 * callback `on_message` and `mosquitto_plugin_version`. Each method is
 * proved against the specification functions of `Config` and `Dedup`.
 */
module DedupMq {
  import opened Wrappers
  import opened HexKey
  import opened Config
  import opened RecentlySeen
  import opened Dedup

  /** The plugin API version this plugin implements. */
  const ApiVersion: int := 5

  /**
   * `mosquitto_plugin_version`: the broker offers the first `count` entries
   * of `supportedVersions`; the plugin answers 5 when 5 is among them and
   * -1 otherwise (in particular when nothing is offered).
   */
  method PluginVersion(count: int, supportedVersions: array<int>) returns (v: int)
    requires count <= supportedVersions.Length
    ensures v == ApiVersion <==> exists i :: 0 <= i < count && supportedVersions[i] == ApiVersion
    ensures v == ApiVersion || v == -1
  {
    var i := 0;
    while i < count
      invariant 0 <= i <= if count < 0 then 0 else count
      invariant forall j :: 0 <= j < i ==> supportedVersions[j] != ApiVersion
    {
      if supportedVersions[i] == ApiVersion {
        return ApiVersion;
      }
      i := i + 1;
    }
    return -1;
  }

  class Plugin {
    /** `topics`: a table of `MaxTopics` filters, of which the first `topicCount` are in use. */
    var topics: array<string>
    var topicCount: nat
    var ttlSeconds: int
    var verboseLog: bool

    ghost predicate Valid()
      reads this
    {
      topics.Length == MaxTopics && topicCount <= MaxTopics
    }

    /** The configured filters, in the order they were given. */
    ghost function Filters(): (fs: seq<string>)
      reads this, topics
      requires Valid()
      ensures |fs| == topicCount
    {
      topics[..topicCount]
    }

    /** The state before any init: no filters, ttl 60 seconds, quiet logging. */
    constructor ()
      ensures Valid() && fresh(topics)
      ensures Filters() == [] && ttlSeconds == DefaultTtl && !verboseLog
    {
      topics := new string[MaxTopics];
      topicCount := 0;
      ttlSeconds := DefaultTtl;
      verboseLog := false;
    }

    /**
     * The option loop of `mosquitto_plugin_init`. Host and port start from
     * their defaults on every call and are returned (they only serve to
     * open the memcached connection); the filter table, ttl and verbose flag
     * continue from the plugin's state.
     */
    method Init(options: seq<Opt>, atoi: string -> int) returns (host: string, port: string)
      requires Valid()
      modifies this, topics
      ensures Valid() && topics == old(topics)
      ensures Settings(Filters(), host, port, ttlSeconds, verboseLog) ==
              Load(Settings(old(Filters()), DefaultHost, DefaultPort, old(ttlSeconds), old(verboseLog)), options, atoi)
    {
      ghost var start := Settings(Filters(), DefaultHost, DefaultPort, ttlSeconds, verboseLog);
      host, port := DefaultHost, DefaultPort;
      var i := 0;
      while i < |options|
        invariant 0 <= i <= |options|
        invariant Valid() && topics == old(topics)
        invariant Settings(Filters(), host, port, ttlSeconds, verboseLog) == Load(start, options[..i], atoi)
      {
        var o := options[i];
        assert options[..i + 1][..i] == options[..i];
        if o.key == "topic" {
          if topicCount < MaxTopics {
            ghost var before := Filters();
            topics[topicCount] := o.value;
            topicCount := topicCount + 1;
            assert Filters() == before + [o.value];
          }
        } else if o.key == "memcached_host" {
          host := o.value;
        } else if o.key == "memcached_port" {
          port := o.value;
        } else if o.key == "ttl" {
          ttlSeconds := atoi(o.value);
        } else if o.key == "verbose_log" {
          verboseLog := o.value == "true" || o.value == "1";
        }
        i := i + 1;
      }
      assert options[..i] == options;
    }

    /**
     * The filter scan of `on_message`: compares `topic` with the filters in
     * order and stops at the first that accepts it. `i` is where the scan
     * stopped: the accepting filter, or `topicCount` when there is none.
     */
    method FindFilter(topic: string, matches: (string, string) -> MatchReply) returns (matched: bool, i: nat)
      requires Valid()
      ensures i == FirstMatch(Filters(), topic, matches)
      ensures matched <==> i < topicCount
    {
      matched := false;
      i := 0;
      while i < topicCount
        invariant 0 <= i <= topicCount
        invariant forall j :: 0 <= j < i ==> !Accepts(matches(topics[j], topic))
      {
        if Accepts(matches(topics[i], topic)) {
          matched := true;
          break;
        }
        i := i + 1;
      }
    }

    /**
     * `on_message`: the decision for one message at time `now`, against the
     * memcached store `store`. Only the store changes, as `Decide` says.
     */
    method OnMessage(topic: string, payload: seq<bv8>, store: Store, now: int, ext: Foreign) returns (d: Decision)
      requires Valid()
      modifies store
      ensures var o := Decide(Filters(), ttlSeconds, topic, payload, old(store.items), store.faults, now, ext);
              d == o.decision && store.items == o.items && store.trace == old(store.trace) + o.accesses
    {
      var matched, _ := FindFilter(topic, ext.matches);
      if !matched {
        return Pass;
      }
      var hashKey := Key(ext.hash(payload));
      var val := store.Get(hashKey, now);
      if val.Some? {
        return Drop;
      }
      var stored := store.Set(hashKey, "1", ttlSeconds, now);
      return Pass;
    }
  }

  /**
   * A client of the callback: with a working store and no live entry for
   * the payload's key, the same payload on accepted topics passes, is
   * dropped while its mark is live, and passes again once it has expired.
   */
  method DuplicateWithinWindow(p: Plugin, store: Store, topic: string, payload: seq<bv8>,
                               now: int, later: int, ext: Foreign) returns (d1: Decision, d2: Decision, d3: Decision)
    requires p.Valid() && store.faults == Faults(false, false)
    requires FirstMatch(p.Filters(), topic, ext.matches) < p.topicCount
    requires !Live(store.items, Key(ext.hash(payload)), now)
    requires now < later < now + p.ttlSeconds
    modifies store
    ensures d1 == Pass && d2 == Drop && d3 == Pass
  {
    d1 := p.OnMessage(topic, payload, store, now, ext);
    d2 := p.OnMessage(topic, payload, store, later, ext);
    d3 := p.OnMessage(topic, payload, store, now + p.ttlSeconds, ext);
  }
}
