/**
 * The option loop of `mosquitto_plugin_init` (dedupmq.c:100-116) as a
 * specification: the broker hands the plugin a list of key/value options,
 * read in order. `topic` options fill a fixed table of at most `MaxTopics`
 * filters (the rest are ignored without complaint); `memcached_host`,
 * `memcached_port`, `ttl` and `verbose_log` are overwritten, so the last
 * occurrence wins; any other key is ignored.
 *
 * `Load` is the loop read as a fold; `TopicValues` and `LastValue` are
 * independent descriptions of its outcome, and the lemmas at the end prove
 * that the two agree.
 */
module Config {
  import opened Wrappers

  /** One `struct mosquitto_opt`: a key and its value. */
  datatype Opt = Opt(key: string, value: string)

  /** `MAX_TOPICS`, the capacity of the filter table (dedupmq.c:20). */
  const MaxTopics: nat := 64
  /** Initial value of `ttl_seconds` (dedupmq.c:29). */
  const DefaultTtl: int := 60
  /** Initial memcached endpoint of each init call (dedupmq.c:100-101). */
  const DefaultHost: string := "127.0.0.1"
  const DefaultPort: string := "11211"

  /**
   * What the option loop writes: the filter table up to `topic_count`, the
   * memcached host and port strings, `ttl_seconds` and `verbose_log`.
   */
  datatype Settings = Settings(topics: seq<string>, host: string, port: string, ttl: int, verbose: bool)

  /**
   * `verbose_log` is switched on only by these two exact spellings (an
   * exact string comparison: "TRUE", "yes" or " 1" leave it off).
   */
  predicate IsTrueFlag(v: string)
  {
    v == "true" || v == "1"
  }

  /**
   * One pass of the loop body. `atoi` is the C library's string-to-int
   * conversion, left abstract.
   */
  function Apply(s: Settings, o: Opt, atoi: string -> int): (r: Settings)
    // The filter table only grows, by at most the option's own value, and never past its capacity.
    ensures s.topics <= r.topics && |r.topics| <= |s.topics| + 1
    ensures |s.topics| <= MaxTopics ==> |r.topics| <= MaxTopics
    ensures r.topics != s.topics ==> o.key == "topic" && r.topics == s.topics + [o.value]
    // Every other setting changes only under its own key, and then takes the option's value.
    ensures r.host != s.host ==> o.key == "memcached_host" && r.host == o.value
    ensures r.port != s.port ==> o.key == "memcached_port" && r.port == o.value
    ensures r.ttl != s.ttl ==> o.key == "ttl" && r.ttl == atoi(o.value)
    ensures r.verbose != s.verbose ==> o.key == "verbose_log" && r.verbose == IsTrueFlag(o.value)
    // A topic is appended while the table has room; the other known keys overwrite their setting.
    ensures o.key == "topic" ==> r.topics == if |s.topics| < MaxTopics then s.topics + [o.value] else s.topics
    ensures o.key == "memcached_host" ==> r.host == o.value
    ensures o.key == "memcached_port" ==> r.port == o.value
    ensures o.key == "ttl" ==> r.ttl == atoi(o.value)
    ensures o.key == "verbose_log" ==> r.verbose == IsTrueFlag(o.value)
    // An option with any other key is ignored.
    ensures o.key !in {"topic", "memcached_host", "memcached_port", "ttl", "verbose_log"} ==> r == s
  {
    if o.key == "topic" then
      if |s.topics| < MaxTopics then s.(topics := s.topics + [o.value]) else s
    else if o.key == "memcached_host" then s.(host := o.value)
    else if o.key == "memcached_port" then s.(port := o.value)
    else if o.key == "ttl" then s.(ttl := atoi(o.value))
    else if o.key == "verbose_log" then s.(verbose := IsTrueFlag(o.value))
    else s
  }

  /**
   * The state after the loop has read all of `opts`, starting from `s`.
   * The table never overflows and a filter once accepted stays in place.
   */
  function Load(s: Settings, opts: seq<Opt>, atoi: string -> int): (r: Settings)
    requires |s.topics| <= MaxTopics
    ensures |r.topics| <= MaxTopics
    ensures s.topics <= r.topics
    decreases |opts|
  {
    if opts == [] then s
    else Apply(Load(s, opts[..|opts| - 1], atoi), opts[|opts| - 1], atoi)
  }

  /** The values of all `topic` options, in the order given. */
  function TopicValues(opts: seq<Opt>): (vs: seq<string>)
    ensures forall v :: v in vs ==> Opt("topic", v) in opts
  {
    if opts == [] then []
    else
      var last := opts[|opts| - 1];
      TopicValues(opts[..|opts| - 1]) + (if last.key == "topic" then [last.value] else [])
  }

  /** The first `n` elements of `xs`, or all of them when there are fewer. */
  function Take<T>(xs: seq<T>, n: nat): (ys: seq<T>)
    ensures ys <= xs && |ys| == if |xs| <= n then |xs| else n
  {
    if |xs| <= n then xs else xs[..n]
  }

  /** The value of the last option whose key is `key`, if any. */
  function LastValue(opts: seq<Opt>, key: string): Option<string>
  {
    if opts == [] then None
    else if opts[|opts| - 1].key == key then Some(opts[|opts| - 1].value)
    else LastValue(opts[..|opts| - 1], key)
  }

  /**
   * `LastValue` finds nothing exactly when no option has the key, and
   * otherwise the value of an option with the key that no later option
   * with the key follows.
   */
  lemma {:induction false} LastValueIsLast(opts: seq<Opt>, key: string)
    ensures LastValue(opts, key).None? <==> forall i :: 0 <= i < |opts| ==> opts[i].key != key
    ensures LastValue(opts, key).Some? ==>
      exists i :: 0 <= i < |opts| && opts[i] == Opt(key, LastValue(opts, key).value) &&
                  forall j :: i < j < |opts| ==> opts[j].key != key
  {
    if opts != [] && opts[|opts| - 1].key != key {
      var init := opts[..|opts| - 1];
      LastValueIsLast(init, key);
      var r := LastValue(init, key);
      if r.Some? {
        var i :| 0 <= i < |init| && init[i] == Opt(key, r.value) &&
                 forall j :: i < j < |init| ==> init[j].key != key;
        assert opts[i] == init[i];
        forall j | i < j < |opts| ensures opts[j].key != key {
          if j < |init| { assert opts[j] == init[j]; }
        }
      } else {
        forall i | 0 <= i < |opts| ensures opts[i].key != key {
          if i < |init| { assert opts[i] == init[i]; }
        }
      }
    }
  }

  /**
   * The filter table holds the filters it started with followed by the
   * `topic` values in the order given, cut at `MaxTopics`: later topics are
   * dropped silently.
   */
  lemma {:induction false} LoadTopics(s: Settings, opts: seq<Opt>, atoi: string -> int)
    requires |s.topics| <= MaxTopics
    ensures Load(s, opts, atoi).topics == Take(s.topics + TopicValues(opts), MaxTopics)
  {
    if opts != [] {
      var init, last := opts[..|opts| - 1], opts[|opts| - 1];
      LoadTopics(s, init, atoi);
      var before := s.topics + TopicValues(init);
      if last.key == "topic" {
        assert s.topics + TopicValues(opts) == before + [last.value];
        if |before| >= MaxTopics {
          assert (before + [last.value])[..MaxTopics] == before[..MaxTopics];
        }
      } else {
        assert s.topics + TopicValues(opts) == before;
      }
    }
  }

  /**
   * Only `topic` options become filters: every filter after the loop was
   * already in the table or is the value of some `topic` option.
   */
  lemma LoadFiltersFromOptions(s: Settings, opts: seq<Opt>, atoi: string -> int)
    requires |s.topics| <= MaxTopics
    ensures forall f :: f in Load(s, opts, atoi).topics ==> f in s.topics || Opt("topic", f) in opts
  {
    LoadTopics(s, opts, atoi);
    var all := s.topics + TopicValues(opts);
    forall f | f in Load(s, opts, atoi).topics ensures f in s.topics || Opt("topic", f) in opts {
      assert f in all;
    }
  }

  /**
   * Host, port, ttl and the verbose flag come from the last option that
   * names them; with no such option they keep their value from before the loop.
   */
  lemma {:induction false} LoadLastWins(s: Settings, opts: seq<Opt>, atoi: string -> int)
    requires |s.topics| <= MaxTopics
    ensures Load(s, opts, atoi).host == LastValue(opts, "memcached_host").GetOr(s.host)
    ensures Load(s, opts, atoi).port == LastValue(opts, "memcached_port").GetOr(s.port)
    ensures Load(s, opts, atoi).ttl ==
      match LastValue(opts, "ttl")
      case Some(v) => atoi(v)
      case None => s.ttl
    ensures Load(s, opts, atoi).verbose ==
      match LastValue(opts, "verbose_log")
      case Some(v) => IsTrueFlag(v)
      case None => s.verbose
  {
    if opts != [] {
      LoadLastWins(s, opts[..|opts| - 1], atoi);
    }
  }

  /**
   * Verbose logging is on after the loop exactly when the last `verbose_log`
   * option reads "true" or "1", or, with none given, when it was on before.
   */
  lemma VerboseIff(s: Settings, opts: seq<Opt>, atoi: string -> int)
    requires |s.topics| <= MaxTopics
    ensures Load(s, opts, atoi).verbose <==>
      (LastValue(opts, "verbose_log") == Some("true") || LastValue(opts, "verbose_log") == Some("1") ||
       (LastValue(opts, "verbose_log") == None && s.verbose))
  {
    LoadLastWins(s, opts, atoi);
  }
}
