# dedupmq in Dafny

dedupmq is a Mosquitto broker plugin that drops repeated MQTT messages. For
messages whose topic matches one of the configured topic filters, it computes
the XXH64 digest of the payload and renders it as a 16-digit hex key. It then
looks the key up in memcached. A key that is already there means the payload
was seen within the last `ttl` seconds, and the message is dropped. Otherwise
the key is stored with that expiry and the message is delivered. Topics that
no filter matches are delivered without any hashing or store access.

This project models the plugin's decision core and proves what it promises:

- `HexKey`: the `%016llx` rendering of a 64-bit digest, a parser for it, and
  the proof that the two are inverse (so distinct digests give distinct keys).
- `Config`: the option loop of `mosquitto_plugin_init` as a fold (`Load`),
  with independent descriptions of its outcome (`TopicValues`, `LastValue`)
  and lemmas tying them together.
- `RecentlySeen`: memcached as a class `Store`. It holds a map from key to
  value and expiry time, read against an explicit clock `now`. Two fault
  flags make every get or every set fail. A ghost trace records the calls made.
- `Dedup`: the per-message decision as a specification function `Decide`, the
  first-match filter scan `FirstMatch`, and lemmas for each outcome.
- `DedupMq`: the plugin's global state as a class `Plugin` (the `topics` array
  with `topicCount`, `ttlSeconds`, `verboseLog`). Its methods `Init`,
  `FindFilter` and `OnMessage` are loops and store calls proved against
  `Load`, `FirstMatch` and `Decide`. It also holds `PluginVersion`.

The foreign calls are parameters: `mosquitto_topic_matches_sub` (its return
code and result, `MatchReply`), XXH64 with seed 0 (`Foreign.hash`), and `atoi`
for the ttl. The clock is the parameter `now`.

The model does what the code does, including where one might expect more:

- The code does no validation of its configuration, and neither does the model. A ttl of zero or below is taken as
  given. Topic filters are not checked for `#` placement.
- A failed get is not reported as an error; it looks like a miss, so the
  message is then marked and passes.
- Topics beyond 64 are ignored without error.
- The file header speaks of SHA256; the code hashes with XXH64.

## Model

| member | source | states |
|---|---|---|
| HexKey.Key | dedupmq.c:33-37 | the key of a 64-bit digest is exactly 16 characters, each a lower-case hex digit |
| HexKey.Render | dedupmq.c:36 | zero-padded hex rendering has exactly the requested width and only lower-case hex digits |
| HexKey.ParseKey | dedupmq.c:36 | a string parses as a key exactly when it is 16 lower-case hex digits |
| HexKey.ValueOfRender | dedupmq.c:36 | reading back the rendering of a value that fits the width yields the value |
| HexKey.RenderOfValue | dedupmq.c:36 | rendering the value of a hex-digit string at its own width yields the string |
| HexKey.KeyRoundTrip | dedupmq.c:34-36 | a string is the key of digest h if and only if it parses to h |
| HexKey.KeyInjective | dedupmq.c:34-36 | distinct digests never share a key |
| Config.Apply | dedupmq.c:103-115 | a "topic" option appends its value while the table has fewer than 64 entries and is otherwise dropped; "memcached_host", "memcached_port", "ttl" (through atoi) and "verbose_log" (true only for "true" or "1") overwrite their setting; each setting changes only under its own key, and any other key changes nothing |
| Config.TopicValues | dedupmq.c:103-106 | every listed topic value is the value of some "topic" option |
| Config.Load | dedupmq.c:102-116 | the option loop never lets the filter table exceed 64 entries and never removes an accepted filter |
| Config.LastValueIsLast | dedupmq.c:107-115 | the last-value lookup finds nothing exactly when no option has the key, and otherwise an option with the key that no later option with the key follows |
| Config.LoadTopics | dedupmq.c:103-106 | the filter table is the earlier filters followed by the topic values in the given order, cut at 64 |
| Config.LoadFiltersFromOptions | dedupmq.c:103-106 | every filter after the loop was already in the table or is the value of a "topic" option |
| Config.LoadLastWins | dedupmq.c:107-115 | host, port, ttl and verbose come from the last option naming them, else keep their earlier value |
| Config.VerboseIff | dedupmq.c:113-114 | verbose logging is on iff the last verbose_log value is "true" or "1" (or none was given and it was on) |
| RecentlySeen.Store.Get | dedupmq.c:65 | a get returns the stored value exactly when the get works and the key holds an unexpired entry |
| RecentlySeen.Store.Set | dedupmq.c:75 | a working set stores the value with expiry now + ttl and changes no other key; a failed set changes nothing |
| Dedup.ReturnCode | dedupmq.c:71 | Drop is reported as MOSQ_ERR_PLUGIN_IGNORE (17), Pass as MOSQ_ERR_SUCCESS (0) |
| Dedup.Decide | dedupmq.c:46-83 | the store is touched iff some filter accepts the topic; a drop or a failed set leaves the store unchanged; only the payload's key can change, and only to "1" with expiry now + ttl on a pass (the per-outcome promises are NoMatchPasses, DropIff and MissMarks) |
| Dedup.FirstMatch | dedupmq.c:46-55 | the scan position is the first filter the matcher accepts (success code and true result), or the filter count when none does |
| Dedup.NoMatchPasses | dedupmq.c:46-56 | when no filter accepts the topic the message passes and the store is neither read nor written |
| Dedup.ScanStopsAtFirstMatch | dedupmq.c:47-54 | once a filter accepts the topic, the filters after it do not affect the scan |
| Dedup.DropIff | dedupmq.c:65-72 | a message is dropped iff some filter accepts its topic, the get works and its key is live; a drop only reads the store |
| Dedup.MissMarks | dedupmq.c:74-83 | on a miss or failed get the message passes after a get and a set; the key then holds "1" until now + ttl and no other key changes, or, if the set fails, nothing changes |
| Dedup.PassThenDrop | dedupmq.c:65-83 | the same payload twice on accepted topics, the second before the mark expires, gives Pass then Drop |
| Dedup.PassAgainAfterExpiry | dedupmq.c:65-83 | after the mark expires the same payload passes again and is marked anew |
| Dedup.StoreDownPasses | dedupmq.c:75-83 | with every store call failing, every message passes and the store is unchanged (fail-open) |
| DedupMq.PluginVersion | dedupmq.c:86-94 | returns 5 iff 5 is among the offered versions, otherwise -1 (also for an empty offer) |
| DedupMq.Plugin.constructor | dedupmq.c:27-30 | the initial state has no filters, a ttl of 60 and verbose logging off |
| DedupMq.Plugin.Init | dedupmq.c:100-116 | the filter table, ttl, verbose flag and returned host and port are those `Load` gives from the state before the loop and the defaults 127.0.0.1 and 11211 |
| DedupMq.Plugin.FindFilter | dedupmq.c:46-55 | the loop stops at the first accepting filter, and reports a match iff it stopped before the end of the table |
| DedupMq.Plugin.OnMessage | dedupmq.c:40-84 | the decision, the store afterwards and the store calls made are those `Decide` gives |
| DedupMq.DuplicateWithinWindow | dedupmq.c:65-83 | three calls with one payload on an accepted topic give Pass, Drop before expiry, and Pass at expiry |

## Left out

- XXH64 (dedupmq.c:34) is a foreign library; the digest is an arbitrary function of the payload bytes.
- `mosquitto_topic_matches_sub` (dedupmq.c:50) is a foreign library; it is an arbitrary function of filter and topic giving a return code and a result. No wildcard or `$` rules are modelled.
- memcached networking and handle lifecycle (`memcached_create`, `memcached_server_add`, the `!memc` check with its MOSQ_ERR_UNKNOWN return, `memcached_free`; dedupmq.c:118-125, 133) are replaced by the `Store` class; `Init` returns the host and port strings that would be used.
- memcached's own reading of an expiry time (0 meaning "never", values over 30 days taken as absolute times) is not modelled; an entry set at `now` with `ttl` counts as live while the clock is below `now + ttl`.
- `atoi` (dedupmq.c:112, 120) is an arbitrary function from string to int; the port string is not converted because only the connection uses it.
- The race between concurrent get/set pairs on one key: the model is sequential.
- Logging (`mosquitto_log_printf`), callback registration (dedupmq.c:127), `plugin_id`, and `malloc`/`strdup`/`free` bookkeeping, including `mosquitto_plugin_cleanup` (dedupmq.c:132-137), which only frees memory.
- The `int` length passed to XXH64 and C string handling of topics and payloads: payloads are byte sequences and strings are character sequences.
