# PingWAF: a verified model

A Dafny model of the parts of PingWAF whose correctness is not visible from any
single function: the disk-backed response cache, the compiler from site rules to
routing tables, and the certificate machinery (issuance, back-off, challenge
tokens, reloads, SNI). What the code does step by step is a method or a class
method, proved against a function of its inputs or of the old state; what the
system promises is proved about those functions, about whole runs, or about
every interleaving of a state machine.

| file | component |
|---|---|
| `Prelude`, `Text`, `StableSort` | small shared facts: saturating arithmetic, splitting and trimming, stable sort and first match |
| `CacheCodec`, `StreamedHit`, `StaleStream` | the on-disk object format, its two readers, the hit handler that serves a body whole or in chunks, and what it serves when its length is out of date |
| `PathLayout`, `FileCache`, `CacheAnswers`, `CacheRuns` | file layout; put, get, remove, clear, purge and eviction; when a get misses and when it answers what was put; sequential runs |
| `CacheAccounting`, `CounterDrift` | calls one after the other: the byte counter, the budget, LRU order; a run in which the counter drifts |
| `TwoLayer`, `LayerRaces`, `LayerRuns`, `LateAdmission` | memory over disk: one call alone; calls interleaved between their memory step and their file step; what every get answers; runs in which a get admits too late |
| `DiskProtocol`, `StaleRun`, `Gauges`, `Admission` | interleavings: temporary files, renames and readers; runs in which a reader's length is out of date; the process-wide gauges; the read and write gates |
| `LocationMatch`, `SiteRules`, `SiteRouting`, `RoutingFacts` | path and host selectors and weights; the site-rules compiler; what its output does with a request |
| `HostPatterns`, `RoutingIntent` | what host patterns and computed weights mean; what the rules mean a request to reach, defined without the compiler, and that it is reached |
| `HostIndex`, `ServerLocations` | the host-bucket index; the sorted per-server tables and the lookup through the index |
| `RetrySchedule`, `TokenLife`, `HotReload`, `SniTable` | renewal scans and back-off; HTTP-01 tokens; configuration reloads; the SNI table |
| `Redaction`, `CanonicalQuery` | query redaction in error texts; percent encoding and the string to sign |

Clocks, directory listings, access times, the iteration order of hash maps,
regex answers and the outcome of an ACME order are parameters, so a statement
holds for all of them. Concurrent tasks are interleaved as events in
`DiskProtocol`, `StaleRun`, `LayerRaces`, `LayerRuns`, `LateAdmission`, `Gauges`,
`Admission`, `RetrySchedule` (scans), `TokenLife` and `HotReload`. The class
`FileCache`, `CacheAnswers`, `TwoLayer`, `CacheRuns`, `CacheAccounting` and
`CounterDrift` are about calls that run one after the other; `LateAdmission` shows each such call to
be a run of the interleaved steps.

## What the model shows that a reader might not expect

Properties one would expect of the code that it has only under a condition. Where
the text says "exactly", both directions are proved.

- Decoding undoes encoding exactly when both metadata halves are shorter than
  2^32 bytes; lengths are written with a truncating cast.
- A streaming reader learns the length from a stat done before the open. If the
  file was replaced in between, a length that is too short cuts the body there,
  and one that is too long drops the last chunk that cannot be filled. The whole
  body arrives exactly when the length is that of the opened file, or too long
  while the body consists of whole 64 KiB chunks. For every object too large
  to be read inline and every successor there is a run of two puts and a get that
  pairs the length of the one with the bytes of the other. An inline read is always of one
  whole object, and reading back as a value fails on a length that is too long.
- The byte counter stays exact over a write exactly when eviction does not take
  the file being overwritten, or that file is empty, or nothing with bytes is
  left. The directory beforehand decides it: the file is taken when, even without
  everything used before it, the growth does not fit. Three small puts are enough
  to make the counter drift.
- An admitted write ends within the budget exactly when the new file fits beside
  what the eviction leaves of the directory. If the target itself is not evicted
  and no other eviction runs, that means beside the temporary files, which
  eviction never touches.
- A put leaves memory and disk coherent exactly when neither the admission limit
  nor a skipped write leaves an older copy behind: an object that outgrows the
  memory layer stays hidden behind the smaller one it replaced.
- A get that missed memory reads the file and admits the object later, without
  looking again. After a remove or a purge every get misses until the next put
  exactly when no get is about to admit the key and no put is about to write it;
  otherwise the removed object comes back. In the same way a newer object is
  hidden behind an older one. As long as the calls for a key keep apart and no
  put leaves an older copy, every get answers the latest object or misses.
- `purge_namespace(".")` passes the guard and reaches every file. For any other
  accepted name, files of other non-empty namespaces are out of reach.
- Reading an inverted range fails for an in-memory body and ends quietly for a
  streamed one.
- A reload split into a fetch and a later save loses a certificate issued in
  between; the atomic reload does not.
- A deleted certificate entry is back exactly when a later reload or an issuance
  in flight brought it and no reload since lacks it. Uploads always win, the
  comment on the merge says, and in the merge they do. Over whole runs an uploaded
  PEM is the stored one exactly until an issuance, another upload
  or a deletion puts something else there, and an order already in flight can.
- A certificate served only by carry-over is gone with the next renewal of any
  certificate: the ACME task rebuilds the same table without the carry-over.
- The comment on the host index says its first match is that of a linear scan.
  That holds up to 65536 locations: positions are stored in 16 bits, and with one
  more location there is always a table for which it fails.
- A route outranks a fallback that could answer exactly when its weight is not
  zero. Only a 16-bit sum over a host list with a regex can be zero.
- A route path answers the requests the route asks for exactly when it has no
  blanks at its ends and, for a prefix route, does not start with a selector mark;
  otherwise some request tells the two apart.

## Model

| member | source | states |
|---|---|---|
| CacheCodec.DecodeUndoesEncode | pingap-cache/src/http_cache.rs:106-152 | decode(encode(o)) = o if and only if both metadata halves fit their 32-bit length fields |
| CacheCodec.EncodeUndoesDecode | pingap-cache/src/http_cache.rs:106-152 | every accepted byte string is the encoding of what it decodes to |
| CacheCodec.EncodeInjective | pingap-cache/src/http_cache.rs:137-152 | different representable objects have different encodings |
| CacheCodec.EncodeHeader | pingap-cache/src/http_cache.rs:77-104 | the size parser reads back the two metadata lengths an encoding starts with |
| CacheCodec.EncodeLayout | pingap-cache/src/http_cache.rs:137-152 | the bytes of an encoding: two lengths of four bytes, most significant first, then the two halves, then the body |
| CacheCodec.TruncationRejected | pingap-cache/src/http_cache.rs:108-135 | a truncated encoding is rejected exactly when the cut is inside header or metadata; a later cut only shortens the body |
| CacheCodec.OpenStreamEntry | pingap-cache/src/file.rs:694-771 | the header-only reader accepts the same files as the whole-file parser with the same halves and body region, and parks the cursor on the body |
| CacheCodec.ReadersAgree | pingap-cache/src/file.rs:694-771 | on every byte string, streamed view and decoded object coincide, acceptance included |
| CacheCodec.MaterialisedIs | pingap-cache/src/http_cache.rs:338-369 | read back as a value with a length from an earlier stat: cut for a shorter one, an error for a longer one, the stored object exactly when the lengths agree |
| StaleStream.DrainedIs | pingap-cache/src/http_cache.rs:654-701 | for every file and every announced length, the bytes a streamed hit hands out until it ends: the body cut at a shorter length, or without the chunk a longer one cannot fill |
| StaleStream.WholeBodyIff | pingap-cache/src/http_cache.rs:654-701 | the whole body arrives exactly when the length is right, or too long for a body of whole chunks |
| StaleStream.StreamedViewIs | pingap-cache/src/file.rs:694-771 | the object a streaming reader serves for any stat length, and exactly when it is the stored one |
| StaleStream.ViewOfPrefix | pingap-cache/src/file.rs:694-771 | the reader looks at no byte beyond the length it was told |
| StreamedHit.CompleteHit.constructor | pingap-cache/src/http_cache.rs:600-625 | a fresh handler covers the whole body, nothing pending, nothing read |
| StreamedHit.CompleteHit.Seek | pingap-cache/src/http_cache.rs:627-650 | a seek is refused past the end and otherwise arms the range, keeping everything else |
| StreamedHit.CompleteHit.ReadBody | pingap-cache/src/http_cache.rs:654-701 | one read, inline or streamed, is the corresponding step of the specification, file cursor included |
| StreamedHit.StreamReadKeepsInv | pingap-cache/src/http_cache.rs:654-701 | a streamed read keeps chunks equal to the body read so far and the cursor on the frontier |
| StreamedHit.StreamRefinesInline | pingap-cache/src/http_cache.rs:600-701 | after any ordered seeks and reads, streamed chunks are a prefix of the range last asked for, all of it when reading ended, as the in-memory hit hands it out; each at most 64 KiB, cursor never adrift |
| StreamedHit.InlineReadEnds | pingap-cache/src/http_cache.rs:654-701 | after any ordered calls the next in-memory read has handed out exactly the range last asked for, once |
| StreamedHit.StreamDrains | pingap-cache/src/http_cache.rs:654-701 | from any such point one read per remaining chunk plus one delivers the whole range and ends |
| StreamedHit.InvertedRange | pingap-cache/src/http_cache.rs:627-701 | after an accepted seek the in-memory read fails exactly for an inverted range, where the streamed one ends |
| PathLayout.GetFilePath | pingap-cache/src/file.rs:506-525 | the level loop computes the specified path with every slice of the key in bounds, for all levels and ASCII keys |
| PathLayout.FilePathShape | pingap-cache/src/file.rs:506-525 | a path is the namespace, if any, then level directories, then the key |
| PathLayout.LevelDirsAre | pingap-cache/src/file.rs:516-522 | where the levels fit, which characters of the key name each level directory |
| PathLayout.PathsDistinct | pingap-cache/src/file.rs:506-525 | distinct (namespace, key) pairs have distinct files |
| PathLayout.QuotaKeyRecovers | pingap-cache/src/file.rs:407-415 | the pair is recovered from the path if and only if the namespace is not empty |
| PathLayout.PurgeReach | pingap-cache/src/file.rs:1051-1102 | exactly which files lie under the directory an accepted purge walks |
| PathLayout.PurgeLeavesOthers | pingap-cache/src/file.rs:1051-1102 | files of other non-empty namespaces are out of reach exactly when the purge is not for "." |
| PathLayout.FinalIsNotTmp | pingap-cache/src/file.rs:203-223 | a final name is never taken for a temporary |
| FileCache.FileCache.constructor | pingap-cache/src/file.rs:258-322 | the counter starts from the bytes the directory walk found |
| FileCache.FileCache.RemoveTrackedFile | pingap-cache/src/file.rs:385-405 | one tracked deletion: file gone, counter lowered by its length, saturating |
| FileCache.FileCache.EvictFiles | pingap-cache/src/file.rs:467-503 | deletes files from the front of the list until the counter meets the budget, no more and no fewer |
| FileCache.FileCache.EnsureDiskSpace | pingap-cache/src/file.rs:438-503 | the verdict, the victims in access order and the new state, with the eviction flag restored |
| FileCache.FileCache.PutHotLayer | pingap-cache/src/file.rs:536-555 | the memory layer takes admissible objects only and is otherwise unchanged |
| FileCache.FileCache.WriteFile | pingap-cache/src/file.rs:854-923 | the disk half of a put: gate, budget, temporary file, rename and accounting as one state change, counters restored |
| FileCache.FileCache.Put | pingap-cache/src/file.rs:843-946 | a put is the hot-layer step followed by the disk step |
| FileCache.FileCache.Remove | pingap-cache/src/file.rs:949-985 | a remove drops memory copy and file and lowers the counter |
| FileCache.FileCache.Get | pingap-cache/src/file.rs:568-637 | a get running alone answers from memory, else through the gate from disk, admits what it read and discards a corrupt file; when it hits and what it leaves is in CacheAnswers |
| FileCache.FileCache.ReadBack | pingap-cache/src/file.rs:812-828 | opening a large file with a given length and reading its body region back: the announced region or an error, and with the right length what decoding the file gives |
| FileCache.FileCache.Clear | pingap-cache/src/file.rs:995-1039 | removes exactly the files last accessed by the given time, each tracked, and counts them |
| FileCache.FileCache.PurgeNamespace | pingap-cache/src/file.rs:1051-1102 | refuses empty names and names with a slash, backslash or two dots in a row and changes nothing; otherwise exactly the files below the namespace go, temporaries aside, with the memory copies under their names, and are counted |
| FileCache.VictimCountUnique | pingap-cache/src/file.rs:467-503 | the number of victims is determined by: over budget before, within it after |
| FileCache.PurgeSparesOthers | pingap-cache/src/file.rs:1051-1102 | after a purge every file of another non-empty namespace is present and unchanged, exactly when the purge is not for "." |
| CacheAnswers.GetMissesIff | pingap-cache/src/file.rs:568-637 | a get misses exactly when memory has no copy and the read gate is shut, the file absent or not decodable; a hit is memory's copy, else what the file decodes to |
| CacheAnswers.GetLeaves | pingap-cache/src/file.rs:603-637 | no other file changes, its own goes only if it was read and did not decode, and memory gains only a light object read from a file of at most 256 KiB |
| CacheAnswers.PutWritesIff | pingap-cache/src/file.rs:843-923 | the encoded object is the file afterwards exactly when the write gate is open and it fits the budget beside the file it replaces, else the directory is as it was; memory takes it exactly below the weight limit |
| CacheAnswers.PutThenGetIff | pingap-cache/src/file.rs:675-679 | exactly when the next get answers the object just put |
| CacheAnswers.PutThenGetHits | pingap-cache/src/file.rs:817-827 | a representable object whose write goes through is answered by the next get that passes the gate, if memory takes it or has no older copy |
| CacheAnswers.RemoveThenGetMisses | pingap-cache/src/file.rs:949-985 | the next get of a removed key misses |
| CacheAnswers.GetThenGet | pingap-cache/src/file.rs:568-637 | a get does not change what the next one answers |
| CacheAnswers.WeightIs | pingap-cache/src/http_cache.rs:52-67 | an object weighs its size in pages of 4096 bytes, at least one, and the maximum from 10240 pages on |
| CacheAccounting.ListingSum | pingap-cache/src/file.rs:233-238 | the size measured at start-up is the sum of lengths on disk |
| CacheAccounting.CounterFollowsRemovals | pingap-cache/src/file.rs:362-401 | removing distinct files keeps an exact counter exact and no subtraction clips |
| CacheAccounting.EvictionIsLru | pingap-cache/src/file.rs:438-503 | victims are a prefix of the access order, no spared file was accessed before an evicted one, no shorter prefix would do, and the budget then holds unless everything went |
| CacheAccounting.TargetEvictedIff | pingap-cache/src/file.rs:438-503 | eviction takes the file being overwritten exactly when the directory beforehand shows that without everything used before it the growth still does not fit |
| CacheAccounting.WriteCounter | pingap-cache/src/file.rs:873-923 | by how much the counter is short after a write, and that it stays exact if and only if, by the directory beforehand, the target is not evicted, is empty, or nothing with bytes is left |
| CounterDrift.CounterCanDrift | pingap-cache/src/file.rs:843-946 | three puts from an empty cache after which the counter is wrong and the directory over budget |
| CacheAccounting.WriteMeetsBudget | pingap-cache/src/file.rs:438-503 | an admitted write ends within budget, even from above it, exactly when by the directory beforehand the new file fits beside what the eviction leaves, its target aside; with the target spared and no other eviction running, beside the temporaries |
| CacheAccounting.OversizedWriteIsSkipped | pingap-cache/src/file.rs:875-888 | a new key larger than the budget writes and evicts nothing |
| CacheAccounting.StepKeepsCounter | pingap-cache/src/file.rs:362-401 | every operation keeps an exact counter exact, a put unless the directory beforehand puts its target among the evicted |
| CacheAccounting.CounterExactOverRuns | pingap-cache/src/file.rs:362-401 | over any sequential run of put, get, remove, clear, purge, eviction and corrupt-file discard with no such put, the counter equals the bytes on disk at every point |
| TwoLayer.PutKeepsCoherence | pingap-cache/src/file.rs:536-554 | a put running alone keeps memory and disk coherent with the latest object if and only if neither layer is left with an older one |
| TwoLayer.AdmitKeepsCoherence | pingap-cache/src/file.rs:603-622 | an admission keeps coherence if and only if the object is not admitted or still the latest of its key |
| LayerRaces.SettledIff | pingap-cache/src/file.rs:536-637 | over every interleaving without a new put, a get of the key answers nothing but the given object exactly when memory, file, gets about to admit and puts about to write agree on it |
| LayerRaces.RemoveSticks | pingap-cache/src/file.rs:949-985 | however a key went, every get misses until the next put, in every interleaving, exactly when no get is about to admit it and no put about to write it |
| LayerRuns.GetReturnsLatestOrMisses | pingap-cache/src/file.rs:536-637 | at every point of every interleaving in which the calls for each key keep apart and puts leave no older copy in memory or on disk, a get of a key that is not being changed answers the latest object put under it or misses |
| LayerRuns.OneSidedPutsAreFresh | pingap-cache/src/file.rs:536-554 | a put on its key's side of the admission limit leaves no older copy in memory |
| LayerRuns.OneSidedGetsReturnLatest | pingap-cache/src/file.rs:843-985 | the same with that freshness read off the calls: objects under each key on one side of the limit, no write skipped and no remove failed, calls for a key apart |
| LateAdmission.RemovedObjectComesBack | pingap-cache/src/file.rs:603-622 | for every small object, an interleaving of a get and a remove after which the removed object is served from memory |
| LateAdmission.PurgedObjectComesBack | pingap-cache/src/file.rs:1075-1094 | the same with a purge of the file and its memory copy |
| LateAdmission.NewerObjectIsHidden | pingap-cache/src/file.rs:603-622 | for every two small objects, an interleaving of a get and a put after which memory has the older in front of the newer |
| LateAdmission.PutIsItsSteps | pingap-cache/src/file.rs:843-946 | a put running alone is its memory step, the evictions and its file step, or its memory step and a skip |
| LateAdmission.GetIsItsSteps | pingap-cache/src/file.rs:568-637 | a get running alone is a memory hit, a miss, a discard, or its read and admission; it returns what it could answer, and nothing exactly when memory has no copy and the gate is shut or the file has no answer |
| LateAdmission.RemoveIsItsSteps | pingap-cache/src/file.rs:949-985 | a remove running alone is its memory step and its file step |
| TwoLayer.StaleAfterGrowth | pingap-cache/src/file.rs:536-554 | for every pair of objects crossing the limit, the get after both puts returns the older one |
| DiskProtocol.StepKeepsInv | pingap-cache/src/file.rs:899-920 | every step of writers, readers, crashes and unlinks keeps the inode invariant |
| DiskProtocol.RunInv | pingap-cache/src/file.rs:899-920 | the invariant holds at every point of every interleaving |
| DiskProtocol.FinalNamesHoldWholeObjects | pingap-cache/src/file.rs:899-920 | at every point of every interleaving a final name is absent or holds the complete encoding of an object put earlier under that key |
| DiskProtocol.ReadsAreOfOnePut | pingap-cache/src/file.rs:641-686 | in every interleaving a finished read is of one object put earlier under its key: what it has of it for any stat length, and exactly when it has all of it |
| StaleRun.StaleReadRun | pingap-cache/src/file.rs:641-657 | for every object too large to be read inline and every successor, both representable, a run of two puts and one get that takes the length of the first and the bytes of the second, and what it serves |
| StaleRun.ShortBodyIsServed | pingap-cache/src/http_cache.rs:672-691 | such a run serves a strictly shorter body whenever the second file is smaller than the first and its body is not made of whole chunks |
| Gauges.StepConserves | pingap-cache/src/http_cache.rs:239-276 | each atomic step keeps total plus pending deltas equal to the sum of the cells |
| Gauges.DiskGaugeConserved | pingap-cache/src/http_cache.rs:262-276 | in every interleaving of swaps the deltas telescope, and with none pending the total is the sum |
| Gauges.LastMeasureIsShown | pingap-cache/src/http_cache.rs:262-276 | in every interleaving a backend's disk figure is the size last measured for it, capped at the largest 64-bit signed number |
| Gauges.AddedGaugeConserved | pingap-cache/src/http_cache.rs:240-258 | the same for the gauges changed by addition |
| Gauges.InFlightEqualsLiveGuards | pingap-cache/src/http_cache.rs:281-298 | in every run a backend's in-flight gauge equals the bytes of its live guards, so zero once all are dropped |
| Admission.StepKeepsInv | pingap-cache/src/file.rs:854-867 | every step keeps the counter equal to the operations present and admission below the limit |
| Admission.GateHolds | pingap-cache/src/file.rs:590-602 | in every interleaving no more operations are past the gate than a nonzero limit, and the counter returns to zero |
| Admission.GateIsNotStricter | pingap-cache/src/file.rs:590-602 | an operation that finds fewer than the limit present is let through |
| LocationMatch.HostsAreLowered | pingap-location/src/location.rs:146-168 | parsed exact hosts are in lower case, which the index relies on |
| Text.TrimIs | pingap-location/src/location.rs:87-103 | trimming removes the white space around a text and nothing else |
| HostPatterns.PlainCoversIff | pingap-location/src/location.rs:146-189 | a plain host pattern covers exactly its own name, in any case |
| HostPatterns.WildcardCoversIff | pingap-location/src/location.rs:146-206 | a wildcard over a plain domain covers exactly its proper subdomains, not the domain; any other wildcard covers nothing |
| HostPatterns.RegexCoversIff | pingap-location/src/location.rs:146-189 | a marked pattern covers what the regex engine accepts |
| HostPatterns.ServesIff | src/pingwaf.rs:1036-1044 | a site serves exactly the hosts its domain and alternate domains cover, for names without commas |
| HostPatterns.AutoWeightsRank | pingap-config/src/common.rs:1150-1182 | without stated priorities, on a site without regex hosts: exact paths outrank prefixes, prefixes regexes, and longer paths shorter ones of their kind |
| SiteRules.CompilePools | src/pingwaf.rs:923-1025 | one upstream per pool with peers, keys in order, the last default among them |
| SiteRules.CompileRoutes | src/pingwaf.rs:1117-1195 | one location per enabled route with a target, in order, nothing for the others; which pool a target is, read off the rules, is RoutingIntent.TargetIs |
| SiteRules.CompileLocations | src/pingwaf.rs:1095-1195 | the fallback location, if a pool serves it, then the routes |
| SiteRules.CompileSite | src/pingwaf.rs:904-1195 | what a site adds to upstreams, locations, names and plugins; nothing without a domain |
| SiteRules.Compile | src/pingwaf.rs:776-1309 | the nested loops compute the declared meaning of the rules, the unmatched-host location last |
| SiteRouting.ResolveIsBest | src/server_locations.rs:70-82 | with distinct names, first match of the weight-sorted list is the greatest-weight match of the listed locations, first of equals |
| SiteRouting.RouteWins | src/pingwaf.rs:1095-1195 | the site's best eligible route answers exactly when its weight is positive or the fallback cannot, else the fallback does |
| SiteRouting.FallbackWins | src/pingwaf.rs:1095-1115 | with no eligible route the site's fallback pool answers rooted paths |
| SiteRouting.UnmatchedPageIff | src/pingwaf.rs:1247-1309 | the unmatched-host page answers exactly when it exists, the path is rooted and no site location answers |
| RoutingIntent.TargetIs | src/pingwaf.rs:1117-1150 | a route that names a pool with peers by its id gets that pool whatever is marked default; a route no pool with peers answers to gets the last default with peers, else the first pool with peers; so does the fallback, except that a site with routes and no default has none |
| RoutingIntent.CompiledTargets | src/pingwaf.rs:1026-1034 | for all rules, the compiler's target of a route and fallback of a site are the pools the rules mean |
| RoutingIntent.UpstreamIsPool | src/pingwaf.rs:923-1025 | with distinct upstream names, the upstream of a pool with peers leads to that very pool |
| RoutingIntent.RoutingPreserved | src/pingwaf.rs:923-1309 | for every request, with disjoint hosts, distinct location and upstream names, and stated priorities and plain paths on the serving site: the compiled configuration reaches exactly the pool the rules mean, by a definition that does not mention the compiler - that of the wanted route of highest priority, brought into 1 to 65535, ties by list order, else the fallback; where the rules mean no pool only the unmatched-host page can answer |
| RoutingFacts.UpstreamIsOwnPool | src/pingwaf.rs:923-1025 | with distinct upstream names a pool a site refers to is that site's own |
| RoutingFacts.ReferencesAreDefined | src/pingwaf.rs:1035-1195 | for all rules, every listed name has a location and every upstream and plugin used is defined |
| RoutingFacts.CompiledPluginsAreStaged | src/pingwaf.rs:1061-1093 | for all rules, every compiled location runs generated files before the firewall and the sign-in gate before the cache |
| RoutingFacts.CompiledPluginsAreAsked | src/pingwaf.rs:1066-1093 | for all rules, every compiled location that proxies is some site's and runs exactly the plugins that site asks for, its sign-in gates among them |
| RoutingFacts.RegisteredIff | src/pingwaf.rs:776-1309 | for all rules, exactly which plugin instances are registered |
| RoutingFacts.PathMeaningIff | pingap-location/src/location.rs:87-103 | a compiled path answers the same requests as the route if and only if it is unpadded and, as a prefix, starts with no mark |
| RoutingFacts.ToldApart | pingap-location/src/location.rs:87-119 | a request that tells any other compiled path from its route |
| RoutingFacts.RouteWeightZeroIff | pingap-config/src/common.rs:1150-1182 | a stated priority is the weight, clamped to at least 1; exactly when a weight is zero |
| RoutingFacts.LocationNamesDistinct | src/pingwaf.rs:1096-1194 | distinct underscore-free site ids and distinct route ids give distinct location names |
| HostIndex.Build | pingap-location/src/host_index.rs:56-107 | every bucket holds exactly the truncated positions of the locations that ask for it |
| HostIndex.CandidateIndices | pingap-location/src/host_index.rs:121-146 | the candidates, strictly ascending, are exactly the positions posted in buckets relevant to the host |
| HostIndex.IndexedEqualsLinear | pingap-proxy/src/server.rs:887-905 | up to 65536 locations the first full match among the candidates is that of a linear scan |
| HostIndex.TruncationLosesTheLast | pingap-location/src/host_index.rs:67-90 | for every greater length a table whose last location is found by the scan and lost by the index |
| ServerLocations.Provider.TryInit | src/server_locations.rs:58-99 | every server's names sorted by weight with a covering index, and exactly the servers whose order changed are reported |
| ServerLocations.FindLocation | pingap-proxy/src/server.rs:887-905 | the lookup through the index returns the first match of the ordered names, up to 65536 of them |
| ServerLocations.RouteRequest | src/server_locations.rs:58-99 | compiling, sorting, indexing and scanning together resolve as the compiled rules do |
| RetrySchedule.LetsEncryptTask.VisitItem | pingap-acme/src/lets_encrypt.rs:269-367 | one certificate of a scan: exactly when an order starts, and what its retry entry becomes |
| RetrySchedule.LetsEncryptTask.DoUpdateCertificates | pingap-acme/src/lets_encrypt.rs:257-369 | a scan is its visits in order |
| RetrySchedule.BackoffInv | pingap-acme/src/lets_encrypt.rs:238-246 | after n failed orders the entry counts n and blocks the next until the n-th offset |
| RetrySchedule.RetryBound | pingap-acme/src/lets_encrypt.rs:238-367 | a key that keeps failing starts at most 5 + (t - 6600) / 21600 orders in the first t seconds, however often the scan ticks |
| RetrySchedule.RetryBoundIsTight | pingap-acme/src/lets_encrypt.rs:238-246 | the bound is attained for every t |
| RetrySchedule.FirstOffsets | pingap-acme/src/lets_encrypt.rs:238-246 | the first five orders lie 5, 15, 30 and 60 minutes apart at the least |
| RetrySchedule.SuccessStartsAfresh | pingap-acme/src/lets_encrypt.rs:316-337 | a successful order, or a certificate found not due, clears the record: from then on the orders are those of a key that never failed |
| RetrySchedule.RetryKeysDistinct | pingap-acme/src/lets_encrypt.rs:272 | certificates of different names or domains never share a record |
| RetrySchedule.KeysAreIndependent | pingap-acme/src/lets_encrypt.rs:269-367 | the orders of a key are those of the same scans with all other keys left out |
| RetrySchedule.OneScanAtATime | pingap-acme/src/lets_encrypt.rs:473-520 | in every interleaving of ticks at most one scan runs and the flag says so |
| TokenLife.ClearStaleHttpTokens | pingap-acme/src/lets_encrypt.rs:607-652 | the sweep leaves exactly the entries whose remark is neither that of an HTTP-01 token nor of a manual DNS value, those at most 691200 seconds old, and those whose delete fails, and counts the rest |
| TokenLife.RunInv | pingap-acme/src/lets_encrypt.rs:522-548 | the invariant tying tokens, readiness and sweeps holds at every point of every run |
| TokenLife.ReadyTokenIsServed | pingap-acme/src/lets_encrypt.rs:1228-1264 | from readiness to the end of the order's lifetime the token is stored with its latest key authorization |
| TokenLife.TokenOutlivesItsOrder | pingap-acme/src/lets_encrypt.rs:561-605 | no later mix of sweeps, orders and reloads removes it within that lifetime |
| TokenLife.OnlyOldTokensVanish | pingap-acme/src/lets_encrypt.rs:607-652 | at every step of every run, what disappears from storage has one of those two remarks and no time or one more than 691200 seconds back, and a sweep deleted it |
| TokenLife.OtherEntriesStay | pingap-acme/src/lets_encrypt.rs:620-628 | an entry with any other remark, or none, is stored unchanged at every later point of every run until the task stores something under its name |
| TokenLife.AccountStays | pingap-acme/src/lets_encrypt.rs:620-628 | so stored account credentials stay |
| TokenLife.SweepRemovesOldTokens | pingap-acme/src/lets_encrypt.rs:607-652 | a completed sweep more than 691200 seconds after a challenge entry was stored removes it, unless its delete fails |
| HotReload.MergeConfigState | src/pingwaf.rs:1548-1602 | the in-place merge computes the specified document, whose contents MergeKeepsConfiguration writes out |
| HotReload.MergeKeepsConfiguration | src/pingwaf.rs:1548-1602 | a merged document is the new configuration, entry by entry and in every other section, but for the storages and for the certificate and key of entries that have none where the stored entry has a non-empty one |
| HotReload.LastReloadIsStored | src/pingwaf.rs:1597-1601 | in every run, until the next reload, the stored configuration is the one last reloaded: its other sections, and the entry of every name no order finished for |
| HotReload.IssuedEntryStays | pingap-acme/src/lets_encrypt.rs:120-168 | in every run an issued entry is the configuration the order read with the new certificate and key, until a reload or another order for it |
| HotReload.IssuedPairStays | pingap-acme/src/lets_encrypt.rs:120-168 | in every run, reloads included, an issued certificate and its key stay together until the entry's certificate is decided again |
| HotReload.GeneratedPemWins | src/pingwaf.rs:1548-1602 | a PEM the new configuration brings is never replaced |
| HotReload.ReloadDoesNotResurrect | src/pingwaf.rs:1548-1602 | a reload has exactly the entries of the new configuration |
| HotReload.PairsStayTogether | src/pingwaf.rs:1548-1602 | certificate and key always come from the same source |
| HotReload.MergeIsIdempotent | src/pingwaf.rs:1548-1602 | reloading the same configuration again changes nothing |
| HotReload.PemSurvives | src/pingwaf.rs:1975-1995 | in every interleaving of issuance, reloads and storage writes an entry with a PEM keeps one while each new configuration contains it |
| HotReload.SplitReloadLosesPem | src/pingwaf.rs:1975-1995 | for a fetch and a later save: the entry has a PEM exactly when the new configuration or the snapshot had one |
| HotReload.SplitReloadRun | pingap-acme/src/lets_encrypt.rs:158-167 | the interleaving in which the split reload loses what the atomic one keeps |
| HotReload.DeletedEntryIsBackIff | src/pingwaf.rs:1548-1602 | in every interleaving a deleted entry is present later exactly when some step since brought it, a reload containing it or an issuance of it, and no later reload lacks it |
| HotReload.StoredPemIff | pingap-acme/src/lets_encrypt.rs:120-168 | in every interleaving a PEM is the stored one exactly when no issuance, reload with its own PEM or reload lacking the entry came since, or the last of these brought that PEM |
| HotReload.IssueInFlightResurrects | pingap-acme/src/lets_encrypt.rs:120-168 | the failing case: an issuance in flight brings a deleted entry back |
| HotReload.IssueInFlightReplacesUpload | pingap-acme/src/lets_encrypt.rs:120-168 | the failing case: an order in flight replaces the PEM a reload brought meanwhile |
| HotReload.StorageSurvives | src/pingwaf.rs:1597-1599 | in every interleaving with reloads and issuance, only its own writes and deletions change a storage entry |
| SniTable.TryUpdateCertificates | src/certificates.rs:78-123 | the carry-over loop yields the fresh certificate, else the previous one for awaited domains, else nothing |
| SniTable.AwaitsIff | src/certificates.rs:94-107 | exactly which domains an entry awaits: the trimmed, non-empty parts of its list, while its certificate or key is missing |
| SniTable.OrderDoesNotMatter | src/certificates.rs:78-123 | the table does not depend on the iteration order of the configuration |
| SniTable.ServedIff | src/certificates.rs:78-123 | after any run of reloads and renewals a domain is served exactly when a certificate for it came in at some point and every rebuild since loads one or is a reload that awaits one |
| SniTable.ServedThroughRuns | src/certificates.rs:78-123 | over any run of rebuilds that cover it a domain stays served, by the certificate loaded last |
| SniTable.RenewalEndsCarryOver | pingap-acme/src/lets_encrypt.rs:392-406 | after a renewal a domain it loads no certificate for is not served, whatever was carried over before |
| SniTable.ServedSince | src/certificates.rs:78-123 | the certificate served after any run is one that came in at some point of it, and every rebuild since is a reload that awaited a new one in vain |
| SniTable.CandidatesAre | src/certificates.rs:34-51 | the names that can answer: the name, the wildcard over everything after its first label, the default |
| SniTable.LookupIsMostSpecific | src/certificates.rs:34-51 | the answer is the certificate of the most specific of those names in the table |
| SniTable.LookupMissesIff | src/certificates.rs:34-51 | there is no answer exactly when none of them is |
| SniTable.HandshakesKeepWorking | src/certificates.rs:34-51 | after rebuilds that cover the name a handshake was answered under, it is answered by the most specific of its names then served, no less specific than before, with the certificate that came in last for it |
| Redaction.RedactUrlQueries | pingap-acme/src/lets_encrypt.rs:195-216 | the loop redacts word by word |
| Redaction.WordIsCut | pingap-acme/src/lets_encrypt.rs:195-216 | a word that holds "://" becomes what precedes its first question mark, "?[redacted]" and its ending; any other word is kept |
| Redaction.StructurePreserved | pingap-acme/src/lets_encrypt.rs:195-216 | the words of the result are the redacted words; whitespace and words without a URL are untouched |
| Redaction.RedactIsIdempotent | pingap-acme/src/lets_encrypt.rs:195-216 | redacting twice is redacting once |
| Redaction.QueriesDoNotInterfere | pingap-acme/src/lets_encrypt.rs:195-216 | texts that differ only inside URL queries have the same redaction |
| Redaction.RedactionKernel | pingap-acme/src/lets_encrypt.rs:195-216 | two texts have the same redaction exactly when word by word they are equal or have the same part before the first question mark and the same ending, both being cut or looking cut |
| Redaction.NoQuerySurvives | pingap-acme/src/lets_encrypt.rs:195-216 | in the result nothing but the mark follows the first question mark of a URL |
| CanonicalQuery.PercentEncode | pingap-acme/src/dns_ali.rs:44-56 | the byte loop computes the encoding |
| CanonicalQuery.DecodeUndoesEncode | pingap-acme/src/dns_ali.rs:44-56 | decoding gives the text back, and the encoding holds unreserved characters and escapes only, never a delimiter |
| CanonicalQuery.UnreservedIff | pingap-acme/src/dns_ali.rs:44-56 | exactly letters, digits and the marks - . _ ~ are left as they are |
| CanonicalQuery.EscapesAre | pingap-acme/src/dns_ali.rs:41-43 | a space becomes %20, a star %2A, a slash %2F |
| CanonicalQuery.StringToSignParts | pingap-acme/src/dns_ali.rs:86-91 | the string to sign is GET, %2F and one more part between ampersands, and that part decodes to the canonical query |
| CanonicalQuery.ParseUndoesCanonical | pingap-acme/src/dns_ali.rs:79-84 | the canonical query parses back to exactly the parameter list |
| CanonicalQuery.SignsTheMap | pingap-acme/src/dns_ali.rs:64-91 | two ordered parameter maps have the same string to sign if and only if they are equal |

## Left out

- Network and foreign code: the ACME protocol, DNS providers, DNS propagation, HMAC and signing, the regex engine, address ranges.
- TOML and PEM parsing and the storage backends of the configuration manager: a configuration is a value, a load or save one atomic step.
- TinyUFO: the memory layer is a map that may drop any entry at any time; it is keyed by the key alone, so in the interleaved results a key determines its namespace, and hash collisions are not modelled.
- The per-domain quota ledger and its evictions, which bypass the byte counter; runs here are of a cache without quotas.
- The byte counter, the budget and LRU order under concurrent calls: the accounting results are about calls one after the other.
- Budget overshoot under concurrent puts and freshness of the disk gauge against the counter: the code promises neither.
- Memory copies of a purged namespace that have no file: the purge drops only the copies of files it finds.
- Names of temporary files: process id and sequence number are taken to be fresh among live writers.
- Certificates, mTLS bundles and protocol switches of compiled rules, pool address and health-check formatting, and the refusal to generate a configuration with neither locations nor certificates: one-branch facts.
- Plugin settings, and the rendering of plugin names: instances are told apart by site and kind.
- A configuration with an invalid host wildcard or regex is refused as a whole when it is loaded; the routing results are about configurations in force.
- Byte lengths of routing strings are those of ASCII text, and 16-bit sums wrap, as they do in a release build.
- Server start-up, Pingora wiring, metrics, CLI, database commands, webhooks, the front end.
- CacheAccounting.EvictionIsLru: assumes the directory total plus the new file stays below 2^64 bytes, as do the other accounting results, because the saturating addition is exact only there.
- Admission.GateHolds: assumes fewer than 2^32 operations at once, because the counter wraps there.
- FileCache.FileCache.Put: file-system errors are not modelled, because they end the call early; a writer that stops anywhere is part of DiskProtocol.
- FileCache.FileCache.PurgeNamespace: the removal of directories left empty is not modelled, because directories hold no bytes and no names of their own here.
