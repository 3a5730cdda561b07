# Proofs about Harmonia's server

Harmonia is a self-hosted music server with AirPlay playback. This project models the parts
of it that keep state, transform data or do bounded arithmetic, and proves properties of
those models with Dafny 4.11. `dafny verify dfyconfig.toml` checks everything.

| files | what they model |
|---|---|
| `library.dfy`, `rule_query.dfy`, `rule_agreement.dfy`, `rule_meanings.dfy` | smart-playlist rules: their validation, their evaluation in memory, their compilation to SQL over derived tables, the agreement of the two, and what they select |
| `ordering.dfy`, `ordering_meanings.dfy` | the track order in SQL and in memory, what it is, and pages of it |
| `rule_rows.dfy` | rule trees flattened into rows and rebuilt |
| `play_queue.dfy`, `queue_player.dfy`, `shuffled_skips.dfy` | the playback queue: edits, shuffle rounds, skipping of failing songs |
| `remote_protocol.dfy`, `remote_steps.dfy`, `remote_engine.dfy` | commands, event loop and workers of the playback engine, stamped with generations |
| `remote_queue.dfy` | the reader that joins songs sample by sample |
| `transcode_cache.dfy`, `cache_steps.dfy` | leases, conversion, clearing and trimming of the transcode cache |
| `play_history.dfy`, `play_store.dfy` | plays, favourites and their SQL rows |
| `page_cache.dfy` | cached pages and the requests that share them |
| `plist.dfy`, `plist_codec.dfy`, `plist_roundtrip.dfy`, `plist_reading.dfy`, `plist_cycles.dfy` | binary property lists |
| `secure_wire.dfy`, `srp.dfy` | the encrypted control stream and the key agreement before it |
| `rtp_stream.dfy`, `alac.dfy` | the audio packets, their retransmission window, and the ALAC element in them |
| `ogg_packets.dfy`, `ogg_reader.dfy`, `vorbis_comments.dfy`, `ogg_tags.dfy` | Ogg packets over pages, the search for the comment packet, and the comments in it |
| `wrappers.dfy`, `collections.dfy`, `byte_order.dfy`, `stream_time.dfy` | result shapes; shared notions; numbers as bytes; stream times in int64 |

Code that changes state step by step is a class whose methods are proved equal to a
specification function; what the code promises is then proved about that function, down to what
each operation does to the fields, bytes and rows a reader can see. Concurrent
code is a state machine whose steps are the critical sections of its mutex, and its theorems
range over every run, that is every interleaving. What comes from outside (random draws, the
clock, file removal, the network, hashes, sealing, JSON, case folding, number printing,
sorting) is a parameter, with the few laws a result needs as its preconditions.

Some properties one would expect are false of the code. For these there is a lemma with a
concrete input and, where it is decidable beforehand, the exact condition:

- a rule on a name that Validate lets through by its substring test agrees with SQL exactly when
  it can match nothing (`UnlistedAgreesExactlyWhenInert`, `SubstringNameIsAccepted`);
- `contains` on a numeric field agrees with SQL exactly when Go and SQLite print the number alike
  (`ContainsAgreesExactly`, `BpmTextDiffers`);
- a comparison of an integer field agrees with SQL exactly when it does not notice the rounding to
  float64, which only memory does (`ComparisonAgreesExactly`, `LargeNumberDiffers`);
- memory and SQL order two tracks alike under every sort exactly when no text field is blank in
  both and folds apart and no two integers of a field are rounded to one float64
  (`OrdersAgreeExactly`, `BlankTitlesDiffer`, `LargeNumbersDiffer`); sorting by a name that is no
  column is treated apart (`NoColumnAgreesExactly`);
- a failed write does not advance the nonce counter, so nonces are distinct exactly when nothing
  is sealed after one (`NoncesDistinctExactly`, `WriteAfterFailure`);
- a property list comes back unchanged exactly when it is within the decoder's limits and its texts
  are ASCII or valid UTF-8 (`RoundTrip`, `InvalidTextChanges`, `InvalidKeysCollide`);
- a song of a continuous stream counts as heard when it has been, exactly up to the frame whose
  time still fits int64 (`EndsOnTimeExactly`, `LongStreamWraps`), and no longer stream can be sent
  (`LongStreamIsLate`);
- the index stays in the queue when progress intervenes in a removal exactly if the song removed is
  not the last one just become current (`LateRemovalExactly`, `LateRemovalLeaves`);
- with shuffle and repeat-all the search for a song that has not failed can give up early, and
  exactly which states are safe from it is stated (`ShuffledRepeatSkipExactly`,
  `ShuffledRepeatMayGiveUp`);
- clearing recent plays agrees with its SQL statement exactly when no time is negative
  (`ClearRecentAgreesExactly`).

## Model

| member | source | states |
|---|---|---|
| RuleAgreement.CompiledRuleSelectsMatches | internal/app/store_query.go:123-190 | for every rule Validate accepts and every track whose projection is in place, on whose fields no rounding or printing of the rule's kind is noticed, the compiled predicate, evaluated in three-valued logic with its arguments taken left to right, uses up exactly its arguments and is true when Match is true and false when it is false, never NULL; what Match is true of is in the RuleMeanings rows |
| RuleMeanings.TagConditionSelects | internal/app/model.go:271-299 | of a tag, in memory and compiled alike: contains and eq select a track when one value of the tag, folded, includes or equals the folded operand, notContains and ne when none does, isEmpty when every value is blank, isNotEmpty when one is not |
| RuleMeanings.TagOrderSelects | internal/app/model.go:288-299 | gt, gte, lt and lte select a track when one value of the tag stands so to the operand, both folded, by code point |
| RuleMeanings.TextConditionSelects | internal/app/model.go:214-254 | title, artist, album, album artist, genre, format and key conditions look at that very text of the track: trimmed for emptiness, folded on both sides for the other eight operators, in memory and compiled alike |
| RuleMeanings.PathConditionSelects | internal/app/model.go:305-307 | paths and operands are compared with their backslashes turned into slashes, in memory and compiled alike |
| RuleMeanings.FavoriteConditionSelects | internal/app/store_query.go:176-185 | a favourite is the text true or false and never empty; eq with a boolean selects the tracks that are so |
| RuleMeanings.NumberConditionMatches | internal/app/model.go:146-254 | each numeric condition reads the field it names: its number compared with the operand read as a number, false when that is none, its printed form searched for contains, zero taken for empty except for the play count; without a tempo only isEmpty and ne hold |
| RuleMeanings.BpmMeans | internal/app/model.go:189-197 | the tempo is the first positive number among the values of bpm, tbpm and tempo, in that order, and absent without one |
| RuleMeanings.KeyMeans | internal/app/model.go:198-206 | the key is the first value not blank among those of initialkey, initial_key, tkey and key, trimmed, and empty without one |
| RuleMeanings.TextOrder | internal/app/model.go:222 | texts are ordered by their first difference, by code point, a proper prefix first |
| RuleMeanings.IncludesMeans | internal/app/model.go:218-221 | a text contains another when it is that text with something on either side |
| RuleMeanings.PrintMeans | internal/app/model.go:211 | operands are printed as Go prints them: nil, true and false by name, texts as they are |
| RuleMeanings.AcceptedConditions | internal/app/model.go:326-358 | a condition on a documented field with a documented operator is accepted exactly when its tag has a name, its number can be read, or its path operand is a text that is not empty under one of four operators |
| RuleMeanings.RuleLimits | internal/app/model.go:310-325 | a group of n conditions is accepted exactly for 1 to 29 of them, groups nested n deep exactly up to 4, and a group with neither mode never |
| RuleMeanings.GroupMeans | internal/app/model.go:255-270 | a group of two wants both under all and either under any |
| RuleAgreement.TreeAgrees | internal/app/store_query.go:128-161 | the same for each subtree under the same hypothesis: nested all and any groups consume their own stretch of the arguments and keep the verdict |
| RuleAgreement.ColumnAgrees | internal/app/store_query.go:49-121 | a condition on a listed column means in SQL what Match makes of the value, including absent values and ne, if float64 rounding of the track's integer, or its printing under contains, goes unnoticed by the operator |
| RuleAgreement.TagAgrees | internal/app/store_query.go:162-189 | the EXISTS and NOT EXISTS forms over the tag index agree with Match over the tag's texts, negated operators included |
| RuleAgreement.ProjectionKept | internal/app/store_search.go:62-100 | writing one track's derived rows leaves every other track's projection valid, so the agreement holds for a whole library written track by track |
| RuleAgreement.UnlistedAgreesExactlyWhenInert | internal/app/store_query.go:49-71 | for a name outside the column list, which compiles to NULL, SQL and Match agree on every track if and only if the condition is one that can match no text |
| RuleAgreement.SubstringNameIsAccepted | internal/app/model.go:328-350 | Validate's substring test lets a name made of two listed ones and the bar between them through, and a rule on it is answered differently by SQL and Match for some track |
| RuleAgreement.BpmTextDiffers | internal/app/store_query.go:92-121 | contains on a numeric field can differ: SQLite prints the tempo 120 as 120.0 |
| RuleAgreement.ContainsAgreesExactly | internal/app/store_query.go:92-121 | on a numeric field contains, and likewise notContains, agrees for every operand Validate accepts if and only if SQL and Go print the number alike |
| RuleAgreement.ComparisonAgreesExactly | internal/app/store_query.go:92-121 | on a numeric field each of the six comparisons agrees for every operand Validate accepts if and only if the float64 Match reads is the integer SQL compares, or for gt and lte is not below it, or for gte and lt not above it |
| RuleAgreement.LargeNumberDiffers | internal/app/model.go:174-176 | track number 9007199254740993 matches eq 9007199254740992 in memory, because it is rounded, and not in SQL |
| RuleQuery.SearchTables.PersistSearchTrack | internal/app/store_search.go:62-100 | after the upsert, delete and nested inserts the derived tables hold the track's projection, one search row and one row per tag value, and other tracks' rows are as before |
| RuleQuery.SearchTables.PersistTag | internal/app/store_search.go:92-98 | the inner loop writes one row per value at its position and nothing else |
| RuleQuery.SearchTables.DeleteTags | internal/app/store_search.go:84-86 | no row of the track is left and every other row stays |
| RuleQuery.CompileRule | internal/app/store_query.go:123-190 | compilation is refused exactly for the trees Validate refuses; otherwise it is the query the agreement is proved of |
| RuleQuery.WalkRule | internal/app/store_query.go:126-190 | the recursive walk with its loop over the children collects the parts and the arguments of the specified query, in the same order |
| Library.Validate | internal/app/model.go:310-362 | accepts exactly the well-formed trees with at most 30 nodes and 4 group levels |
| Library.Walk | internal/app/model.go:312-361 | the running node count is the number of nodes walked, and the walk stops as soon as a bound is passed |
| Ordering.BeforeIsStrictTotal | internal/app/store_query.go:234-265 | the ORDER BY order is irreflexive, transitive, and decides any two tracks with different ids, for every field and direction |
| Ordering.OrdersAgree | internal/app/model.go:376-411 | the SQL order equals sortTracks's comparator in both directions, missing values last in both, when no two of the texts compared are both blank and fold apart and no two different integers compared have one float64 |
| Ordering.OrdersAgreeExactly | internal/app/model.go:376-411 | for two tracks the SQL order and sortTracks's agree for every sort field and direction if and only if no text field is blank in both and folds apart and no two different integers of a field have one float64 |
| OrderingMeanings.MemoryOrderMeans | internal/app/model.go:376-411 | of two tracks the first of the requested field (when it was added, without one), artist, album, disc, number and title on which they do not tie decides, then the id; a track lacking a field comes last on it and only the requested field is turned round by desc |
| OrderingMeanings.SqlOrderMeans | internal/app/store_query.go:234-265 | the ORDER BY order is the same, for tracks both sides tell apart alike |
| Ordering.TextSteps | internal/app/model.go:364-411 | per text field the two sides decide alike if and only if the two texts are not both blank with different folds |
| Ordering.NumberSteps | internal/app/store_query.go:234-265 | on a numeric field the two ORDER BY terms decide as sortTracks does, absence included, if and only if the two values are not different integers with one float64 |
| Ordering.BlankTitlesDiffer | internal/app/model.go:376-411 | a concrete pair of tracks, titles empty and one space: sorted by title, memory puts one first and SQL the other |
| Ordering.LargeNumbersDiffer | internal/app/model.go:376-411 | the track numbers 9007199254740992 and 9007199254740993, which have one float64, are ordered differently in one of the two directions |
| Ordering.NoColumnAgreesExactly | internal/app/store_query.go:234-265 | sorting by a tag or any other name that is no column, NULL to SQL, agrees in both directions if and only if memory does not tell the texts apart or tells an absent one apart as the tie-breakers do |
| Ordering.SameSequence | internal/app/store_query.go:345-364 | sorting the same tracks in memory and by SQL gives the same sequence, under the conditions of OrdersAgree |
| Ordering.OrderSql | internal/app/store_query.go:234-265 | the loop over the sort fields emits the terms the order is defined by, ties ending in the id |
| Ordering.QueryTrackPage | internal/app/store_query.go:300-364 | pages count from 1 and sizes other than 25 and 100 become 50, the offset never passes the total, and the items are the rows from (page - 1) times the size on, at most a page of them |
| Ordering.PagesJoin | internal/app/store_query.go:345-364 | pages joined give the sorted result without gap or overlap, and a page is empty if and only if it lies past the end |
| RuleRows.RowsRoundTrip | internal/app/store_entities.go:357-425 | rebuilding from the rows of a tree, in any order sorted by position and node, loadRules gives the tree back with its children in order and its values as JSON leaves them; exactly one row has no parent and every value decodes |
| RuleRows.ChildrenInOrder | internal/app/store_entities.go:402-418 | the children collected for a node are its subtrees' roots, in their original order |
| RuleRows.BelowChild | internal/app/store_entities.go:357-373 | numbering is such that the rows whose parent lies in a child's number range are exactly the rows below that child |
| RuleRows.Numbered | internal/app/store_entities.go:357-373 | node ids run consecutively in preorder from the counter |
| RuleRows.RowsMean | internal/app/store_entities.go:357-373 | the first row is the root's with its mode, field, operator, source and the JSON of its value; the first child's follows under its number at position 0 |
| RuleRows.NormalMeans | internal/app/store_entities.go:374-425 | what JSON leaves of a tree is its shape and labels, with each value as JSON gives it back |
| RuleRows.HeightMeans | internal/app/store_entities.go:409-418 | the depth rebuilding needs is one more than that of the highest child, and 1 for a leaf |
| RuleRows.BadValueFails | internal/app/store_entities.go:385-400 | a row whose value is no JSON fails the reading wherever it stands |
| RuleRows.Table.PersistRule | internal/app/store_entities.go:357-373 | inserts the preorder rows and advances the counter by the number of nodes; fails exactly when some value has no JSON form |
| RuleRows.LoadRule | internal/app/store_entities.go:374-425 | grouping rows by parent in one pass and building from the root computes what the round trip is proved of: the tree below the root, or nothing when a value does not decode |
| RuleRows.BuildNode | internal/app/store_entities.go:409-418 | the recursive rebuild from the grouped rows is the specified one |
| PlistRoundTrip.RoundTrip | internal/airplay/plist.go:14-238 | decoding an encoded value gives the value back, integers as unsigned, if and only if it is within 2 MiB, 65,536 objects and 32 levels and all its texts are ASCII or valid UTF-8; past any of these limits decoding fails |
| PlistReading.DecodeExactly | internal/airplay/plist.go:100-238 | for any bytes whatever: they are read as a value exactly when they are a property list with a sound trailer whose root object stands for that value, integers, lengths, offsets and references in every width allowed, at most 32 levels deep and with at most 65,536 objects visited |
| PlistReading.StandingIsRead | internal/airplay/plist.go:124-236 | an object that stands for a value within depth and budget is read as it, and takes from the budget one for each object visited |
| PlistReading.ReadingOf | internal/airplay/plist.go:124-236 | conversely whatever is read stands in the file, in as many objects as were taken from the budget |
| PlistReading.LeafRead | internal/airplay/plist.go:147-190 | booleans, integers of 1, 2, 4 or 8 bytes, 8-byte reals, data and both kinds of text are read exactly as what their bytes stand for |
| PlistReading.OneByteIsRead | internal/airplay/plist.go:155-163 | a 43-byte file of one object with one-byte integer, offset and reference is read as that integer |
| ByteOrder.FirstByteCountsMost | internal/airplay/plist.go:112-121 | numbers are read with the first byte counting most |
| PlistRoundTrip.TextForm | internal/airplay/plist.go:23-43 | a text is written byte by byte exactly when all its runes are ASCII, otherwise in UTF-16, with lengths from 15 on in an integer of 8 bytes |
| PlistRoundTrip.FileForm | internal/airplay/plist.go:82-98 | the file written begins with the magic, and its trailer gives 8 bytes to offsets and references |
| PlistRoundTrip.DecodeEncoded | internal/airplay/plist.go:14-238 | for every value without exception: decoding its encoding fails past a limit or when two keys of a dictionary become the same text, and otherwise gives the value with its texts as UTF-16 leaves them |
| PlistRoundTrip.InvalidTextChanges | internal/airplay/plist.go:23-43 | the text FF, which is not UTF-8, comes back as the replacement character |
| PlistRoundTrip.InvalidKeysCollide | internal/airplay/plist.go:220-233 | a dictionary with the keys FF and FE is encoded within the limits and refused by the decoder |
| Plist.Utf16RoundTrip | internal/airplay/plist.go:27-43 | text outside ASCII survives its UTF-16 form, surrogate pairs included |
| Plist.Utf16Means | internal/airplay/plist.go:37-43 | code points past 16 bits are a high and a low surrogate by the formula of UTF-16, all others stand for themselves, and half a pair reads as U+FFFD |
| PlistRoundTrip.RefsAt | internal/airplay/plist.go:57-74 | each reference written lies where the decoder computes it |
| PlistRoundTrip.FileHolds | internal/airplay/plist.go:82-135 | every object of an encoded file is found through the offset table at its own bytes |
| PlistCodec.Encoder.Add | internal/airplay/plist.go:17-81 | appending children first and the object last grows the object list to the specified one and returns the object's own index |
| PlistCodec.WritePlist | internal/airplay/plist.go:82-98 | magic, objects, offset table and trailer together are the specified file |
| PlistCodec.Decoder.ReadObject | internal/airplay/plist.go:124-236 | the recursive parse with its captured budget returns the specified value and leaves the specified budget, on every byte string; which value that is, PlistReading says |
| PlistCodec.Decoder.ReadDict | internal/airplay/plist.go:215-233 | keys must be texts and distinct, values follow them, in the order of the references |
| PlistCycles.CyclesAreRefused | internal/airplay/plist.go:124-236 | a file whose root leads to an object that refers, through any others, back to itself is refused |
| PlistCodec.ReadPlist | internal/airplay/plist.go:100-238 | the header checks and the parse together decode as PlistReading.DecodeExactly says, with every read in bounds |
| TranscodeCache.CacheSafety | internal/app/media.go:73-234 | in every interleaving of Acquire, release, Clear and Trim: an entry's Active is the number of its outstanding leases, every leased file is there with the content it was leased with, and no key is being converted twice |
| CacheSteps.FinishMeans | internal/app/media.go:194-221 | a converted file is handed out privately exactly when the cache was cleared meanwhile, its key is in use, or entries in use and files that cannot be removed leave it no room; otherwise it enters the cache under its key, counted once, and the total is within the limit, or the renaming failed |
| CacheSteps.FinishTrimsNoMore | internal/app/media.go:196-197 | trimming for a converted file removes an idle entry only after every removable one used before it, and only if what was left just before it exceeded the limit less the file's size; within the limit every entry not pending stays |
| CacheSteps.RoomIsMadeExactly | internal/app/media.go:73-96 | room for a file is made exactly when entries in use and files that cannot be removed leave it |
| CacheSteps.TrimMeans | internal/app/media.go:73-102 | a trim removes no entry in use, idle ones by age and only while the total exceeds the limit, idle pending ones always, and their files with them |
| CacheSteps.ClearMeans | internal/app/media.go:103-113 | clearing leaves exactly the entries in use and those whose files resist, all marked to go, and tells every running conversion |
| CacheSteps.ClearedStaysOut | internal/app/media.go:103-221 | in every interleaving a conversion that was running when the cache was cleared is handed out privately at its end |
| CacheSteps.LeaseMeans | internal/app/media.go:137-144 | a hit leases the file as it is and makes its entry the one used last; a release gives exactly one lease back, and drops a private file with its job |
| CacheSteps.WorkerGoesOn | internal/app/media.go:119-156 | a caller gets its key's token when it is free, then a hit or a conversion is open to it, and giving up, failing and leaving return the token |
| CacheSteps.TotalMeans | internal/app/media.go:74-79 | the total is the sum of the sizes |
| TranscodeCache.StepKeepsInv | internal/app/media.go:97-234 | each critical section keeps the counts, the leased files, one token owner per key, and one owner per job |
| TranscodeCache.InsertionWithinLimit | internal/app/media.go:195-221 | right after a conversion is cached the total size is within the limit read for it |
| TranscodeCache.FinishKeepsInv | internal/app/media.go:195-221 | renaming over the final name, keeping the file private, or losing it never touches a file someone has leased |
| TranscodeCache.TrimKeeps | internal/app/media.go:73-96 | trimming removes no entry in use and changes none that stays |
| TranscodeCache.TrimReachesLimit | internal/app/media.go:73-96 | the total is within the limit after a trim unless every entry left is in use or its file could not be removed |
| TranscodeCache.TrimByAge | internal/app/media.go:73-96 | an entry evicted for space leaves no idle entry that was used before it and whose file can be removed |
| TranscodeCache.TrimDropsPending | internal/app/media.go:73-96 | no idle entry marked pending whose file can be removed survives a trim |
| TranscodeCache.Cache.TrimLocked | internal/app/media.go:73-96 | the loop over the keys by age with its running total performs the specified trim on entries and files |
| TranscodeCache.Cache.Enter | internal/app/media.go:137-147 | takes the hit and counts the lease, or registers a new job, as the step says |
| TranscodeCache.Cache.Finish | internal/app/media.go:195-221 | the last section of Acquire is the step CacheSteps.FinishMeans and FinishTrimsNoMore describe, with its three outcomes, and caching respects the limit |
| TranscodeCache.Cache.Clear | internal/app/media.go:103-113 | marks every entry and every running job, then trims to nothing but what is in use |
| TranscodeCache.Cache.ReleaseShared | internal/app/media.go:223-234 | gives one lease back |
| PlayQueue.EachIdOncePerRound | internal/app/remote_shuffle.go:26-59 | whatever the random draws, each round of a shuffled run plays every distinct id of the queue exactly once |
| PlayQueue.RunEnds | internal/app/remote_shuffle.go:26-59 | a shuffled run stops exactly when the round is complete and repeat is not all |
| PlayQueue.NewRoundOpensElsewhere | internal/app/remote_shuffle.go:43-56 | a new round never opens with the id that closed the last one when there is another |
| PlayQueue.RecordOfRound | internal/app/remote_shuffle.go:8-25 | the record of played ids is what was played since the round began, in order |
| PlayQueue.AdvanceShuffleStep | internal/app/remote_shuffle.go:26-59 | one advance plays an unplayed id while there is one, else ends or opens a round |
| PlayQueue.AdvanceMeans | internal/app/remote.go:287-309 | advancing stays under repeat-single, goes to the next index without shuffle and to 0 after the last under repeat-all, and to an id not played in this round with shuffle; it fails exactly at an end |
| PlayQueue.EveryDrawIsPossible | internal/app/remote_shuffle.go:31-38 | for each unplayed id some draw leads to its first position |
| PlayQueue.CandidatesExactly | internal/app/remote_shuffle.go:31-38 | the candidates are exactly the first occurrences of unplayed ids, so each id left has one place in the draw |
| PlayQueue.ResetStartsRun | internal/app/remote_shuffle.go:21-25 | resetting the record starts a round with the current song played |
| PlayQueue.IndexStaysInQueue | internal/app/remote.go:776-850 | over every run of start, append, move, remove, select, next, previous and clear the index stays in the queue, each command being one step |
| PlayQueue.LateRemovalExactly | internal/app/remote.go:821-836 | when progress moves the index between a removal's look at the queue and its edit, the index stays in the queue if and only if the song removed is not the last one just become current |
| PlayQueue.LateRemovalLeaves | internal/app/remote.go:821-836 | of two songs the second is removed just after it became current: one song is left and the index is 1 |
| PlayQueue.EditKeepsIndex | internal/app/remote.go:578-850 | each accepted edit keeps the index in the queue and grows no queue past the limit |
| PlayQueue.EditKeepsSong | internal/app/remote.go:776-850 | append, move and the removal of another song leave the same song current and touch nothing but queue and index |
| PlayQueue.AppendMeans | internal/app/remote.go:776-798 | appended songs stand at the place asked for, or at the end, 10,000 songs at most; an empty queue starts a new round |
| PlayQueue.MoveMeans | internal/app/remote.go:799-818 | a move is refused exactly for a place outside the queue; it takes that song there, keeps the order of the rest, and the current song stays current |
| PlayQueue.RemoveMeans | internal/app/remote.go:819-850 | exactly one song is taken out, and removing another than the current one changes nothing else |
| PlayQueue.RemoveCurrentMeans | internal/app/remote.go:825-836 | after the current song the one behind it is next, at the end the one before it, with shuffle an id not played in this round |
| PlayQueue.StartMeans | internal/app/remote.go:671-729 | a start is refused exactly for a bad index, a negative position, an invalid song or more than 10,000; it replaces the queue and begins a round; clearing empties everything |
| PlayQueue.SelectMeans | internal/app/remote.go:749-775 | select goes to the index given and previous one back, stopping at the first; both begin the song anew |
| PlayQueue.NextMeans | internal/app/remote.go:755-775 | next goes where advancing leads, from its beginning, and changes nothing at the end |
| PlayQueue.MoveKeepsOccurrence | internal/app/remote.go:799-820 | a move puts one item at its place, keeps the order of all others, and the index follows the same occurrence even among duplicates |
| PlayQueue.InsertKeepsOccurrence | internal/app/remote.go:776-798 | after an insertion the adjusted index holds the same occurrence |
| PlayQueue.Restored | internal/app/remote.go:91-130 | whatever the saved file held, the repaired state has its index in the queue, the same one if it was, no negative position, its song in the record, and no timer |
| QueuePlayer.SequentialSkipExactly | internal/app/remote.go:994-1028 | without shuffle a failed song is skipped if and only if a song that has not failed can be reached, anywhere under repeat-all and later in the queue otherwise |
| QueuePlayer.SequentialSearch | internal/app/remote.go:1013-1025 | the song chosen is the nearest such song ahead |
| QueuePlayer.SkipInVain | internal/app/remote.go:1013-1027 | without shuffle a search in vain leaves the queue at its last song, or at the one it began with under repeat-all |
| QueuePlayer.ShuffledSkip | internal/app/remote.go:994-1028 | with shuffle a skip succeeds whenever the round has an unplayed song that has not failed, and without repeat-all only then |
| QueuePlayer.ShuffledRepeatMayGiveUp | internal/app/remote.go:1013-1026 | with shuffle and repeat-all a concrete state and draws in which the search stops although a song that has not failed is in the queue |
| ShuffledSkips.ShuffledRepeatSkipExactly | internal/app/remote.go:994-1028 | with shuffle and repeat-all a skip succeeds whatever is drawn if and only if some song has not failed and the round still has one, or this song alone has failed, or the advances left after the round outnumber the failed songs |
| QueuePlayer.SearchFindsUnfailed | internal/app/remote.go:1013-1025 | in every mode the song found has not failed, and only index and record have moved |
| QueuePlayer.Player.StartWithPolicy | internal/app/remote.go:981-993 | the chain of starts ends: songs tried after the first are distinct and had not failed before, so there are at most one more starts than songs that had not failed; an empty queue is an error |
| QueuePlayer.Player.SkipFailed | internal/app/remote.go:994-1028 | skips only a song's own fault under the skip policy while nothing asks to stop; then the failure is recorded, and without shuffle it goes on exactly when a song that has not failed can be reached, resting at its beginning, else it stops |
| QueuePlayer.Player.FindUnfailed | internal/app/remote.go:1013-1025 | the loop is the bounded search |
| QueuePlayer.Player.AdvanceShuffleLocked | internal/app/remote_shuffle.go:26-59 | the two candidate loops and the draw compute the specified advance |
| QueuePlayer.Player.AdvanceLocked | internal/app/remote.go:287-309 | single, shuffled and sequential advancing as specified |
| QueuePlayer.Player.MarkShuffleLocked | internal/app/remote_shuffle.go:8-20 | appends the current id to the record unless it is there |
| QueuePlayer.CollectCandidates | internal/app/remote_shuffle.go:31-38 | the loop with its set of seen ids collects exactly the candidates |
| RemoteProtocol.SupersededIsSilent | internal/app/remote.go:358-528 | in every interleaving, once a worker's generation has been superseded none of its later steps changes the saved state, the play state, the session or the failures |
| RemoteProtocol.OneReceiver | internal/app/remote.go:395-470 | at most one receiver session is open at any time |
| RemoteProtocol.OneLiveWorker | internal/app/remote.go:166-184 | a worker not yet cancelled is the current one or the one whose cancellation is under way |
| RemoteProtocol.EndsActedOnce | internal/app/remote.go:204-256 | the ends acted on are of different generations, each reported by a worker that has left, and only the current generation's is ever acted on |
| RemoteProtocol.WaitingEndStaysQuiet | internal/app/remote.go:228-256 | after a song that ends with Waiting set or its deadline passed nothing plays, no worker starts and the place rests at the start of that song until the next command, whatever ticks, stale events and old workers do |
| RemoteProtocol.ClosedStaysQuiet | internal/app/remote.go:185-203 | after Close has cancelled playback nothing plays or starts again, whatever commands arrive |
| RemoteProtocol.StepKeepsInv | internal/app/remote.go:166-528 | every critical section keeps the exclusion, the stamps, the registration, the pending events and the record of ends acted on |
| RemoteProtocol.QuietStep | internal/app/remote.go:204-280 | no step of ticks, events, closing or old workers breaks the quiet |
| RemoteSteps.EndMeans | internal/app/remote.go:228-250 | a song's clean end forgets failures and place; it pauses there when Waiting is set or the deadline has passed, stops when nothing follows, and otherwise starts the next index, the same song under repeat-single, or an unplayed one with shuffle |
| RemoteSteps.FaultMeans | internal/app/remote.go:219-227 | a stream's fault is skipped only if it is its source's, under the policy and while nothing asks to stop; then a song that has not failed is started, exactly when one can be reached without shuffle, else playback stops |
| RemoteSteps.StartFailureMeans | internal/app/remote.go:981-1028 | the same of a start that fails, after which the holder gives up |
| RemoteSteps.TickMeans | internal/app/remote.go:257-276 | an expired deadline waits for the end of a song that plays if that was asked for, else pauses at once; before it nothing changes |
| RemoteSteps.CheckMeans | internal/app/remote.go:211-218 | an end is acted on exactly when its generation is current and the engine open |
| RemoteSteps.CancelMeans | internal/app/remote.go:166-184 | cancelling moves the generation on and cancels and closes exactly what was registered |
| RemoteSteps.LaunchMeans | internal/app/remote.go:386-398 | the worker started is the current one and carries the play's session, a new one only if there was none |
| RemoteSteps.LockMeans | internal/app/remote.go:185-264 | the commands mutex goes to a command, refused once closed, to the loop with the end it received or a tick, or to Close, which closes for good; receiving takes the oldest end |
| RemoteSteps.WorkMeans | internal/app/remote.go:399-528 | what each step of a worker does to its stage, the mutex, the sessions, the registration and the channel |
| RemoteSteps.EndsArriveInOrder | internal/app/remote.go:523-526 | in every interleaving the ends sent are the ends received followed by those still in the channel: none is lost, made up or overtaken |
| RemoteSteps.HolderGoesOn | internal/app/remote.go:204-280 | in every state the invariant allows the holder of the commands mutex has a step, and a free mutex can be taken |
| RemoteSteps.WorkerGoesOn | internal/app/remote.go:399-528 | a worker that has not left has a step unless it waits for the playback mutex or a full channel of 16 |
| RemoteEngine.Remote.constructor | internal/app/remote.go:91-141 | a new engine starts in the protocol's initial state with the repaired queue, paused if it has one and stopped if not |
| RemoteEngine.Remote.CancelSection | internal/app/remote.go:166-178 | one generation on, nothing registered, and the captured cancel and session returned to be closed outside the lock |
| RemoteEngine.Remote.LaunchSection | internal/app/remote.go:389-398 | the worker started carries the generation read in the same section |
| RemoteEngine.Remote.CheckEvent | internal/app/remote.go:214-217 | an event counts only if the engine is open and its generation current |
| RemoteEngine.Remote.HandleEnd | internal/app/remote.go:228-250 | with Waiting set the engine pauses; otherwise the queue advances or stops |
| RemoteEngine.Remote.TickSection | internal/app/remote.go:257-270 | an expired deadline sets Waiting while something plays with finish set, else asks for a pause |
| RemoteEngine.Remote.RegisterSession | internal/app/remote.go:438-446 | registers exactly if the generation is still current |
| RemoteEngine.Remote.ReportProgress | internal/app/remote.go:472-479 | progress of a superseded worker changes nothing; that of the current one sets the place and the time heard |
| RemoteQueue.DeliveredIsPrefix | internal/app/remote_queue.go:114-182 | whatever the read sizes and the timing of preparations, the bytes delivered are a prefix of the songs' PCM joined, and what is missing is what is left of the current song; the k-th song joined is that of the first index plus k without shuffle and repeat, round the queue under repeat-all, the same under repeat-single, and an unplayed one after another with shuffle |
| RemoteQueue.BoundariesAreExact | internal/app/remote_queue.go:153-156 | each song starts at the sum of the earlier frame counts, which is where its bytes start in the stream |
| RemoteQueue.ReleasedExactlyOnce | internal/app/remote_queue.go:82-112 | once nothing is owned, as after close, the songs released are exactly the songs opened, each once |
| RemoteQueue.StepKeepsValid | internal/app/remote_queue.go:50-182 | every step keeps the stream, the boundaries, the plan and the ownership right |
| RemoteQueue.PreparingPlans | internal/app/remote_queue.go:50-61 | nothing is planned exactly when playback is to stop or has come to its end; otherwise the same song under repeat-single, the next index without shuffle, 0 after the last under repeat-all, an id not yet played with shuffle, from its beginning, the queue and its modes unchanged |
| RemoteQueue.PreparationMeans | internal/app/remote_queue.go:62-79 | a song of at least one frame is kept under its plan, any other released at once |
| RemoteQueue.AdoptMeans | internal/app/remote_queue.go:139-179 | the successor is taken over exactly at a song's end when it is ready and fewer than 128 songs wait to be heard, from its first byte, starting where the last one ended |
| RemoteQueue.ReadingMeans | internal/app/remote_queue.go:114-138 | reading takes bytes off the front, a song is released at its end, and songs heard leave in order |
| RemoteQueue.QueueReader.constructor | internal/app/remote_queue.go:226-232 | the reader begins around the open song |
| RemoteQueue.QueueReader.Read | internal/app/remote_queue.go:114-182 | returns at most the bytes asked for, exactly those that follow in the stream, and reports the end only when the successor is not there, not ready, not valid any more or too many are pending |
| RemoteQueue.QueueReader.AdoptNext | internal/app/remote_queue.go:174-179 | ownership of the prepared song passes to the reader and the next preparation is of what follows it |
| RemoteQueue.QueueReader.EndPreparation | internal/app/remote_queue.go:62-79 | a finished preparation owns the song it opened, or has released it |
| RemoteQueue.QueueReader.CloseNext | internal/app/remote_queue.go:82-92 | waits for the preparation and releases what it left |
| RemoteQueue.QueueReader.Close | internal/app/remote_queue.go:106-112 | afterwards every opened song has been released exactly once |
| RemoteQueue.QueueReader.Progress | internal/app/remote_queue.go:191-224 | as long as the songs end by frame 9,223,372,036 they leave the pending list only when heard to their end, and the place written last is that of the song now heard, which has begun; beyond it the times are those of int64 |
| RemoteQueue.EndsOnTimeExactly | internal/app/remote_queue.go:194-197 | progress takes a song for heard at exactly the positions past its end if and only if its last frame is at most 9,223,372,036, about 58 hours into the stream |
| RemoteQueue.LongStreamWraps | internal/app/remote_queue.go:194-197 | one frame later the time of the end is negative, so the song counts as heard before it begins |
| StreamTime.ArithmeticMeans | internal/app/remote_queue.go:194-195 | times are computed in int64, the number of its range equal modulo 2^64, and divided toward zero |
| SecureWire.Link.Write | internal/airplay/wire.go:99-115 | on success the plaintext sealed grows by exactly the bytes written, in frames of 1 to 1024; on failure the count returned is what went out in whole frames before the failing one; it may be called after a failure |
| SecureWire.Link.WriteFrame | internal/airplay/wire.go:101-111 | one more frame sealed under the current counter, which moves on only if the write succeeds, after a failed write too |
| SecureWire.Link.Read | internal/airplay/wire.go:69-98 | for any read sizes what is returned continues a prefix of the plaintext written; an intact link fails only when everything has been read |
| SecureWire.Link.NextFrame | internal/airplay/wire.go:73-94 | a frame is opened if and only if one is there, under the peer's own counter |
| SecureWire.FrontFrame | internal/airplay/wire.go:69-115 | a frame at the front of the stream is told apart from what follows and opens to its chunk |
| SecureWire.ChunksFit | internal/airplay/wire.go:99-104 | frames carry 1 to 1024 bytes and joined are the plaintext |
| SecureWire.ChunksAreFull | internal/airplay/wire.go:99-104 | every frame but the last carries exactly 1024 bytes |
| SecureWire.FrameMeans | internal/airplay/wire.go:105-110 | a frame is two bytes of length, least significant first, and the chunk sealed with them as authenticated data under four zero bytes and the counter, 16 bytes longer |
| SecureWire.OpenedMeans | internal/airplay/wire.go:69-98 | the peer refuses frames of no bytes, of more than 1024 or cut short, and opens any other under the same header and nonce |
| SecureWire.NoncesDistinctExactly | internal/airplay/wire.go:104-110 | of the nonces given to Seal none is used twice if and only if nothing is sealed after a failed write |
| SecureWire.Link.NoncesOfLink | internal/airplay/wire.go:99-115 | the same of the sealings a connection has really made |
| SecureWire.WriteAfterFailure | internal/airplay/wire.go:99-115 | a failed write of one byte and a write of another seal two texts under one nonce |
| SecureWire.ReceivedIsPrefix | internal/airplay/wire.go:69-98 | what has been read is a prefix of what was written, and all of it once every frame is consumed |
| Srp.PairingAgrees | internal/airplay/srp.go:31-66 | against a receiver written out from sections 2.5.3, 2.5.4 and 2.6 of RFC 5054, with 384-byte padding: the client fails exactly on a salt or receiver key of the wrong length, a zero receiver key, failed randomness or a zero scrambling value; otherwise client and receiver hold the same key and each accepts the other's proof |
| Srp.SecretsAgree | internal/airplay/srp.go:43-60 | (B - k*g^x)^(a+u*x) equals (A*v^u)^b modulo N for every exponent pair, password exponent and scrambling value |
| Srp.MinimalMeans | internal/airplay/srp.go:15-24 | numbers are hashed in their shortest big-endian bytes |
| Srp.XorMeans | internal/airplay/srp.go:52-58 | the two group hashes are combined bit by bit |
| Srp.PowerMeans | internal/airplay/srp.go:43-48 | powers are repeated products |
| PlayHistory.RunAgrees | internal/app/store.go:267-371 | over every run of plays, favourites and clearings the published tracks and sessions equal the rows |
| PlayHistory.OperationsAgree | internal/app/store.go:267-371 | each operation keeps that agreement, failures and refusals included |
| PlayHistory.RetentionAgrees | internal/app/store.go:319-350 | zeroing what is ranked after 500 in memory mirrors the SQL retention statement row by row |
| PlayHistory.RankIsPosition | internal/app/store.go:329-343 | a track's place in the sorted indices is the number of rows that precede its own in ORDER BY last_played DESC,id |
| PlayHistory.AtMostRetained | internal/app/store.go:319-321 | after the retention statement at most 500 rows have a time of last play |
| PlayHistory.LatestAreRetained | internal/app/store.go:319-321 | the retention statement keeps exactly the 500 latest times of last play when there are more, the smaller id first among equal ones, and changes nothing else |
| PlayHistory.PlayAgrees | internal/app/store.go:289-357 | a counted play keeps the agreement and leaves at most 500 tracks with a time of last play |
| PlayHistory.SessionCountsOnce | internal/app/store.go:300-302 | a nonempty session counts at most once for a track, whatever happens in between |
| PlayHistory.PlaysAreConserved | internal/app/store.go:289-357 | each track's count is what it was plus its plays counted since |
| PlayHistory.ClearRecentAgreesExactly | internal/app/store.go:358-371 | clearing in memory equals clearing in SQL if and only if no time of last play is negative |
| PlayStore.Store.RecordPlayed | internal/app/store.go:289-357 | for a present track whose session has not counted it a play counts from 15 seconds on, or for a song shorter than that when it was completed without seeking to within a quarter second of its end, and otherwise nothing changes; a counted play adds one to that track alone, sets its time, marks its session and keeps the 500 latest times; rows and published state stay equal |
| PlayStore.Store.SetFavorite | internal/app/store.go:267-288 | sets the favourite of one row and its track, and moves the page revision, unless the track is unavailable, already so, or the database refuses |
| PlayStore.Store.ClearRecent | internal/app/store.go:358-371 | clears every track's time of last play and every positive one of the rows, which agree afterwards if and only if the database refused or no time was negative |
| PlayStore.ZeroRest | internal/app/store.go:345-350 | the loop over the indices after 500 zeroes exactly those |
| PageCache.ServedPagesAreFresh | internal/app/page_cache.go:24-66 | in every interleaving of requests and publications a served page is the page built from the state of the revision read, no older than the one current when the request arrived, and the cache stays within 120 entries and 20,000,000 bytes |
| PageCache.StepKeepsInv | internal/app/page_cache.go:24-66 | every step keeps each cached key listed once, the size the sum of the entries, and every entry equal to a fresh build of its revision |
| PageCache.EvictionIsTight | internal/app/page_cache.go:48-53 | eviction ends within both bounds, drops a prefix of the insertion order, and no more than it must |
| PageCache.DroppingIsSafe | internal/app/page_cache.go:48-53 | while a bound is exceeded there is a listed entry to drop, so the loop never runs out |
| PageCache.NewPageIsCached | internal/app/page_cache.go:38-54 | a new page that fits the byte bound is cached after its insertion |
| PageCache.InsertMeans | internal/app/page_cache.go:38-54 | a page takes the place its key had, or the last; the oldest go, only while 120 pages or 20,000,000 bytes are exceeded, and every page that stays is as it was |
| PageCache.RequestMeans | internal/app/page_cache.go:24-56 | a page cached for the revision read is served without building; any other is built, cached and served |
| PageCache.ArrivalMeans | internal/app/page_cache.go:24-28 | a published state becomes the next revision, and a request remembers the revision current when it arrives |
| PageCache.Cache.Insert | internal/app/page_cache.go:38-54 | replacing or appending and then evicting leaves the specified cache within its bounds |
| OggPackets.PacketsComeBack | internal/app/native_tags.go:162-181 | however packets are laced, paged and interleaved, exactly a stream's packets are completed, in order, per sections 5 and 6 of RFC 3533 |
| OggPackets.CommentsAreTheStreams | internal/app/native_tags.go:182-204 | the comments found are those of the packets of one stream, and there are none only if no stream has any, whatever the paging |
| OggPackets.KindMeans | internal/app/native_tags.go:183-197 | a packet is recognised by its first bytes: the two identification headers, and the two comment headers of the codec announced, whose comments follow 7 or 8 bytes in |
| OggPackets.SecondPacketHasThem | internal/app/native_tags.go:183-203 | the comments of a stream are in its second packet when that is the comment header of what the first announces |
| OggPackets.LaceMeans | internal/app/native_tags.go:168-180 | a packet of n bytes has n / 255 + 1 segments, all but the last of 255 bytes |
| OggPackets.UnlaceLaceAll | internal/app/native_tags.go:168-181 | unlacing undoes lacing, empty closing segments included |
| OggPackets.StreamsAreSeparate | internal/app/native_tags.go:162-181 | interleaving changes nothing for a stream |
| OggReader.CommentsAreRead | internal/app/native_tags.go:147-207 | if the pages hold a comment packet within the size limit its comments are returned, whatever follows on |
| OggReader.EndIsReached | internal/app/native_tags.go:147-156 | pages without a comment packet, under the limit, end without tags and without error |
| OggReader.LimitIsReached | internal/app/native_tags.go:150-172 | pages without a comment packet that reach the limit are refused, whatever follows |
| OggReader.NoPageIsRefused | internal/app/native_tags.go:151-176 | so are bytes that are no page, and pages cut short in header or first segment |
| OggReader.PageLayout | internal/app/native_tags.go:151-166 | the capture pattern, version, serial number and segment count stand where RFC 3533, section 6, puts them |
| OggReader.OneStreamFile | internal/app/native_tags.go:147-207 | a file of one stream gives that stream's comments, whatever the paging |
| OggReader.ReadOggComments | internal/app/native_tags.go:147-207 | the page loop with its buffers and codec map finds the comment body specified, or none, or an error, on every byte string, malformed and oversized ones included |
| OggTags.ReadOggTags | internal/app/native_tags.go:147-207 | the whole reader: no comment packet leaves the tags as they are, a malformed page, an oversized file or a malformed comment body is an error, otherwise its comments are added |
| OggTags.TagsWhateverThePaging | internal/app/native_tags.go:111-207 | however a stream is laced and paged, exactly the comments its comment packet holds are added, in order |
| OggReader.ReadPageSegments | internal/app/native_tags.go:163-204 | the segment loop with its size check grows, completes and inspects packets as specified |
| VorbisComments.CommentsReadExactly | internal/app/native_tags.go:111-145 | the comment bytes are read if and only if they are some vendor and some list of valid KEY=VALUE texts written out, and then as that list, in order |
| VorbisComments.FormMeans | internal/app/native_tags.go:112-141 | each text stands behind its length in four bytes, least significant first, and is cut at the first equals sign |
| VorbisComments.AddComments | internal/app/native_tags.go:111-145 | the loop over a shrinking slice adds exactly the comments specified, in order, and fails on every other byte string |
| RtpStream.Stream.Send | internal/airplay/session.go:363-445 | on success all packets were sent, as PacketMeans describes them, and every sample counted; it fails exactly on empty or unaligned input, where the session or its clock ended, the network refused, or a packet is more than 300 milliseconds late |
| RtpStream.Stream.SendBlock | internal/airplay/session.go:415-436 | a packet is built, kept and sent, and only then do the counters move on |
| RtpStream.LongStreamIsLate | internal/airplay/session.go:401-407 | a stream whose packets hold more than 9,223,372,388 frames cannot be sent: its int64 times wrap and some packet is late whatever the clock says since the first |
| RtpStream.WindowMoves | internal/airplay/session.go:427-430 | inserting a packet and deleting the number 512 back keeps exactly the last 512 packets as first sent, through every wrap of the sequence number |
| RtpStream.PcmIsKept | internal/airplay/session.go:387-397 | the packets' PCM joined is the input with zeros only behind it, fewer than a packet holds |
| RtpStream.ResentAsSent | internal/airplay/session.go:244-271 | a retransmission request gets, as first sent, exactly the packets asked for that are among the last 512 |
| RtpStream.Stream.Resend | internal/airplay/session.go:253-268 | the loop over at most 512 numbers collects the kept packets |
| RtpStream.HeaderFields | internal/airplay/audio.go:43-48 | sequence number, timestamp and source read back from the header, per section 5.1 of RFC 3550 |
| RtpStream.PacketMeans | internal/airplay/audio.go:39-56 | the k-th packet, read off its bytes: version and marker, sequence number first + k, timestamp origin + 352 k, source, 352 frames of input padded with zeros and sealed with timestamp and source as authenticated data under the packet's number, which follows in eight bytes |
| RtpStream.NoncesNeverRepeat | internal/airplay/audio.go:49-54 | no two packets share a nonce, although the sequence number wraps |
| Alac.ElementReadsBack | internal/airplay/audio.go:15-35 | read back most significant bit first the buffer is the 23-bit header, the 704 samples, each from its two bytes least significant first, the end marker and six zero bits |
| Alac.FirstAndLastBytes | internal/airplay/audio.go:15-35 | the buffer begins with the bytes 20, 00 and a third of 0000001x, and ends with xxxxxxx1 and C0 |
| Alac.Encode | internal/airplay/audio.go:15-35 | the bits written fill 1412 bytes exactly up to the last six bits |
| Alac.Writer.Put | internal/airplay/audio.go:18-23 | the low bits of a value are appended most significant first and nothing written before changes |
| Alac.SampleIsThere | internal/airplay/audio.go:30-32 | each sample's 16 bits stand at their own place |

## Left out

- RuleAgreement.CompiledRuleSelectsMatches: assumes that numeric fields under `contains` and `notContains` print alike in Go and SQLite and that the other operators do not notice the rounding of integers to float64; ContainsAgreesExactly and ComparisonAgreesExactly show that both are needed.
- RuleAgreement.TreeAgrees: the same hypotheses.
- RuleAgreement.ColumnAgrees: the same hypotheses.
- Ordering.SameSequence: takes the result of sort.SliceStable as a sorted permutation; the sorting algorithm is the library's.
- Ordering.OrdersAgree: numbers are reals, of which those compared are assumed to survive printing and parsing, as every float64 does; that conversion of integers to float64 keeps zero, order and nearness is a law asked of a parameter.
- PlistRoundTrip.RoundTrip: UTF-8 decoding is a parameter, of which it is asked that it undoes encoding.
- TranscodeCache.CacheSafety: outcomes of os.Remove and os.Rename are parameters, and the two halves of releasing a private file are one step.
- QueuePlayer.Player.StartWithPolicy: what starting a song yields, the clock and the draws are parameters indexed by attempt.
- PlayQueue.IndexStaysInQueue: one queue command, snapshot and edit, is a single step; what progress in between does to a removal is in LateRemovalExactly.
- RemoteProtocol.SupersededIsSilent: covers saved state, play state, session and failures; the flag for a volume still to be sent is written unguarded by a superseded worker and is not modelled.
- RemoteProtocol.StepKeepsInv: a command's edit is one step that leaves the index in the queue, so the late removal of PlayQueue.LateRemovalExactly is not a step of the protocol; errors reported to the user, pairing, volume and the persisted file are not part of the state.
- RemoteEngine.Remote.ReportProgress: models the callback of a single song; progress of joined songs is in RemoteQueue.QueueReader.Progress.
- RemoteQueue.QueueReader.Progress: the plays it records in the store are left to PlayStore; metadata and artwork calls are outcomes only.
- RemoteQueue.BoundariesAreExact: assumes songs of whole stereo frames, which the WAV reader guarantees.
- SecureWire.Link.Read: once something was written after a failed write the peer cannot follow the stream, and only the nonces are accounted for; bytes of an incomplete frame at the end of a connection count as not consumed.
- RuleRows.RowsRoundTrip: rebuilding goes to a given depth, at least the height of the tree; rows that form a cycle, which the source does not guard against, are not modelled.
- RuleRows.LoadRule: without a root row it yields nothing, where the source builds from an empty node; the table's foreign key rules that out.
- PlayHistory.RunAgrees: assumes times of play that are not negative, since otherwise clearing differs.
- OggTags.ReadOggTags: the table the comments are added to, with its trimming and lower-casing, is a parameter.
- RtpStream.Stream.Send: the clock, the end of the session and the network are parameters by turn; the contents of synchronisation packets and the older packet form are left out.
- RemoteQueue.EndsOnTimeExactly: speaks of every position; those a session reports wrap in the same way, and LongStreamIsLate ends it there.
- Alac.Encode: takes exactly one block of PCM, which is what its caller passes.
- FFmpeg, file walking, artwork, HTTP handlers, settings, discovery and pairing screens: foreign processes or plumbing.
- Hashes and ciphers are functions; that Open undoes Seal is the only law asked of them.
- Type-length-value messages, ID3 tags, the WAV chunk walk, playlist item edits, entity diffing and browse grouping: easier than the rest.
