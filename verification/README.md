# Verified model of a music database and its importers

This project states and proves, in Dafny, what the hardest parts of a music
database promise: its lyrics library, its seed importers, and the state machines and
reconcilers of its server.

* **Lyrics** (`Bytes`, `Lrc`, `LrcTimestamps`, `LrcTags`, `LrcRoundTrip`, `LrcTheorems`, `LrcLines`).
  The LRC parser works on bytes with a moving cursor and a bounded search for the
  closing bracket; the printer writes the same structure back. The methods
  follow the loops of the source and are proved equal to recursive functions, about which the
  round trip, the normal form, the exact tiling of a lyric line, the exact forms of a
  timestamp, the exact errors and the exact set of fatal inputs are proved.
* **Tag importer** (`Text`, `TextMeaning`, `TagImport`, `TagTheorems`, `TagReports`). A scheduler that creates seed tags
  layer by layer. Its run is shown to be a least fixpoint, independent of the order of
  the seed, and the reasons for which it can stop early are given exactly.
* **Import stages** (`StageProtocol`, `StageTheorems`, `StageOutcomes`). Tasks that take a lock per key, then a
  permit, look an artist up and create it; all interleavings are covered.
* **Rate limiter and retries** (`RateLimiter`, `Requests`).
* **Release recognition** (`Sorting`, `ReleaseSignature`, `ReleaseTheorems`, `ReleaseMeaning`). The payload posted for a
  release, and the signatures by which it is found again.
* **Notifications** (`NotificationHub`, `NotificationPages`). The hub's channels under concurrent
  subscribe, drop and clean-up, and keyset paging while rows come and go.
* **Permissions** (`Authz`, `AuthzTheorems`), **image upload** (`ImageUpload`), **search** (`Search`)
  and **tag votes** (`TagVotes`).

Tables are sets or maps and a query is its relational meaning. Objects that the
source updates in place are classes whose methods are tied to functions of the old
state; protocols are step relations over explicit states, and their theorems quantify
over every run.

## Where the code differs from what it seems to promise

* The lyric parser slices five bytes past every `[` without a check. A line such as
  `[1:2]` stops the program instead of giving an error (`LrcTags.PanicExample`);
  `LrcTheorems.FeedPanics` says exactly which lines do, and `LrcTheorems.ParsePanics` which
  texts.
* A last line without a newline is never read (`LrcTheorems.UnendedLineIgnored`), and the
  byte between seconds and fraction may be anything (`LrcTimestamps.SeparatorIgnored`).
* A printed timestamp of 60,000,000,000 ms or more no longer fits the bracket window, so
  the round trip holds below that limit and fails above it, for every text
  (`LrcTheorems.RoundTrip`, `LrcTheorems.NormalForm`); `[1000000:00]` parses, but its printed form
  does not (`LrcTheorems.PastLimitExample`).
* The seed check accepts a number where it asks for a name. A tag named by a number, if
  found by the first lookup, is counted twice (`TagTheorems.AccountingExample`). A relation
  named by a number makes the import stop on a missing key once its tag comes up
  (`TagTheorems.MissingKeyExample`): exactly when such a tag waits only for what exists or will
  be created (`TagTheorems.MissingKeyIff`), which for a closed seed without cycles or failures
  means when there is such a tag at all (`TagTheorems.MissingKeyWhenComplete`).
* Tracks of one disc of which some are numbered and some are not cannot be sorted, so no
  signature can be taken (`ReleaseTheorems.StoredIsRecognised`, `ReleaseTheorems.UnorderableExample`).
* The file store is right for the directory it is configured with, but not for every
  directory: with an absolute one, cleaning up after a failed write would stop the program
  (`ImageUpload.CleanUpPath`), and removal would miss a file whose own path begins with the
  directory's (`ImageUpload.RemovePath`). Neither happens for a relative directory whose first
  part is not two characters long, as `public/image` is
  (`ImageUpload.ConfiguredPaths`).

## Model

| member | source | states |
|---|---|---|
| Lrc.ParseLyricLine | core_server/crates/fast_lrc/src/lib.rs:220-253 | the cursor loop returns what reading tag after tag from the front gives: the timestamps in order and the text, none if there is no tag, the first error, or the slice past the end; it stays within the line |
| Lrc.ReadsStep | core_server/crates/fast_lrc/src/lib.rs:226-243 | what one turn of the cursor loop does to the part still to be read, for both window branches |
| Lrc.ParseLrc | core_server/crates/fast_lrc/src/lib.rs:129-167 | the line loop reads exactly the newline-ended lines in order and reports the number of the first bad one |
| LrcTimestamps.TimestampRoundTrip | core_server/crates/fast_lrc/src/lib.rs:256-315 | every number of milliseconds printed as `mm:ss.mmm` is parsed back to itself |
| LrcTimestamps.TimestampIff | core_server/crates/fast_lrc/src/lib.rs:256-315 | for all bytes: `t` is a timestamp worth `v` if and only if it is digits, a colon, two digits and nothing more, or any byte and one to three digits, and `v` is minutes, seconds and that fraction of a second in milliseconds |
| LrcTimestamps.ShortForms | core_server/crates/fast_lrc/src/lib.rs:266-312 | `mm:ss`, `.f` and `.ff` mean the same as the fraction filled up with zeros, refusals included |
| LrcTimestamps.TimestampOfNumbers | core_server/crates/fast_lrc/src/lib.rs:263-314 | `mm:ss` and `mm:ss.mmm` written from numbers read as m·60000 + s·1000 (+ ms), for seconds up to 99 |
| LrcTimestamps.SeparatorIgnored | core_server/crates/fast_lrc/src/lib.rs:274-309 | the byte between seconds and fraction makes no difference |
| LrcTimestamps.TimestampLength | core_server/crates/fast_lrc/src/lib.rs:115-119 | a printed timestamp is digits, colon, two digits, dot, three digits, with no more minute digits than needed and at least two; it has at most 13 bytes exactly below 60,000,000,000 ms |
| LrcTimestamps.ParsedTimestampBound | core_server/crates/fast_lrc/src/lib.rs:263-314 | what is parsed from a tag the window can hold fits 64 bits, so the arithmetic cannot wrap |
| Bytes.ParsePadded | core_server/crates/fast_lrc/src/lib.rs:116-119 | a number printed with leading zeros is parsed back by the strict digit parser |
| Bytes.TrimIsSlice | core_server/crates/fast_lrc/src/lib.rs:139 | trimming cuts off white space only, and all of it, at both ends of the line |
| LrcTags.TagStep | core_server/crates/fast_lrc/src/lib.rs:226-243 | a tag with 5 to 13 bytes between its brackets is read as its timestamp followed by the rest of the line |
| LrcTags.LongTag | core_server/crates/fast_lrc/src/lib.rs:230-235 | a tag with 14 bytes or more hides its bracket from the window and is an error |
| LrcTheorems.MetaIff | core_server/crates/fast_lrc/src/lib.rs:170-217 | a line without newline is read as the metadata `k`, `v` if and only if key and value are proper and the line starts with `[k:v]` |
| LrcLines.InvalidTagIff | core_server/crates/fast_lrc/src/lib.rs:178-197 | a line has an invalid tag if and only if it starts with `[` and not with a key of its own and a colon |
| LrcLines.InvalidMetadataIff | core_server/crates/fast_lrc/src/lib.rs:199-216 | a line has invalid metadata if and only if it has a proper key and no proper value in the bracket |
| LrcLines.LyricIff | core_server/crates/fast_lrc/src/lib.rs:189-192 | a line whose key begins with a digit is a lyric line exactly as it is tiled, or refused with the error of its tags |
| LrcTags.AcceptedIffTiled | core_server/crates/fast_lrc/src/lib.rs:220-253 | a line is accepted as timestamps and text if and only if it is the tags `[t1]`…`[tn]` put together, each of 5 to 13 bytes and reading as its timestamp, followed by the text |
| LrcTags.RefusedIff | core_server/crates/fast_lrc/src/lib.rs:226-241 | a line is refused with an error, or slices past its end, if and only if good tags are followed by a `[` with fewer than five bytes after it, with no `]` among its bytes 5 to 13, or with a tag of that length that is not a timestamp |
| LrcTags.PanicIffCutShort | core_server/crates/fast_lrc/src/lib.rs:226-234 | the slice past the end is the first of these cases |
| LrcTags.PanicExample | core_server/crates/fast_lrc/src/lib.rs:226-234 | `[1:2]` and a newline is such an input |
| LrcRoundTrip.WriteTags | core_server/crates/fast_lrc/src/lib.rs:115-120 | the writing loop puts down one bracketed timestamp each, in order |
| LrcRoundTrip.WriteMetadata | core_server/crates/fast_lrc/src/lib.rs:110-112 | every key once, in ascending order |
| LrcRoundTrip.AscendingInOrder | core_server/crates/fast_lrc/src/lib.rs:85 | the order of the metadata lines is strictly ascending |
| LrcRoundTrip.BeforeIff | core_server/crates/fast_lrc/src/lib.rs:85 | that order is byte by byte: a proper prefix, or smaller at the first difference |
| LrcRoundTrip.WriteLines | core_server/crates/fast_lrc/src/lib.rs:114-122 | every line in order, each ended by a newline |
| LrcRoundTrip.Display | core_server/crates/fast_lrc/src/lib.rs:108-126 | the printer writes the metadata lines, then the lyric lines |
| LrcRoundTrip.SplitJoin | core_server/crates/fast_lrc/src/lib.rs:129-140 | lines printed with newlines are split back into the same lines |
| LrcRoundTrip.FeedMeta | core_server/crates/fast_lrc/src/lib.rs:170-217 | a printed metadata line with a proper key and value is stored as that key and value |
| LrcRoundTrip.ReadTags | core_server/crates/fast_lrc/src/lib.rs:220-253 | printed tags are read back as their timestamps if all are below the limit, and are an error otherwise |
| LrcTheorems.ParserOutputIsCanonical | core_server/crates/fast_lrc/src/lib.rs:137-166 | whatever the text, keys, values and texts the parser returns meet the well-formedness conditions and every line has a timestamp |
| LrcTheorems.ParsePrint | core_server/crates/fast_lrc/src/lib.rs:108-167 | canonical lyrics read back as themselves below the limit, and as a missing-bracket error above it |
| LrcTheorems.RoundTrip | core_server/crates/fast_lrc/src/lib.rs:108-167 | for all lyrics, `parse(print(L))` is `L` if and only if `L` is well formed |
| LrcTheorems.NormalForm | core_server/crates/fast_lrc/src/lib.rs:108-167 | for every text that parses, printing the result and parsing again gives the same lyrics if and only if no timestamp is past the limit |
| LrcTheorems.PastLimitExample | core_server/crates/fast_lrc/src/lib.rs:108-167 | `[1000000:00]` and a newline parses, but the printed result does not parse back to it |
| LrcTheorems.PrintInjective | core_server/crates/fast_lrc/src/lib.rs:108-126 | well-formed lyrics with the same printed text are equal |
| LrcTheorems.FeedPanics | core_server/crates/fast_lrc/src/lib.rs:138-144 | which lines stop the program, stated on the trimmed line |
| LrcTheorems.ParsePanics | core_server/crates/fast_lrc/src/lib.rs:129-167 | the parser dies on a text if and only if one of its lines is such a line and all lines before it are accepted |
| LrcLines.RefusedAt | core_server/crates/fast_lrc/src/lib.rs:138-163 | a text is refused with an error at line m if and only if the lines before m are accepted and line m has that error in the state they leave |
| LrcLines.PassedOverAnywhere | core_server/crates/fast_lrc/src/lib.rs:139-143 | a blank line, a comment or a line without `[` put in anywhere changes nothing but the number of a later error |
| LrcLines.MetadataInText | core_server/crates/fast_lrc/src/lib.rs:145-161 | a metadata line is stored, the last of its key counting, until the first lyric line, and after it refuses the text at that line |
| LrcLines.FeedAllConcat | core_server/crates/fast_lrc/src/lib.rs:129-166 | reading a text in two parts: the second continues in the state the first leaves |
| LrcTheorems.UnendedLineIgnored | core_server/crates/fast_lrc/src/lib.rs:135-140 | bytes after the last newline change nothing |
| Text.NormalizeStrip | tools/thbwiki-import/import-tag-seed.py:209-210 | stripping a name first does not change its lookup form |
| Text.NormalizeNonEmpty | tools/thbwiki-import/import-tag-seed.py:209-217 | a name that is not blank has a lookup form that is not empty |
| TextMeaning.StripIff | tools/thbwiki-import/import-tag-seed.py:213-217 | stripping gives exactly what remains when all white space at both ends is cut off |
| TextMeaning.NormalizeWord | tools/thbwiki-import/import-tag-seed.py:209-210 | the lookup form is the folded words with one blank between them, whatever white space there was |
| TagImport.CheckNames | tools/thbwiki-import/import-tag-seed.py:263-275 | the seed is accepted iff every name is non-empty and no two have the same lookup form |
| TagImport.CollectExistingTagIds | tools/thbwiki-import/import-tag-seed.py:747-772 | the ids and the skipped results are those of the tags found, in seed order |
| TagImport.UnresolvedRelationNames | tools/thbwiki-import/import-tag-seed.py:623-632 | the list is empty iff every name the tag waits for has an id |
| TagImport.ResolveIdsIff | tools/thbwiki-import/import-tag-seed.py:635-642 | resolution succeeds iff every relation's name has an id, and then gives those ids in order |
| TagImport.ReadyResolvesIffNamed | tools/thbwiki-import/import-tag-seed.py:857-887 | for a tag that is not blocked, resolution misses a key iff some relation has no usable name |
| TagImport.LearnAnyOrder | tools/thbwiki-import/import-tag-seed.py:892-894 | the ids stored after a stage do not depend on the order its results came in |
| TagImport.RunStage | tools/thbwiki-import/import-tag-seed.py:878-890 | one result for each ready tag in some order, created, skipped or failed as its attempt ended and with the id of that attempt, or a missing key |
| TagImport.PlanTagImports | tools/thbwiki-import/import-tag-seed.py:775-834 | the preview has one entry per tag not found, created iff all its relations are existing or seed names |
| TagImport.CountResults | tools/thbwiki-import/import-tag-seed.py:733-744 | the three counts are those of the three statuses and add up to the number of results |
| TagImport.ImportTags | tools/thbwiki-import/import-tag-seed.py:837-898 | ends; stops on a missing key iff a tag that comes up has a relation without a usable name; otherwise one result per attempted tag and one failure per blocked tag, those being the tags the fixpoint says, and every id posted with a tag is the one its relation's name had at the start or one that an earlier attempt for that name returned |
| TagReports.ReportsOutcomes | tools/thbwiki-import/import-tag-seed.py:645-687 | every result says how the attempt for its tag ended, with its id, and every blocked tag is reported failed |
| TagReports.ReportsCounts | tools/thbwiki-import/import-tag-seed.py:972-982 | the created, skipped and failed counts are the numbers of attempts that made a new tag, found one, or failed, plus the blocked tags |
| TagReports.CollectedIds | tools/thbwiki-import/import-tag-seed.py:755-762 | the id collected for a tag is the one its lookup gave |
| TagReports.PreviewMeaning | tools/thbwiki-import/import-tag-seed.py:789-832 | the preview has an entry for exactly the tags not found: created iff every related name exists or is in the seed, failed otherwise |
| TagTheorems.LeastFixpoint | tools/thbwiki-import/import-tag-seed.py:853-898 | the known names are the least set with the existing ones closed under successful creation, and the attempted tags are exactly those whose relations all lie in it |
| TagTheorems.SeedOrderIrrelevant | tools/thbwiki-import/import-tag-seed.py:853-898 | seeds that differ only in order have the same known names and the same attempted tags |
| TagTheorems.FindCycle | tools/thbwiki-import/import-tag-seed.py:863-876 | when every tag relates to another one of the same set, there is a cycle among them |
| TagTheorems.BlockedWitness | tools/thbwiki-import/import-tag-seed.py:863-876 | if tags stay blocked, one of them names something unknown, or waits for a tag whose creation failed, or they contain a cycle |
| TagTheorems.CycleStaysOut | tools/thbwiki-import/import-tag-seed.py:857-876 | no tag of a relation cycle is ever created |
| TagTheorems.CompleteIff | tools/thbwiki-import/import-tag-seed.py:853-898 | when no creation fails, everything is imported if and only if no tag names something unknown and there is no cycle |
| TagTheorems.MissingKeyIff | tools/thbwiki-import/import-tag-seed.py:635-642 | a key is missed iff some pending tag with an unusable relation name waits only for names in the least closed set |
| TagTheorems.MissingKeyWhenComplete | tools/thbwiki-import/import-tag-seed.py:635-642 | for a closed acyclic seed without failures: iff some pending tag has such a relation at all |
| TagTheorems.NamedIffStrings | tools/thbwiki-import/import-tag-seed.py:317-321 | of the relations the seed check lets through, those without a usable name are those not named by a string |
| TagTheorems.MissingKeyExample | tools/thbwiki-import/import-tag-seed.py:309-321 | a seed of one tag related to the number 1 passes the name check and stops the import |
| TagTheorems.CheckedSeed | tools/thbwiki-import/import-tag-seed.py:257-275 | a seed that passes the check meets all demands of the import: distinct keys, none of them empty, and no empty key among the ids collected |
| TagTheorems.PendingIff | tools/thbwiki-import/import-tag-seed.py:846-850 | a tag is left out of the import iff it was found and its name is a string |
| TagTheorems.Accounting | tools/thbwiki-import/import-tag-seed.py:944-972 | found, attempted and blocked tags add up to the seed, plus the found tags whose names are not strings |
| TagTheorems.AccountingExample | tools/thbwiki-import/import-tag-seed.py:846-850 | one found tag with a number for a name is counted twice |
| TagTheorems.ReportsAddUp | tools/thbwiki-import/import-tag-seed.py:944-972 | the results of the first lookups and of the import add up to the seed in the same way, however the tasks of a stage complete |
| TagTheorems.PreviewAccounting | tools/thbwiki-import/import-tag-seed.py:948-957 | the found and the planned tags of a preview add up to the seed |
| TagTheorems.AttemptedIsPlanned | tools/thbwiki-import/import-tag-seed.py:789-832 | with string names no key is missed, and every attempted tag is one the preview announces as created |
| TagTheorems.CreatedWasPlanned | tools/thbwiki-import/import-tag-seed.py:789-898 | with string names, whatever the import reports as created the preview of the same seed reports as created |
| TagTheorems.PreviewAgrees | tools/thbwiki-import/import-tag-seed.py:789-832 | for a closed acyclic seed without failures nothing is blocked, and the import attempts exactly what the preview announces |
| StageProtocol.KeepsInv | tools/thbwiki-import/import-seed.py:1246-1286 | every step keeps locks, permits, results and rows consistent |
| StageProtocol.Reachable | tools/thbwiki-import/import-seed.py:1246-1286 | the same after every run |
| StageProtocol.KeepsRows | tools/thbwiki-import/import-seed.py:1048-1096 | a step never makes two artists of one normalized name, and every finished task names an artist of its key |
| StageOutcomes.OutcomesIff | tools/thbwiki-import/import-seed.py:1057-1096 | over any run a task has failed if and only if it took a failing step or was refused four times, and has created an artist if and only if a request of its succeeded, with that id |
| StageOutcomes.SkippedIff | tools/thbwiki-import/import-seed.py:1058-1065 | a task is skipped with an id if and only if that artist had its name when its lookup was answered, whatever came before and after |
| StageOutcomes.RowsIff | tools/thbwiki-import/import-seed.py:1077-1080 | the artists after a run are those before it and one, under the stripped name, for each request that had an effect |
| StageTheorems.Exclusion | tools/thbwiki-import/import-seed.py:1252-1268 | in every reachable state at most `concurrency` workers run, and at most one per key |
| StageTheorems.Progress | tools/thbwiki-import/import-seed.py:1266-1268 | while a task is unfinished some step can be taken: lock before permit cannot deadlock |
| StageTheorems.StepsCost | tools/thbwiki-import/import-seed.py:1246-1286 | every step uses up some of a measure |
| StageTheorems.StageEnds | tools/thbwiki-import/import-seed.py:1270-1286 | a run has at most seven steps per item, and when no step is left there is exactly one result per item and all locks and permits are back |
| StageTheorems.NamesStayUnique | tools/thbwiki-import/import-seed.py:1048-1096 | over every interleaving there is at most one artist per normalized name if there was at the start |
| StageTheorems.OneIdPerName | tools/thbwiki-import/import-seed.py:691-716 | items of one name that do not fail get the same id |
| StageTheorems.SecondRunSameId | tools/thbwiki-import/import-seed.py:1350-1361 | an item that did not fail in a first run, whatever else failed or was left undone, is in any second run never created: it fails or is skipped with the same id |
| StageOutcomes.SecondRunSkips | tools/thbwiki-import/import-seed.py:1350-1361 | in a second run a task without a failing step is skipped with the id its item had in the first |
| StageOutcomes.CanSucceed | tools/thbwiki-import/import-seed.py:1246-1286 | from unique names every stage has a run in which every item succeeds |
| StageTheorems.SecondRunAddsOnlyFailed | tools/thbwiki-import/import-seed.py:1350-1361 | every row a second run adds is named like one of its items and like none that did not fail before |
| StageTheorems.SecondRunCreatesNothing | tools/thbwiki-import/import-seed.py:1350-1361 | if no item failed, a further run of the same items changes no row |
| RateLimiter.AsyncRateLimiter.Acquire | tools/thbwiki-import/import-seed.py:65-73 | the grant falls no earlier than both deadlines and moves the next slot one interval past it |
| RateLimiter.AsyncRateLimiter.Backoff | tools/thbwiki-import/import-seed.py:75-83 | a positive delay is added after everything already promised; others change nothing |
| RateLimiter.WaitFor | tools/thbwiki-import/import-seed.py:65-83 | a grant comes no earlier than the first deadline plus all intervals and delays before it |
| RateLimiter.Spacing | tools/thbwiki-import/import-seed.py:65-73 | two grants are apart by the intervals and delays between them |
| RateLimiter.Throughput | tools/thbwiki-import/import-seed.py:65-73 | n further grants take at least n intervals |
| RateLimiter.BackoffHolds | tools/thbwiki-import/import-seed.py:75-83 | no grant falls before the end of an earlier backoff, and consecutive backoffs add up |
| RateLimiter.SlotAfterCooldown | tools/thbwiki-import/import-seed.py:75-83 | the next slot is never before the end of the cooldown |
| RateLimiter.RefinesSimple | tools/thbwiki-import/import-seed.py:58-83 | the limiter allows exactly the runs of one with a single deadline |
| Requests.RequestJson | tools/thbwiki-import/import-seed.py:545-608 | at most four attempts, all but the last retryable, stopping early only on an answer that is not; returns iff one of the first four answers is a success and all before it are transient: 429, and for a GET also 502, 503, 504 or a failed connection |
| Requests.PostEffectsAtMostOnce | tools/thbwiki-import/import-seed.py:560-605 | a POST changes something at most once, at its last attempt, if status 429 means no effect |
| Sorting.SortOrders | tools/thbwiki-import/import-seed.py:825 | a sort fails iff two of the elements cannot be compared, and otherwise orders all of them |
| Sorting.OrderedUnique | tools/thbwiki-import/import-seed.py:825 | there is only one order of given elements |
| Sorting.SortsAlikeIff | tools/thbwiki-import/import-seed.py:825 | two sequences sort alike iff they have the same elements as often, unless the sort fails |
| ReleaseSignature.KeysOrder | tools/thbwiki-import/import-seed.py:825 | comparing (disc, number, song) as tuples is a partial order in which only None and a string on one disc do not compare |
| ReleaseSignature.MixedIff | tools/thbwiki-import/import-seed.py:820-825 | a comparison fails iff some disc has both numbered and unnumbered tracks |
| ReleaseSignature.ReadCircles | tools/thbwiki-import/import-seed.py:362-373 | the ids of the named circles in order, or the first name without an id |
| ReleaseSignature.BuildReleasePayload | tools/thbwiki-import/import-seed.py:357-423 | fails on the first missing artist, then song; otherwise stores the seed's artists, places, songs and durations, every track on a disc that exists and no disc beyond the last used |
| ReleaseMeaning.PayloadMeaning | tools/thbwiki-import/import-seed.py:375-402 | every track is on disc d - 1 for a positive disc number d and on the first otherwise, with the seed's number and song's id; there are as many discs as the highest positive number says, or one |
| ReleaseMeaning.KeysMeaning | tools/thbwiki-import/import-seed.py:807-823 | the same of the tracks in the expected signature; the first song without an id is the error |
| ReleaseMeaning.CircleMeaning | tools/thbwiki-import/import-seed.py:362-373 | each circle adds the id of its stripped name, nothing if it is blank or no string, and is an error if there is no id |
| ReleaseSignature.ReleaseExpectedSignature | tools/thbwiki-import/import-seed.py:792-825 | the sorted artists and tracks of the seed, or the first problem |
| ReleaseMeaning.ExpectedMeaning | tools/thbwiki-import/import-seed.py:792-825 | the expected signature holds exactly the seed's artists and its tracks where the seed puts them, in order |
| ReleaseMeaning.SignatureAscends | tools/thbwiki-import/import-seed.py:825 | the order is ascending: artists by id, tracks by disc, number and song |
| ReleaseSignature.ReleaseExistingSignature | tools/thbwiki-import/import-seed.py:868-916 | the sorted artists and tracks of a stored release; none if it cannot be read |
| ReleaseMeaning.ContentsMeaning | tools/thbwiki-import/import-seed.py:868-914 | a stored release can be read iff its members are lists, its ids integers and every track on one of its discs, and is then read track by track |
| ReleaseTheorems.KeysOfPermutation | tools/thbwiki-import/import-seed.py:896-914 | the order in which tracks come back does not matter |
| ReleaseTheorems.StoredIsRecognised | tools/thbwiki-import/import-seed.py:792-916 | a release stored as posted, with fresh distinct disc ids and artists and tracks in any order, has the expected signature; both fail if a disc mixes numbered and unnumbered tracks |
| ReleaseTheorems.UnorderableExample | tools/thbwiki-import/import-seed.py:825 | two tracks of one disc, one of them numbered, have no expected signature |
| ReleaseTheorems.RecognisedIff | tools/thbwiki-import/import-seed.py:972-1010 | any release read back is recognised iff its artists and its (disc, number, song) triples are those of the seed, each as often |
| ReleaseTheorems.FindExistingReleaseId | tools/thbwiki-import/import-seed.py:982-1022 | among the results of that title: the one with the signature, an error if several ids have it, otherwise the least id alike by title |
| ReleaseTheorems.OtherTitlesIgnored | tools/thbwiki-import/import-seed.py:995-1003 | results without id or title, or of another title, make no difference |
| ReleaseTheorems.StoredIsFound | tools/thbwiki-import/import-seed.py:972-1022 | looking a stored release up finds it iff no signature of that title is broken and no other release of the title has the same artists and tracks under another id |
| NotificationHub.Hub.constructor | core_server/src/infra/notification.rs:18-26 | no channels |
| NotificationHub.Hub.Subscribe | core_server/src/infra/notification.rs:28-58 | the user's channel exists afterwards with one more subscriber and no empty-since time, and its sender is the one returned |
| NotificationHub.Hub.Unsubscribe | core_server/src/infra/notification.rs:74-83 | one subscriber fewer, and the time noted when none is left |
| NotificationHub.Hub.RemoveExpired | core_server/src/infra/notification.rs:104-111 | exactly the candidates still expired are removed, and no other entry changes |
| NotificationHub.KeepsInv | core_server/src/infra/notification.rs:28-143 | every step of subscribe, attach, drop, pick and remove keeps the invariant |
| NotificationHub.HubInvariant | core_server/src/infra/notification.rs:28-143 | in every reachable state the count is the number of live guards, the empty-since time is set iff it is zero, and a guard's receiver hangs on the stored sender iff it is the user's |
| NotificationHub.ReachesOnlyUser | core_server/src/infra/notification.rs:60-72 | a sender taken from a user's channel and used at any later time reaches no subscription of anyone else, whatever was dropped, removed or made in between |
| NotificationHub.ReachesLive | core_server/src/infra/notification.rs:60-72 | while a subscription of the user lives there is a channel to take the sender from, and a message sent later reaches that subscription if it still lives |
| NotificationHub.Session | core_server/src/infra/notification.rs:28-143 | a subscription can be made, attached and dropped in any reachable state, and leaves the user's count as it was |
| NotificationHub.EmptySince | core_server/src/infra/notification.rs:79-82 | the recorded time is the time since which the channel has been empty without interruption |
| NotificationHub.RemovedOnlyAfterTtl | core_server/src/infra/notification.rs:85-114 | a channel is removed only after at least the time to live empty without interruption |
| NotificationHub.RemovedAfterTtl | core_server/src/infra/notification.rs:91-111 | a channel without subscription for an hour, by the clock of the pass, can be picked and once picked is gone |
| NotificationPages.List | core_server/src/features/notification/service.rs:101-136 | fetching one row more than asked gives the first rows below the cursor, and a next cursor iff more follow |
| NotificationPages.PageFacts | core_server/src/features/notification/service.rs:101-136 | a page has as many rows as there are below the cursor, up to the limit, descending and the user's own, and a next cursor iff there are more; every such row is on it or below the next cursor |
| NotificationPages.WalkPageSizes | core_server/src/features/notification/service.rs:115-130 | every page of a walk but the last is full, and none has more rows than asked for |
| NotificationPages.ChangesAreLater | core_server/src/features/notification/service.rs:52-79 | inserts get larger ids, so changes never bring a row below a known id back |
| NotificationPages.WalkDescends | core_server/src/features/notification/service.rs:101-136 | under any changes between pages a walk shows strictly descending ids, all rows of the user when it began |
| NotificationPages.ShownOnce | core_server/src/features/notification/service.rs:101-136 | a finished walk shows every row that was there throughout exactly once |
| NotificationPages.WalkEnds | core_server/src/features/notification/service.rs:101-136 | a walk has at most one page more than the rows at its start fill |
| Authz.AuthzStore.UpdateKnown | core_server/src/infra/authz.rs:36-68 | known rows get the code's description, written only where it differs; unknown ids are collected |
| Authz.AuthzStore.InsertMissing | core_server/src/infra/authz.rs:70-95 | every definition without a row gets one with a fresh id |
| Authz.AuthzStore.DeleteUnknown | core_server/src/infra/authz.rs:97-130 | unknown rows go together with their mappings, and nothing else |
| Authz.AuthzStore.SyncPermissionDefs | core_server/src/infra/authz.rs:23-133 | the table has exactly the code's names afterwards; nothing is written iff it had, with the right descriptions |
| Authz.AuthzStore.RoleMappings | core_server/src/infra/authz.rs:164-207 | what a role still needs; refused iff it holds more than its defaults or a default has no row |
| Authz.AuthzStore.SyncRolePermissions | core_server/src/infra/authz.rs:135-218 | all missing defaults are added, or nothing if a role cannot be settled |
| Authz.AuthzStore.SyncPermissions | core_server/src/infra/authz.rs:13-21 | the whole transaction succeeds iff every role can be settled, and otherwise leaves the tables as they were |
| AuthzTheorems.DefinitionsConverge | core_server/src/infra/authz.rs:23-133 | after a sync exactly the code's definitions are there, surviving rows keep their ids, and no mapping points to a deleted row |
| AuthzTheorems.RolesConverge | core_server/src/infra/authz.rs:135-218 | every known role then holds exactly its defaults |
| AuthzTheorems.CanSyncIff | core_server/src/infra/authz.rs:164-207 | a sync succeeds iff all defaults are defined and no known role is mapped to a permission of the code outside its defaults |
| AuthzTheorems.MappingsKept | core_server/src/infra/authz.rs:97-217 | mappings to surviving permissions stay, and what is added belongs to known roles and their defaults |
| AuthzTheorems.SecondSyncWritesNothing | core_server/src/infra/authz.rs:13-21 | after a successful sync another one succeeds and has nothing to write |
| AuthzTheorems.UserPermissionIsDefault | core_server/src/infra/authz.rs:237-264 | a user whose roles are all known has a permission iff one of the roles has it by default |
| ImageUpload.CleanUpPath | core_server/src/infra/storage.rs:18-61 | cleaning up aims at the file that was written, or stops the program if that path is absolute |
| ImageUpload.RemovePath | core_server/src/infra/storage.rs:18-67 | exactly when removing by the stored path aims at the file that creation wrote |
| ImageUpload.ConfiguredPaths | core_server/src/domain/image/model.rs:83-100 | with a relative directory whose first part is not two characters long, clean-up and removal of any image aim at the file that was written |
| ImageUpload.FsStorage.Create | core_server/src/infra/storage.rs:34-61 | all bytes on success, no file after a cleaned-up failure, part of the bytes only if the clean-up fails or stops; no other file changes |
| ImageUpload.FsStorage.Remove | core_server/src/infra/storage.rs:63-85 | removes that file only; a file already gone is no error |
| ImageUpload.CreateAsSteps | core_server/src/infra/storage.rs:47-60 | for each way a creation can go wrong, the upload's steps leave the files in a state the contract of `Create` allows, the same predicate stating both, and no row |
| ImageUpload.KeepsInv | core_server/src/domain/image/service.rs:437-462 | every step of an upload, its failures and crashes included, keeps rows and files consistent |
| ImageUpload.UploadsAreConsistent | core_server/src/features/user_image/service.rs:100-139 | after any run of uploads every committed row has its file with exactly its bytes, file names are unique, and users refer to committed images |
| ImageUpload.CommittedFilesStay | core_server/src/infra/storage.rs:54-61 | no later step, clean-up included, touches the file of a committed row |
| ImageUpload.SameBytesSameRow | core_server/src/domain/image/service.rs:450-459 | bytes that have a row reuse it; without hash collisions only they do |
| ImageUpload.CommitSets | core_server/src/features/user_image/service.rs:123-138 | a commit gives the user the image found or made, and adds it in the second case |
| ImageUpload.UploadWorks | core_server/src/features/user_image/service.rs:100-139 | an upload without errors ends with the user's image being the row of these bytes, reused or new with its file, and changes nothing else |
| Search.RankingMeaning | core_server/src/features/search/repo.rs:41-64 | the ranked entities are those with a main or alternative name that matches in lower case, by prefix for keywords under three characters and else by similarity, each with the least distance of its matching names |
| Search.ResultsFacts | core_server/src/features/search/repo.rs:178-195 | the results are the existing ranked entities, once each, by distance and then id |
| Search.PaginateOffset | core_server/src/features/search/repo.rs:103-121 | within the limit everything and no cursor; otherwise all but the extra row, and the cursor moved on by the limit |
| Search.SearchArtists | core_server/src/features/search/repo.rs:155-210 | the page of the ordered results at the cursor, with a next cursor iff results follow |
| Search.CursorFits | core_server/src/features/search/repo.rs:103-121 | a page has the limit's number of results or what is left, and the next cursor lies within the results, so it cannot overflow while their number fits 32 bits |
| Search.LimitTaken | core_server/src/features/search/http.rs:69-87 | a limit of 1 to 50 is taken as given, a missing one as 10, others as the nearest of these; a missing or negative cursor is zero |
| Search.WalkShowsAll | core_server/src/features/search/http.rs:69-87 | following next cursors shows all results in order and ends after exactly as many pages as they fill |
| Search.EachMatchOnce | core_server/src/features/search/repo.rs:155-210 | a finished walk shows each entity with a matching name once, nearest first, and no other |
| TagVotes.VoteTable.Upsert | core_server/src/features/tag_vote/repo.rs:59-110 | refuses an unknown entity, then an unknown tag; otherwise replaces the user's vote or adds it |
| TagVotes.VoteTable.Delete | core_server/src/features/tag_vote/repo.rs:112-131 | removes that vote and no other |
| TagVotes.OneVoteEach | core_server/src/features/tag_vote/repo.rs:99-104 | after any run each user has at most one vote on a tag of an entity |
| TagVotes.LastOpWins | core_server/src/features/tag_vote/repo.rs:99-131 | after any run the votes are exactly those put last for their key, and those nobody touched |
| TagVotes.RelevanceBounds | core_server/src/features/tag_vote/repo.rs:181-189 | with P positive votes and V vetoes the relevance lies between 1 - 3V/P and 3 - 3V/P |
| TagVotes.ByScore | core_server/src/features/tag_vote/repo.rs:181-189 | the score sum is one, two and three for each low, medium and high vote less three for each veto, and P counts all but vetoes |
| TagVotes.ListedIff | core_server/src/features/tag_vote/repo.rs:184-217 | a tag is listed iff some vote on it is no veto |
| TagVotes.RelevanceValues | core_server/src/features/tag_vote/repo.rs:181-189 | the relevance is 3 iff every vote is high, and 1 iff mediums and highs make up for the vetoes |
| TagVotes.RaisingHelps | core_server/src/features/tag_vote/repo.rs:181-189 | raising one voter's score, in the order veto, low, medium, high, never hides the tag and never lowers its relevance |
| TagVotes.LoadTagVotes | core_server/src/features/tag_vote/repo.rs:325-333 | the grouping loop gives each tag its votes in the order they came |
| TagVotes.OfTagConcat | core_server/src/features/tag_vote/repo.rs:325-333 | grouping keeps each row of the tag, once and in order |
| TagVotes.AggregateMatchesVotes | core_server/src/features/tag_vote/repo.rs:191-261 | count and relevance times P are the length and the score sum of the listed votes |

## Left out

Contracts stated weaker than the source:

- TagImport.CheckNames: only names; types, descriptions, alternative names and the checks on relations are not modelled.
- TagImport.RunStage: a stage's tags complete in an arbitrary order; its locks and permits are modelled in StageProtocol, for artists, and which tags were created before a missing key surfaced is not modelled.
- TagImport.CollectExistingTagIds: a lookup gives an id or none; an ambiguous match, which ends the program, is not modelled.
- Requests.RequestJson: the delays between attempts and the calls to the limiter are not modelled, nor is reading a delay out of an answer.
- ReleaseSignature.BuildReleasePayload: release type, release date, description and the constant fields of the payload are not modelled.
- ReleaseTheorems.FindExistingReleaseId: the second comparison, by song titles, is a parameter, and the answer is taken to be a list.
- NotificationHub.ReachesLive: capacity of a channel and messages lost by slow receivers are not modelled.
- ImageUpload.FsStorage.Create: creating the parent directory is part of opening; power loss after a flush is not modelled.
- Sorting.SortOrders: stated for insertion sort; that Python's sort fails on the same inputs is an assumption, see below.
- TagVotes.VoteTable.Upsert: the time of a vote is not modelled.
- TagVotes.AggregateMatchesVotes: the user's own vote, paging and the join with user names are not modelled.

Assumptions and parts not modelled:

- Python's sort is an insertion sort here; any comparison sort must compare neighbours of its result, so it fails on the same inputs.
- The server stores a posted release as given, returns complete results to a lookup that follows a creation, and status 429 means that nothing was done; only the importer creates artists during a run.
- Case folding maps each character to a string and is otherwise arbitrary; white space is Python's for the importers and Unicode's, in UTF-8, for lyrics.
- Floating-point times, distances and relevances are reals; the rate limiter's clock only moves forward.
- Hash collisions of uploaded images: a file name is an arbitrary function of the bytes, and where distinctness matters it is a hypothesis.
- The matching and distance functions of the database are parameters of the search; searches other than the one for artists have the same form.
- The lock of a DashMap shard, and that its clean-up removes entries while iterating over them.
- Whether a notification is pushed at all, marking notifications as read beyond the row's flag, and the retention time of the clean-up, which is a deletion of arbitrary rows.
- Concurrent uploads, deleting an image, image decoding and validation.
- The stages for songs and releases beyond recognition of a release, and previews of artists.
- HTTP, SQL text, logging, configuration and error mapping.
