# Sonarium verification

Sonarium is a DLNA and HLS music server written in C++. This project models its hand-written logic in
Dafny and proves what that logic promises. `dafny verify dfyconfig.toml` checks all of it.

Code that works step by step is modelled step by step: cursor loops, buffers, accumulators and objects
with fields are methods and classes, each proved equal to a function of its inputs or of its old state.
The properties are lemmas about those functions. A `char` stands for one byte of the program's strings.

| part | files | what is proved |
|---|---|---|
| HLS cache | `Segmenter`, `SegmenterSafety`, `SegmenterUsage`, `SegmenterExclusion`, `SegmenterPaths`, `SegmenterAnswers`, `SegmenterQuiet`, `SegmenterRace`, `Eviction`, `EvictionListing`, `CacheFiles` | The steps of any number of threads as a state machine. In every run: slots and locks are conserved, no thread tries its own mutex, none is stuck, every call ends, and a publish has passed every stage before it. Exclusion and the life of a published directory, with the exact configurations and calls for which they hold. Why a call answers what it answers. What one eviction sweep owes to the listing of the cache. |
| SOAP | `XmlText`, `XmlLexer`, `XmlTokens`, `SoapParser`, `SoapDocument`, `SoapForms`, `SoapRequests`, `SoapMessages`, `DlnaClient`, `LexLocality`, `RequestIds`, `ClientServer` | The metered parser refines an unmetered one; its work is bounded; matching of tags is the first balance of a token count; requests in every form that XML leaves open are read as what they mean or refused for what they lack; requests and responses round-trip between client and server, requests for exactly the ids that can. |
| Hashes and tokens | `Sha256Spec`, `Primes`, `Sha256Constants`, `Sha256Vector`, `Sha256Object`, `MediaToken`, `HlsPlaylist` | The buffered hash object refines FIPS 180-4 for every split of the message; the standard's first example; HMAC as in RFC 2104; when a minted token is accepted; signing of playlists. |
| SSDP | `ResponseBudget` | The token bucket grants exactly what no window of the run forbids. |
| Catalog and Browse | `ObjectIds`, `Listings`, `Catalog`, `Browse`, `BrowseHandler`, `BrowseTree`, `BrowseAnswers`, `BrowsePaging` | Object ids, paged listings, the tree of Browse answers: what is listed where, when it can be walked, that every descent ends, what entries show, how arguments and flag decide, and that paging gives every entry once. |
| Scanner | `PathLayout`, `ScannerIds`, `MediaScanner`, `ScanProperties`, `ScannedFiles`, `ScannedCatalog` | Slugs and file names; which files are indexed, and what is written for each; for every library and every pattern of refused writes, references stay closed, every file is accounted for, and the catalog can be browsed after each single call. |
| Schema | `SchemaMigration`, `MigrationRestarts` | Runs of old and new releases, each stopped anywhere: when no work is undone, and when they converge, both exactly. |
| Shared | `Wrappers`, `Text`, `Sorting` | Option and result types, trimming and decimal numbers, stable sorting. |

## Results that are false as they stand

Some promises hold only under a condition. The code is modelled as it is, and the condition is exact.

* **Mutual exclusion in the segmenter.** `evict_over_cap` erases a rendition's mutex from the registry. A
  thread that has fetched the handle and not yet tried it then locks an orphan, while a later thread
  locks a fresh mutex for the same rendition. `SegmenterRace.ExcludesExactly`: whoever calls, one thread at
  a time guards a rendition in every run if and only if there is no cache cap. With a cap it depends on what
  callers do. They race if they ask for two renditions, since the sweep behind the build of one can evict the
  other, or for one while someone else starts sweeps too. `SegmenterRace.BuildsAloneExactly`: a rendition
  under construction is left alone in every run if and only if there is no cap or no race.
  `SegmenterRace.PublishesCompleteExactly`: only complete directories are ever published if and only if there
  is no cap, one transcode slot, or no race. For the other configurations `SegmenterExclusion` proves both for
  every run in which no erasure falls between another thread's fetch and its try.
* **Directories that others guard.** The id `.` passes `is_safe_rendition_id`, and its directory is the cache
  itself. After a good transcode the `remove_all` in front of the rename deletes every rendition and every work
  directory, and then the rename fails (`SegmenterRace.RootClearsCache`). `SegmenterRace.OrderlyExactly`:
  directories change only under their guard and complete ones stay until evicted, in every run, if and only if
  nobody asks for that id, and there is no cap or no race.
* **The service URN** comes back from a response exactly when it holds none of the five escaped characters
  (`SoapMessages.ServiceNameRoundTrip`): the parser decodes text but not attributes.
* **Object ids on the wire** are not escaped by the client. `RequestIds.ArrivesExactly`: the server parses
  the request to the arguments that the client meant if and only if the id has no outer white space, holds
  no entity, and is enclosed: read in front of each of the four closing tags behind it, the search for that
  tag finds it and no earlier one. An id without `<` is enclosed, and so is one with brackets that begin no
  tag; `a<b` is not (`RequestIds.MarkupIsLost`).
* **Paging through a playlist** is faithful for every client exactly when no item whose track is gone
  precedes one whose track exists (`BrowsePaging.PlaylistPagingExactly`).
* **Walking the tree** works exactly when the ids mean themselves: not empty, and no artist id ending in
  `:albums` (`BrowseTree.NavigableExactly`).
* **Child counts** agree with the totals, but for a root, never, and for an artist, only with one album
  (`BrowseTree.ChildCountsAgree`).
* **Restartable migrations.** Statements that may be given twice in a row do not suffice: a baseline of two
  such statements, stopped in front of its record, ends elsewhere
  (`MigrationRestarts.IdempotenceIsNotEnough`). `MigrationRestarts.KeepsProgressExactly`: no interruption
  undoes work if and only if each baseline statement changes nothing wherever a later statement of an
  interrupted baseline has left the schema, and each migration changes nothing right behind itself.
  `MigrationRestarts.ConvergesExactly`: a release and all before it end with their own schemas if and only if
  interrupted baselines recover and each migration changes nothing right behind itself. Interrupted baselines
  recover if and only if there are sets of schemas, one in front of each statement and one behind the last,
  that single statements and restarts lead between (`MigrationRestarts.RecoversExactly`).
* **Signed playlists** carry the token where section 4.1 of RFC 8216 has the line end if and only if no blank
  line and no URI ends in CR LF (`HlsPlaylist.TokensAsReadExactly`): the program splits lines at LF alone.
* **Results of an action** are found by the command-line client under their names, the first of each name, if
  and only if no element around them has the name (`ClientServer.ClientReadsExactly`).
* **Parents.** An object's own entry names a parent that lists it, except for the root, the list of playlists, an
  album without a known artist, and a track of an unknown album (`BrowseAnswers.ParentListsExactly`).
* **A complete scan report.** A walk of the library that breaks ends without a word. The report accounts for
  every file if and only if the break left no file unseen (`ScanProperties.CompleteExactly`).

## Where code and documentation differ

* `src/catalog/repository.hpp:18-20` says that a count of 0 is capped at 1024 rows everywhere; a playlist's
  children are given whole (`src/dlna-core/browse_handler.cpp:394-397`). The model follows the code.
* `src/catalog/in_memory_repository.hpp:16-17` says that inserts keep their order; the tables are unordered
  maps and the listings are in order of id.
* `src/catalog/catalog_writer.hpp:19-22` promises an upsert of every row; the in-memory repository appends
  renditions (`src/catalog/in_memory_repository.cpp:69-71`).
* `src/scanner/media_scanner.hpp:33-34` promises one bump of the update id at the end of a scan; a scan whose
  root is missing or cannot be opened returns before it (`src/scanner/media_scanner.cpp:110-131`).
* `src/scanner/media_scanner.cpp:134-138` reports a failed step of the directory walk and goes on. By the C++
  standard a recursive directory iterator whose increment fails equals the end iterator, so the loop has ended
  already and these lines are never reached. The model follows the standard.

## Model

| member | source | states |
|---|---|---|
| Segmenter.ClampedSlots | src/hls/segmenter.cpp:154-156 | slots lie between 1 and 64, an in-range setting is kept, and 1 means that at most one was configured |
| SegmenterSafety.InvStep | src/hls/segmenter.cpp:213-319 | every step of every thread keeps the invariant on names, lock owners, registry lock and slots |
| SegmenterSafety.InvAlways | src/hls/segmenter.cpp:213-396 | the invariant holds after every run of any number of threads, for every configuration |
| SegmenterSafety.SlotStep | src/hls/segmenter.cpp:270-279 | a step moves a slot between the pool and its thread and never makes or loses one, on every exit |
| SegmenterSafety.NothingLeaks | src/hls/segmenter.cpp:270-279 | free slots and slot holders always add up to the clamped number; when all calls have returned, no slot, mutex or registry lock is taken |
| SegmenterSafety.NeverTriesOwnMutex | src/hls/segmenter.cpp:376-387 | in every reachable state, a thread that is about to try a mutex does not hold it, thanks to the kept id |
| SegmenterSafety.NeverDeadlocked | src/hls/segmenter.cpp:213-225 | in every reachable state, a thread in a call can step, or waits for the registry lock while its holder can step |
| SegmenterSafety.OwnStepsEnd | src/hls/segmenter.cpp:227-396 | each own step of a call lowers a rank, so no call waits for another's transcode and every call ends |
| SegmenterSafety.AnswersExactly | src/hls/segmenter.cpp:227-319 | the step with which a build settles on busy, failed or served is taken in exactly the listed situations; busy only over a mutex or slot that is taken, or that is refused while free, as the C++ standard lets `try_lock` and `try_acquire` do |
| SegmenterExclusion.RegisteredExcludes | src/hls/segmenter.cpp:213-225 | if every claimed mutex is the registered one, at most one thread guards a rendition |
| SegmenterExclusion.RegisteredStep | src/hls/segmenter.cpp:384-394 | a step that erases no mutex inside another thread's window keeps every claim on the registered mutex |
| SegmenterExclusion.ErasureIsAlone | src/hls/segmenter.cpp:384-394 | when a mutex is erased outside every window, no other thread claims its rendition |
| SegmenterUsage.InUseAlways | src/hls/segmenter.cpp:228-319 | in every run, threads build only renditions that callers ask for, and sweep only for an operator or behind a publish, never over the root |
| SegmenterExclusion.AddsOnlyGuarded | src/hls/segmenter.cpp:227-319 | a thread adds nothing to the directory or work directory of a rendition that it does not guard |
| SegmenterExclusion.ForgetsTheEvicted | src/hls/segmenter.cpp:384-394 | a sweep forgets a mutex only when it holds it and has just deleted its rendition's directory |
| SegmenterExclusion.ChangesOnlyGuarded | src/hls/segmenter.cpp:227-319 | a thread that does not build the root changes the directory and the work directory only of renditions that it guards, apart from times and abandoned work directories |
| SegmenterExclusion.FreshPartsStay | src/hls/segmenter.cpp:330-353 | a work directory touched within the last hour is deleted only under its guard, or with the whole cache |
| SegmenterExclusion.WindowSafeRunsExclude | src/hls/segmenter.cpp:251-255 | after every run without an erasure in a window, at most one thread guards a rendition |
| SegmenterExclusion.CompleteUntilEvicted | src/hls/segmenter.cpp:240-264 | in such runs a complete directory stays complete under every step but its eviction and those of a build of the root |
| SegmenterExclusion.OnlyLeftoversIncomplete | src/hls/segmenter.cpp:281-318 | after such runs, every incomplete directory was an incomplete one at the start: what is renamed into place is complete |
| SegmenterExclusion.SuccessIsComplete | src/hls/segmenter.cpp:300-319 | in such runs, where nobody asks for the root, a call that reports success leaves a complete directory |
| SegmenterPaths.EveryStageWasPassed | src/hls/segmenter.cpp:257-318 | in every run, a build at a stage has passed every stage in front of it in order, in the same call and under the same mutex, meeting what each demands |
| SegmenterPaths.PublishIsPrepared | src/hls/segmenter.cpp:300-318 | in every run, a thread about to publish has in the same call had its own ffmpeg succeed, and after that an inspection that found the playlist complete |
| SegmenterPaths.ClearedStaysClear | src/hls/segmenter.cpp:281-311 | in every run without an erasure in a window, once a build has deleted its work directory there is none until that build goes on, whatever other threads do |
| SegmenterPaths.TranscodeStartsFresh | src/hls/segmenter.cpp:286-298 | in such runs, where the deletion in front of it worked, the stage that makes the work directory makes a fresh one |
| SegmenterPaths.LeftoverStaysDeleted | src/hls/segmenter.cpp:257-267 | in such runs a build that comes upon an incomplete directory has deleted it before it looks for the source, and it stays away until the build goes on |
| SegmenterAnswers.AnswersForReason | src/hls/segmenter.cpp:227-319 | at every point of every run, a call has settled on an answer if and only if one of its own acts gave the reason for it: busy over a taken or refused mutex or slot; failed over an unsafe id, a missing source, a work directory that cannot be made, or a clean-up; served over a complete directory or a publish |
| SegmenterAnswers.ReturnsForReason | src/hls/segmenter.cpp:227-319 | the answer that a call returns is the one for which one of its acts gave the reason, and none of its acts gave the reason for another |
| SegmenterAnswers.LatestCall | src/hls/segmenter.cpp:227-319 | every thread that is in a call or has answered one has a latest call |
| SegmenterAnswers.ReturnsComplete | src/hls/segmenter.cpp:240-319 | when a call returns success, on the fast path too, its rendition has a complete directory, in runs without an erasure in a window in which nobody asks for the root |
| SegmenterAnswers.ServingTouches | src/hls/segmenter.cpp:240-245 | a rendition that is served on the fast path or published is marked as used now |
| SegmenterQuiet.OneBuilderWindowSafe | src/hls/segmenter.cpp:376-394 | where one rendition is asked for and only its builds sweep, no erasure of any run falls into a window, cap or not |
| SegmenterRace.ExcludesExactly | src/hls/segmenter.cpp:321-324 | whoever calls, exclusion holds in every run if and only if the cache has no cap |
| SegmenterRace.BuildsAloneExactly | src/hls/segmenter.cpp:251-319 | a rendition under construction is built and evicted by no other thread in every run if and only if the cache has no cap or callers cannot race |
| SegmenterRace.PublishesCompleteExactly | src/hls/segmenter.cpp:266-318 | only complete directories are ever published if and only if the cache has no cap, one transcode slot, or callers that cannot race |
| SegmenterRace.BuilderErases | src/hls/segmenter.cpp:317-394 | under every cap, a run in which the sweep behind one rendition's build erases the mutex of another while a call for it is between fetching and trying it |
| SegmenterRace.RaceHappens | src/hls/segmenter.cpp:384-394 | under every cap, where callers can race, a run of two threads ends with both building the same rendition |
| SegmenterRace.RaceLosesDirectory | src/hls/segmenter.cpp:310-318 | under every cap and with any number of slots, the second build of a race deletes the complete directory of the first |
| SegmenterRace.RootClearsCache | src/hls/segmenter.cpp:62-76 | in every configuration, a run of one thread that asks for `.` deletes a complete directory that it does not guard |
| SegmenterRace.OrderlyExactly | src/hls/segmenter.cpp:227-319 | directories change only under their guard, and complete ones stay until evicted, in every run if and only if nobody asks for `.`, and the cache has no cap or callers cannot race |
| SegmenterRace.OneSlotPublishesComplete | src/hls/segmenter.cpp:266-318 | with one slot, no step of any run publishes an incomplete directory, race or not |
| Eviction.ListCache | src/hls/segmenter.cpp:338-365 | one pass over the listing: the stale work directories, the sized entries, and their total |
| Eviction.StalePartsExactly | src/hls/segmenter.cpp:345-353 | a name is taken for an abandoned work directory if and only if the listing shows it as one, older than the cutoff |
| Eviction.SortByAge | src/hls/segmenter.cpp:371-373 | the entries in order of last use, each as often as before |
| Eviction.StepValid | src/hls/segmenter.cpp:375-395 | one turn of the loop: the running total stays the bytes of the survivors, covers the entry at hand, and only the kept id is kept |
| Eviction.CurrentCovered | src/hls/segmenter.cpp:391-392 | the subtraction from the total never underflows |
| Eviction.EvictOldest | src/hls/segmenter.cpp:375-395 | the loop ends within the cap or at the end of the list; every visited entry has the fate that locks and file system dictate |
| EvictionListing.EvictOverCap | src/hls/segmenter.cpp:321-396 | a whole sweep: when it does nothing, that it deletes exactly the work directories listed as older than an hour, and that it is fair to the listing |
| EvictionListing.SweepIsFair | src/hls/segmenter.cpp:354-395 | in terms of the listing: only unprotected directories go; what goes was last used, by its playlist's time or else its own, no later than what could have gone and stays; what is left fits the cap or is all protected; and no less would have done |
| EvictionListing.AbandonedExactly | src/hls/segmenter.cpp:330-353 | the names taken for abandoned work directories are those listed with the suffix and a time more than an hour back |
| Eviction.EndsWithinCap | src/hls/segmenter.cpp:375-395 | a finished sweep is within the cap, or every survivor was kept, locked or could not be deleted |
| Eviction.OldestFirst | src/hls/segmenter.cpp:371-395 | no evicted entry was used later than an entry that the sweep never reached |
| Eviction.LastEvictionNeeded | src/hls/segmenter.cpp:376-378 | without its last eviction the total would exceed the cap |
| Eviction.KeepSurvives | src/hls/segmenter.cpp:379-381 | the rendition just built is never evicted by its own sweep |
| CacheFiles.IsSegmentFilename | src/hls/segmenter.cpp:38-57 | accepts exactly the names that `seg%05d.ts` gives to the first hundred thousand segments |
| CacheFiles.CachedFile | src/hls/segmenter.cpp:398-409 | a file is handed out if and only if the id is safe, the name is the playlist's or a segment's, and the file exists |
| CacheFiles.SegmentServedExactly | src/hls/segmenter.cpp:38-57 | the name of segment n is accepted if and only if n is below 100000 |
| CacheFiles.SafeIdExactly | src/hls/segmenter.cpp:62-76 | an id may name a cache directory if and only if it has 1 to 256 letters, digits and `-_:.`, does not end in `.part` and has no two dots in a row |
| Text.TrimSpan | src/upnp/soap_envelope.cpp:342-353 | the two cursors cut out the text without outer white space |
| Text.TrimFixedPoint | src/upnp/soap_envelope.cpp:342-353 | trimming leaves a text alone if and only if it has no outer white space, and its result has none |
| Text.TrimExactly | src/upnp/soap_envelope.cpp:342-353 | trimming cuts off the white space of the C locale at both ends, all of it and nothing else |
| Text.Uint32RoundTrip | src/dlna-core/browse_handler.cpp:28-37 | every 32-bit count is read back from its decimal text |
| Text.ReadsExactly | src/core/media_token.cpp:72-79 | a text is read as a 64-bit number if and only if it is all digits, with a minus in front or none, and their value fits |
| XmlText.EscapeXml | src/dlna-core/xml_escape.cpp:5-31 | the loop yields the text with each of the five characters replaced by its entity |
| XmlText.UnescapeXml | src/upnp/soap_envelope.cpp:357-395 | the loop yields the text with each of the five entities decoded, everything else as it was |
| XmlText.UnescapeEscape | src/dlna-core/xml_escape.cpp:5-31 | decoding undoes escaping, for every text |
| XmlText.FiveEntities | src/dlna-core/xml_escape.cpp:5-31 | the entities that stand for the five characters |
| XmlText.ValueRoundTrip | src/upnp/soap_envelope.cpp:342-395 | a value that was escaped comes back trimmed and otherwise unchanged |
| XmlText.EscapeFixedPoint | src/dlna-core/xml_escape.cpp:5-31 | escaping leaves a text alone if and only if it holds none of the five characters |
| XmlText.UnescapeFixedPoint | src/upnp/soap_envelope.cpp:357-395 | decoding leaves a text alone if and only if it holds no entity |
| XmlLexer.FindTagClose | src/upnp/soap_envelope.cpp:43-62 | the first `>` outside quotes, or nothing |
| XmlLexer.OpenTagAt | src/upnp/soap_envelope.cpp:130-159 | the opening tag at the cursor, with name, inside, end and self-closing mark, or nothing |
| XmlLexer.QNameParts | src/upnp/soap_envelope.cpp:161-170 | prefix and local name of a prefixed name are what it was put together from |
| SoapDocument.NameExactly | src/upnp/soap_envelope.cpp:21-28 | the names that the parser knows: letters, digits, underscores, dots and dashes, the first a letter or an underscore |
| XmlLexer.ParseBudget.Charge | src/upnp/soap_envelope.cpp:103-116 | a charge that fits is taken off; one that does not empties the budget |
| XmlLexer.ParseBudget.NextElementFrom | src/upnp/soap_envelope.cpp:228-266 | the metered search yields the next element and pays its distance, or stops with an empty budget |
| XmlLexer.ParseBudget.CloseOf | src/upnp/soap_envelope.cpp:270-340 | the metered search yields the matching closing tag and pays up to its end, or stops with an empty budget |
| XmlLexer.FindCloseLex | src/upnp/soap_envelope.cpp:270-340 | what is found is a closing tag of the name asked for, and the charge ends right behind it |
| XmlTokens.TokensTile | src/upnp/soap_envelope.cpp:270-340 | the tokens tile the text: each starts where the one before it ends |
| XmlTokens.FindCloseIsFirstBalance | src/upnp/soap_envelope.cpp:270-340 | an offset is found if and only if opens and closes of the name balance at some token, and it is the first such token |
| SoapParser.SkipMetaText | src/upnp/soap_envelope.cpp:65-100 | the prologue loop: byte order mark, white space, declarations, comments and DOCTYPE are skipped; an unclosed one leaves nothing |
| SoapParser.FindXmlnsIn | src/upnp/soap_envelope.cpp:175-225 | the value of the first attribute that declares the prefix, or the default namespace for none |
| SoapParser.ContentOf | src/upnp/soap_envelope.cpp:397-434 | content and end of an element, for what it costs |
| SoapParser.LocateBodyIn | src/upnp/soap_envelope.cpp:397-434 | the metered search for the body element agrees with the unmetered one and pays its cost, or runs out |
| SoapParser.ParseArgsIn | src/upnp/soap_envelope.cpp:498-530 | the metered argument loop agrees with the unmetered one and pays its cost, or runs out |
| SoapParser.ParseSoapRequest | src/upnp/soap_envelope.cpp:438-532 | the parser answers `TooComplex` if and only if a budget was given that is below the work of the body, plus one where its last step looks at the budget; under every other budget it yields the unmetered result |
| SoapParser.WorkBound | src/upnp/soap_envelope.cpp:118-121 | no body makes the parser charge more than four times its length, or as much as the default budget |
| SoapParser.DefaultBudgetSuffices | src/upnp/soap_envelope.cpp:118-121 | with the default budget `TooComplex` never comes out |
| SoapParser.BudgetsAgree | src/upnp/soap_envelope.cpp:103-116 | two budgets that both avoid `TooComplex` give the same outcome |
| SoapDocument.ParseDocument | src/upnp/soap_envelope.cpp:438-532 | every document of the written shape, with any gaps and attributes, parses to the service, action and arguments that it was made from |
| SoapForms.ParseElements | src/upnp/soap_envelope.cpp:498-530 | any mix of full and empty argument elements, with attributes, blanks in tags, comments and CDATA sections, is read as its arguments, an empty element as the empty value |
| SoapForms.DeclarationIsFound | src/upnp/soap_envelope.cpp:175-225 | among attributes in either quotes, with blanks about the equals sign, the first that declares the prefix is found, or the default one for none |
| SoapForms.UnclosedIsMalformed | src/upnp/soap_envelope.cpp:498-530 | an argument element that is never closed makes the arguments malformed, whatever stands in front of it |
| SoapRequests.ParseForm | src/upnp/soap_envelope.cpp:438-532 | every request in such a form, with a preface, headers, prefixed or not, with a full or empty action, is read as what it means; without a body, an action or a namespace declaration it is refused as such |
| SoapRequests.NothingIsEmpty | src/upnp/soap_envelope.cpp:65-100 | a text of declarations, comments, document types and blanks alone is empty |
| SoapRequests.UnclosedIsEmpty | src/upnp/soap_envelope.cpp:65-100 | so is a text in which a declaration, a comment or a document type is never closed |
| SoapRequests.OtherRootsAreMalformed | src/upnp/soap_envelope.cpp:438-470 | a root element of another name, and an envelope that is never closed, are malformed |
| SoapRequests.EmptyEnvelopeHasNoBody | src/upnp/soap_envelope.cpp:438-470 | an empty envelope lacks its body |
| SoapMessages.BuildSoapResponse | src/upnp/soap_envelope.cpp:534-564 | the appends yield the response document with escaped values in order |
| SoapMessages.EnvelopeTexts | src/upnp/soap_envelope.cpp:534-546 | the fixed texts of the envelope, as the standard has them |
| SoapMessages.ResponseRoundTrip | src/upnp/soap_envelope.cpp:438-564 | a response parses back to its action and, in order, its arguments with each value trimmed |
| SoapMessages.ValuesSurviveExactly | src/upnp/soap_envelope.cpp:342-353 | the arguments come back exactly as they were written, a Browse result for one, if and only if no value has outer white space |
| SoapMessages.ServiceNameRoundTrip | src/upnp/soap_envelope.cpp:534-564 | the service URN comes back if and only if it holds none of the five escaped characters |
| DlnaClient.BuildBrowseRequest | src/cli/dlna_status.cpp:170-195 | the appends yield the request document for id, start and count |
| DlnaClient.ObjectIdSurvives | src/upnp/soap_envelope.cpp:342-395 | trimming and decoding leave an id alone if and only if it has no outer white space and holds no entity |
| LexLocality.ComesThrough | src/upnp/soap_envelope.cpp:270-340 | a search that comes through a text in front of one closing tag comes through it in front of every other, and goes on behind it with one element open |
| LexLocality.AlsoComesThrough | src/upnp/soap_envelope.cpp:270-340 | where the search for one name has come through a text, the search for another that ends no earlier has come through it too |
| RequestIds.RequestRoundTrip | src/cli/dlna_status.cpp:170-195 | the server parses the request for every enclosed id and all counts to the six arguments, the id up to outer white space and entities |
| RequestIds.ArrivesExactly | src/cli/dlna_status.cpp:170-195 | the request is parsed to the arguments that the client meant if and only if the id is enclosed, has no outer white space and holds no entity |
| RequestIds.LoneBracketsAreEnclosed | src/upnp/soap_envelope.cpp:324-331 | ids in which every `<` is followed by something that begins no tag are enclosed |
| RequestIds.OwnCloseIsLost | src/upnp/soap_envelope.cpp:270-340 | no id is enclosed that holds its element's closing tag behind text without `<` |
| RequestIds.OpenTagIsLost | src/upnp/soap_envelope.cpp:130-159 | no id is enclosed that ends in a `<` and a name, behind text without `<` |
| RequestIds.MarkupIsLost | src/cli/dlna_status.cpp:170-195 | the id `a<b` has no outer white space and holds no entity, and it does not arrive |
| DlnaClient.FindOpenTagIn | src/cli/dlna_status.cpp:16-55 | the cursor loop finds the first opening tag whose local name is the one asked for |
| DlnaClient.ExtractXmlText | src/cli/dlna_status.cpp:114-156 | the trimmed text between that tag and the first closing tag of its local name |
| ClientServer.EmptyElementIsNothing | src/cli/dlna_status.cpp:114-156 | an element of that name without content, with or without attributes and blanks, is extracted as nothing |
| DlnaClient.ParseBrowseResponse | src/cli/dlna_status.cpp:197-230 | counts, fault or unreadable field, in the order in which the client looks for them |
| ClientServer.ClientReadsExactly | src/cli/dlna_status.cpp:114-156 | from every response of the server the client extracts an output that is the first of its name, as its escaped value without blanks around it, if and only if it is not named `Envelope`, `Body` or like the response element |
| ClientServer.FieldIsExtracted | src/cli/dlna_status.cpp:114-156 | from every flat sequence of elements the client extracts the first of a name, and nothing when there is none |
| ClientServer.SummaryExactly | src/cli/dlna_status.cpp:197-230 | from every such answer: the fault, the missing counts, the first count that does not start with a number, or the three counts |
| ClientServer.ClientReadsCounts | src/cli/dlna_status.cpp:197-230 | for every DIDL text and all 32-bit counts the client recovers the three counts of the response |
| Sha256Object.Sha256State.Compress | src/core/sha256.cpp:70-109 | the hash value becomes the compression function of section 6.2.2 of FIPS 180-4 applied to the block |
| Sha256Object.Sha256State.Update | src/core/sha256.cpp:111-125 | after any chunk the object holds the hash value and buffer of everything absorbed |
| Sha256Object.Sha256State.PadTo56 | src/core/sha256.cpp:131-145 | the padding loop ends, also when it wraps through a block, and leaves the padded message short of its length field |
| Sha256Object.Sha256State.Finalize | src/core/sha256.cpp:131-162 | the digest is SHA-256 of everything absorbed, and the object is as new |
| Sha256Object.HashChunks | src/core/sha256.cpp:111-162 | however a message is split into chunks, the digest is SHA-256 of their concatenation |
| Sha256Object.HashBuffer | src/core/sha256.cpp:164-174 | the one-shot hash is SHA-256 of the data |
| Primes.PrimesExactly | src/core/sha256.cpp:9-21 | a number up to 311 is prime if and only if it stands in the table of sixty-four that the constants are made from |
| Primes.PrimesAscend | src/core/sha256.cpp:9-21 | the table ascends, so it lists the first sixty-four primes in order |
| Sha256Constants.RoundConstants | src/core/sha256.cpp:9-21 | the 64 constants are the first 32 bits of the fractions of the cube roots of the first 64 primes, section 4.2.2 of FIPS 180-4 |
| Sha256Constants.InitialWords | src/core/sha256.cpp:24-33 | the initial words are those of the square roots of the first eight primes, section 5.3.3 |
| Sha256Constants.ChChooses | src/core/sha256.cpp:52-54 | each bit comes from the second word where the first has a one, and from the third where it has a zero |
| Sha256Constants.MajIsMajority | src/core/sha256.cpp:56-58 | each bit is the one that at least two of the three words share |
| Sha256Vector.DigestOfAbc | src/core/sha256.cpp:70-162 | the digest of `abc` is the one that FIPS 180-4 gives |
| Sha256Spec.ZeroBytesIsLeast | src/core/sha256.cpp:131-145 | the padding of section 5.1.1 of FIPS 180-4 is the shortest that leaves room for the length |
| Sha256Spec.LengthFieldReadsBack | src/core/sha256.cpp:147-152 | the length field is the bit length of every message that the standard admits |
| Sha256Spec.PadInjective | src/core/sha256.cpp:131-152 | distinct messages of admitted length never pad alike |
| Sha256Spec.TwoBlocks | src/core/sha256.cpp:111-125 | two blocks are compressed one into the other |
| Sha256Spec.WordBytesReadBack | src/core/sha256.cpp:154-160 | the digest's bytes are the words that loading them gives back |
| MediaToken.HmacSha256 | src/core/hmac_sha256.cpp:15-40 | the keyed hash of section 2 of RFC 2104, for keys of every length |
| MediaToken.HmacByBytes | src/core/hmac_sha256.cpp:15-40 | the keyed hash is the hash of the key's bytes with 0x5c mixed in and the hash of those with 0x36 and the message |
| MediaToken.LongKeysAreHashed | src/core/hmac_sha256.cpp:15-40 | a key of more than 64 bytes stands for its digest |
| MediaToken.ToHex | src/core/sha256.cpp:176-184 | two lower-case hexadecimal digits for each byte |
| MediaToken.HexInjective | src/core/sha256.cpp:176-184 | the hexadecimal text determines the bytes |
| MediaToken.HexDigits | src/core/sha256.cpp:176-184 | each byte is the value of its two digits, the upper half first, in `0` to `9` and `a` to `f` |
| MediaToken.ConstantTimeEquals | src/core/constant_time.hpp:11-21 | the loop over all bytes answers whether the two strings are equal |
| MediaToken.SignedMessageInjective | src/core/media_token.cpp:15-22 | no two pairs of id and expiry share a signed message, even when ids hold the separator |
| MediaToken.Sign | src/core/media_token.cpp:45-60 | the URL suffix for the expiry now plus lifetime; nothing when signing is off |
| MediaToken.Verify | src/core/media_token.cpp:62-86 | accepts exactly an unexpired time with the signature of id and time; everything when signing is off |
| MediaToken.MintedTokenLives | src/core/media_token.cpp:45-86 | a token minted at t for d seconds is accepted for its id if and only if now is before t + d |
| MediaToken.SuffixReadsBack | src/core/media_token.cpp:45-86 | the URL suffix splits into an expiry without `&` and a signature in one way, and those parts are accepted if and only if now is before t + d |
| MediaToken.SuffixForm | src/core/media_token.cpp:15-60 | the suffix spells out the expiry and the hexadecimal keyed hash of id, bar and expiry; without a secret there is none and every token is accepted |
| MediaToken.TokenBoundToItsMessage | src/core/media_token.cpp:62-86 | a token is accepted for another id or expiry if and only if the two messages have the same keyed hash and the time has not passed |
| HlsPlaylist.WithSignedSegmentUrls | src/server/hls_routes.cpp:69-91 | the loop equals a map over the lines that appends the suffix to URI lines |
| HlsPlaylist.SignedLineByLine | src/server/hls_routes.cpp:69-91 | line by line, with lines ended by LF: URI lines get the suffix, tags, blank lines and the final newline stay |
| HlsPlaylist.AsReadExactly | src/server/hls_routes.cpp:69-91 | the suffix stands in front of every line end of RFC 8216 and behind no blank line if and only if no blank line and no URI ends in CR LF |
| HlsPlaylist.TokensAsReadExactly | src/server/hls_routes.cpp:230-230 | the same for the program's own tokens |
| HlsPlaylist.StripRestores | src/server/hls_routes.cpp:69-91 | taking the suffix off the URI lines restores the playlist |
| HlsPlaylist.KeepsLinesExactly | src/server/hls_routes.cpp:69-91 | every playlist keeps its number of lines if and only if the suffix holds no newline |
| HlsPlaylist.SignedPlaylistRestores | src/server/hls_routes.cpp:230-230 | with the program's own tokens, lines are kept and stripping restores |
| ResponseBudget.SsdpResponseBudget.Allow | src/composition/ssdp_service.cpp:84-102 | the answer and the new state of a call are those of the bucket |
| ResponseBudget.TokensInRange | src/composition/ssdp_service.cpp:84-102 | on every run tokens stay between zero and the burst |
| ResponseBudget.RateBound | src/composition/ssdp_service.cpp:84-102 | over every window of every run, datagrams allowed stay within the burst plus rate times length |
| ResponseBudget.GrantedExactly | src/composition/ssdp_service.cpp:84-102 | a call is granted if and only if no window ending at it would exceed that bound |
| ResponseBudget.GrantedAfterQuiet | src/composition/ssdp_service.cpp:84-102 | a request of at most the burst is granted once burst divided by rate has passed |
| ResponseBudget.Unlimited | src/composition/ssdp_service.cpp:84-87 | a rate that is not positive grants everything |
| Sorting.SortPermutes | src/dlna-core/browse_handler.cpp:390-392 | sorting keeps every element as often as it was |
| Sorting.SortSorts | src/dlna-core/browse_handler.cpp:390-392 | the result is in order, for every total preorder |
| Sorting.SortStable | src/dlna-core/browse_handler.cpp:390-392 | elements that compare equal keep their order |
| ObjectIds.MakeOfParse | src/dlna-core/dlna_object_id.cpp:54-111 | every accepted id prints back to the same text |
| ObjectIds.ParseOfMake | src/dlna-core/dlna_object_id.cpp:23-111 | a printed id parses back if and only if it means itself |
| ObjectIds.AcceptsExactly | src/dlna-core/dlna_object_id.cpp:54-111 | the accepted texts are exactly the printed ids that mean themselves |
| ObjectIds.MakeInjective | src/dlna-core/dlna_object_id.cpp:23-52 | no two such objects share an id |
| ObjectIds.IdTexts | src/dlna-core/dlna_object_id.cpp:23-52 | the texts of the ids of every kind |
| Listings.Filter | src/catalog/in_memory_repository.cpp:26-32 | each kept row once, whatever order the table is gone through in |
| Listings.SortById | src/catalog/in_memory_repository.cpp:33-33 | the rows in byte order of their ids, each as often as before |
| Listings.StrLeqExactly | src/catalog/in_memory_repository.cpp:33-33 | byte order: the first differing byte decides, and a text comes in front of what extends it |
| Listings.ListingUnique | src/catalog/in_memory_repository.cpp:26-33 | a table has one listing, whatever enumerates and sorts it |
| Listings.CutPage | src/catalog/in_memory_repository.cpp:35-49 | the page that the listing gives for start and count, in uint32 arithmetic |
| Listings.Paginate | src/catalog/in_memory_repository.cpp:23-50 | the page of the id-sorted listing of the kept rows |
| Listings.PageIsSlice | src/catalog/in_memory_repository.cpp:35-49 | up to where uint32 counts the rows, a page is the slice at its start, of at most 1024 rows, and empty only at the end |
| Listings.WalkYieldsListing | src/catalog/in_memory_repository.cpp:35-49 | a client that moves on by what it got receives the listing once and in order, for all counts, if and only if uint32 can count it |
| Catalog.InMemoryRepository.AddArtist | src/catalog/in_memory_repository.cpp:54-57 | the artist is stored under its id, and nothing else changes |
| Catalog.InMemoryRepository.AddAlbum | src/catalog/in_memory_repository.cpp:59-62 | the album is stored under its id, and nothing else changes |
| Catalog.InMemoryRepository.AddTrack | src/catalog/in_memory_repository.cpp:64-67 | the track is stored under its id, and nothing else changes |
| Catalog.InMemoryRepository.AddRendition | src/catalog/in_memory_repository.cpp:69-71 | the rendition is appended to its track's, and nothing else changes |
| Catalog.InMemoryRepository.AddPlaylist | src/catalog/in_memory_repository.cpp:73-76 | the playlist is stored under its id, and nothing else changes |
| Catalog.InMemoryRepository.AddAsset | src/catalog/in_memory_repository.cpp:178-181 | the asset is stored under its id, and nothing else changes |
| Catalog.InMemoryRepository.BumpSystemUpdateId | src/catalog/in_memory_repository.cpp:108-111 | the counter goes up by one modulo 2^32, and nothing else changes |
| Catalog.InMemoryRepository.ListArtists | src/catalog/in_memory_repository.cpp:117-119 | a page of all artists in order of id |
| Catalog.InMemoryRepository.ListAlbumsForArtist | src/catalog/in_memory_repository.cpp:125-129 | a page of the artist's albums in order of id |
| Catalog.InMemoryRepository.ListTracksForAlbum | src/catalog/in_memory_repository.cpp:135-139 | a page of the album's tracks in order of id |
| Catalog.InMemoryRepository.ListAllTracks | src/catalog/in_memory_repository.cpp:141-143 | a page of all tracks in order of id |
| Catalog.InMemoryRepository.ListPlaylists | src/catalog/in_memory_repository.cpp:170-172 | a page of all playlists in order of id |
| Catalog.InMemoryRepository.GetRendition | src/catalog/in_memory_repository.cpp:158-168 | some stored rendition with the id, or none if there is none |
| BrowseHandler.BrowseArtistsChildren | src/dlna-core/browse_handler.cpp:265-283 | one entry for each row of the page, with the artist's album count |
| BrowseHandler.BrowseArtistAlbumsChildren | src/dlna-core/browse_handler.cpp:302-322 | one entry for each album of the page, with its track count |
| BrowseHandler.BrowseAlbumChildren | src/dlna-core/browse_handler.cpp:324-340 | one item for each track of the page, with its cover album |
| BrowseHandler.BrowseAllTracksChildren | src/dlna-core/browse_handler.cpp:342-358 | one item for each track of the page, below its album or the track list |
| BrowseHandler.BrowsePlaylistsChildren | src/dlna-core/browse_handler.cpp:360-378 | one entry for each playlist of the page, with its item count |
| BrowseHandler.BrowsePlaylistChildren | src/dlna-core/browse_handler.cpp:380-413 | the items of the page by position whose tracks exist; the total counts all items |
| BrowseHandler.BuildTrackItem | src/dlna-core/browse_handler.cpp:54-76 | the item's id, parent, title, track number and, when its album has a cover, that album |
| BrowseHandler.Describe | src/dlna-core/browse_handler.cpp:114-227 | the entry for an object, or none when it does not exist |
| BrowseHandler.BrowseDirectChildren | src/dlna-core/browse_handler.cpp:415-456 | the children of every kind of object, or `NoSuchObject` |
| BrowseHandler.HandleBrowse | src/dlna-core/browse_handler.cpp:461-493 | the answer to every request, with each of its refusals |
| BrowseTree.EntryIsBelow | src/dlna-core/browse_handler.cpp:229-413 | every entry is for an object that the catalog's references put below, and advertises the same child count as that object's own description |
| BrowseTree.BelowIsListed | src/dlna-core/browse_handler.cpp:229-413 | every object below is an entry of some page |
| BrowseTree.ListsExactly | src/dlna-core/browse_handler.cpp:229-456 | the ids that browsing an object can turn up are exactly those of the objects below it |
| BrowseTree.NavigableExactly | src/dlna-core/dlna_object_id.cpp:54-111 | everything below can be browsed under its own id if and only if no id is empty and no artist id ends in `:albums` |
| BrowseTree.ExistsAnswers | src/dlna-core/browse_handler.cpp:415-456 | direct children are refused exactly for objects that do not exist, except tracks |
| BrowseTree.DescentsEnd | src/dlna-core/browse_handler.cpp:229-456 | in every catalog, whatever its ids, a descent ends within six steps |
| BrowseTree.ChildCountsAgree | src/dlna-core/browse_handler.cpp:96-227 | the advertised count is the total of the children for six kinds of container, for an artist exactly with one album, for the root never |
| BrowseAnswers.ArgExactly | src/upnp/soap_envelope.hpp:24-37 | an argument is looked up as the first of its name |
| BrowseAnswers.RefusedExactly | src/dlna-core/browse_handler.cpp:461-477 | another action, a missing object id and an id that names no object are refused, each as such |
| BrowseAnswers.FlagDecides | src/dlna-core/browse_handler.cpp:479-493 | an absent flag or `BrowseDirectChildren` asks for the children from the start and count given, where an absent or unreadable number is 0; `BrowseMetadata` for the object's own entry; any other flag is refused |
| BrowseAnswers.MetadataExactly | src/dlna-core/browse_handler.cpp:114-227 | an object that exists is answered with one entry under its own id, another with none and no fault; both counts are the number of entries |
| BrowseAnswers.ParentListsExactly | src/dlna-core/browse_handler.cpp:114-227 | the parent that an object's own entry names lists the object if and only if it is not the root, the list of playlists, an album without a known artist or a track of an unknown album |
| BrowseAnswers.DescriptionShows | src/dlna-core/browse_handler.cpp:54-227 | an object's own entry shows its id, name or title, and for a track its number and its album's cover |
| BrowseAnswers.EntryShows | src/dlna-core/browse_handler.cpp:229-413 | so does every entry of a listing for an object below, with the object browsed as parent, or the track's album in the list of all tracks |
| BrowseAnswers.WholeListings | src/dlna-core/browse_handler.cpp:229-300 | the listings without pages show music and playlists, then artists and tracks, then the artist's albums, in that order |
| BrowseAnswers.AnswersCarryUpdateId | src/dlna-core/browse_handler.cpp:229-456 | every answer but a track's carries the catalog's update id |
| BrowsePaging.ReturnedCounts | src/dlna-core/browse_handler.cpp:229-413 | NumberReturned is the number of entries |
| BrowsePaging.PagingYieldsAll | src/dlna-core/browse_handler.cpp:265-378 | paging through five kinds of container ends and gives every entry once and in order, for all counts, if and only if uint32 can count them |
| BrowsePaging.PlaylistPagingExactly | src/dlna-core/browse_handler.cpp:394-412 | paging through a playlist gives its live items once and in order, for all counts, if and only if no dangling item precedes a live one |
| BrowsePaging.GapRepeats | src/dlna-core/browse_handler.cpp:394-412 | with such a gap, a client that asks for everything is given more entries than there are |
| BrowsePaging.PlaylistOrder | src/dlna-core/browse_handler.cpp:390-392 | a playlist is shown by position, and items at one position in their stored order |
| BrowsePaging.ServerAnswersClient | src/dlna-core/browse_handler.cpp:461-493 | for every enclosed id the server answers the client's request text with the children of the object that the trimmed and decoded id names, and of the page asked for |
| BrowsePaging.ClientReadsAnswer | src/cli/dlna_status.cpp:197-230 | from the response text the client reads the answer's counts |
| PathLayout.SlugOf | src/scanner/path_layout.cpp:27-44 | the loop with its pending dash yields the slug |
| PathLayout.SlugShape | src/scanner/path_layout.cpp:27-44 | a slug has the shape `[a-z0-9]+(-[a-z0-9]+)*`, or is empty exactly for texts without letters and digits |
| PathLayout.SlugFixedPoint | src/scanner/path_layout.cpp:27-44 | the texts that slugging leaves alone are exactly those of that shape, so it is idempotent |
| PathLayout.SlugKeepsLetters | src/scanner/path_layout.cpp:27-44 | letters and digits are kept in order, up to case |
| PathLayout.SlugJoins | src/scanner/path_layout.cpp:27-44 | words with anything between them are joined by one dash, and letters side by side by none |
| PathLayout.ParseTrackPath | src/scanner/path_layout.cpp:46-101 | the loops yield artist, album, number, title and extension, or nothing |
| PathLayout.NumberedNameReadsBack | src/scanner/path_layout.cpp:76-99 | a name in the documented layout, number, separators, title and extension, is read back to its parts |
| PathLayout.PlainNameReadsBack | src/scanner/path_layout.cpp:60-99 | a name that does not start with a digit is all title |
| ScannerIds.TrackIdPart | src/scanner/media_scanner.cpp:88-102 | album part, number with two digits at least, and slug |
| ScannerIds.AlbumIdSplits | src/scanner/media_scanner.cpp:84-86 | an album id splits into artist and album slug in one way |
| ScannerIds.RenditionIdSplits | src/scanner/media_scanner.cpp:84-177 | a rendition id splits into artist, album, track part and extension in one way |
| ScannerIds.KeysAreIdText | src/scanner/media_scanner.cpp:171-178 | the ids of a file consist of lower-case letters, digits, dashes and colons |
| ScannerIds.IdTextIsSafe | src/hls/segmenter.cpp:62-76 | such an id may name a cache directory if and only if it has at most 256 characters |
| MediaScanner.Scanner.UpsertCover | src/scanner/media_scanner.cpp:180-204 | the cover is written once for an album whose row is not, and named when it is there |
| MediaScanner.Scanner.ScanOne | src/scanner/media_scanner.cpp:143-294 | the calls, sets and counters of one file, whatever the writer refuses |
| MediaScanner.ScanLibrary | src/scanner/media_scanner.cpp:106-302 | the report and calls of a whole scan over the entries that the walk comes to; no call when the root is missing or cannot be opened |
| ScanProperties.ScanKeeps | src/scanner/media_scanner.cpp:133-295 | for every library and pattern of refusals, each call refers only to rows written before it, the sets hold what was written, and the counters are their sizes |
| ScanProperties.EveryFileCounted | src/scanner/media_scanner.cpp:133-295 | each regular file that the walk comes to is skipped, has its track written, or is given up over one refusal; the errors are the refusals, each once |
| ScanProperties.CompleteExactly | src/scanner/media_scanner.cpp:126-302 | for walks that may break anywhere: a break is not among the errors, and the report accounts for every file if and only if the break left none unseen |
| ScanProperties.BumpedOnceLast | src/scanner/media_scanner.cpp:297-299 | the update id is bumped by the last call and by no other |
| ScannedFiles.PartsExactly | src/scanner/path_layout.cpp:46-58 | a path has three names if and only if nothing but blank segments stands between and around them |
| ScannedFiles.TitleExactly | src/scanner/path_layout.cpp:71-99 | the title and number of a stem: digits below 2^16, separators and a rest, or all of it title |
| ScannedFiles.IndexedExactly | src/scanner/media_scanner.cpp:143-169 | a file is indexed if and only if it lies two directories deep under names that hold a letter or digit, its title holds one, and it ends in an audio extension in any case; every other file is skipped |
| ScannedFiles.IndexedFileWrites | src/scanner/media_scanner.cpp:171-294 | the rows of such a file where nothing is refused: cover, artist and album if new, then its track and its rendition, with ids from the slugs, tags in front of path names, and the file's own number, duration, size and path; and the counters |
| ScannedFiles.OtherFileIsSkipped | src/scanner/media_scanner.cpp:143-169 | any other file is counted as skipped, and nothing else changes |
| ScannedFiles.LibraryIsIndexed | src/scanner/media_scanner.cpp:133-295 | over a library, tracks and renditions are the indexed files and the skipped are the others |
| ScannedCatalog.Store | src/catalog/in_memory_repository.cpp:82-111 | the in-memory repository as a writer: what each call changes |
| ScannedCatalog.ReplayKeeps | src/scanner/media_scanner.cpp:133-295 | calls with closed references keep the tables whole and their ids meaning themselves |
| ScannedCatalog.ScanKeepsCatalog | src/scanner/media_scanner.cpp:106-302 | after every single call of a scan no row refers to a missing one, and a control point can browse all that it is shown |
| ScannedCatalog.ScannedIdsTravel | src/scanner/media_scanner.cpp:171-178 | the object ids of scanned rows need no escaping, and a request for one arrives as the client meant it |
| SchemaMigration.EnsureSchema | src/catalog/sqlite_repository.cpp:228-293 | a run applies a prefix of its script, succeeds exactly when it is the whole script and exactly when no statement fails, and refuses exactly newer databases, unchanged |
| SchemaMigration.RunMigrations | src/catalog/sqlite_repository.cpp:276-290 | the loop applies the pending migrations in order, each before its record, up to the first failure |
| SchemaMigration.ScriptInOrder | src/catalog/sqlite_repository.cpp:262-290 | on a new database a script is the baseline with its record and then the rest; at the version of any migration it is what follows that migration |
| MigrationRestarts.RunReaches | src/catalog/sqlite_repository.cpp:228-293 | one run of this or an older release, stopped anywhere, leaves the schema of the steps so far, each applied once, no less far than before |
| MigrationRestarts.MigrationConverges | src/catalog/sqlite_repository.cpp:228-293 | after any interrupted runs, a recorded version means that all steps up to it were applied, and one whole run gives the schema of a run from scratch, if statements are harmless where restarts give them again |
| MigrationRestarts.KeepsProgressExactly | src/catalog/sqlite_repository.cpp:228-293 | no interruption ever undoes work if and only if each statement changes nothing at the places where a restart gives it again |
| MigrationRestarts.ConvergesExactly | src/catalog/sqlite_repository.cpp:228-293 | a release and all before it converge after any interruptions if and only if interrupted baselines recover and each migration changes nothing right behind itself |
| MigrationRestarts.RecoversExactly | src/catalog/sqlite_repository.cpp:262-274 | interrupted baselines recover if and only if sets of schemas, in front of each statement and behind the last, are kept by every single statement and every restart and end in one schema |
| MigrationRestarts.HarmlessRecovers | src/catalog/sqlite_repository.cpp:262-274 | baselines whose statements are harmless where restarts give them again recover, so what keeps progress converges |
| SchemaMigration.VersionNeverDecreases | src/catalog/sqlite_repository.cpp:228-293 | no run of any release lowers the recorded version |
| MigrationRestarts.GuardedIsHarmless | src/catalog/sqlite_schema.hpp:18-145 | statements that do nothing where what they make exists, with no baseline statement unmaking what another makes, meet both conditions, for schemas of every kind |
| MigrationRestarts.IdempotenceIsNotEnough | src/catalog/postgres_schema.hpp:8-12 | a release with two baseline statements, each harmless when given twice, one stopped run and a whole run that end elsewhere than a run from scratch |
| MigrationRestarts.LaterMigrationsMayOverwrite | src/catalog/sqlite_repository.cpp:276-290 | as migrations the same two statements converge, for a migration is never given again behind a later one |
| MigrationRestarts.MigrationsMayDrop | src/catalog/sqlite_repository.cpp:262-290 | a baseline that creates a table and a migration that drops it converge |

## Left out

- Segmenter.Next: the segmenter is a state machine on values and not a class, because the steps of its threads interleave.
- SegmenterSafety.InvAlways: `remove_all` and `rename` are single steps, so a deletion that fails half way leaves the directory as it was; ffmpeg, the clock and every answer of the file system are choices of the environment.
- SegmenterExclusion.WindowSafeRunsExclude: assumes that no erasure of a mutex falls between another thread's fetch and its try; without a cap, or where one rendition is built and only its builds sweep, that is no assumption (`SegmenterQuiet.NoCapWindowSafe`, `SegmenterQuiet.OneBuilderWindowSafe`); for callers that can race under a cap exclusion is false.
- SegmenterExclusion.ChangesOnlyGuarded: deleting an abandoned work directory, and touching a playlist's time on the fast path, need no mutex in the program either.
- Segmenter.Advance: the fast path (`Probe`: exists, read, touch) and the second look (`Recheck`: exists, read, delete) are one step each, where the program makes several accesses.
- SegmenterSafety.OwnStepsEnd: counts a call's own steps; how long a transcode or a wait for the registry takes is not modelled.
- Segmenter.Build: `remove_all` of the cache itself deletes all of its contents or none, and a call for `.` finds a playlist there, or an incomplete one to delete, as the environment decides.
- XmlLexer.OpenTagAt: a `<` at the very end of the text is followed by nothing, so it starts no closing tag; the program looks one byte further there.
- SoapParser.WorkBound: counts charges; the scans for the end of a tag that fail inside the tag reader are not charged, and depths and lengths are unbounded where the program has int and size_t.
- ResponseBudget.RateBound: exact reals stand for doubles, and times never go back.
- MediaToken.Sign: the sum of now and lifetime stays within int64; hash strength and the time that comparisons take are not modelled.
- BrowseHandler.Describe: a result is a list of entries; the DIDL-Lite text, classes, resources and protocol strings are left out.
- BrowseHandler.BuildTrackItem: the cover is the album that its URL names; the class and resource selection are left out.
- BrowseTree.ListsExactly: assumes that uint32 can count the object's rows.
- BrowsePaging.PlaylistPagingExactly: speaks of the items that uint32 can count.
- MediaScanner.ScanLibrary: counters are unbounded where the program has uint32, and a rendition row carries its id, track, size and path only.
- ScanProperties.EveryFileCounted: a directory walk is a list of entries, with the place where it breaks; ffprobe, the cover lookup and file sizes are inputs.
- MigrationRestarts.MigrationConverges: a failed statement has no effect, and releases only append migrations, with ascending versions above 1.
- MigrationRestarts.ConvergesExactly: speaks of a release together with all before it; that the last release alone converges may be due to what a later migration repairs.
- Renditions of a rescan: the in-memory repository holds them twice, so no upsert is claimed.
- Track ids: a numbered title and an unnumbered one can share an id, so no uniqueness is claimed.
- Parent ids: entries name the parents that the code gives them, which are not always the container browsed.
- SOAP faults, device descriptions, SCPD documents, the description parser of the client and its decoding of entities: text with little logic.
- SQL text and the two SQL repositories apart from the schema migration: row order there depends on collation.
- The LAN address test of SSDP: easy.
- Processes, sockets, HTTP routing, signals, file watchers, argument vectors, logging and wiring.
