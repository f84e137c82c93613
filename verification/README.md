# Verified model of logmcp

logmcp is an MCP server that gives language models access to log files, databases, documents and
extension tools. This project models the parts of it that keep state or stream data and proves what
they promise:

- `LogReader`, `LogSearch`, `LogAccess`: reading and searching log files in one pass, and the cached
  list of accessible files (internal/logs);
- `RateLimit`, `Middleware`, `AuthRuns`, `AuthTight`, `VerifyCache`: the sliding-window limiter, the
  bearer token middleware, many requests at the same time, and the cache of accepted tokens
  (internal/auth);
- `Rpc`: requests over Redis lists, with many senders and workers (internal/extensions/rpc; the
  worker is not in the repository and behaves as docs/RPC.md says);
- `Text`, `Chunking`, `Chunks`, `RagFiles`, `RagStore`, `RagRuns`, `RagClashes`, `RagBreaks`,
  `RagIndexer`, `RagQuery`: cutting documents, the three kinds of Redis keys, re-indexing, source names
  that clash, pipelines that break off, and searching (internal/rag);
- `SchemaGroups`, `SchemaStore`: grouping schema rows and the per-connection caches (internal/database);
- `ServerReload`: what the server serves requests with, and how a reload replaces it (internal/mcp);
- `Template`, `MacroRunner`: placeholders and the sequential steps of a macro (internal/macro).

Loops that update variables are methods with loops, objects whose methods change fields are classes,
and both are proved against specification functions. Locks appear as atomic critical sections: code
that is run by several goroutines is also modelled as a transition system over these sections
(`LogAccess`, `AuthRuns`, `VerifyCache`, `Rpc`, `RagRuns`, `SchemaStore`), and the lemmas about it hold
for every sequence of events. Clock readings, random keys, what Redis, the database, an embedding
service or a subprocess answers, regular expressions, globbing, symbolic links, JSON, YAML and
timestamps are inputs or arbitrary functions.

What an operation promises is stated apart from the functions that compute it: over positions, lists,
histories and events, with the constants written out.

Check it with `dafny verify dfyconfig.toml`.

## Where the code does something else than its comments or one might expect

- Searching with context can return more entries than the limit (`LogSearch.ExtraMatches`,
  `LogSearch.DenseHitsIgnoreTheLimit`).
- Reading the tail ignores the offset; a negative offset shortens the page of a head read, but one
  line is always read (`LogReader.ReadFile`).
- The file list can name a path twice: links are resolved after duplicates are removed
  (`LogAccess.FilePathsDistinctIff`, `LogAccess.LinksAreListedTwice`).
- A paragraph over the chunk limit is not cut, although the comment says so; the cut by runes only
  ever happens to white space, which is dropped afterwards (`Chunking.LargeSectionFitsIff`,
  `Chunking.RuneCutIsBlank`).
- A first heading on the twentieth line of a document makes all the rest of it part of the title
  (`Chunks.LateTitle`).
- Source names without a slash are not enough to keep two sources apart in Redis: `idx:a` and `a`
  collide, and the configuration does not refuse such names (`RagClashes.ConsistentIffCompatible`).
- A drop that breaks off after deleting the id set leaves hashes that no later drop finds
  (`RagBreaks.OrphanIff`, `RagBreaks.DisagreementsAreExplained`).
- A worker can still accept a request at the very instant its sender gives up
  (`Rpc.PopAtTimeoutIsAccepted`).
- A reload that only changes the authenticator's timeout keeps the old timeout until the command
  changes (`ServerReload.TimeoutsAreCurrentIff`, `ServerReload.TimeoutChangeIsIgnored`). Every
  successful reload forgets all recorded authentication failures (`ServerReload.Server.Reload`).
- A placeholder path that ends in an array gives the whole array, not its first element
  (`Template.ReadAsDocumentedIff`, `Template.ArrayIsShownWhole`), and placeholders inside nested
  arguments stay (`Template.RecursiveIff`, `Template.NestedPlaceholderStays`).
- Step IDs are documented as unique but not checked; the last one wins (`MacroRunner.LastWins`).

## Model

| member | source | states |
|---|---|---|
| LogReader.ReadFile | internal/logs/logs.go:389-476 | opening errors are errors; a read error only counts when the unread part was needed; otherwise the answer is a page of the lines in time, in file order: those without a timestamp or with one not before since and not after until. Tail is their last n and ignores the offset, head the n after the offset, n defaulting to 100. When fewer than n come back and nothing was skipped, no line in time is missing |
| LogReader.FilteredInTime | internal/logs/logs.go:411-424 | the lines that are kept are, in order, exactly those whose timestamp is missing or within since and until, both included |
| LogReader.ReadTail | internal/logs/logs.go:406-439 | the ring buffer returns exactly the last min(n, N) of the N time-filtered lines, in order |
| LogReader.ReadHead | internal/logs/logs.go:441-476 | head mode returns lines [offset, offset+n) of the filtered file although it stops reading after offset + n of them; a negative offset takes lines off the end of the page |
| LogReader.RingStore | internal/logs/logs.go:424-426 | one store keeps slot j mod n holding line j for the last n lines |
| LogReader.RingUnrolled | internal/logs/logs.go:434-438 | unrolling the ring at pos mod n gives the last n lines in order |
| LogReader.UnrollRing | internal/logs/logs.go:431-438 | what is read out of the ring is the last lines stored, whether it has wrapped around or not |
| LogReader.HeadCut | internal/logs/logs.go:441-475 | what is left of the lines read after the offset cut is the specified page, and never more than n lines |
| LogReader.PagesConcatenateToFile | internal/logs/logs.go:441-476 | pages at offsets 0, n, 2n, ... joined give the whole filtered file, each line once |
| LogReader.TailIsLastPage | internal/logs/logs.go:406-476 | tail n is head at offset N - n when N >= n, and the whole file otherwise |
| LogSearch.CollectMatches | internal/logs/logs.go:484-551 | the one-pass loop returns `Reported`: a prefix of the whole-file list of entries, ending where early stopping is allowed, and says whether it broke off |
| LogSearch.ScanLines | internal/logs/logs.go:490-550 | the loop with its deque, countdown and stop computes the line-by-line scan function |
| LogSearch.ReadLine | internal/logs/logs.go:496-549 | one round of the loop, with the filter, the open after-window, the match and the deque in that order, is one step of that function |
| LogSearch.ScanCorrect | internal/logs/logs.go:490-550 | the scan with rolling state equals the whole-file specification for every input, filter, pattern, context size and limit |
| LogSearch.MatchesGrow | internal/logs/logs.go:513-534 | reading one more line only feeds the open after-window of the last entry, and a hit adds one entry at the end |
| LogSearch.NothingIsLost | internal/logs/logs.go:544-547 | once the scan stops, no entry and no context line of the reported entries is missing, whatever follows |
| LogSearch.HitsComplete | internal/logs/logs.go:502-525 | the hit indices contain every in-range line that matches |
| LogSearch.EntriesAreHits | internal/logs/logs.go:519-525 | a line is a hit exactly when its entry is among all entries; the entry carries the 1-based raw line number and the raw lines before it |
| LogSearch.AfterContext | internal/logs/logs.go:513-517 | the after-context is a prefix of the in-range lines after the hit, at most k long, with a match at most as its last line, and cut short only by that match or the end of input |
| LogSearch.LimitsNest | internal/logs/logs.go:545-547 | the result for a limit m is a prefix of the result for any larger limit, contexts included |
| LogSearch.WithoutContext | internal/logs/logs.go:527-547 | without context the result is the first min(m, total) entries |
| LogSearch.ExtraMatches | internal/logs/logs.go:527-547 | with context more than m entries can come back: the number returned is the only one that is at least min(m, total), is reached by gaps of at most k in-range lines, and is followed by a larger gap if by anything |
| LogSearch.DenseHitsIgnoreTheLimit | internal/logs/logs.go:527-547 | when every line is a hit and any context is asked for, all lines come back, however small the limit |
| LogSearch.SearchFile | internal/logs/logs.go:554-600 | an empty or broken pattern and a file that cannot be opened are errors; a read error is reported exactly when the scan did not stop before it. Every entry is a matching line in time with the raw lines before it and the lines in time after it up to the next match; every matching line in time is reported, or lies behind the last entry when the limit (200 by default) is reached |
| LogSearch.ReportedIsFound | internal/logs/logs.go:484-551 | for any filter, what the scan reports is exactly that |
| LogSearch.SearchIsFound | internal/logs/logs.go:574-594 | and the filter of a search lets through exactly the lines in time |
| LogSearch.SearchEverythingIsHead | internal/logs/logs.go:389-600 | a match-all search without context and with limit n returns the same lines as reading the head with n |
| LogAccess.CheckACL | internal/logs/logs.go:198-210 | a path passes exactly when no blacklist pattern matches it and some whitelist pattern does, written out over the two lists |
| LogAccess.ListingExact | internal/logs/logs.go:212-304 | an entry other than the journal is listed exactly when some whitelist pattern expands to it, it is a file, and its resolved path is matched by no blacklist and some whitelist pattern; the entry has the resolved path and the size, is readable exactly when the path really opened passes both lists too, and counts lines only then |
| LogAccess.ReadableIsPermitted | internal/logs/logs.go:212-236 | an entry is only readable when the path really opened is permitted too |
| LogAccess.FilePathsDistinctIff | internal/logs/logs.go:270-289 | listed paths are distinct exactly when no two different globbed files resolve to one path, because duplicates are removed before links are resolved |
| LogAccess.LinksAreListedTwice | internal/logs/logs.go:278-302 | two links to one file are listed under the same path twice |
| LogAccess.Manager.Update | internal/logs/logs.go:96-103 | the new lists are in force and no cached list can be served any more |
| LogAccess.Manager.FromCache | internal/logs/logs.go:245-250 | a cached list is returned as a fresh copy, only while younger than 30 seconds |
| LogAccess.Manager.FromScan | internal/logs/logs.go:253-311 | under the write lock the cache is checked again; while it is younger than 30 seconds the last scan's listing is returned, otherwise this very scan is logged, its time becomes the cache time, and its listing under the lists in force is cached and returned as a copy |
| LogAccess.Manager.ListAccessible | internal/logs/logs.go:242-312 | with any updates and scans of others before and between its two critical sections, the whole new state is fixed, the returned list is that of the last logged scan under the lists in force at return, less than 30 seconds old, and shares no storage with the cache |
| LogAccess.RunSound | internal/logs/logs.go:242-312 | in every interleaving of calls, scans and updates the cache time is that of the last scan, and every list returned is that of some scan under the lists then in force |
| LogAccess.ListsAreFresh | internal/logs/logs.go:242-312 | in every interleaving with a monotone clock: when a call returns, its list is what a scan that was really made saw, under the access lists in force at that moment, and the scan ended less than 30 seconds before |
| RateLimit.BlockedMatchesHistory | internal/auth/ratelimit.go:28-66 | after any calls with a monotone clock, the pruned lists keep as many times of an address as its full history has failures in the window; no address keeps an empty list |
| RateLimit.RunRepresents | internal/auth/ratelimit.go:28-66 | over any run the kept lists stay sorted and agree with the full history from the window on |
| RateLimit.DropCounts | internal/auth/ratelimit.go:52-62 | on a sorted list dropping the old prefix leaves as many times as filtering the whole list |
| RateLimit.RateLimiter.constructor | internal/auth/ratelimit.go:19-25 | a new limiter remembers nothing |
| RateLimit.RateLimiter.IsBlocked | internal/auth/ratelimit.go:28-33 | blocked exactly when at least maxFailures entries of the full history are the address's and lie between now - window and now |
| RateLimit.RateLimiter.Record | internal/auth/ratelimit.go:36-41 | one failure with the time of the call is added to the history, and the kept lists still stand for it |
| RateLimit.RateLimiter.Prune | internal/auth/ratelimit.go:53-66 | the address loses its expired prefix, and its entry when nothing is left; the rest of the map is untouched |
| RateLimit.RateLimiter.PruneAll | internal/auth/ratelimit.go:44-50 | every address is pruned once with a cutoff between the first and the last clock reading |
| Middleware.HeaderToken | internal/auth/auth.go:110-124 | a header yields a token exactly when it is "bearer" in any case, one space and the token (section 2.1 of RFC 6750, section 11.1 of RFC 9110) |
| Middleware.StaticResolver | internal/auth/auth.go:74-91 | the last entry with the given value decides; no entry means rejected |
| Middleware.ResolvesUnique | internal/auth/auth.go:79-89 | that verdict is the only one |
| Middleware.RecordFailure | internal/auth/auth.go:162-170 | one failure of the address is added in every configured tier |
| Middleware.Authenticate | internal/auth/auth.go:110-140 | once neither tier blocks: the answer follows from header and verdict (what it means is said by `Handle`), and a 401, and nothing else, is recorded |
| Middleware.Handle | internal/auth/auth.go:96-143 | 429 (section 4 of RFC 6585) exactly when a configured tier blocks at its own check. Otherwise 200 exactly when the header is the word bearer in any case, one space and a token that the resolver accepts; 500 exactly when it fails on that token; 401 exactly when there is no such token or it is rejected. Each 401 is recorded once in every configured tier and no other answer is |
| AuthRuns.FailuresPerWindow | internal/auth/auth.go:96-143 | in every interleaving with at most C requests of an address in flight, any interval of the window length, both ends included, holds at most maxFailures - 1 + C recorded failures of it, per tier; none if maxFailures < 1 |
| AuthTight.BoundIsReached | internal/auth/auth.go:96-143 | that bound is tight: for every limit of at least 1, window, number of requests in flight and tier there is a run with exactly maxFailures - 1 + C recorded failures in one window |
| AuthRuns.RunBudget | internal/auth/auth.go:101-108 | the failures that count now plus the requests already past a check never exceed that bound |
| AuthRuns.RunRepresented | internal/auth/ratelimit.go:28-66 | in every interleaving the pruned lists of each tier stand for its full history |
| AuthRuns.RecordedOnce | internal/auth/auth.go:162-170 | a request answered 401 has been recorded exactly once in every configured tier, any other answered request never |
| AuthRuns.RecordedUnderOwnAddress | internal/auth/auth.go:99-135 | each recorded failure is under the address of the request it belongs to |
| AuthRuns.RunGrounded | internal/auth/auth.go:96-143 | in every interleaving: a request is answered 200 only with a token in its header and after a verdict Accepted on it, 500 only with a token and after a failure of the verifier, 401 only without a token or after a rejection, 429 only when a tier had maxFailures failures of the address within its window at its check; there is no other answer |
| AuthRuns.AloneIsHandled | internal/auth/auth.go:96-143 | a request whose steps run without a break is answered, and leaves the histories, as `Middleware.Handle` does |
| VerifyCache.Cache.Verify | internal/auth/cache.go:33-52 | an entry of the token that expires after the lookup is served without asking; otherwise the verifier is asked once, its answer is the answer, and only an acceptance is stored, until its time plus ttl |
| VerifyCache.AloneIsVerify | internal/auth/cache.go:33-52 | the critical sections of a call, run without other calls, give the answer and leave the entries that Verify does |
| VerifyCache.NotAskedAgain | internal/auth/cache.go:33-52 | in a sequential run the verifier is not asked again about an accepted token within ttl of its being stored |
| VerifyCache.ServedWasAccepted | internal/auth/cache.go:33-52 | in every interleaving, an answer from the cache is an acceptance the verifier gave for that very token, stored less than ttl earlier |
| VerifyCache.AnswersAreVerdicts | internal/auth/cache.go:33-52 | every finished call returns something the verifier said about its token: during the call itself or, from the cache, an acceptance stored less than ttl before |
| VerifyCache.RunKeeps | internal/auth/cache.go:33-52 | entries carry acceptances only, in every interleaving over a verifier that changes its mind |
| Rpc.Call | internal/extensions/rpc/rpc.go:44-105 | parameters that cannot be marshalled are an error before anything is sent; otherwise one push of the request with its deadline and default parameters and scopes, then at most one wait on the own reply key; the other errors are Redis errors only, and every broken or missing reply is an execution_error result |
| Rpc.OwnReply | internal/extensions/rpc/rpc.go:44-105 | in every interleaving of senders and workers a call returns, unchanged, what some worker pushed while it held the very request of this call |
| Rpc.AtMostOnce | docs/RPC.md:62-86 | requests are popped in push order, each at most once, and answered at most once, only if popped before their deadline |
| Rpc.LatePopIsExpired | internal/extensions/rpc/rpc.go:44-74 | a worker that pops a request strictly after its sender timed out finds it expired |
| Rpc.PopAtTimeoutIsAccepted | internal/extensions/rpc/rpc.go:44-74 | strictness is needed: at the instant of the timeout a worker can still accept the request, for every whole number of milliseconds |
| Rpc.RequestsAreGenuine | internal/extensions/rpc/rpc.go:57-72 | what a worker pops is what the call of that id made of its arguments, with a deadline at most a millisecond before the end of its timeout, and pushed |
| Rpc.ExpiresAt | internal/extensions/rpc/rpc.go:46 | the deadline in the request is the end of the timeout cut down to whole milliseconds, never later |
| Chunking.SplitLargeSection | internal/rag/chunk.go:122-150 | the accumulating loop computes the greedy packing, or the rune slices when there is no paragraph |
| Chunking.LargeSection | internal/rag/chunk.go:122-150 | for a text over 6000 runes with a paragraph: the paragraphs are the parts between blank lines without the white space around them, those that are blank left out; the pieces joined by blank lines give them back in order, each piece fits or is one oversized paragraph, and no admissible split of the paragraphs has fewer pieces |
| Chunking.ParagraphsAreParagraphs | internal/rag/chunk.go:129-133 | the paragraphs are those parts, in order |
| Chunking.SmallSection | internal/rag/chunk.go:122-125 | a text of at most 6000 runes is one piece |
| Chunking.StaysAhead | internal/rag/chunk.go:129-142 | from any point on, greedy packing needs no more pieces than any other admissible split |
| Chunking.PackedIsSplit | internal/rag/chunk.go:129-145 | packing is a split of the paragraph sequence into consecutive non-empty admissible groups |
| Chunking.LargeSectionFitsIff | internal/rag/chunk.go:119-150 | all pieces fit exactly when all trimmed paragraphs do: an oversized paragraph is not cut |
| Chunking.RuneCutIsBlank | internal/rag/chunk.go:146-148 | the rune fallback only ever cuts white space |
| Chunking.SplitByRunes | internal/rag/chunk.go:153-164 | the loop computes the consecutive slices |
| Chunking.SlicesRejoin | internal/rag/chunk.go:153-164 | the slices joined are the text, all of full size but the last |
| Chunking.SplitSections | internal/rag/chunk.go:93-117 | the lines of the document fall into sections that begin with a heading (the first need not), and each section into its pieces, all in order |
| Chunking.SectionsAreSections | internal/rag/chunk.go:93-117 | the sections are those, apart from how they are computed |
| Chunking.SectionsRejoin | internal/rag/chunk.go:93-117 | before size splitting the sections joined by newlines are the document |
| Chunking.SectionsStartWithHeadings | internal/rag/chunk.go:107-114 | every section after the first starts with a heading, and none has a heading after its first line |
| Chunks.ChunkMarkdown | internal/rag/chunk.go:34-84 | front matter, title and body are the specified ones, and the chunks are those of the sections of the body that are not blank, in order, numbered by their place among all sections, their text the section without the white space around it |
| Chunks.ChunksExact | internal/rag/chunk.go:44-60 | one chunk for each section that is not blank, its text the section without surrounding white space, its identifier source, file and place among all sections |
| Chunks.FrontmatterExact | internal/rag/chunk.go:63-75 | the front matter is what lies between a first line of three dashes and the next such line, and the body what follows; without both there is none |
| Chunks.TitleExact | internal/rag/chunk.go:36-44 | the title is that of the front matter, else the first heading of level one on the first twenty lines, else the file name |
| Chunks.LateTitle | internal/rag/chunk.go:77-84 | a heading on the twentieth line takes the rest of the document into the title |
| Chunks.DocumentIsExact | internal/rag/chunk.go:34-61 | the chunks of a document are those of its front matter, title and sections |
| Text.TrimIsStripped | internal/rag/chunk.go:47-50 | a trimmed text is the text without some white space at both ends, and has none there |
| Text.StrippedIsTrim | internal/rag/chunk.go:47-50 | and there is only one such text |
| Text.IndexIsFirst | internal/rag/chunk.go:68-71 | the position found is the first one at which the separator occurs |
| Text.SplitIsCut | internal/rag/chunk.go:94-130 | the parts of a split joined by the separator give the text back, and the separator begins nowhere in a part, nor across its end |
| Text.CutIsSplit | internal/rag/chunk.go:94-130 | and no other parts do that |
| Chunks.ChunkIdsDistinct | internal/rag/chunk.go:46-59 | no two chunks of a document share an identifier |
| Chunks.ChunkIdInjective | internal/rag/chunk.go:53 | within a source, file and number can be read off the identifier |
| Chunks.ChunkIdSource | internal/rag/chunk.go:53 | the source can be read off too when source names have no slash |
| Chunks.ChunkIdsCanCollide | internal/rag/chunk.go:53 | with slashes in source names two sources can share an identifier |
| RagStore.KeysInjective | internal/rag/store.go:38-48 | each key function is injective and a source's two sets never share a key with each other |
| RagStore.VsMeetsIdxIff | internal/rag/store.go:38-44 | one source's vectors lie under another's id set key exactly when its name is "idx:" and the other's name |
| RagStore.VsMeetsMetaIff | internal/rag/store.go:38-48 | a source's vectors lie under a chunk's key exactly when its name is "meta:" and the chunk id |
| RagStore.DropEffect | internal/rag/store.go:51-65 | the drop commands delete the vector set, the id set and the hashes of the listed ids, and nothing else |
| RagStore.AddEffect | internal/rag/store.go:69-104 | the add commands put every chunk in vector set, id set and hash |
| RagStore.ReindexIsExact | internal/rag/store.go:51-104 | whatever was stored before, dropping and adding leaves exactly the added chunks in the source's index |
| RagIndexer.Store.Exec | internal/rag/store.go:73-103 | a pipeline runs a prefix of its commands, each applied or refused; success means that all were applied |
| RagIndexer.Store.Drop | internal/rag/store.go:51-65 | success removes the source's vector set, its id set and the hash of every id in it, and nothing else; a failure leaves a first part of the drop of exactly the listed ids, or nothing when these could not be read |
| RagIndexer.Store.Add | internal/rag/store.go:69-104 | success is the effect of all chunk commands; a failure leaves the effect of a first part of them |
| RagIndexer.Store.IndexContent | internal/rag/indexer.go:90-106 | success adds all chunks of the file with their embeddings; a failure leaves a first part of that addition, and nothing if any text cannot be embedded |
| RagIndexer.EmbedAll | internal/rag/indexer.go:96-103 | the vector of each chunk's text in chunk order, or none if any text cannot be embedded |
| RagIndexer.Store.IndexDir | internal/rag/indexer.go:70-114 | success leaves exactly the chunks of the readable files whose names end in .md or .txt in any case in the source's index, each with the vector of its text and itself as hash, under the source's keys, and every entry was readable; in any case Redis has seen a drop and then additions of the first files' chunks, of which only the last may have broken off |
| RagIndexer.FilesAreExact | internal/rag/indexer.go:70-106 | the chunks are, one entry of the walk after the other, those of the documents of such files |
| RagFiles.IndexableIff | internal/rag/indexer.go:108-114 | a file is indexable exactly when its name ends in .md or .txt, in letters of either case |
| RagIndexer.AllChunksDistinct | internal/rag/indexer.go:74-87 | chunk identifiers are distinct over all files of a source |
| RagRuns.RecoversFromFailures | internal/rag/store.go:51-104 | after any run on compatible names, pipelines broken off anywhere included, one complete drop and complete additions of all files leave exactly their chunks |
| RagRuns.RunConsistent | internal/rag/store.go:51-104 | over any complete drops and adds on compatible names each vector set has the members of its id set and each hash is in exactly one id set |
| RagRuns.HashHasOneOwner | internal/rag/store.go:51-104 | every metadata key belongs to exactly one id set |
| RagRuns.PlainNamesCompatible | internal/rag/store.go:38-48 | names without a slash that do not begin with idx: are compatible |
| RagFiles.ShareIdIff | internal/rag/indexer.go:74-87 | two sources can have a chunk identifier in common exactly when one is named like a directory below the other |
| RagClashes.ConsistentIffCompatible | internal/rag/store.go:38-104 | runs of complete drops and additions of documents all keep the index consistent exactly when the source names are compatible |
| RagClashes.NotCompatible | internal/rag/store.go:38-104 | for any incompatible names there is a run of complete pipelines, each of them one that indexing makes, that breaks the index |
| RagClashes.VectorsOverIds | internal/rag/store.go:38-44 | a source named idx:t breaks source t although neither name has a slash |
| RagClashes.VectorsOverHash | internal/rag/store.go:38-48 | a source named meta: and a chunk id of t breaks source t |
| RagClashes.SharedHash | internal/rag/chunk.go:53 | of two sources that can have the same chunk id one takes the other's hash away |
| RagBreaks.PipelineMarks | internal/rag/store.go:51-104 | what a pipeline, whole or broken off after any command, does to vector, id set entry and hash of every chunk of every source |
| RagBreaks.RunMarks | internal/rag/store.go:51-104 | so over any run with broken-off pipelines it is known exactly which chunks have a vector, are listed and have a hash |
| RagBreaks.DisagreementsAreExplained | internal/rag/store.go:51-104 | over any such run the three disagree about a chunk only in four ways, each caused by a pipeline that broke off at one certain place |
| RagBreaks.AdditionsStopAnywhere | internal/rag/store.go:69-104 | after any run the next addition can leave a new chunk with nothing, a vector, a vector and an id set entry, or all three |
| RagBreaks.DropsStopAnywhere | internal/rag/store.go:51-65 | after any run the next drop can leave a complete chunk with all three, without its vector, with its hash only, or with nothing |
| RagBreaks.OrphanIff | internal/rag/store.go:57-64 | a drop broken off part way orphans the hash of a listed chunk exactly when the id set was deleted and the hash was not |
| RagRuns.NoOtherKindIsMet | internal/rag/store.go:51-104 | on compatible names, after any run with broken-off pipelines, no command of a possible pipeline or of any part of it meets a key of another kind, and no drop gives up because of one |
| RagRuns.RunsKeepTypes | internal/rag/store.go:51-104 | over any run, on any names, every key of a source holds a value of a kind some source puts there |
| RagQuery.Search | internal/rag/query.go:19-46 | without a source filter: at most topK hits of the sources that answered, best first, and a hit of theirs that is left out is no better than any of topK others; failing sources are skipped; if every source that answers does so with its topK best, the scores are the best over all hits of these sources. With a filter that source decides alone |
| RagQuery.MergeKeepsBest | internal/rag/query.go:29-45 | if each answer is its source's topK best, the topK best of the answers are the topK best of the union |
| RagQuery.SortHits | internal/rag/query.go:39-41 | a descending permutation of the hits |
| RagQuery.RankedUnique | internal/rag/query.go:39-41 | any descending arrangement of the same hits has the same list of scores, so an unstable sort does not matter |
| SchemaGroups.FetchAllSchemas | internal/database/schema.go:125-190 | the nested maps and order slices build the stable grouping of the rows; an error in any row or at the end is an error |
| SchemaGroups.AddRow | internal/database/schema.go:149-170 | one row keeps all five collections in step with the rows read |
| SchemaGroups.GroupedOnce | internal/database/schema.go:154-188 | each database and each table of a database appears once, and a table has the columns of exactly its rows in row order |
| SchemaGroups.GroupedKeepsRows | internal/database/schema.go:140-189 | no row is lost or duplicated, for every row order |
| SchemaGroups.GroupedOfContiguous | internal/database/schema.go:133-189 | on contiguous input flattening the result gives back the rows in order |
| SchemaStore.AnswersAreFresh | internal/database/schema.go:40-42 | in every interleaving the data returned was fetched for that name less than ttl before, and for a refreshing call by a fetch that began after the call |
| SchemaStore.FetchersGetNoOldData | internal/database/schema.go:94-107 | a call that has to fetch fails or returns what a fetch brought that began after the call and ended at its answer: never old data |
| SchemaStore.OneCacheObject | internal/database/schema.go:64-73 | a connection name keeps one cache object for the whole run and shares it with no other name |
| SchemaStore.RunKeeps | internal/database/schema.go:64-121 | the lock discipline keeps every cache and every call sound |
| SchemaStore.FindExact | internal/database/schema.go:113-120 | a database filter finds the database of that name exactly when there is one |
| SchemaStore.FilteredExact | internal/database/schema.go:110-120 | without a filter all databases are the answer, else the first one of that name alone, and an error exactly when there is none |
| SchemaStore.AloneIsGet | internal/database/schema.go:88-121 | run without other calls, the lock-protected steps answer and leave behind exactly what Get does |
| SchemaStore.Store.GetOrCreate | internal/database/schema.go:64-73 | the object is made on first use and kept; nothing that is held changes |
| SchemaStore.Store.Invalidate | internal/database/schema.go:77-83 | the name holds nothing afterwards, other names are untouched |
| SchemaStore.Store.Get | internal/database/schema.go:88-121 | data younger than ttl answers the call and stays, unless a refresh is asked for; otherwise the fetch answers it and is kept with its time, and a failed fetch is the answer and never old data; either way a filter picks the one database of that name or is an error |
| ServerReload.Server.constructor | internal/mcp/server.go:62-76 | every part is built from the given configuration; the manager's lists match it exactly when the given manager's do |
| ServerReload.Server.Reload | internal/mcp/server.go:1033-1066 | a failed load changes nothing; a successful one makes every part match the new configuration, starts all failure histories anew, drops the file list cache, keeps the cache of accepted tokens exactly while the command stays the same, and leaves the configured timeout in force exactly unless it changes the timeout alone |
| ServerReload.Server.ReplaceVerifyCache | internal/mcp/server.go:1047-1054 | the cache exists exactly when an authenticator is configured and calls the configured program |
| ServerReload.Server.TakeSnapshot | internal/mcp/server.go:977-996 | every part a request works with belongs to one configuration, for as long as the request keeps it, and the cache it uses exists |
| ServerReload.NewRateLimiters | internal/mcp/server.go:949-960 | each tier has a limiter exactly when it is configured, with its own numbers, the window in seconds |
| ServerReload.BuildTokenEntries | internal/mcp/server.go:964-970 | one entry for each configured token, in order, with its name, token and scopes |
| ServerReload.NewVerifyCache | internal/mcp/server.go:932-937 | an empty cache with ten minutes to live over the configured program, its timeout in seconds, ten when none is given |
| ServerReload.Serve | cmd/root.go:65-67 | after New and any sequence of good and bad loads all parts match the last good configuration |
| ServerReload.StretchIsUnbroken | internal/mcp/server.go:1038-1051 | from the version the cache was built at up to now the command has been the same |
| ServerReload.StretchIsMaximal | internal/mcp/server.go:1038-1051 | and the cache is no older than that |
| ServerReload.TimeoutsAreCurrentIff | internal/mcp/server.go:1047-1051 | the configured timeout is in force throughout exactly when no reload changes the timeout alone |
| ServerReload.TimeoutChangeIsIgnored | internal/mcp/server.go:1047-1051 | a server whose configuration is reloaded with nothing but another timeout keeps its verifier and waits as long as before |
| Template.MatchIsPlaceholder | internal/macro/template.go:10 | what the scanner matches is a placeholder with that identifier |
| Template.PlaceholderIsMatched | internal/macro/template.go:10 | a position starts at most one placeholder, and the scanner finds it with its identifier |
| Template.SecondMatchAgrees | internal/macro/template.go:21-25 | matching the matched text again gives the same identifier |
| Template.InterpolationIsExact | internal/macro/template.go:20-46 | the result is the template with each leftmost placeholder replaced once by its value and all other text kept in place; inserted values are never rescanned |
| Template.LeftmostIsUnique | internal/macro/template.go:21 | there is only one way to pick leftmost placeholders |
| Template.HolesAreLeftmost | internal/macro/template.go:21 | and every string has it |
| Template.IdentifierIff | internal/macro/template.go:10 | an identifier consists of letters, digits, dots and underscores, with no digit and no dot in front |
| Template.ResolvedExact | internal/macro/template.go:20-46 | an identifier without a dot that names a parameter stands for it; otherwise for the text of the value that its fields lead to, step by step, in the result of the step it names first, and for nothing when they lead nowhere |
| Template.ReadsNamedOnly | internal/macro/template.go:26-46 | the result depends on no parameter or step result that the string does not name |
| Template.SplitDot | internal/macro/template.go:49-60 | the loop computes the split at dots |
| Template.PartsAreUnique | internal/macro/template.go:49-60 | the parts are the only dot-free list that joined by dots gives the identifier back |
| Template.ExtractField | internal/macro/template.go:82-103 | the loop returns the text of the value the path leads to, or nothing |
| Template.WalkInTwo | internal/macro/template.go:82-103 | following a path is following its first part and then the rest |
| Template.ReadAsDocumentedIff | internal/macro/template.go:79-102 | the text for a path with a field is the documented one exactly when the path does not lead to an array |
| Template.ArrayIsShownWhole | internal/macro/template.go:79-102 | an object with the array ["x"] as member f, read at f, gives the text of the array where the comment promises x |
| Template.OneMoreFieldUnwraps | internal/macro/template.go:82-103 | with one more field the array is unwrapped in both readings |
| Template.InterpolateArgs | internal/macro/template.go:66-77 | every string argument is interpolated, every other value passed through, no key added or lost |
| Template.RecursiveIff | internal/macro/template.go:63-77 | arguments are interpolated recursively, as the comment says, exactly when no string inside a list or an object would be changed by it |
| Template.NestedPlaceholderStays | internal/macro/template.go:63-77 | a parameter's placeholder inside a list stays as it is |
| Template.ArgsReadNamedOnly | internal/macro/template.go:66-77 | an argument map depends only on what its own strings name |
| MacroRunner.Run | internal/macro/runner.go:30-62 | the run does with each step in turn what the step says, on its arguments with every leftmost placeholder of a string filled in once from the parameters and the results before it: a tool call by the name and tool arguments with the others as its parameters, a read of the path argument, or a journal query; the results hold what was answered, and the first failure, outside or for a missing dispatcher, name, tool or path or an unknown kind, ends it with its text as the entry |
| MacroRunner.AfterIsRun | internal/macro/runner.go:30-62 | so does every first part of a run |
| MacroRunner.PlannedRight | internal/macro/steps.go:34-131 | what a step does, or why it cannot start, follows from its filled arguments |
| MacroRunner.KeysAreIds | internal/macro/runner.go:33-58 | the result keys are exactly the IDs of the steps up to and including the first failing one, whose entry is its error |
| MacroRunner.StepsInOrder | internal/macro/runner.go:33-58 | every step before the end or the failure was carried out once and in order, and nothing after a failure |
| MacroRunner.LastWins | internal/macro/loader.go:24-25 | the entry of an ID is the answer to the last step with it: IDs are not checked to be unique |
| MacroRunner.NothingFromTheFuture | internal/macro/runner.go:41-48 | what step i does depends only on the steps up to it, the parameters and earlier answers |
| MacroRunner.UnnamedStepsDoNotMatter | internal/macro/runner.go:33-58 | a different answer to a step that no later step names changes nothing but its own entry |
| MacroRunner.PlanReadsNamedOnly | internal/macro/steps.go:34-62 | what a step does depends only on the results its arguments name |

## Left out

- LogReader.ReadFile: does not model the overflow of `n + offset` on machine integers, nor the scanner's line length limit beyond "the scanner stops with an error".
- LogAccess.Manager.ListAccessible: sees one snapshot of the file system for each scan; changes of the file system during a scan are not modelled, and the cache time is the clock reading after the scan.
- Rpc.ExpiresAt: does not model the rounding of the deadline to a 64-bit floating-point number of seconds, nor that Redis waits in whole seconds.
- Rpc.Call: does not tell the error texts of failed replies apart; the worker's own code is not part of this model.
- Rpc.AtMostOnce: assumes that a push is carried out at most once; the Redis client of internal/extensions/dispatcher/dispatcher.go:52-56 may repeat a command whose answer was lost, and a request pushed twice can be popped twice.
- LogSearch.SearchFile: takes a scanner that stops at its first error; that a buffered scanner has read ahead and could report an error behind the last line used, after an early stop, is not modelled.
- Template.ReadAsDocumentedIff: takes the JSON text of an array to be longer than what its first element is shown as, which its brackets ensure.
- RagIndexer.Store.IndexDir: takes the paths of one walk to be clean and different, and embeddings to be non-empty; it also stands for the indexing of the embedded documents, which does the same with the fixed source name.
- RagStore.ReindexIsExact: assumes that no key expires and leaves out VADD errors about vector dimensions.
- RagQuery.Search: takes scores as real numbers, without NaN, and the order of hits with equal scores is left open, as is the order of hits within a single source's answer.
- Chunks.ChunkMarkdown: does not model invalid UTF-8; strings are sequences of runes.
- RagBreaks.RunMarks: the operations of a run are carried out one after the other; two indexing calls for one source at the same time are not modelled.
- RateLimit.RateLimiter.PruneAll: the loop body is a method of its own, and addresses are visited in an arbitrary order.
- LogSearch.ScanLines: the loop of collectMatches, apart from the default limit, with its body in a method of its own; the scanner is a sequence of lines.
- ServerReload.Server.Reload: does not model the Telegram service; the database pool, the RAG querier and the dispatcher are built once at the start and are represented by the field extensions, which no reload changes.
- ServerReload.Serve: concurrent calls of Reload are not modelled; the program reloads from one goroutine.
- Template.ExtractField: the texts of numbers and JSON encoding are given by the values or an arbitrary function.
- MacroRunner.Run: error texts are an arbitrary function of the step and the reason; what read_file and journalctl do with their further arguments is part of the outside world.
- Middleware.Handle: response headers, bodies, the audit log and the request context are not modelled.
- The order of critical sections is any order; nothing is proved about progress or fairness.
- The journal reader, HTTP and TLS serving, tool registration, notifications, the command line wizard and the health checks: input and output without deep invariants.
- Configuration validation, token management, comment backfilling and tool description parsing: would only add easy members.
- Similarity scoring inside Redis: its answers are inputs.
