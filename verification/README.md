# Verified model of Simulacra's compaction, catalog, chunkers and blob codec

This project models four parts of the Simulacra agent runtime and proves what they promise.

- **Context compaction** (`crates/simulacra-context`). A transcript that outgrew its token limit is cut to a
  window and the window is rewritten in place: the front is normalised, tool results are elided, content is
  truncated, whole blocks are dropped. `Messages`, `Budget`, `BudgetBounds`, `OldestFirst`,
  `BudgetSlack`, `PassEffects`, `Exchanges`, `SlidingWindow` and `ObservationMasking`. The four passes are methods of
  the class `Budget.Window`, which keep a cost vector and a running total; each is tied to a function of the old
  window, and the theorems are about those functions.
- **The MCP catalog** (`crates/simulacra-mcp`). An inverted index with prefix postings, ranked search over a
  snapshot, transactional activation, and calls gated by publication. `Lexicographic`, `Terms`, `CatalogIndex`,
  `CatalogRanking`, `CatalogRelevance` (search in terms of the tools), `CatalogState` (the step relation: how activations and searches interleave) and
  `McpCatalog` (the class; each of its operations is shown to be a run of those steps).
- **Blob text** (`crates/simulacra-fetch`). `Bits` and `BlobCodec`: the hand-written UTF-8 encoder and decoder over
  UTF-16 code units, and the concatenation of parts into one array. The reference is section 3 of RFC 3629 and
  section 2 of RFC 2781.
- **Chunkers** (`crates/simulacra-memory`). `MarkdownChunker` (a partition at headings) and `FixedTokenChunker`
  (overlapping windows of whitespace-separated tokens, with byte spans).

`Basics` holds facts about sequences and division. `dafny verify dfyconfig.toml` checks everything.

A transcript is *well-formed* (`Exchanges.WellFormed`) when every tool result stands in a run directly behind a
message with tool calls and only assistants carry calls. The tokenizer is abstract (`Messages.Estimator`); the
numeric results assume of it only `Estimator.Sound`: each token spans at least one byte, and the truncation marker put
behind a decoded token prefix costs at most the two apart. `Messages.ByteTokenizerIsSound` shows the two are
consistent. They also take every content length to fit 64 bits, as `BudgetBounds.LengthsFit` says.

## Where the code and its promises differ

- The comment on the enforcement pass bounds the residual by the fixed head and the final message
  (`crates/simulacra-context/src/budget.rs:151-154`). The code also keeps the block of the last user turn: `BudgetSlack.LastUserTurnStays` is a
  question and reply from which no limit removes the question. The residual is the head and the final block if and only if
  the last user turn does not stand before the final block (`BudgetSlack.ResidualIsHeadAndFinalBlock`).
- The guard of the second pass compares bytes while its budget is in tokens (`crates/simulacra-context/src/budget.rs:217`), so an enforced window can
  end over its limit with content above the floor. `BudgetBounds.NumericBound` limits the excess to one truncation marker,
  and `BudgetSlack.SlackIsAttained` shows that no smaller limit holds for every sound tokenizer: under one made up for it,
  which counts a single letter, messages of every length from 100 bytes on reach it. It happens to a message if and only if
  cutting it frees no byte when its turn comes (`BudgetSlack.OverExactlyWhenStuck`, and
  `BudgetSlack.LeftAboveFloorExactly` for the whole pass); a window left over its limit is down to its residue if and only if
  no surviving message was so stuck (`BudgetSlack.OnlyResidueUnlessStuck`).
- The comment on the start of the kept window promises a transcript that is never empty (`crates/simulacra-context/src/budget.rs:18-22`). Without a
  user turn it can be: `SlidingWindow.LoneReplyVanishes` is an instance, and `SlidingWindow.EmptyExactly` says when.
- Compacting a fitting result again returns it unchanged, but the head boundary can be computed elsewhere. It is recomputed
  in place if and only if something is pinned, a system message leads, there is a user turn, or the kept tail of the
  transcript does not begin with a system message (`SlidingWindow.Fixpoint`); `SlidingWindow.HeadBoundaryMoves` gives a
  family where it moves, and `SlidingWindow.HeadBoundaryMovesSomewhere` one of its members.

A remark on search: the specification has normalisation remove repeated query terms (`specs/S057-skill-activated-mcp-catalogs.md:158`),
so the strongest boost goes to a complete name exactly when it repeats no token. `CatalogRanking.CompleteNameBoosted` states
this, and `CatalogRanking.RepeatedNameIsNotBoosted` shows a name that cannot earn it.

## Model

| member | source | states |
|---|---|---|
| Messages.MarkerLengths | crates/simulacra-context/src/budget.rs:83-101 | for every length a 64-bit machine can report, the elision marker has at most 46 bytes and the truncation marker at most 52, and neither is empty |
| Messages.DecimalReadsBack | crates/simulacra-context/src/budget.rs:83-101 | the length in a marker is written in decimal digits, no leading zero, that read back to it |
| PassEffects.CallIsCharged | crates/simulacra-context/src/lib.rs:40-62 | each tool call adds the tokens of its id, name and arguments to what its message costs |
| PassEffects.BlockIsCharged | crates/simulacra-context/src/lib.rs:40-62 | each provider block adds the tokens of its provider and its rendering, an image its flat price |
| PassEffects.BareMessageIsCharged | crates/simulacra-context/src/lib.rs:40-62 | any other message costs the tokens of its content and of the id of the call it answers |
| Messages.Estimator.TotalUpdate | crates/simulacra-context/src/budget.rs:188-191 | replacing one message changes the summed cost by exactly the difference, and the sum covers the old cost, so the subtraction cannot underflow |
| Budget.AdjustToolBoundary | crates/simulacra-context/src/budget.rs:9-15 | the loop finds the end of the run of tool results that starts at the index |
| Budget.KeptWindowStart | crates/simulacra-context/src/budget.rs:23-36 | the tail starts on a message that is no tool result and no later than the last user turn, passing only tool results, and reaches further back only to that turn |
| Budget.TailStartsRight | crates/simulacra-context/src/budget.rs:17-36 | those facts hold of the start the code computes, and of no other |
| Budget.ExchangeEdge | crates/simulacra-context/src/budget.rs:45-61 | the loops find the owner of the boundary and, if it has calls, the end of its run |
| Budget.Window.NormalizeLeading | crates/simulacra-context/src/budget.rs:285-296 | draining in place leaves the window that `NormalizedIsLed` describes |
| Budget.NormalizedIsLed | crates/simulacra-context/src/budget.rs:280-296 | the window so left drops exactly the messages between the head and the first user turn behind it, and nothing when there is no such turn |
| Budget.Window.Replace | crates/simulacra-context/src/budget.rs:188-191 | storing one message keeps the cost vector and the running total equal to the costs of the window; no subtraction underflows |
| Budget.Window.ElideToolResults | crates/simulacra-context/src/budget.rs:172-193 | the in-place first pass with its early return leaves the window that `PassEffects.ElidesExactly` describes and keeps costs and total exact |
| Budget.Window.TruncateContent | crates/simulacra-context/src/budget.rs:195-223 | the in-place second pass, with its saturating allowance, leaves the window that `PassEffects.TruncatePassExactly` describes and keeps costs and total exact |
| Budget.Window.MarkBlock | crates/simulacra-context/src/budget.rs:267-270 | marking a block subtracts exactly its cost: the total is that of the messages not yet dropped, without underflow |
| Budget.Window.MarkDropped | crates/simulacra-context/src/budget.rs:240-271 | the mask built block by block retains exactly what dropping oldest blocks leaves |
| Budget.Window.EnforceTokenBudget | crates/simulacra-context/src/budget.rs:155-278 | the whole enforcement, early returns included, leaves the window that `PassEffects.EnforcedExactly` describes |
| BudgetBounds.ElidedNeverGrows | crates/simulacra-context/src/budget.rs:186-191 | eliding is guarded by byte length, yet never raises a message's token cost |
| BudgetBounds.TruncationCost | crates/simulacra-context/src/budget.rs:87-115 | a truncated text is not empty, costs less, and costs at most its target unless it is the marker alone, which costs at most 52; when it frees no byte, the text and the marker together cost at most the target plus the marker's bytes |
| BudgetBounds.TruncatedBound | crates/simulacra-context/src/budget.rs:209-222 | after one truncation step the message is at the floor, or the window is within the limit plus one marker; the cost never rises |
| BudgetBounds.TruncatePassBound | crates/simulacra-context/src/budget.rs:195-223 | after the second pass the total is at most the limit plus one marker, or all content is at the floor |
| BudgetBounds.DropOldestIsPart | crates/simulacra-context/src/budget.rs:235-277 | dropping blocks only removes messages and never raises the total |
| BudgetBounds.BlockDropOutcome | crates/simulacra-context/src/budget.rs:235-277 | after the third pass the total is within the limit, or exactly the fixed head and the protected blocks survive |
| BudgetBounds.ProtectedIsTwoBlocks | crates/simulacra-context/src/budget.rs:225-264 | the protected blocks are the final block and, when it lies before that, the block at the last user turn |
| BudgetBounds.NumericBound | crates/simulacra-context/src/budget.rs:155-278 | for every transcript and limit the total never grows, and ends at most one marker over the limit or with all content at the floor, only the head and protected blocks left, and the cost bounded by what cannot be shrunk |
| OldestFirst.ElidesOldestFirst | crates/simulacra-context/src/budget.rs:172-193 | the first pass elides the least number of leading messages that makes the window fit, and nothing after them |
| OldestFirst.TruncatesOldestFirst | crates/simulacra-context/src/budget.rs:195-223 | the second pass truncates the least number of leading messages that makes the window fit |
| OldestFirst.DropsOldestFirst | crates/simulacra-context/src/budget.rs:253-271 | the third pass drops the least number of leading blocks that makes the window fit, skipping the one with the last user turn and never reaching the final one |
| OldestFirst.ShrinkingSpares | crates/simulacra-context/src/budget.rs:172-223 | content changes only while over the limit, never for a system message or one at the floor; the newest tool result is at most truncated, never elided |
| PassEffects.ElidesExactly | crates/simulacra-context/src/budget.rs:172-193 | the first pass gives every tool result but the newest, above 64 tokens and longer than its marker, the marker with its byte length, among exactly the least number of leading messages that makes the window fit (all, if none does), and changes nothing else |
| PassEffects.CutsExactly | crates/simulacra-context/src/budget.rs:96-115 | a text over its target becomes as many of its leading tokens as leave room for the marker, decoded, and then the marker; the marker alone when there is no room or nothing decodes |
| PassEffects.TruncatesExactly | crates/simulacra-context/src/budget.rs:202-222 | one truncation step cuts a message above 64 tokens that is no system message to what the others leave of the limit, if that frees bytes, and changes nothing else |
| PassEffects.TruncatePassExactly | crates/simulacra-context/src/budget.rs:195-223 | the second pass so cuts exactly the least number of leading messages that makes the window fit, one after the other |
| PassEffects.EnforcedExactly | crates/simulacra-context/src/budget.rs:155-278 | enforcement normalises the front, elides and cuts the least number of messages, drops the least number of blocks behind the head, and normalises again exactly if some went |
| BudgetSlack.OverExactlyWhenStuck | crates/simulacra-context/src/budget.rs:209-222 | one truncation step leaves a message above the floor and the window over its limit if and only if cutting the message frees no byte |
| BudgetSlack.LeftAboveFloorExactly | crates/simulacra-context/src/budget.rs:195-223 | when the second pass ends over the limit, the messages left above the floor are exactly those whose cut freed no byte at their turn |
| BudgetSlack.AtFloorUnlessStuck | crates/simulacra-context/src/budget.rs:172-223 | a window over its limit after both content passes is all at the floor if and only if no message was stuck |
| BudgetSlack.OnlyResidueUnlessStuck | crates/simulacra-context/src/budget.rs:155-278 | an enforced window over its limit is down to its residue if and only if no message of the head, the block of the last user turn or the final block was stuck |
| BudgetSlack.SlackIsAttained | crates/simulacra-context/src/budget.rs:195-223 | for every length from 100 bytes on, some sound tokenizer and a message of that length left unchanged exactly one marker over its limit, above the floor; from 10^19 bytes on the marker has the 52 bytes of the bound |
| BudgetSlack.OnlyFinalBlockProtected | crates/simulacra-context/src/budget.rs:229-234 | only the final block is protected if and only if the last user turn does not stand before it |
| BudgetSlack.ResidualIsHeadAndFinalBlock | crates/simulacra-context/src/budget.rs:151-154 | a window left over its limit is the head and the final block if and only if the last user turn of the normalised transcript does not stand before the final block |
| BudgetSlack.LastUserTurnStays | crates/simulacra-context/src/budget.rs:261-266 | a question and reply at the floor, the question before the final block, that every limit leaves whole |
| Exchanges.TiedIsAllOrNothing | crates/simulacra-context/src/budget.rs:38-44 | keeping each result exactly when the message before it is kept keeps or drops every exchange whole |
| Exchanges.SelectsWellFormed | crates/simulacra-context/src/budget.rs:145-149 | removing exchanges whole and rewriting only content leaves a well-formed transcript: no orphaned result |
| Exchanges.EnforcedSelects | crates/simulacra-context/src/budget.rs:225-277 | behind a head that ends on an exchange edge, enforcement removes whole exchanges only and the head still ends on an edge |
| SlidingWindow.Strategy.Compact | crates/simulacra-context/src/sliding_window.rs:61-112 | the loops and the in-place enforcement give the enforcement of the one window that the head leaves room for, and so the compaction the theorems are about |
| SlidingWindow.Strategy.WalkBack | crates/simulacra-context/src/sliding_window.rs:90-99 | the backward walk with its running remainder stops at the start of the longest suffix that fits |
| SlidingWindow.LongestFitIsLongest | crates/simulacra-context/src/sliding_window.rs:90-99 | that suffix fits the budget and every longer one does not |
| SlidingWindow.HeadIsAt | crates/simulacra-context/src/sliding_window.rs:66-76 | the head is the leading system message and the pinned messages; a pin inside an exchange takes the rest of its results, and nothing else moves the boundary |
| SlidingWindow.WindowIsChosen | crates/simulacra-context/src/sliding_window.rs:66-105 | the window enforced is that head and the tail that starts right for the longest suffix that costs, with the head, at most the limit; a head at or over the limit leaves only a suffix that costs nothing |
| SlidingWindow.OnlyOneWindow | crates/simulacra-context/src/sliding_window.rs:66-105 | no other head, suffix and tail meet that description |
| SlidingWindow.CompactedEnforcesWindow | crates/simulacra-context/src/sliding_window.rs:61-112 | a compaction is the enforcement of that window, at that head |
| SlidingWindow.EdgeIsEdge | crates/simulacra-context/src/budget.rs:38-61 | in a well-formed transcript the head boundary moves to the nearest exchange edge at or after it |
| SlidingWindow.ExchangeIntegrity | crates/simulacra-context/src/sliding_window.rs:61-112 | for every well-formed transcript, limit and pin, each call survives with its whole run of results or not at all, only content is rewritten, and the result is well-formed |
| SlidingWindow.Anchoring | crates/simulacra-context/src/sliding_window.rs:78-109 | the fixed head survives in place; if a user turn follows it the next message is a user turn, and the last user turn and the final message survive |
| SlidingWindow.CompactedBound | crates/simulacra-context/src/sliding_window.rs:61-112 | the numeric bound for a whole compaction, residue of head and protected blocks included; the total never exceeds the transcript's |
| SlidingWindow.Fixpoint | crates/simulacra-context/src/sliding_window.rs:61-112 | a fitting result is compacted to itself, and its head boundary is recomputed in place if and only if the transcript has a pin, a leading system message, a user turn, or a kept tail that begins with no system message |
| SlidingWindow.UserlessIsSuffix | crates/simulacra-context/src/sliding_window.rs:66-111 | without a pin, a leading system message or a user turn, compaction returns the longest fitting suffix, less its leading tool results, unchanged |
| SlidingWindow.HeadBoundaryMoves | crates/simulacra-context/src/sliding_window.rs:66-76 | a reply and a later system message that outlives it: the boundary moves from 0 to 1 |
| SlidingWindow.HeadBoundaryMovesSomewhere | crates/simulacra-context/src/sliding_window.rs:66-76 | a concrete transcript of two one-token messages for which it does |
| SlidingWindow.EmptyExactly | crates/simulacra-context/src/budget.rs:17-36 | a transcript is compacted to nothing if and only if nothing is pinned, no system message leads, there is no user turn, and the longest fitting suffix holds nothing but leading tool results |
| SlidingWindow.LoneReplyVanishes | crates/simulacra-context/src/sliding_window.rs:90-111 | a lone reply over its limit is compacted to nothing |
| ObservationMasking.Strategy.Compact | crates/simulacra-context/src/observation_masking.rs:48-132 | the masked transcript if that fits; otherwise the enforcement of the one window of it that a leading system message leaves room for |
| ObservationMasking.OldMeansFollowed | crates/simulacra-context/src/observation_masking.rs:53-66 | the index arithmetic singles out exactly the tool results followed by at least the configured number of others |
| ObservationMasking.MaskedExactly | crates/simulacra-context/src/observation_masking.rs:68-86 | exactly those results get the marker with their byte length; everything else is unchanged |
| ObservationMasking.StructurePreserved | crates/simulacra-context/src/observation_masking.rs:48-132 | the output embeds in the input by a strictly increasing map that changes only content; when the masked total fits nothing is removed |
| ObservationMasking.MaskingKeepsExchanges | crates/simulacra-context/src/observation_masking.rs:94-131 | on well-formed transcripts masking keeps or drops every exchange whole |
| ObservationMasking.MaskingBound | crates/simulacra-context/src/observation_masking.rs:94-131 | the numeric bound, residue included, holds of the masked result |
| Lexicographic.PrefixesAreContiguous | crates/simulacra-mcp/src/catalog.rs:157-162 | a key between a term and a key with that prefix has the prefix itself |
| Lexicographic.LessByFirstDifference | crates/simulacra-mcp/src/catalog.rs:436-444 | one string comes before another exactly when, where they first differ, it ends or has the smaller character |
| Terms.Alphabet.NormalizedAreTokens | crates/simulacra-mcp/src/catalog.rs:178-184 | normalised tokens are non-empty and free of spaces |
| Terms.Alphabet.NormalizedAreRuns | crates/simulacra-mcp/src/catalog.rs:178-184 | normalising keeps all maximal alphanumeric runs and only those, lower-cased, in order |
| Terms.DistinctInOrder | crates/simulacra-mcp/src/catalog.rs:401-405 | removing repeated terms keeps each where it first stands |
| CatalogRelevance.QueryWords | crates/simulacra-mcp/src/catalog.rs:401-405 | the terms of a query are its maximal alphanumeric runs, lower-cased, each where it first stands |
| Terms.JoinInjective | crates/simulacra-mcp/src/catalog.rs:424-435 | joining tokens by a space loses nothing: equal joins come from equal token lists |
| CatalogIndex.Build | crates/simulacra-mcp/src/catalog.rs:121-149 | the loops over servers and tools build the index that `CatalogRelevance.EntriesAreTools` describes and, for every token, the ascending positions of exactly the entries that hold it |
| CatalogRelevance.EntriesAreTools | crates/simulacra-mcp/src/catalog.rs:121-149 | the index has exactly one entry for each tool of the inventories, ordered by server and then as listed, and no other |
| CatalogIndex.HoldersExactly | crates/simulacra-mcp/src/catalog.rs:130-136 | a posting lists a position just when the entry there holds the token |
| CatalogIndex.ScoredMeansTokenMatches | crates/simulacra-mcp/src/catalog.rs:186-194 | a term scores in some field just when a token equals it or, from three characters on, starts with it |
| CatalogIndex.CandidatesForTerm | crates/simulacra-mcp/src/catalog.rs:151-165 | the ordered scan that stops at the first key without the prefix finds exactly the entries a naive scan of every field would |
| CatalogIndex.Candidates | crates/simulacra-mcp/src/catalog.rs:407-418 | intersecting the candidates of all terms yields exactly the entries where every term scores; no terms yields every entry |
| CatalogRelevance.FoundByWords | crates/simulacra-mcp/src/catalog.rs:151-165 | an entry is a candidate if and only if each term is a word of its tool's server, name or description or, from three characters on, starts one |
| CatalogRanking.PrecedesTotal | crates/simulacra-mcp/src/catalog.rs:436-444 | score, then server, then tool name, then position orders any two entries one way and not both |
| CatalogRanking.BestFive | crates/simulacra-mcp/src/catalog.rs:425-452 | the bounded insertion keeps, for any number of candidates, the first five in that order |
| CatalogRelevance.TopSize | crates/simulacra-mcp/src/catalog.rs:425-452 | the results are five, or all candidates where there are fewer |
| CatalogRelevance.StrongerMatchScoresHigher | specs/S057-skill-activated-mcp-catalogs.md:163-166 | a term scores strictly higher for the stronger match in the order name word, name prefix, server word, server prefix, description word, description prefix, and alike for matches of one kind |
| CatalogRelevance.SmallerSumRanksAhead | crates/simulacra-mcp/src/catalog.rs:428-444 | relevance adds up over the terms: the places of the matches in that order, added up, decide which of two tools ranks ahead, and equal sums tie |
| CatalogRelevance.StrongerMatchRanksAhead | specs/S057-skill-activated-mcp-catalogs.md:163-170 | of two tools alike in naming the whole query, one that meets no term worse and some term better ranks ahead |
| CatalogRelevance.TiesByName | specs/S057-skill-activated-mcp-catalogs.md:170-171 | tools of equal score come by server, then by tool name, then as listed |
| CatalogRelevance.EmptyQueryIsAlphabetical | specs/S057-skill-activated-mcp-catalogs.md:171 | without terms the results are alphabetical by server and tool |
| CatalogRanking.TopOpensRanking | crates/simulacra-mcp/src/catalog.rs:425-452 | being the first five leaves no choice: they are the first five of any full ranking of the candidates |
| CatalogRanking.RankingExists | crates/simulacra-mcp/src/catalog.rs:426-444 | every set of candidates has such a full ranking |
| CatalogRanking.NameMatchesExactly | crates/simulacra-mcp/src/catalog.rs:424-435 | the boost goes to a tool just when its name's tokens are the query's distinct terms, in order |
| CatalogRanking.CompleteNameDominates | crates/simulacra-mcp/src/catalog.rs:424-444 | every entry whose name is the complete query ranks strictly ahead of every entry whose name is not |
| CatalogRanking.CompleteNameBoosted | specs/S057-skill-activated-mcp-catalogs.md:158-169 | with repeated terms removed, a query equal to a tool's complete name earns the boost if and only if the name has tokens and repeats none |
| CatalogRanking.RepeatedNameIsNotBoosted | crates/simulacra-mcp/src/catalog.rs:401-405 | a name with a repeated token that does not earn it |
| CatalogRanking.TermOrderIsIrrelevant | specs/S057-skill-activated-mcp-catalogs.md:158-161 | reordering terms changes neither which tools match nor their base score |
| CatalogState.Session.NextKeepsInv | crates/simulacra-mcp/src/catalog.rs:285-476 | every step of an activation or a search keeps the invariant and loses no inventory and no publication |
| CatalogState.Session.NothingIsLost | crates/simulacra-mcp/src/catalog.rs:386-390 | along any interleaving no activated inventory is overwritten and no publication withdrawn |
| CatalogState.Session.InterleavingSafety | crates/simulacra-mcp/src/catalog.rs:395-476 | in every reachable state each entry of an outstanding snapshot resolves to a tool of that name and the ranked positions lie in that snapshot, every published pair names an activated tool of a connected server, and the snapshot is the index of the inventories |
| CatalogState.Session.PublishedStaysOffered | crates/simulacra-mcp/src/catalog.rs:502-519 | whatever steps come between the check of a publication and the dispatch, the pair is still published and its connected server still offers the tool |
| McpCatalog.ActivationSucceeds | crates/simulacra-mcp/src/catalog.rs:285-393 | an activation succeeds just when it is audited, every server is known and allowed, and every new one lists its tools; it then returns the summed length of the inventories it adds |
| McpCatalog.CapabilityAllowsExactly | crates/simulacra-mcp/src/catalog.rs:550-555 | a server is allowed if and only if some capability reads `mcp:`, a name without colon, a colon and anything, where the name is the server's or a star |
| McpCatalog.ActivationAnswers | crates/simulacra-mcp/src/catalog.rs:285-393 | the outcome is success exactly as said there, or names the first server, in the order asked for, that is unknown, not so allowed, cannot be connected to or cannot list its tools, an unwritten audit entry coming before all |
| McpCatalog.ActivationAddsExactly | crates/simulacra-mcp/src/catalog.rs:321-392 | a success adds exactly the servers that were not active, each with the tools it listed, and overwrites nothing |
| McpCatalog.ActivationCounts | crates/simulacra-mcp/src/catalog.rs:385-392 | the count returned is the number of entries the index grows by |
| McpCatalog.ActivationReaches | crates/simulacra-mcp/src/catalog.rs:285-393 | an activation, successful or not, has the effect of a run of steps |
| McpCatalog.SearchReaches | crates/simulacra-mcp/src/catalog.rs:395-493 | a search has the effect of two steps: taking its snapshot, then publishing what it ranked |
| McpCatalog.McpCatalog.constructor | crates/simulacra-mcp/src/catalog.rs:217-243 | a new catalog is the initial state |
| McpCatalog.McpCatalog.Activate | crates/simulacra-mcp/src/catalog.rs:285-393 | the outcome is the one `ActivationAnswers` describes; a failure leaves inventories, snapshot, publications and connections as they were; a success leaves exactly the additions committed and indexed |
| McpCatalog.McpCatalog.ConnectAll | crates/simulacra-mcp/src/catalog.rs:331-376 | the handshake loop stops at the first server that fails, having gathered exactly what was listed |
| McpCatalog.McpCatalog.Search | crates/simulacra-mcp/src/catalog.rs:395-493 | the hits are the best five candidates, or all when fewer, each with the name, description and input schema its tool has in the inventories; exactly their pairs are published, and a failed audit publishes nothing |
| McpCatalog.McpCatalog.PublishWinners | crates/simulacra-mcp/src/catalog.rs:461-476 | publishing against later inventories finds every ranked tool, provided its entry still resolves, and shows name, description and input schema as those inventories have them |
| McpCatalog.McpCatalog.Call | crates/simulacra-mcp/src/catalog.rs:495-531 | only a published pair is dispatched, and then its server is connected and offers the tool; each failure is told apart |
| BlobCodec.PartToBytes | crates/simulacra-fetch/src/blob.rs:140-166 | the encoder loop computes the encoding of any sequence of units, paired or not |
| BlobCodec.FrontBytesIs | crates/simulacra-fetch/src/blob.rs:140-166 | every unit but a high surrogate is encoded as the octets of its value; a high one is joined with whatever unit follows, and gives four octets of zero at the end of the string |
| BlobCodec.Text | crates/simulacra-fetch/src/blob.rs:236-266 | the decoder loop computes the decoding of any bytes, malformed or cut short included |
| BlobCodec.ConsumedIs | crates/simulacra-fetch/src/blob.rs:236-266 | the range of a lead byte alone decides how many bytes are read |
| BlobCodec.FrontIs | crates/simulacra-fetch/src/blob.rs:236-266 | what those bytes decode to, in arithmetic: the low bits of each, bytes past the end counting as zero, split in surrogates above 0xFFFF; any other byte from 0x80 on gives the replacement character |
| BlobCodec.PairedByPosition | crates/simulacra-fetch/src/blob.rs:151-158 | reading pairs from the front finds none missing exactly when at every position a high surrogate has a low one behind it |
| BlobCodec.RoundTrip | crates/simulacra-fetch/src/blob.rs:140-266 | decoding an encoding gives the string back if and only if each high surrogate is followed by a low one |
| BlobCodec.EncodesAsRequired | crates/simulacra-fetch/src/blob.rs:140-166 | well-formed text is encoded as section 3 of RFC 3629 requires |
| BlobCodec.ConcatArrays | crates/simulacra-fetch/src/blob.rs:125-138 | the array filled at running offsets holds the arrays one after the other |
| BlobCodec.NewBlob | crates/simulacra-fetch/src/blob.rs:194-211 | a blob of none, one or many parts holds the bytes of its parts in order, in an array of its own unless it has one raw part alone |
| BlobCodec.MultiPartText | crates/simulacra-fetch/src/blob.rs:194-266 | the text of a blob of strings is their concatenation if and only if every part is paired |
| BlobCodec.EncodeFlatten | crates/simulacra-fetch/src/blob.rs:125-165 | encoding paired parts one by one and joining the bytes is encoding the joined string |
| Bits.AndLowMask | crates/simulacra-fetch/src/blob.rs:149-162 | masking with k ones is the remainder by the k-th power of two |
| Bits.OrDisjoint | crates/simulacra-fetch/src/blob.rs:149-162 | joining fields that share no bit is adding them |
| MarkdownChunker.IsMdHeading | crates/simulacra-memory/src/chunkers.rs:21-35 | the counting loop accepts exactly one to three hashes followed by a space |
| MarkdownChunker.SectionStarts | crates/simulacra-memory/src/chunkers.rs:50-63 | walking the lines finds exactly the offsets at which a heading line starts, in order |
| MarkdownChunker.ChunkMarkdown | crates/simulacra-memory/src/chunkers.rs:44-105 | the chunks cover the source without gap or overlap, are numbered, begin at a heading but for the first, and no heading starts inside one; invalid UTF-8 is refused and empty content gives none |
| MarkdownChunker.TextsGiveSource | crates/simulacra-memory/src/chunkers.rs:44-105 | the chunk texts, put together, are the source |
| MarkdownChunker.SectioningsAgree | crates/simulacra-memory/src/chunkers.rs:44-105 | there is only one such sectioning of a source |
| FixedTokenChunker.Unicode.TokensAreRuns | crates/simulacra-memory/src/chunkers.rs:117-161 | the tokens are exactly the maximal runs of non-whitespace, in order |
| FixedTokenChunker.Unicode.TokenizeWithSpans | crates/simulacra-memory/src/chunkers.rs:117-161 | the scan over the rest of the text, with offsets relative to it, yields the byte spans of the tokens |
| FixedTokenChunker.Unicode.SliceIsText | crates/simulacra-memory/src/chunkers.rs:187-194 | slicing bytes at character offsets yields the encoding of the characters between: no slice splits a character |
| FixedTokenChunker.Layout.WindowsFit | crates/simulacra-memory/src/chunkers.rs:178-200 | of one window plus one for each step begun beyond it, every one starts inside the text and only the last reaches its end |
| FixedTokenChunker.Layout.WindowsCover | crates/simulacra-memory/src/chunkers.rs:178-200 | every token is in a window |
| FixedTokenChunker.FixedTokenChunker.ChunkText | crates/simulacra-memory/src/chunkers.rs:168-203 | for every text and every window and overlap, zero and too large included, the loop ends without overflow with exactly that many chunks, each the text and bytes of its window |
| FixedTokenChunker.FixedTokenChunker.Neighbours | crates/simulacra-memory/src/chunkers.rs:178-200 | neighbouring chunks share exactly the clamped overlap, full windows have the clamped size, and only the last chunk ends at the last token |
| FixedTokenChunker.FixedTokenChunker.ChunksCover | crates/simulacra-memory/src/chunkers.rs:178-200 | the bytes of every token lie inside some chunk |

## Left out

- The BPE tables: the tokenizer is abstract, and `Estimator.Sound` is assumed, not derived from the real encoder.
- JSON rendering of tool arguments and provider blocks, and the image heuristic: a block carries its rendering and whether it is an image.
- Overflow of the summed cost past 64 bits: sums are natural numbers; the limit, the allowance and all lengths are 64-bit and saturate as in the code.
- The test-only sum over a window (`budget.rs:63-72`) and the test-only snapshot refresh (`catalog.rs:168-176`).
- Unicode: which characters are alphanumeric or whitespace, lower-casing, and (in the chunkers) the encoding of a character are parameters; lower-casing is assumed to keep a word a word, a character to take at least one byte, and decoding to invert the encoding. Strings are ordered by character, which for UTF-8 is the order of their bytes.
- CatalogRanking.BestFive: scores are unbounded, so the 32-bit sum of a query with very many terms is not modelled to wrap.
- McpCatalog.McpCatalog.Activate: the manager, transports, WASM modules, journal and telemetry are reduced to whether the audit entry was written and what each handshake leads to; error texts are reduced to their cause and server, and cancelling an activation midway is not modelled.
- McpCatalog.McpCatalog.constructor: the refusal of empty and duplicate descriptor names (`catalog.rs:222-236`) is not modelled; descriptors are a set of names.
- McpCatalog.McpCatalog.Call: the manager's own capability check and the arguments are inside the dispatch parameter.
- Locks: a step of `CatalogState` is what happens between two awaits; deadlock and fairness are not modelled.
- BlobCodec.NewBlob: parts are strings or byte lists, so the buffer that a lone ArrayBuffer part goes on sharing with the blob is not modelled; typed-array views, copies of other blobs, MIME types, slices, promises and the identical codec copies in `request.rs` and `response.rs` are not modelled.
- The Rust `Blob` and its slice, the line-based JSONL chunker, the hook pipeline, headers and the read-only file layers: short folds and lookups.
- HTTP client, GraphQL, frontend, SQLite catalog, CLI, OAuth refresh, configuration and the SDK macro.
