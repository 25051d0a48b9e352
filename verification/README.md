# Verification of sumidero, a filtering DNS resolver

A Dafny model of the logic at the centre of sumidero and proofs of what it keeps. Every
`.dfy` file is one module; `dafny verify dfyconfig.toml` checks them all.

**The filter engine** (`Text`, `Parse`, `ParseProperties`, `Stream`, `Labels`, `Glob`, `Rules`, `Order`,
`Store`, `KeyIndex`, `Wildcards`, `EngineModel`, `Engine`, `Builder`). `Rules.Reference` is the
specification: a linear scan of the rules with a recursive glob. `Engines.Engine` is the compiled
form: parallel vectors, arenas, sorted and deduplicated key indexes searched by binary search,
reversed-label prefix probes, wildcard buckets, a two-pointer glob matcher and rule texts that are
rebuilt instead of stored. `Streams.Parser` hands each rule to the engine while the text is still
being read. `Builder.LoadAndAsk` is the end-to-end theorem, from list texts to a verdict.

**What lists and names say** (`Meaning`, `Layout`, `Grammar`, `ListLines`, `Verdicts`). The parser, the
folding of names and the reference are themselves functions, so what they compute is stated once more
without them. `Grammar.ListGrammar` says which rules a text yields, as a grammar of its lines;
`Meaning` says which names a rule means, on bytes; `Layout` says what lines and tokens are.
`Verdicts.VerdictMeaning` puts them together: from the text of the lists and a name as it is typed to
the verdict.

**Where the engine departs from the reference** (`StarNames`, `Readable`, `Exactness`). Two families
of names are misread. A name that still ends in a dot once one trailing dot is stripped loses its
empty last label in the reversal (`crates/filter/src/engine.rs:201-204`): with the list line `||com^`
the query `com..` is blocked, although no rule matches it (`Exactness.DotOvershoots`). A name with a
`*` before its last byte can hide a match from the glob matcher, which compares bytes before it looks
for a star (`crates/filter/src/engine.rs:553-556`): with the list line `*.com` the query `*a.com` is
let through, although the rule matches it (`Exactness.StarIsMissed`).

How far this goes is stated twice. For arbitrary rules handed to the engine directly,
`Rules.DecisionMatchesReferenceIff` says which names are decided right whatever the rules. Lists hold
fewer rules: every domain consists of valid labels and every wildcard has a letter or digit, so some
of those names are read right after all (`*a` is one). `Readable.ReadRight` is the condition for
parsed rules. `Exactness.ListsReadRight` shows that it suffices for every name, and
`Exactness.ListsReadRightIff` that it is also necessary for names without an inner star and for names
spelled with the labels rules are spelled with. For other names with an inner star, only that it
suffices is proved.

**The answer cache** (`Answers`, `Lru`, `Recency`, `Lifespans`, `Cache`). `Lru` is a plain recency sequence with the TTL and
stale arithmetic of `Answers`; `Caches.Cache` is the slot vector with its two index-linked lists and
its map, proved to refine it operation by operation and over whole runs. `Lru` then proves what holds
of all runs. `Recency` says what least recently used means from the operations alone, and `Lifespans`
when a lookup is answered and when it misses, from what was filed and the clock.

**The upstream connection** (`Upstream`, `UpstreamRuns`, `UpstreamRates`, `UpstreamOverlap`,
`UpstreamRecovery`).
`Upstream` has the fields and the sections of code that change them. `UpstreamRuns` interleaves repair
tasks and queries with every locked section, atomic operation and clock reading as a step of its own:
nothing gets stuck and no wake-up is lost even there. `UpstreamRates` takes as one step what the code
does without awaiting (a trigger with its spawn, a repair from its build's result to its end), proves
that this is a run of the finest interleaving too, and proves there that builds never overlap and how
fast they can follow one another. At the finest interleaving builds can overlap:
`UpstreamOverlap.BuildsCanOverlap` is a run that ends with two builds under way, and
`UpstreamOverlap.OverlapNeedsForeignGuard` names the one event every such run must contain.
`UpstreamRecovery` proves that no state of any run is a dead end: the next query can be answered.

**The request pipeline** (`Server`, `SingleFlight`). Shared lookups with leaders that may die and
clients that may be cancelled, serve-stale refreshes, admission, and how answers are filed.

**Failure hold-downs** (`FailCache`, section 3.2 of RFC 9520) and **the list store** (`ListStore`,
`ListFetch`, `ListStoreExamples`), a body and an ETag on disk that survive failing writes and crashes.
A page that is not the list may be served in its place, with any text and any ETag. It is stored if a
rule is found in it, and for a page that is not a list one word on a line is enough; so what a 304
confirms is stated under conditions on such pages, with the runs that fail without them.

Instants are natural numbers of nanoseconds. Bytes are modelled as characters; every theorem about
byte strings holds for any characters. Where the standard library sorts, the model only uses that the
result is some sorted order. `Basics` and `Wrappers` hold small shared definitions.

## Model

| member | source | states |
|---|---|---|
| `Glob.GlobMatch` | crates/filter/src/engine.rs:549-571 | the two-pointer loop terminates (lexicographic in star position and text), computes `Run`, never reports a match the recursive glob denies, and on texts without an inner star reports exactly the recursive glob's matches |
| `Glob.Soundness` | crates/filter/src/engine.rs:549-571 | for any pattern and any text a reported match is a match of the recursive reference glob |
| `Glob.LaterStarSuffices` | crates/filter/src/engine.rs:557-562 | forgetting an earlier star is safe: whatever it could still match, the later star matches from here |
| `Glob.Completeness` | crates/filter/src/engine.rs:549-571 | on texts without a `*` before the last byte, remembering only the last star loses no match |
| `Glob.AgreesExactlyWhen` | crates/filter/src/engine.rs:549-571 | a text is matched right by every pattern if and only if it has no `*` before its last byte |
| `Glob.StarNameExample` | crates/filter/src/engine.rs:553-556 | handed the expression `*` directly, the matcher does not match the name `*a`; no list line yields that expression |
| `StarNames.ReadableIsReadRight` | crates/filter/src/engine.rs:549-571 | an expression with a letter or digit is matched right on texts without an inner star, without letters and digits, or with a single inner star that has none before it and behind it either none but the next byte, or one byte repeated up to a final star |
| `StarNames.ReadableTail` | crates/filter/src/engine.rs:532-546 | what follows a dot of a readable name is readable too |
| `StarNames.UnreadableIsMisread` | crates/filter/src/engine.rs:549-571 | every other text is missed by some expression with a letter or digit, made of the text's own first bytes up to a star and a short rest |
| `StarNames.ReadableExactly` | crates/filter/src/engine.rs:549-571 | a text is matched right by every expression with a letter or digit if and only if it is readable |
| `Labels.ReverseLabelsInto` | crates/filter/src/engine.rs:199-210 | writes exactly the reversed labels into the front of the buffer and leaves the rest alone |
| `Labels.ReversalFaithfulIff` | crates/filter/src/engine.rs:201-204 | the buffer holds the true label reversal if and only if the name does not end in a dot |
| `Labels.ReversalInvolution` | crates/filter/src/engine.rs:199-210 | reversing twice gives back every name whose first and last labels are not empty |
| `Labels.ProbeExact` | crates/filter/src/engine.rs:432-446 | some label-boundary prefix of the reversed name is the reversed domain if and only if the name is the domain or ends with a dot and the domain |
| `Labels.ProbeExactIff` | crates/filter/src/engine.rs:432-446 | probing is right for every domain if and only if the name does not end in a dot or holds only dots |
| `Labels.TrailingDotExample` | crates/filter/src/engine.rs:201-204 | `com.` and `com` are written as the same key, which is not the reversal of `com.` |
| `Order.SortUnstable` | crates/filter/src/engine.rs:134-135 | yields the indices once each in non-decreasing key order, and no more is used of the library's sort |
| `KeyIndexes.KeyIndex.Insert` | crates/filter/src/engine.rs:115-122 | appends one entry and its key's bytes to the index |
| `KeyIndexes.KeyIndex.Finish` | crates/filter/src/engine.rs:132-165 | keys end up non-decreasing, the bag of (key, rule) pairs is kept, the bytes of each key are stored exactly once and shared, and spans of canonical rules follow their key while all others stay |
| `KeyIndexes.KeyIndex.Rebuild` | crates/filter/src/engine.rs:137-157 | the loop over the sorted order rebuilds the arena with neighbouring repetitions stored once and relocates rule by rule |
| `KeyIndexes.KeyIndex.Place` | crates/filter/src/engine.rs:143-156 | one entry either shares the offset of the previous equal key or appends its bytes |
| `KeyIndexes.KeyIndex.Relocate` | crates/filter/src/engine.rs:331-343 | the relocation closure moves the span of a rule exactly when its form is canonical |
| `KeyIndexes.RebuiltAll` | crates/filter/src/engine.rs:132-165 | the rebuilt index is sorted and keeps the bag of pairs; its arena is the keys in strictly increasing order, none missing and none twice, and equal keys share their bytes |
| `KeyIndexes.DedupedSorted` | crates/filter/src/engine.rs:137-157 | dropping repetitions next to each other in a sorted order leaves exactly the same keys, strictly increasing |
| `KeyIndexes.SharedAlong` | crates/filter/src/engine.rs:143-153 | equal keys of a finished index share their bytes however many entries lie between them |
| `KeyIndexes.KeyIndex.PartitionPoint` | crates/filter/src/engine.rs:184-195 | the hand-written binary search finds the first index whose key is not below the needle |
| `KeyIndexes.KeyIndex.EqualRange` | crates/filter/src/engine.rs:168-173 | binary search and take-while give exactly the rule ids filed under the needle, each as often as it was filed |
| `Stores.Store.Push` | crates/filter/src/engine.rs:54-62 | appends one rule's metadata to the parallel vectors and returns its id |
| `Stores.Store.SetSpan` | crates/filter/src/engine.rs:64-67 | changes the span of one rule and nothing else |
| `Stores.Store.PushVerbatim` | crates/filter/src/engine.rs:69-80 | keeps a text and gives the rule the span of its longest prefix of at most 255 bytes that ends at a character boundary |
| `Stores.BoundaryAtOrBelow` | crates/filter/src/engine.rs:75-79 | the downward search finds the largest character boundary not above the limit |
| `Wildcards.AnchorIsSuffix` | crates/filter/src/engine.rs:221-226 | whatever an anchored wildcard matches ends with a dot and its anchor |
| `Wildcards.AnchorIsVisited` | crates/filter/src/engine.rs:448-473 | a wildcard that matches a name, directly or through a subdomain suffix, has its anchor among the name's own label suffixes |
| `Wildcards.VisitedOnce` | crates/filter/src/engine.rs:453-467 | the walk over the label suffixes never looks in a bucket twice |
| `Wildcards.CandidatesComplete` | crates/filter/src/engine.rs:448-473 | buckets and unanchored list together hold every wildcard that can match, and none is tested twice |
| `Wildcards.AddedStaysValid` | crates/filter/src/engine.rs:301-319 | filing a wildcard keeps the buckets a partition of the anchored wildcards by anchor |
| `Wildcards.WildcardMatches` | crates/filter/src/engine.rs:532-546 | tests the expression on the name and, if asked to, on what follows each of its dots |
| `EngineModel.RebuiltIsOriginal` | crates/filter/src/engine.rs:489-527 | the text put together again from a key is the rule's own text for canonical forms, and the displayed prefix for verbatim ones |
| `EngineModel.RebuiltIsPrefix` | crates/filter/src/engine.rs:489-527 | what is shown is always a prefix of the rule's text, and all of it up to 255 bytes |
| `EngineModel.AddedRecords` | crates/filter/src/engine.rs:252-322 | compacting a rule adds exactly its record, in the current list, and disturbs no earlier record |
| `EngineModel.FinishedAfterPasses` | crates/filter/src/engine.rs:324-368 | both sorts, relocations and length passes together leave every canonical span on the bytes of its own key |
| `Engines.Engine.BeginList` | crates/filter/src/engine.rs:244-249 | numbers lists in order |
| `Engines.Engine.AddRule` | crates/filter/src/engine.rs:252-322 | the log of rules grows by this rule in the current list, and every record of the engine still describes its rule |
| `Engines.Engine.Finish` | crates/filter/src/engine.rs:324-368 | the finished engine still describes every rule added, now with sorted indexes and final spans |
| `Engines.Engine.Matched` | crates/filter/src/engine.rs:489-527 | gives back the list, line, action and text of exactly the rule with that id |
| `Engines.Engine.SearchSubtree` | crates/filter/src/engine.rs:432-446 | every subtree rule that matches is considered, or a matching exception is handed back |
| `Engines.Engine.SearchWildcards` | crates/filter/src/engine.rs:448-473 | every wildcard that matches is considered, or a matching exception is handed back |
| `Engines.Engine.Verdict` | crates/filter/src/engine.rs:402-482 | Except iff some exception matches, Block iff some block rule and no exception matches, NoMatch otherwise, by the engine's tests on every name and by the reference on faithful ones; the rule reported is one that matches, with its own list, line and text; names are folded as `Meaning.NormalizedExactly` says |
| `Rules.ScanMeaning` | crates/filter/tests/prop_reference.rs:60-76 | the reference scan is a statement about which rules match: an exception anywhere wins, else any match blocks |
| `Rules.EngineMatchesIff` | crates/filter/src/engine.rs:402-482 | the engine's tests are those of the reference for every rule it can be handed, parsed or not, if and only if the name is faithful |
| `Rules.DecisionMatchesReference` | crates/filter/tests/prop_reference.rs:60-76 | on faithful names the engine decides as the linear scan does, for every set of rules it can be handed |
| `Rules.DecisionMatchesReferenceIff` | crates/filter/tests/prop_reference.rs:60-76 | for rules handed to the engine directly, parsed or not: a query is decided like the linear scan for every rule set if and only if it is empty or too long to answer, or faithful; for loaded lists see `Exactness.ListsReadRightIff` |
| `Meaning.FoldsExactly` | crates/filter/src/engine.rs:405-409 | two names are folded to the same one if and only if their bytes agree or differ in ASCII case alone |
| `Meaning.NormalizedExactly` | crates/filter/src/engine.rs:405-410 | the name looked up is a given one if and only if it was typed in some case of it, with or without one final dot |
| `Meaning.CaseIsInvisible` | crates/filter/src/engine.rs:405-410 | queries that differ in ASCII case alone get the same decision from the engine and from the reference, whatever the rules |
| `Meaning.GlobMeaning` | crates/filter/tests/prop_reference.rs:25-34 | an expression matches exactly the texts it becomes when its stars are replaced by anything |
| `Meaning.PatternMeaning` | crates/filter/tests/prop_reference.rs:36-58 | the reference matches a name exactly if it is the domain, is below a subtree domain behind a dot, or fills in the expression's stars, on the whole name or behind one of its dots if subdomains are meant |
| `Meaning.DomainExactly` | crates/filter/src/parse.rs:287-312 | a domain is accepted exactly if it is at most 253 bytes of labels of 1 to 63 small letters, digits, `-` and `_` with dots between them, none with a hyphen at an end |
| `Meaning.ExprExactly` | crates/filter/src/parse.rs:315-342 | an expression is accepted exactly if it is at most 253 bytes with a star, a letter or digit, and parts that hold a star or are bounded like labels |
| `Readable.SubtreeReadRight` | crates/filter/src/engine.rs:432-446 | a parsed domain is probed right on every name that does not end in a dot, holds only dots, or whose last label before its dots is no valid one |
| `Readable.ParsedMatches` | crates/filter/src/engine.rs:402-482 | on names that read right the engine's test for every parsed rule is the reference's |
| `Readable.ParsedDecision` | crates/filter/tests/prop_reference.rs:60-76 | on names that read right the engine decides as the linear scan does, for all parsed rules |
| `Readable.SomeParsedRuleMisreads` | crates/filter/src/engine.rs:199-210 | every other name of at most 253 bytes, if it has no inner star or is spelled with rule labels, is misread by a rule the parser can emit |
| `Readable.ListIsParsed` | crates/filter/src/parse.rs:287-342 | every rule of every list text has valid labels, and every wildcard a star and a letter or digit |
| `Exactness.WildcardLine` | crates/filter/src/parse.rs:153-225 | a valid expression with a star, as a list of one line, yields just that wildcard rule |
| `Exactness.SubtreeLine` | crates/filter/src/parse.rs:153-225 | a valid domain between `||` and `^`, as a list of one line, yields just that subtree rule |
| `Exactness.ListsReadRight` | crates/filter/src/engine.rs:402-482 | whatever list texts are loaded, every name that reads right is decided as the linear scan of their rules decides it |
| `Exactness.ListsReadRightIff` | crates/filter/src/engine.rs:402-482 | a query is decided like the linear scan whatever list texts are loaded if and only if it is out of range or reads right, for every name without an inner star and every name spelled with rule labels |
| `Exactness.StarIsMissed` | crates/filter/src/engine.rs:553-556 | with the list line `*.d` loaded the name `*c.d` is let through although the rule matches it, for every byte c a label may hold and every valid domain d of at most 250 bytes with a letter or digit |
| `Exactness.DotOvershoots` | crates/filter/src/engine.rs:201-204 | with the list line `||d^` loaded the query `d..` is blocked although the rule does not match it, for every valid domain d of less than 253 bytes |
| `Streams.Parser.ParseListStreamed` | crates/filter/src/parse.rs:93-106 | rules go to the sink and issues to the vector line by line, in order; with an engine as the sink it holds exactly the rules emitted so far |
| `Streams.Parser.SkipOrReportComment` | crates/filter/src/parse.rs:123-150 | blank lines, comments and headers are consumed, and cosmetic rules among them reported |
| `Streams.Parser.ParseLine` | crates/filter/src/parse.rs:153-225 | one rule or one issue for an adblock line, hosts lines handed on; which lines are which rules is `Grammar.LineGrammar` |
| `Streams.Parser.ParseHostsLine` | crates/filter/src/parse.rs:227-275 | one outcome for each name on a sink line, one issue in all on a routable address, and nothing at all when only localhost names remain |
| `Streams.Feed` | crates/filter/src/lib.rs:284-292 | each emitted rule is in the engine before parsing goes on; at the end the engine and its log are those of adding the rules of the whole text in order |
| `Layout.LinesExactly` | crates/filter/src/parse.rs:98-98 | the lines of a text are those it was put together from, each ended by a line feed with or without a carriage return, a last one by nothing |
| `Layout.TrimExactly` | crates/filter/src/parse.rs:100-100 | trimming takes exactly the ASCII spaces around a text away |
| `Layout.TokensExactly` | crates/filter/src/parse.rs:165-167 | the tokens of ASCII text are exactly the words between its spaces |
| `Grammar.EntryGrammar` | crates/filter/src/parse.rs:172-225 | a line that is no hosts line yields a rule exactly if it is `@@` for an exception, `||` for subdomains, the domain or expression in any case with or without a final dot, and `^` or nothing |
| `Grammar.LocalExactly` | crates/filter/src/parse.rs:238-242 | a name is left out exactly if it is one of the local names in any case, with or without a final dot |
| `Grammar.HostsGrammar` | crates/filter/src/parse.rs:227-275 | a hosts line yields exactly one block of each legal, not local domain behind a sink address, and nothing behind any other |
| `Grammar.LineGrammar` | crates/filter/src/parse.rs:123-275 | a trimmed line yields a rule exactly if it says it, as an entry or as a hosts line that is no comment |
| `Grammar.ListGrammar` | crates/filter/src/parse.rs:93-106 | a list yields exactly the rules its trimmed lines say, each with its line as its text and numbered from 1 |
| `Grammar.ExceptionExactly` | crates/filter/src/parse.rs:187-190 | on every list, a rule that is not on a hosts line is an exception if and only if its line starts with `@@` |
| `Grammar.HostsLinesBlock` | crates/filter/src/parse.rs:227-275 | hosts lines only ever block exact names, behind a sink address |
| `ListLines.HostsLineRead` | crates/filter/src/parse.rs:163-170 | on a hosts line the address before its zone decides, and the names are the words up to the comment |
| `ListLines.HostsLineSays` | crates/filter/src/parse.rs:227-275 | an address, words and a comment as they are laid out: exactly the legal domains the words spell are blocked, local names left out, and only behind a sink address |
| `ListLines.CommentsReported` | crates/filter/src/parse.rs:120-150 | comments and headers yield nothing, but `##` before what is no heading, and `#@#`, `#?#`, `#$#` and `#%#`, are reported as cosmetic |
| `ListLines.RejectedIsReported` | crates/filter/src/parse.rs:153-225 | a line that is neither a comment, a hosts line nor a rule is reported once, with its text and number |
| `ListLines.ListInOrder` | crates/filter/src/parse.rs:93-106 | rules and issues each come in the order of their lines |
| `ParseProperties.LineAccounting` | crates/filter/src/parse.rs:123-275 | every line gives exactly the outcomes it owes: one issue for a cosmetic rule that looks like a comment and none for any other skipped line, one for each name on a sink hosts line, otherwise one |
| `ParseProperties.ListAccounting` | crates/filter/src/parse.rs:93-106 | over a whole list the rules and issues add up to what its lines owe: nothing is dropped silently |
| `ParseProperties.LineEmittable` | crates/filter/src/parse.rs:153-342 | every emitted domain or expression is normalized and fits the engine's buffers and length bytes, and the rule carries its own line |
| `ParseProperties.ListIsSafe` | crates/filter/src/parse.rs:93-342 | no rule of any list can overflow the engine's buffers, length bytes or its byte slice |
| `ParseProperties.CanonicalRoundTrip` | crates/filter/src/engine.rs:489-527 | for the canonical forms the rebuilt text is the trimmed line, and parsing it yields the same action and pattern |
| `ParseProperties.NamePlace` | crates/filter/src/engine.rs:284-292 | on a line that starts with `0.0.0.0` no host name starts before the ninth byte, so the slice that recognises the form is in range |
| `Builder.ParseText` | crates/filter/src/parse.rs:108-117 | parsing into a vector gives the same rules and issues as streaming |
| `Builder.EngineBuilder.AddList` | crates/filter/src/lib.rs:269-275 | adds the rules in order to a new list |
| `Builder.EngineBuilder.AddListText` | crates/filter/src/lib.rs:281-298 | the engine is fed while the text is read, and ends up as if the text's rules had been parsed first and then added in order, with the same counts and issues |
| `Builder.EngineBuilder.Build` | crates/filter/src/lib.rs:302-306 | the built engine is finished and has lost no rule |
| `Builder.CountRules` | crates/filter/src/lib.rs:162-173 | the counts are those a load of the same text reports |
| `Builder.Load` | crates/filter/src/lib.rs:258-307 | any list texts yield a finished engine that holds exactly their rules, all of them safe and proper |
| `Builder.LoadAndAsk` | crates/filter/src/engine.rs:402-482 | end to end: for all list texts and every name that reads right the verdict is the reference's on the parsed rules, and a reported rule is one of them that matches, with its own list, line and shown text |
| `Verdicts.LogMembers` | crates/filter/src/lib.rs:258-307 | a rule is loaded exactly if one of the lists yields it |
| `Verdicts.VerdictMeaning` | crates/filter/src/engine.rs:402-482 | whatever list texts are loaded and however a name is typed: an exception line that means the name lets it through, else a line that blocks it blocks it, else it passes; for every name that reads right and does not itself end in a dot |
| `Verdicts.AnyCase` | crates/filter/src/engine.rs:405-410 | whatever is loaded, two queries that differ in ASCII case alone are answered alike |
| `Verdicts.SubtreeBlocked` | crates/filter/src/engine.rs:402-482 | with just the line `||d^` loaded, for every legal domain d, exactly d and the names below it are blocked, typed in any case and with or without one final dot |
| `Verdicts.SubtreeException` | crates/filter/src/parse.rs:187-190 | `@@||d^` alone in a list is exactly the exception for d and what is below it |
| `Verdicts.ExactException` | crates/filter/src/parse.rs:187-190 | `@@d` and `@@d^` alone in a list are exactly the exception for d |
| `Verdicts.ExceptionWins` | crates/filter/src/engine.rs:402-482 | whatever else is loaded, an exception for d and what is below it lets all those names through |
| `Verdicts.ExceptionLineWins` | crates/filter/src/engine.rs:402-482 | a line `@@||d^` anywhere in any of the lists lets d and the names below it through |
| `Verdicts.EitherOrder` | crates/filter/src/engine.rs:402-482 | with `||d^` and `@@||d^` in either order, in one list or two, d and the names below it get through |
| `Answers.SmallestIsMinimum` | crates/core/src/cache.rs:309-321 | the lifetime is attained by a record and exceeded by none |
| `Answers.LifetimeExact` | crates/core/src/cache.rs:309-321 | the lifetime is the smallest TTL, an SOA counting as the smaller of its TTL and MINIMUM (section 5 of RFC 2308) |
| `Answers.FreshTtlsExact` | crates/core/src/cache.rs:419-426 | within the lifetime every served TTL and the time elapsed add up to the published TTL: neither the saturating subtraction nor the floor of 1 takes effect |
| `Lru.FitBytesKeeps` | crates/core/src/cache.rs:486-490 | evicting from the tail yields a prefix that fits the budget or a single item, and evicts nothing that fits already |
| `Lru.InsertKeeps` | crates/core/src/cache.rs:283-369 | an insert keeps keys distinct, the entry cap and the byte budget, and the inserted item is at the front afterwards |
| `Lru.GetKeeps` | crates/core/src/cache.rs:383-430 | a lookup keeps keys distinct, the entry cap and the byte budget |
| `Lru.RunKeeps` | crates/core/src/cache.rs:283-430 | after any run the cache is within its entry cap, and within its byte budget or down to one entry |
| `Lru.ServedExactly` | crates/core/src/cache.rs:383-430 | after any run an answer comes from the key's latest cacheable insert; fresh TTLs are counted down exactly, past the lifetime only TTL 30 is served and only within the stale window (section 4 of RFC 8767) |
| `Lru.Inclusion` | crates/core/src/cache.rs:339-369 | replaying a run on capacities c and c + 1 with the byte budget idle, the smaller cache is always the larger one minus at most one item |
| `Lru.LargerHoldsMore` | crates/core/src/cache.rs:339-369 | whatever a cache holds after such a run, every larger one holds too |
| `Lru.LargerNeverLosesAHit` | crates/core/src/cache.rs:383-430 | a larger capacity never loses a hit, and serves the same answer |
| `Recency.CacheableExactly` | crates/core/src/cache.rs:283-307 | an answer is kept exactly if its rcode is NOERROR or NXDOMAIN and it has a record, and is kept with its records |
| `Recency.OrderedByLastUse` | crates/core/src/cache.rs:407-408 | after every run the cache is ordered by last use, latest first, where a use is a cacheable insert of the key or a lookup that found it |
| `Recency.InsertEvictsOldestUses` | crates/core/src/cache.rs:339-369 | a cacheable insert leads the cache with its own answer and size; of the others it keeps as many as capacity and bytes allow, no fewer, and all it evicts was last used before all it keeps |
| `Recency.LookupKeepsItems` | crates/core/src/cache.rs:383-412 | a lookup takes nothing out but an entry of its key that it finds dead |
| `Lifespans.ElapsedExactly` | crates/core/src/cache.rs:398-399 | elapsed time is whole seconds since the insert, none while the clock is behind |
| `Lifespans.LiveExactly` | crates/core/src/cache.rs:401-401 | an entry expires exactly when some record, or an SOA's MINIMUM, has run out by more than the stale window |
| `Lifespans.FoundExactly` | crates/core/src/cache.rs:383-430 | after every run a lookup misses exactly if its key is not in the cache or its latest answer has run out by more than the stale window, and is fresh exactly if nothing of it has run out |
| `Lifespans.AnsweredExactly` | crates/core/src/cache.rs:383-430 | while there is room and the clock never goes back, a lookup is answered exactly if an answer was filed for the key and the latest one is alive or within the stale window |
| `Caches.Cache.constructor` | crates/core/src/cache.rs:254-271 | a new cache is well formed and empty |
| `Caches.OneRecencySequence` | crates/core/src/cache.rs:178-221 | the structure is one recency sequence: the map is a bijection onto the occupied slots, the two lists partition the slots, and the byte count is the exact sum |
| `Caches.UnlinkKeepsLinked` | crates/core/src/cache.rs:517-540 | taking any node out leaves a doubly linked list of the others, with prev and next inverse and both ends right |
| `Caches.PushKeepsLinked` | crates/core/src/cache.rs:552-567 | pushing an unlinked node gives a doubly linked list that starts with it |
| `Caches.RemovalKeepsWhole` | crates/core/src/cache.rs:460-479 | removing a node keeps map, both lists and the partition of the slots consistent |
| `Caches.RemovedIsGood` | crates/core/src/cache.rs:460-479 | removing a node removes exactly its item, and its bytes from the count |
| `Caches.MovedIsGood` | crates/core/src/cache.rs:543-549 | moving a node to the front keeps the structure and moves exactly its item |
| `Caches.RefilledIsGood` | crates/core/src/cache.rs:339-349 | replacing an entry in place keeps the structure and adjusts the byte count exactly |
| `Caches.AddedIsGood` | crates/core/src/cache.rs:351-368 | taking a slot from the free list or a new one for a key keeps the structure and puts exactly the new item in front |
| `Caches.MapFindsPlace` | crates/core/src/cache.rs:339-339 | looking a key up in the map finds its place in the recency sequence, and only keys of the sequence |
| `Caches.Cache.Unlink` | crates/core/src/cache.rs:517-540 | computes the unlinked slots, head and tail |
| `Caches.Cache.PushHead` | crates/core/src/cache.rs:552-567 | computes the slots, head and tail with the node in front |
| `Caches.Cache.Remove` | crates/core/src/cache.rs:460-479 | unlinks the slot, forgets its key and bytes and frees it |
| `Caches.Cache.AllocSlot` | crates/core/src/cache.rs:501-514 | reuses the head of the free list if there is one, else appends a slot |
| `Caches.Cache.MoveToHead` | crates/core/src/cache.rs:543-549 | does nothing for the first node, else unlinks and pushes it |
| `Caches.Cache.EvictTail` | crates/core/src/cache.rs:493-498 | drops exactly the least recently used item, if there is one |
| `Caches.Cache.EvictToByteBudget` | crates/core/src/cache.rs:486-490 | drops least recently used items until the bytes fit, never the last one |
| `Caches.Cache.Insert` | crates/core/src/cache.rs:283-369 | refines the recency sequence's insert, slots never exceeding the capacity |
| `Caches.Cache.Get` | crates/core/src/cache.rs:383-430 | refines the recency sequence's lookup: the same answer and the same new sequence, which `Recency.OrderedByLastUse` says is ordered by last use |
| `Caches.Replay` | crates/core/src/cache.rs:254-430 | any run of inserts and lookups on a new cache leaves exactly the recency sequence of that run, within its bounds |
| `FailCache.FailureCache.Held` | crates/core/src/failcache.rs:54-60 | the time left until the hold ends, exactly while it has not ended |
| `FailCache.FailureCache.Record` | crates/core/src/failcache.rs:69-94 | applies the next hold, making room by pruning and if need be by dropping a hold that ends no later than any that is kept |
| `FailCache.FailureCache.Clear` | crates/core/src/failcache.rs:101-106 | forgets exactly this key |
| `FailCache.Oldest` | crates/core/src/failcache.rs:77-84 | finds a key whose hold ends no later than any other |
| `FailCache.RecordKeeps` | crates/core/src/failcache.rs:69-94 | never more than 4096 keys, every hold within the bounds of section 3.2 of RFC 9520, and the failure just recorded is kept with its hold |
| `FailCache.RunKeeps` | crates/core/src/failcache.rs:54-106 | the same after every run |
| `FailCache.LadderExact` | crates/core/src/failcache.rs:69-74 | the n-th failure in a row holds exactly min(5 * 2^(n-1), 60) seconds from when it happened |
| `FailCache.LadderDoubles` | crates/core/src/failcache.rs:69-74 | each rung doubles the one before, up to 60 s from the fifth on |
| `FailCache.PruningIsInvisible` | crates/core/src/failcache.rs:54-94 | on a clock that never goes back, until a remembered hold has to be dropped: a key is held exactly until the hold of its latest failure in a row, min(5 * 2^(n-1), 60) seconds, has passed, and its next hold is the next rung |
| `FailCache.NeverHoldsLonger` | crates/core/src/failcache.rs:69-94 | whatever is dropped and on any clock, no key is ever held longer than by a table that is never pruned |
| `Upstream.ReconnectingUpstream.TriggerRepair` | crates/core/src/upstream.rs:523-535 | down with its retry time come becomes connecting, and exactly then a build is to be spawned |
| `Upstream.ReconnectingUpstream.Acquire` | crates/core/src/upstream.rs:612-630 | a connected upstream is used with its own generation and transport, one down before its retry time refuses, and exactly anything else makes the query wait |
| `Upstream.ReconnectingUpstream.DropConcluded` | crates/core/src/upstream.rs:544-556 | connecting ends as down and due now, and the version is bumped |
| `Upstream.ReconnectingUpstream.FinishRepair` | crates/core/src/upstream.rs:558-598 | a build's result becomes the state, with a fresh generation and a capped probation or a retry time, and the backoff doubles up to its cap |
| `Upstream.ReconnectingUpstream.Invalidate` | crates/core/src/upstream.rs:647-667 | drops the connection exactly if it is still of that generation, down until its probation is over |
| `Upstream.ReconnectingUpstream.RecordSuccess` | crates/core/src/upstream.rs:754-765 | resets the backoff and ends the probation of whatever connection is installed |
| `UpstreamRuns.RunKeeps` | crates/core/src/upstream.rs:498-772 | all invariants below hold in every state of every interleaving |
| `UpstreamRuns.NeverStuck` | crates/core/src/upstream.rs:539-556 | connecting implies a repair task that has yet to run the section that ends it |
| `UpstreamRuns.NoLostWakeUp` | crates/core/src/upstream.rs:603-643 | a waiting query has had a bump since it subscribed, or a live repair has yet to make one |
| `UpstreamRuns.RepairConcludes` | crates/core/src/upstream.rs:539-599 | a live repair can always step, only its own steps move it, and each brings it closer to the bump |
| `UpstreamRuns.GenerationIsolation` | crates/core/src/upstream.rs:647-669 | installed generations are pairwise distinct, and a failed send only ever takes down the connection it was made on |
| `UpstreamRuns.EveryQueryAccounted` | crates/core/src/upstream.rs:674-772 | queries are answered, failed, cancelled or running, each exactly once, and none sends more than twice |
| `UpstreamRuns.WaitsBounded` | crates/core/src/upstream.rs:355-364 | backoff within 500 ms and 30 s, retries within 30 s, probations within 5 s |
| `UpstreamRates.MoveIsSteps` | crates/core/src/upstream.rs:558-598 | the section from a build's result to its end is one of the interleavings of its parts |
| `UpstreamRates.OneBuildAtATime` | crates/core/src/upstream.rs:523-556 | with those sections as steps, exactly one build runs while connecting and none otherwise |
| `UpstreamOverlap.BuildsCanOverlap` | crates/core/src/upstream.rs:544-556 | a run of the finest interleaving in which a finished repair's guard ends the next build's connecting, so that a third build starts beside the second |
| `UpstreamOverlap.OverlapNeedsForeignGuard` | crates/core/src/upstream.rs:544-556 | in every run of the finest interleaving two unfinished builds exist at once only after the guard of a task that owes no end has ended a connecting owed to another |
| `UpstreamOverlap.FirstForeignGuard` | crates/core/src/upstream.rs:544-556 | the first such guard of a run leaves the other task alive and the upstream due, so that the next trigger puts a second build beside it if it is still building |
| `UpstreamRates.RebuildLadder` | crates/core/src/upstream.rs:564-598 | with neither answer nor abandoned build in between, at least min(500 * 2^k, 5000) ms pass from the end of the k-th build in a row (from 0) to the next start, failed or unanswered alike, and at least min(500 * 2^k, 30000) ms in a row of failed builds alone |
| `UpstreamRates.ConcludeExactly` | crates/core/src/upstream.rs:564-598 | a build that succeeds is on probation for the backoff, at most 5000 ms, one that fails waits the whole backoff, which doubles up to 5000 or 30000 ms |
| `UpstreamRates.FailedRowExactly` | crates/core/src/upstream.rs:581-598 | after k failed builds in a row since the last answer the next one fails into a wait of exactly min(500 * 2^k, 30000) ms |
| `UpstreamRecovery.LookUpExactly` | crates/core/src/upstream.rs:612-632 | a query that looks fails if and only if the upstream is down and its retry time has not come, and sends if and only if it is connected, on exactly the connection installed |
| `UpstreamRecovery.TriggerExactly` | crates/core/src/upstream.rs:523-535 | asking for a repair makes the upstream connecting and starts a task if and only if it is down and its retry time has come |
| `UpstreamRecovery.ReplyExactly` | crates/core/src/upstream.rs:684-740 | a good answer is accepted, a bad one fails the query alone, a dead connection or a hang condemns it, and only a query that has lost none before goes on to send again |
| `UpstreamRecovery.CondemnExactly` | crates/core/src/upstream.rs:647-669 | a condemned connection goes down until its probation is over if it is still the one installed, and nothing changes otherwise |
| `UpstreamRecovery.AnswerExactly` | crates/core/src/upstream.rs:754-765 | an answer resets the backoff to 500 ms and ends the probation of the connection installed |
| `UpstreamRecovery.GuardExactly` | crates/core/src/upstream.rs:544-556 | the guard ends nothing but a connecting left behind, which is then due at once |
| `UpstreamRecovery.DueIsNeverRefused` | crates/core/src/upstream.rs:603-632 | from every down and due state of every run the next query's subscribe, look and trigger lead to connecting with a live task |
| `UpstreamRecovery.DueIsAnswered` | crates/core/src/upstream.rs:558-632 | and on from there to an answer over a connection of a fresh generation |
| `UpstreamRecovery.AlwaysAnswerable` | crates/core/src/upstream.rs:498-772 | from every state of every run some steps lead to the next query answered with no query failed, the connection proven and the backoff at 500 ms |
| `Server.Pipeline.Enter` | crates/core/src/server.rs:330-346 | counts the query in and admits it exactly if fewer than 512 were being handled |
| `Server.Pipeline.ResolveCached` | crates/core/src/server.rs:502-514 | a fresh or stale entry is served as it is whatever is held down, a stale one with a refresh exactly if none runs; a miss is held down exactly while its hold has not ended, and is asked for otherwise |
| `Server.Pipeline.SpawnRefresh` | crates/core/src/server.rs:597-603 | marks the key and starts a refresh exactly if it was not marked |
| `Server.Pipeline.JoinLookup` | crates/core/src/server.rs:534-543 | joins the lookup under way for the key, or leads a new one |
| `Server.Pipeline.Settle` | crates/core/src/server.rs:728-747 | a SERVFAIL extends the hold and leaves the cache alone, anything else clears the hold and is offered to the cache |
| `Server.LookAfterAnswer` | crates/core/src/server.rs:728-747 | filing and looking again: after an answer other than SERVFAIL its key is never held down; one that is kept is served fresh with its TTLs counted down until a record runs out, then stale for the window, then asked for again |
| `Server.LookAfterFailure` | crates/core/src/server.rs:728-747 | filing and looking again: after a SERVFAIL a key that is not in the cache is held down for at least 5 and at most 60 seconds |
| `Server.FirstLook` | crates/core/src/server.rs:502-514 | with nothing cached and nothing failed every key is asked for |
| `SingleFlight.RunKeeps` | crates/core/src/server.rs:527-592 | the invariants below hold in every state of every run, leaders dying and clients cancelled included |
| `SingleFlight.GuardRemovesItsOwn` | crates/core/src/server.rs:168-174 | a guard removes its own leader's entry and no other |
| `SingleFlight.MappedIffOneLeader` | crates/core/src/server.rs:527-592 | a key is in the map if and only if exactly one leader for it still holds its guard |
| `SingleFlight.OneResolverPerKey` | crates/core/src/server.rs:545-583 | at most one leader per key is asking the upstream |
| `SingleFlight.OneMessage` | crates/core/src/server.rs:579-583 | each channel carries at most one message, and every waiting client subscribed before it |
| `SingleFlight.SharedOutcome` | crates/core/src/server.rs:586-591 | clients of one lookup all get the same answer, or all of them none because the leader died |
| `SingleFlight.NobodyStranded` | crates/core/src/server.rs:527-592 | a waiting client can receive, or its live leader can step; each of the leader's steps brings it closer to its end and nothing else moves it |
| `SingleFlight.JoinExactly` | crates/core/src/server.rs:534-543 | a client that misses waits on the lookup under way for its key, or starts one |
| `SingleFlight.DeliveredExactly` | crates/core/src/server.rs:545-591 | whatever answer a client of a lookup ends with is the one its leader resolved |
| `SingleFlight.StaleHitRefreshes` | crates/core/src/server.rs:597-603 | a stale hit leaves a refresh of its key running, and starts one exactly if none was |
| `SingleFlight.OneRefreshPerKey` | crates/core/src/server.rs:597-630 | a key is marked as being refreshed if and only if exactly one refresh of it runs |
| `SingleFlight.AdmissionBounded` | crates/core/src/server.rs:326-346 | never more than 512 queries are admitted at once; the counter is admitted and shed together |
| `SingleFlight.AdmittedExactly` | crates/core/src/server.rs:326-346 | a query is admitted if and only if fewer than 512 are being handled, shed ones included |
| `ListStore.StoreSurvivesCrashes` | crates/core/src/lists.rs:496-605 | whatever is served, whatever fails and wherever a crash comes, the stored body is a whole page that was served and that the counting accepts, and the ETag on disk is never newer than it |
| `ListStore.ConfirmedIsCurrent` | crates/core/src/lists.rs:503-531 | if the host never returns to an earlier version and no other page served holds a rule, a 304 is only accepted for a stored copy that is current |
| `ListStore.ConfirmedUnlessOther` | crates/core/src/lists.rs:503-531 | if other pages may hold rules but look like no publication, an accepted 304 is right if and only if the stored copy is a publication and not one of them |
| `ListStore.ConfirmedExactly` | crates/core/src/lists.rs:503-531 | if ETags identify texts among all pages served, an accepted 304 is right if and only if the ETag on disk is the one the stored body came with |
| `ListStore.GoingBack` | crates/core/src/lists.rs:503-592 | for any two lists: a crash between body and ETag and a host that goes back make a 304 confirm the wrong body |
| `ListStore.OtherPageConfirmed` | crates/core/src/lists.rs:558-592 | for any list and any page that is accepted, differs and has no ETag: stored over the list, with the removal of the list's ETag failing, it is confirmed as the list |
| `ListStoreExamples.GoingBackExample` | crates/core/src/lists.rs:503-592 | the same with texts in which the parser finds one rule each |
| `ListStoreExamples.OtherPageExample` | crates/core/src/lists.rs:558-592 | the same with texts in which the parser finds one rule each, on a host that has only ever published one version |
| `ListStore.StoredIsReachable` | crates/core/src/lists.rs:570-605 | storing a body with any of its writes failing is a run of the steps the theorems are about |
| `ListStore.OrderlyIsConfirmedRightly` | crates/core/src/lists.rs:570-592 | while no crash comes and no removal of an ETag fails, whatever else fails and whatever pages are served: if ETags identify texts, every accepted 304 is right |
| `ListStore.StoredIsAskedFor` | crates/core/src/lists.rs:503-592 | a publication stored without failures is on disk whole, its ETag goes with the next request, and a 304 to it is right |
| `ListFetch.ReadBody` | crates/core/src/lists.rs:534-553 | the body is accepted exactly if it arrives whole within 64 MiB, and its bytes are then the concatenation of its chunks |
| `ListFetch.ListFiles.WriteBodyAtomic` | crates/core/src/lists.rs:601-605 | the body changes only if the temporary file was written and renamed |
| `ListFetch.ListFiles.StoreDownloaded` | crates/core/src/lists.rs:570-592 | body first, then its ETag; what cannot be vouched for loses its ETag |
| `ListFetch.ListFiles.FinishDownload` | crates/core/src/lists.rs:534-599 | a body in whose decoded text the parser finds no rule never touches the disk, any other is used even if it cannot be stored |
| `ListFetch.StoredBodyHoldsARule` | crates/core/src/lists.rs:558-592 | over all runs, the parser finds at least one rule in the stored body, and the ETag on disk is not newer than it |
| `ListFetch.AcquireList` | crates/core/src/lists.rs:423-490 | a local file or nothing without an address; else the fetched text, else the stored copy, else the seed; an error exactly if the file to be used is there and unreadable, unavailable only if there is none |

## Left out

- Sockets, TLS, HTTP, DoH and DoQ transports, bootstrap resolution, signals, SQLite and the file system calls themselves: each is a step with a free outcome.
- The async runtime, channels, watches, atomics and mutexes: each locked section, atomic operation, send and receive is one step; a repair task dropped before its first poll and poisoned mutexes are not modelled.
- The DNS message codec, EDNS and DNSSEC stripping: keys and records are opaque, and a message's encoded size is any number or absent.
- Parsing of IP literals: which tokens are addresses, and which of them are sinks, is a parameter of the parser.
- The parser's callbacks: the sink is a vector, or a vector and an engine, and not any closure.
- `RuleRef` and the borrowed or owned forms of its strings: they carry the same text.
- The panics for arenas over 4 GB, more than 65536 lists and over 4 billion rules: list counts are a precondition, arenas are unbounded.
- Heap-size reports, shrinking of vectors, logging and timing statistics: they carry no contract.
- Cache mutex and shared entries: `Insert` and `Get` are one step each; building a response outside the lock is part of `Get`.
- Layout.TokensExactly: says nothing of text with bytes beyond ASCII, where the model has Unicode's whitespace characters as a table; every text and its lines are parsed with that table.
- Verdicts.VerdictMeaning: leaves out names that still end in a dot once one is stripped, and names that do not read right; `Exactness.DotOvershoots` and `Exactness.StarIsMissed` say what happens to such names.
- Which of several matching rules is reported: the model only says that it matches and is of the right kind.
- Which reason an issue gives: it is part of the parser's outcome, but not stated again apart from it, except for comments.
- UpstreamRecovery.AlwaysAnswerable: says that steps to an answer exist, not that the scheduler and the network take them.
- UpstreamRuns.NoLostWakeUp: says that a wake-up is due or owed by a live repair, not when the scheduler runs that repair.
- The race over several upstreams, the pool's own counters and its start-up rounds: they only add case splits over the machine of one upstream.
- Generation, version and query counters wrapping at 64 bits.
- The rest of `handle_at`: allowlist, ANY refusal, safe search, CNAME-chain check and the query log are plain case splits around the verdict.
- Exactly one upstream lookup per burst: the cache check and the map check are separate steps, so the code does not promise it.
- Two processes using one list directory, and files changed by others: one fetch of a list runs at a time.
- Exactness.ListsReadRightIff: says nothing of names that have a `*` before their last byte and also a byte or label no rule is written with; for those `Exactness.ListsReadRight` gives one direction only.
- ListFetch.ReadBody: yields the bytes; how bytes that are not UTF-8 become replacement characters is a parameter, and `FinishDownload` counts, stores and returns the decoded text.
- ETag values with surrounding white space: header values have none, so trimming them is the identity.
- Modification times and the age of a stored list.
