# xorm: cache coherence, SQL text and transactions

A Dafny model of the stateful and textual core of xorm, a Go object-relational mapper, with
proofs about it. `dafny verify dfyconfig.toml` checks everything.

## What is modelled

**The query cache.** `LruCacher.dfy` is the LRU cacher as a class: two recency lists, two two-level
indexes, one key/value store, each method proved to do to all five what a pure cache
(`LruSpec.dfy`) does. About that cache: an invariant of every history (`LruInvariant.dfy`), a
refinement to "the latest Put still in force" (`LruHistory.dfy`), the order of eviction
(`LruOrder.dfy`), and the visits that the history makes to each entry, which decide what is read,
kept and evicted (`LruVisits.dfy`). `CacheProtocol.dfy` states what Get, Find, Insert, Update and Delete do to cache
and tables, `CachedSession.dfy` is the session code refined to it, and `Coherence.dfy` proves over
whole runs that the cache cannot be observed; `CacheUse.dfy` that it is used: what is read once is
read again without the tables, and what writes leave in it. `CacheCorners.dfy` says exactly when code paths outside
that discipline break coherence, with small worlds in which they do.

**SQL text.** `Filter.dfy` is the one-pass placeholder rewriter, loop for loop; `FilterStreams.dfy` and
`FilterTokens.dfy` prove that it is the rewriting of tokens, and when a second pass is the identity;
`FilterCorners.dfy` says when an operator before a placeholder spoils what follows, and `FilterDollars.dfy`
what a dollar sign opens.
`DumpLiterals.dfy`, `DumpBackslash.dfy`, `DumpConcat.dfy`, `DumpEscapes.dfy` and `DumpWriters.dfy` are
the string literals a dump contains, with evaluators for the target database's reading of them;
`ImportSplit.dfy` is the incremental statement splitter of Import and `ImportPieces.dfy` what it sends;
`DumpScript.dfy` puts the two together. `DumpRows.dfy` reads a dumped row back, `DumpCells.dfy` has the
form chosen for each value and what the target makes of it, and `DumpPrintable.dfy` says which
characters are escaped. `Quoter.dfy`, `Mapper.dfy` and `SqliteColumn.dfy` are the identifier quoter, the
name mappers, and the column printer with SQLite's parser; `SqliteTypes.dfy` is what a printed column
means.

**Transactions.** `TxSpec.dfy` is a session as a state machine over Begin, Commit, Rollback, Close and
writes, any of which the driver may refuse, with a monitor of what the driver sees;
`TxClosures.dfy` accounts for every deferred closure, and `TxOrder.dfy` says which wait, which run,
on which bean and in which order; `TxSession.dfy` is the session code, and
`Engine.Transaction`, refined to it.

**Iteration, migrations, round robin.** `BufferIterate.dfy`, `Migrations.dfy`, `RoundRobin.dfy`.

## How to read it

Go code that updates objects or runs loops is a class or a method, proved equal to a pure function;
the theorems are lemmas about the functions. What comes from outside is a parameter: the clock (one
reading per cacher method), the driver's answers, the order in which Go walks a map or a database
lists a batch, the chunks a reader delivers, user callbacks. Tables are maps from primary key to row
and queries are deterministic functions of one table. A primary key is its text form. A query is known
by its cache key, the SQL and arguments as `GenSqlKey` prints them. Two hypotheses go with this, and
neither holds for all names: that what a query selects is a function of its key
(`LruInvariant.GenSqlKeyCollides`), and that different names have different store keys (`Separated`;
`LruInvariant.GenIDCollides`).

## What does not hold

Where a plausible claim about the code is false, the code is kept and the exact condition is proved,
with an input that fails wherever the condition does not name one.

- Different beans, and different arguments of one query, can share a store key
  (`LruInvariant.GenIDInjectiveIff`, `GenIDCollides`, `GenSqlKeyInjectiveIff`, `GenSqlKeyCollides`).
- Get with a struct type other than the cached one panics (`CacheCorners.OtherTypePanicsIff`,
  `OtherTypePanics`).
- Find loses rows of ids that are listed twice and not cached (`Coherence.AssembledIff`,
  `CacheCorners.FindLosesRow`).
- Delete with `tx` set or without a struct leaves stale beans (`CacheCorners.UnguardedDeleteIff`,
  `StaleBean`), and `tx` stays set after Commit and Rollback (`DeletesAfterBeginAreUnguarded`).
- GC removes 21 entries of a list although the constant is called CacheGcMaxRemoved and is 20
  (`LruOrder.GcExact`); a Put of a listed key restamps it without moving it
  (`LruOrder.PutPresentKeepsOrderIff`).
- The placeholder filter takes an operator before a placeholder for a possible comment start
  (`FilterCorners.OperatorBeforeHoleIff`, `BothNumberedIff`, `SecondPlaceholderLost`) and miscounts the
  stars that end a block comment (`FilterTokens.BlockCommentIff`). It takes a placeholder after
  `::jsonb ` for an operator, as in `x::jsonb = ?` (`FilterCorners.HoleAfterJsonbIff`,
  `HoleAfterJsonbLost`). A second pass takes a written
  parameter before another one, or before a dollar quote, for the beginning of a tag
  (`FilterStreams.WrittenTagIff`, `SecondPassKeepsIff`, `AdjacentHolesChange`).
- With MySQL's backslash escapes on, which the dump turns off, a string with a backslash need not
  come back (`DumpBackslash.QuotedRoundTripIff`, `BackslashIsNoLiteral`, `DumpConcat.ConcatRoundTripIff`).
- A dumped PostgreSQL string with a NUL is rejected on import (`DumpEscapes.PgRoundTripIff`,
  `DumpCells.TextReturnsIff`).
- Import's comment flag survives a request for more data (`ImportSplit.ChunkingIsInvisibleIff`,
  `ChunkingShows`).
- Closures of a rolled-back transaction run in the next one that commits
  (`TxClosures.RolledBackClosuresRun`); a write without closures can erase those waiting
  (`CommitRunsAllIff`); a failed insert on Oracle leaves its own transaction open
  (`OracleInsertKeepsModeIff`); Begin on a closed session leaks (`TxSpec.BeginAfterCloseLeaks`).
- QuoteTo's comment promises `name AS a -> [name] AS a`; the code quotes the alias too
  (`Quoting.AsKeepsAliasIff`, `AsAliasMarked`; schemas/quote_test.go:36-37 agrees), and takes the first
  letters of an alias starting with "as" for the keyword where there is none (`AliasQuotedIff`, `AliasCut`).
- Some initialisms with digits, UTF8 among them, do not survive the gonic mapper
  (`NameMapper.GonicRoundTripIff`, `Utf8DoesNotReturn`).
- A boolean column comes back from SQLite as a whole number, and a time with a zone as text
  (`SqliteTypes.TypeKeptIff`).
- Buffered iteration with both an offset and a limit stops at the wrong row
  (`BufferIterate.PagesAreThePlainPassIff`).
- With repeated ids the recorded migrations need not be a prefix of the list
  (`Migrations.PrefixIff`, `OutOfOrder`), and each is recorded in a statement of its own, whose failure
  leaves the schema ahead (`MigrateInStepIff`, `RollbackInStepIff`, `UnrecordedRunsAgain`).

## Model

| member | source | states |
|---|---|---|
| `LruCacher.MemoryStore.Put` | caches/memory_store.go:25-30 | After Put the store is the old map with this one key bound to the value, and nothing else changes |
| `LruCacher.MemoryStore.Get` | caches/memory_store.go:33-41 | The value bound to the key, or none where Go returns ErrNotExist; the store is only read |
| `LruCacher.MemoryStore.Del` | caches/memory_store.go:44-49 | The store loses exactly this key |
| `LruCacher.LRUCacher.constructor` | caches/lru.go:33-43 | A new cacher is valid, owns an empty store and has empty lists and indexes |
| `LruCacher.LRUCacher.GetIds` | caches/lru.go:87-112 | On lists, two-level index, time stamps and store together: a hit moves the element to the back and restamps it, an expired hit is deleted and misses, a value the index lost is listed again, a missing value unlists the key; the result and new state are those of the pure cache |
| `LruCacher.LRUCacher.GetBean` | caches/lru.go:115-142 | The same for beans, where an expired bean takes its table's id lists with it, and the table's inner map is created if it was missing |
| `LruCacher.LRUCacher.PutIds` | caches/lru.go:181-199 | A new key joins the back of the list, a listed one is restamped where it stands; beyond the capacity the front element is deleted |
| `LruCacher.LRUCacher.PutBean` | caches/lru.go:202-221 | The same for beans; the table's inner map must exist already, which is the condition under which the Go code does not panic |
| `LruCacher.LRUCacher.DelIds` | caches/lru.go:223-238 | The named list disappears from recency list, index and store, and nothing else changes |
| `LruCacher.LRUCacher.DelBean` | caches/lru.go:240-255 | The named bean disappears everywhere; if it was indexed, all id lists of its table are cleared, otherwise they stay |
| `LruCacher.LRUCacher.ClearIds` | caches/lru.go:145-160 | All id lists of the table go, and only those |
| `LruCacher.LRUCacher.ClearBeans` | caches/lru.go:162-178 | All beans of the table go, and no id list of any table |
| `LruCacher.LRUCacher.GC` | caches/lru.go:54-84 | Removing from the front while iterating gives the state that the counted removal of expired fronts gives, beans first, then id lists |
| `LruInvariant.GenIDCollides` | caches/lru.go:269-271 | Two different (table, id) names share a store key: the table may contain the dash that joins the parts |
| `LruInvariant.GenIDInjectiveIff` | caches/lru.go:269-271 | Two tables keep their store keys apart under all ids exactly if they are one table or neither name followed by a dash is a prefix of the other |
| `LruInvariant.GenIDInjective` | caches/lru.go:269-271 | So for tables without a dash equal store keys mean equal names |
| `LruInvariant.GenSqlKeyCollides` | caches/cache.go:97-99 | Two argument lists of one query, `a b` with `c` and `a` with `b c`, share a store key |
| `LruInvariant.GenSqlKeyInjectiveIff` | caches/cache.go:97-99 | A query of two text arguments tells two first ones apart, whatever the second ones are, exactly if neither followed by a blank is a prefix of the other |
| `LruInvariant.GenSqlKeyInjective` | caches/cache.go:97-99 | As many text arguments without blanks always have keys of their own |
| `LruInvariant.RunOwned` | caches/lru.go:87-248 | After any history of operations on a fresh cacher with distinct store keys, each list holds distinct names, the store's keys are exactly the keys of both lists, and both lists respect a non-negative capacity |
| `LruHistory.RunAgrees` | caches/lru.go:87-248 | After any history the store binds each key to nothing or to the value of the latest Put with no later Del or Clear |
| `LruHistory.ReadsReturnLatestPut` | caches/lru.go:87-142 | GetBean and GetIds return nothing or the value of the latest Put still in force, at any time of any history |
| `LruHistory.LostBeanLosesLists` | caches/lru.go:240-248 | Whenever an indexed bean goes, by eviction, expiry, DelBean or GC, no id list of its table stays |
| `LruHistory.ClearBeansKeepsLists` | caches/lru.go:162-171 | ClearBeans is the exception: the table's beans go, every id list stays |
| `LruOrder.GcExact` | caches/lru.go:54-84 | One GC removes from the front of each list exactly its longest expired prefix, at most 21 entries although CacheGcMaxRemoved is 20; in between the id lists of the affected tables are dropped |
| `LruOrder.PutPresentKeepsOrderIff` | caches/lru.go:193-197 | A Put of a listed key keeps the list sorted by last visit exactly if everything behind it was visited at this same instant |
| `LruOrder.RunOrdered` | caches/lru.go:87-221 | With a monotone clock and Puts of unlisted keys only, both lists stay sorted by last visit over any history |
| `LruOrder.GcTakesOldest` | caches/lru.go:54-84 | On sorted lists, what GC removes was visited no later than what it leaves: among the beans, and among the id lists left when those of the removed beans' tables have gone |
| `LruOrder.PutEvictsOldest` | caches/lru.go:181-221 | On a sorted list that is full, a Put of an unlisted key removes the front, a least recently visited bean (PutBean) or id list (PutIds), and appends the key |
| `LruOrder.OldestGoFirst` | caches/lru.go:54-84 | Over any disciplined run and for both lists: GC takes the oldest entries and leaves an expired one only after removing 21, and eviction takes a least recently visited entry |
| `LruVisits.RunVisited` | caches/lru.go:87-221 | After any history each node of both lists carries the time of the latest Get or Put of its name, a time defined on the history alone |
| `LruVisits.GetBeanIff` | caches/lru.go:115-142 | After any history a bean is returned exactly if it is listed and its latest Get or Put is not longer ago than Expired; then it is the latest Put, it moves to the back of the list with this time, and nothing else changes; otherwise it goes, with its table's id lists if it was listed |
| `LruVisits.GetIdsIff` | caches/lru.go:87-112 | The same for id lists, where nothing else goes |
| `LruVisits.PutBeanNext` | caches/lru.go:202-221 | A Put of a bean enters it at the back or restamps it, and if the list is then longer than the capacity its front goes, with the id lists of that bean's table |
| `LruVisits.PutIdsNext` | caches/lru.go:181-199 | The same for id lists, where only the front goes |
| `LruVisits.BeanGoes` | caches/lru.go:240-255 | A deleted bean goes alone, or with all id lists of its table if it was listed |
| `LruVisits.ListsGo` | caches/lru.go:145-178 | ClearIds and ClearBeans take the entries of their table from their one list, leave the rest of it in order, and leave the other list alone |
| `LruVisits.LeastRecentlyVisitedGoes` | caches/lru.go:181-221 | Over any disciplined run the front of each list, which a Put into a full list removes, is an entry whose latest Get or Put in the history is no later than that of any other |
| `CachedSession.Session.Get` | session_get.go:62-143 | Get, with its fallback to the plain query, does to cache and reply what the protocol function says; every PutBean finds the inner map it needs |
| `CachedSession.Session.CacheGet` | session_get.go:289-382 | The cached path: ids from the cache or from the first row of the query, the bean from the cache or by primary key, and the refill of both |
| `CachedSession.Session.IdsForGet` | session_get.go:308-359 | The id list from the cache, or the first row of the id query, which is then cached |
| `CachedSession.Session.Find` | session_find.go:90-174 | Find, with its fallback to the plain query, refines the protocol function |
| `CachedSession.Session.CacheFind` | session_find.go:345-554 | The cached path of Find: ids, hits and misses, the batch query for the misses, and the reassembly in order |
| `CachedSession.Session.IdsForFind` | session_find.go:367-410 | The cached id list, or that of the id query unless it has more than 500 ids |
| `CachedSession.Session.ProbeBeans` | session_find.go:414-458 | The hit loop fills a slot for each cached bean of the right type and remembers the position of each missing id, a later one over an earlier one |
| `CachedSession.Session.RefillBeans` | session_find.go:460-513 | The refill loop puts each fetched row into its slot and into the cache |
| `CachedSession.Session.Assemble` | session_find.go:515-551 | The last loop lists the beans of the filled slots in order |
| `CachedSession.Session.Insert` | session_insert.go:457-467 | An insert changes the table and then clears the table's id lists; a refused one does neither |
| `CachedSession.Session.Update` | session_update.go:194-212 | An update changes the table and then clears its id lists and beans |
| `CachedSession.Session.CacheDelete` | session_delete.go:19-87 | Deletes the beans of the ids that the query selects, then the table's id lists; refuses without a RefTable or with tx set |
| `CachedSession.Session.Delete` | session_delete.go:162-174 | Invalidation comes before the statement, and its refusal does not stop the statement |
| `Coherence.FreshIsGood` | caches/lru.go:33-43 | A fresh cacher before any database satisfies the coherence invariant |
| `Coherence.CachedGetIsSingleRow` | session_get.go:92-109 | Every Get that reaches the cached path is limited to one row: raw SQL fails canCache (session.go:353-366), and any other Get sets LIMIT 1 |
| `Coherence.GetFaithful` | session_get.go:62-143 | From a coherent state a Get, cached or not, raw or not, replies with the first row of the caller's statement and keeps the state coherent |
| `Coherence.AssembledIff` | session_find.go:402-551 | The reassembled result equals the plain one, for every split into hits and misses and every order of the batch, exactly if no missing id occurs twice in the list |
| `Coherence.CacheFindFaithful` | session_find.go:345-554 | The cached path of Find fails exactly if there are more than 500 ids, and otherwise its reply is the plain one exactly if no missing id is listed twice; the state stays coherent |
| `Coherence.FindFaithful` | session_find.go:90-174 | Find keeps the state coherent, and its reply is the plain one exactly under that same condition; above 500 ids, or when the query may not be cached, it is the plain query |
| `Coherence.InsertGood` | session_insert.go:457-467 | An insert keeps every cached bean current and every cached id list what its query selects |
| `Coherence.UpdateGood` | session_update.go:208-212 | An arbitrary update of the table does too |
| `Coherence.DeleteGood` | session_delete.go:19-87 | A guarded delete does too, though it invalidates before the statement runs and may leave the beans of unaffected rows |
| `Coherence.StepFaithful` | session_find.go:90-174 | Each command of a proper run keeps coherence and gives the reply and the tables of the plain database |
| `Coherence.CacheIsInvisible` | session_find.go:345-554 | Over any proper run, at any times and with any evictions, the cached session gives the replies of the plain database, leaves the same tables, and every state on the way is coherent |
| `CacheUse.GetThenGet` | session_get.go:289-382 | The cache is used: after a Get that found a row the same Get gives the same reply for as long as entries live, whatever becomes of the tables behind the cache, if there was room and no bean of the table had expired unnoticed |
| `CacheUse.FindThenFind` | session_find.go:345-554 | The same for Find, whatever order the batch comes in |
| `CacheUse.GetFills` | session_get.go:308-380 | Such a Get leaves the list of its one id and the bean of that row in the cache |
| `CacheUse.FindFills` | session_find.go:367-513 | Such a Find leaves its id list and every bean of its result in the cache |
| `CacheUse.LongListIsNotCached` | session_find.go:372-386 | Above 500 ids Find fails the cached path, and neither a bean nor the id list enters the cache |
| `CacheUse.InsertSpares` | session_insert.go:457-467 | An insert takes no bean from the cache, and no id list of another table |
| `CacheUse.UpdateSpares` | session_update.go:208-212 | An update takes nothing of another table |
| `CacheUse.DeleteSpares` | session_delete.go:19-87 | A delete takes only beans that its query selects, and nothing of another table |
| `CacheCorners.OtherTypePanicsIff` | session_get.go:355-380 | A Get with another struct type than the cached one panics exactly if the query selects a row whose bean the cache still serves |
| `CacheCorners.OtherTypePanics` | session_get.go:355-380 | A world in which that happens: a Get into one struct type fills the cache, the same Get into another panics |
| `CacheCorners.UnguardedDeleteIff` | session_delete.go:19-27 | A delete with tx set or without RefTable skips the invalidation: coherence survives exactly if no victim is cached and every cached id list of the table is what its query selects after the delete |
| `CacheCorners.DeletesAfterBeginAreUnguarded` | session_tx.go:42-104 | Commit and Rollback leave tx set: after a successful Begin every later delete of the session skips the invalidation, the transaction being over or not, until Close |
| `CacheCorners.StaleBean` | session_delete.go:19-27 | A world in which such a delete leaves a bean that the cache still serves |
| `CacheCorners.FindLosesRow` | session_find.go:414-458 | A world, such as a view mapped as a table or a tagged key that is not unique, in which the plain Find lists a row twice and the cached one once |
| `Filter.PostgresConvertQuestionMark` | dialects/filter.go:25-100 | The loop over nine state variables computes the scanner's specification |
| `Filter.ExtractDollarQuoteTag` | dialects/filter.go:102-115 | The tag that starts here, if a `$` follows tag characters only |
| `Filter.OracleConvertQuestionMark` | dialects/filter.go:135-185 | The Oracle loop computes the same specification without dollar quotes and jsonb |
| `FilterStreams.FilterRewritesStream` | dialects/filter.go:25-185 | For every stream of plain text, placeholders, parameters, quoted literals, line comments, block comments without a star and dollar quotes: the k-th placeholder becomes parameter start+k and every other token is copied; a second pass changes nothing if no written parameter begins a dollar-quote tag, which on Oracle none does |
| `FilterStreams.RewriteAt` | dialects/filter.go:49-53 | The rewriting, position by position: placeholders are numbered by how many came before, other tokens are unchanged |
| `FilterStreams.WrittenTagIff` | dialects/filter.go:86-115 | In the filtered text of any such stream, a written parameter is read as the beginning of a tag exactly if tag characters, or nothing, and then another placeholder or parameter or a dollar quote follow the placeholder |
| `FilterStreams.SecondPassKeepsIff` | session_raw.go:14-21 | A cached read filters its SQL twice. After any stream without such a tag so far, a placeholder, a text, and a placeholder or dollar quote that does not hold the tag itself: whatever a literal then says, the second pass changes nothing, exactly unless the text is all tag characters |
| `FilterStreams.SecondPassChanges` | session_raw.go:14-21 | The family that fails: such a tag and a literal that holds it, a question mark and two dashes |
| `FilterStreams.AdjacentHolesChange` | dialects/filter.go:86-93 | The shortest of them: `??'$1$?--'` becomes `$1$2'$1$?--'`, which a second pass changes |
| `FilterTokens.ScanIsRewrite` | dialects/filter.go:25-185 | The general form: on every text that tokens spell, with operators, jsonb operators and block comments holding stars included, the one-pass scan is the token rewriting |
| `FilterTokens.FilterTwice` | session_raw.go:14-21 | The same for every text that tokens spell: the second pass (session_get.go:295-297, then here), from any start, is the identity if no written parameter begins a dollar-quote tag |
| `FilterTokens.TagReadIff` | dialects/filter.go:102-115 | Such a parameter is the beginning of a tag exactly if the tokens after its placeholder spell the rest of one |
| `FilterTokens.BlockCommentIff` | dialects/filter.go:62-79 | A placeholder right after a block comment is numbered exactly if an even number of stars stands before the end mark |
| `FilterTokens.ScanJsonb` | dialects/filter.go:55-85 | A question mark after `::jsonb `, operator or placeholder, is never numbered, whatever plain text stands between |
| `FilterDollars.TagOpensIff` | dialects/filter.go:102-115 | A tag is read exactly where ASCII letters, digits and underscores, or nothing, stand between two dollar signs (section 4.1.2.4 of the PostgreSQL manual), and it is that tag |
| `FilterDollars.LoneDollarIsCopied` | dialects/filter.go:86-93 | A dollar sign that no such tag begins with opens nothing: it is copied and the text after it is filtered as on its own |
| `FilterDollars.DollarQuoteIsCopied` | dialects/filter.go:34-47 | Between a tag and its next occurrence everything is copied, placeholders included, and numbering goes on behind it |
| `FilterDollars.OpenDollarQuoteIsCopied` | dialects/filter.go:34-47 | If the tag never comes again everything is copied |
| `FilterCorners.HoleAfterJsonbIff` | dialects/filter.go:55-85 | The first placeholder after text without quotes, dashes, slashes and dollar signs is numbered, whatever follows it, exactly unless the text holds `::jsonb `; then it is copied |
| `FilterCorners.HoleAfterJsonbLost` | dialects/filter.go:55-85 | The input `x::jsonb = ?`, which comes out as it is |
| `FilterCorners.OperatorBeforeHoleIff` | dialects/filter.go:49-66 | A dash or a slash right before a placeholder stays marked as a possible comment start: every text that starts with c is still filtered as it would be on its own exactly unless c is a dash, a slash, a quote, another placeholder, after the slash a star, or in PostgreSQL a dollar sign |
| `FilterCorners.BothNumberedIff` | dialects/filter.go:49-66 | An operator, a placeholder, a character and a placeholder: both are numbered exactly unless operator and character make a comment start |
| `FilterCorners.SecondPlaceholderLost` | dialects/filter.go:49-66 | The inputs `-?-?` and `/?*?`, in both dialects, whose second placeholder is not numbered |
| `DumpWriters.WriteConcatWithChar` | engine.go:470-504 | The writer loop emits the CONCAT form |
| `DumpWriters.WritePostgresLiteral` | engine.go:697-731 | The PostgreSQL writer loop emits the form of quoted segments and escape strings joined by the concatenation operator |
| `DumpWriters.HexOf` | engine.go:715-719 | The inner loop emits one `\xHH` for each byte of a control run |
| `DumpWriters.WriteSQLiteUniStr` | engine.go:506-524 | The rune loop emits the unistr form |
| `DumpLiterals.QuotedRoundTrip` | engine.go:755-801 | Reading the plain quoted form of any string gives the string and stops right after the literal, in a database without backslash escapes: SQLite, SQL Server, Gbase and others, and MySQL in the mode the dump asks for (engine.go:559-564) |
| `DumpBackslash.QuotedRoundTripIff` | engine.go:733-738 | With MySQL's backslash escapes on: the plain quoted form gives the string back exactly if every backslash in it stands right before a percent sign or an underscore, as in a string without backslash |
| `DumpBackslash.BackslashIsNoLiteral` | engine.go:733-738 | The input of one backslash: its form is an unterminated literal there |
| `DumpConcat.ConcatRoundTripIff` | engine.go:470-504 | Evaluating the CONCAT/CHAR form of a non-empty string (an empty one takes the plain form, engine.go:686) gives the string without backslash escapes always, and with them exactly under that same condition |
| `DumpEscapes.PgRoundTripIff` | engine.go:697-731 | Evaluating the PostgreSQL form (sections 4.1.2.1 and 4.1.2.2 of the PostgreSQL manual) of a non-empty string gives the string exactly if it holds no NUL; with one the literal is rejected |
| `DumpEscapes.UniStrRoundTrip` | engine.go:506-524 | Evaluating the unistr form of any string gives the string |
| `DumpScript.DumpSplitsBack` | engine.go:649-812 | The INSERT rows of a dump, read back by Import in any chunks, are split into one statement per row, the row itself, whatever the string values contain; names and numbers hold no two dashes in a row |
| `DumpRows.CellsReadBack` | engine.go:655-803 | A list of values written by the dump is read back, by a reader that knows only quotes, parentheses and commas, as one text for each value, in order |
| `DumpRows.InsertReadsBack` | engine.go:649-808 | So is the whole INSERT: its table, its columns and its values in order |
| `DumpCells.TextReturnsIff` | engine.go:684-801 | Whatever form the dump chooses for a text, the target database reads the text there, exactly unless the target is PostgreSQL and the text holds a NUL |
| `DumpCells.BlobReturns` | engine.go:690-790 | Bytes come back from the hexadecimal form of every target |
| `DumpCells.RowReturns` | engine.go:649-808 | For every row of nulls, booleans, numbers, texts and bytes: it is dumped unless a boolean does not parse, and its INSERT holds, in order, one value for each field that means that field to the target, exactly unless it is such a text |
| `DumpCells.DumpReturns` | engine.go:649-808 | Dump and Import together, in any chunks: the statements sent are one INSERT for each row, in order, and each inserts its row |
| `DumpPrintable.WrittenPrintable` | engine.go:468-524 | No control character, below the space or of code 127, is written raw for MySQL, PostgreSQL, SQLite, Oracle and Dameng |
| `DumpPrintable.PrintableIsOneLiteral` | engine.go:684-801 | Text without control characters is written as one plain literal, which only SQL Server prefixes and Oracle and Dameng wrap in CONCAT |
| `ImportSplit.Splitter.Split` | session_schema.go:265-296 | The split closure with its two captured flags: token and advance at an unquoted semicolon, the rest at the end of input, and otherwise a request for more data that resets the quote flag but not the comment flag |
| `ImportSplit.Import` | session_schema.go:256-312 | The scanner loop sends, in order and without their outer blanks, the statements that hold a non-blank character, up to and without the first one refused |
| `ImportSplit.TrimIsBare` | session_schema.go:301 | Trimming leaves exactly the text between the outer blanks: what it takes at both ends is blank, and what it leaves begins and ends with a non-blank |
| `ImportSplit.BareIsUnique` | session_schema.go:301 | No other text is that |
| `ImportPieces.SplitsAtSemis` | session_schema.go:265-296 | For every text, cut into characters, single-quoted literals, line comments and semicolons: the statements are what stands between the semicolons, comments left in place |
| `ImportPieces.Pieces` | session_schema.go:265-296 | Every text can be cut into such pieces |
| `ImportPieces.ImportSends` | session_schema.go:256-312 | However stable text is chunked, Import sends what stands between those semicolons, without outer blanks and empty statements, up to the first refusal |
| `ImportSplit.ChunkingIsInvisibleIff` | session_schema.go:264-300 | For every text: the statements are those of one-shot splitting, for every way to cut it into chunks and to report its end, exactly if each statement that meets a comment outside quotes ends where it would if it began inside a comment |
| `ImportSplit.ChunkingIsInvisible` | session_schema.go:264-300 | The same for one list of chunks, whether the end comes with the last bytes or in a call of its own |
| `ImportSplit.SafeIsStable` | session_schema.go:271-293 | Text meets that condition if no statement has a comment after a newline inside quotes |
| `ImportSplit.NoDashesIsSafe` | session_schema.go:276-279 | So does input without two dashes in a row |
| `ImportSplit.ChunkingShows` | session_schema.go:271-293 | An input that does not meet it, where two chunkings give different statements |
| `TxSession.Session.constructor` | session.go:101-143 | A new session is in auto-commit, holds no transaction and has nothing deferred |
| `TxSession.Session.Begin` | session_tx.go:10-39 | Begin and BeginTx: in auto-commit a transaction is opened and held if the driver obliges; otherwise nothing happens |
| `TxSession.Session.Rollback` | session_tx.go:42-51 | A live transaction is ended and auto-commit returns even if the driver refuses; the deferred closures stay |
| `TxSession.Session.Commit` | session_tx.go:54-104 | A live transaction is ended; only if the driver obliges do the closures run, in some order of the three maps, and the maps are emptied |
| `TxSession.Session.RunDeferred` | session_tx.go:72-93 | The walk over one map visits each bean once, in some order, running its closures and then its hook |
| `TxSession.Session.Close` | session.go:146-173 | Prepared statements first, then a rollback of a live transaction; closed exactly if it returns no error |
| `TxSession.Session.After` | session.go:229-234 | The closure joins those waiting for the next write |
| `TxSession.Session.RawExec` | session_raw.go:151-184 | A failing statement drops the closures waiting for the next write |
| `TxSession.Session.Insert` | session_insert.go:213-244 | In auto-commit every bean's closures and hook run at once; in a transaction each bean gets its own copy of them in afterInsertBeans |
| `TxSession.Session.HandleAfterInsert` | session_insert.go:301-326 | The same for one bean: append to its entry, make one, or put a nil entry for a bean with a hook and no closures |
| `TxSession.Session.Update` | session_update.go:215-240 | The same for updates |
| `TxSession.Session.Delete` | session_delete.go:145-202 | The same for deletes, with the closure that stamps a soft-deleted bean; without a bean the closures are dropped |
| `TxSession.Transaction` | engine.go:1422-1444 | Begin, the body's calls, Commit, deferred Close reach the state the state machine gives; no error exactly if Begin and body succeed and the driver commits or the body has ended the transaction itself |
| `TxSpec.RunSound` | session_tx.go:10-104 | In every reachable state, with any driver failing, out of auto-commit means holding an unfinished transaction and vice versa; at most one transaction is live, it is ended at most once, and no closure runs while one is live |
| `TxSpec.EachEndsOnce` | session_tx.go:10-104 | Over any run every transaction is opened once and gets exactly one Commit or Rollback, except the one still live |
| `TxSpec.CloseEndsAllIff` | session.go:146-173 | A run ending with Close has ended every transaction exactly if none was live before, or the session was open and its statements closed without error; the result of the final Rollback does not matter |
| `TxSpec.EveryTxEnds` | session.go:146-173 | After such a Close on an open session, whatever calls other than Begin follow, every transaction has been ended exactly once |
| `TxSpec.BeginAfterCloseLeaks` | session_tx.go:10-23 | Begin on a closed session opens a transaction that Close does not end |
| `TxSpec.TransactionEndsAllIff` | engine.go:1422-1444 | With any body, even one that commits, closes or begins again: every transaction is ended if the body reports no error, and otherwise exactly if none is live or the Close still acts |
| `TxClosures.RunConserves` | session_tx.go:54-104 | Over any run, for each bean and closure: runs plus waiting plus lost equals handed over |
| `TxClosures.RunsOnlyWhen` | session_tx.go:60-93 | A closure runs only in a Commit whose driver call succeeded, as often as it was waiting, or at once in an auto-commit write that hands it over |
| `TxClosures.RunsAtMostOnce` | session_insert.go:301-326 | Over any run, with no bean twice in one write, a registered closure runs at most once for each bean |
| `TxClosures.CommitRunsAllIff` | session_tx.go:54-104 | In a session with nothing waiting, Commit has run exactly the closures handed over since Begin, and nothing else, exactly if no write without closures named a hooked bean that had closures waiting |
| `TxClosures.NothingWaits` | session_tx.go:94-101 | As long as every transaction ended in a successful commit, nothing waits outside a transaction |
| `TxClosures.RolledBackClosuresRun` | session_tx.go:42-51 | Closures of a rolled-back transaction run in the session's next successful Commit |
| `TxClosures.RefusedClosuresRun` | session_tx.go:60-62 | So do those of a transaction whose Commit the driver refused |
| `TxOrder.AwaitingIff` | session.go:229-234 | In every reachable state the closures waiting for the next write are, in order, those that the calls alone say: given by After, with no write and no failing statement since |
| `TxOrder.DroppedNeverRuns` | session_insert.go:70 | A closure waiting when a write or statement fails, or the one that a failing soft delete has made, never runs on any bean in any continuation of the run |
| `TxOrder.StepShows` | session_tx.go:60-93 | What each call runs on each bean: a successful Commit the closures waiting for it, in order, and then its hook; a successful write in auto-commit the same for each time it names the bean; any other call nothing |
| `TxOrder.StepWaits` | session_insert.go:301-326 | What waits for each bean after each call: a successful write in a transaction adds its closures behind those waiting, once for each time it names the bean, and without closures puts an empty entry for a bean with a hook |
| `TxOrder.CommitRunsHookIff` | session_tx.go:60-93 | Over Begin, any writes and Commit: a bean's hook runs, once and after its closures, exactly if it has one and a successful write of its kind named it |
| `TxOrder.EndsOnce` | session_tx.go:42-104 | Commit and Rollback of a live transaction end it whatever the driver answers, with one driver call; then, and only after a successful Commit, come the calls for inserts, updates and deletes, in this order |
| `TxOrder.CloseLetsGo` | session.go:146-173 | A Close without error lets go of the transaction and keeps what is deferred; one with an error changes nothing, or ends a live transaction and leaves the session open |
| `TxClosures.OracleInsertKeepsModeIff` | session_insert.go:329-375 | An auto-commit insert on Oracle or Dameng leaves the session in the mode it found exactly unless its own Begin succeeded and the insert or the id query failed: then the transaction stays open |
| `Quoting.QuoteTo` | schemas/quote.go:180-200 | The loop over words computes Quote, the panics included |
| `Quoting.FindStart` | schemas/quote.go:106-137 | Where the next word starts: after a dot, or after blanks with at most one AS |
| `Quoting.FindWord` | schemas/quote.go:96-104 | The next dot or blank, or the end |
| `Quoting.QuoteIsWordByWord` | schemas/quote.go:139-200 | For every value without blanks: a panic exactly on an empty word between two dots or a word of one quote mark, otherwise the words quoted one by one |
| `Quoting.QuoteIsCanonical` | schemas/quote.go:139-200 | A dotted name has one quoted form, whether each word is bare, back-ticked or in the dialect's quotes: each word between the quoter's marks, except for a star, a word that is not reserved, and a quoter without marks |
| `Quoting.QuoteTwice` | schemas/quote.go:180-200 | Quoting the quoted form changes nothing |
| `Quoting.QuoteWordTwiceIff` | schemas/quote.go:139-165 | For any word: quoting twice is quoting once exactly if it came out with marks, or its name is not in quotes, or the name is a reserved word in the dialect's own quotes |
| `Quoting.AsQuotesAlias` | schemas/quote.go:167-200 | A dotted name, blanks, AS in any case, blanks and an alias, each word in any spelling: the alias is quoted like the words of the name, and the blanks and AS are copied |
| `Quoting.AsKeepsAliasIff` | schemas/quote.go:178-179 | What the comment promises, `name AS a` and `schema.name AS a` with the alias as written, comes out exactly if the quoter has no marks for the alias: it is empty, or the alias is not reserved, or a star |
| `Quoting.AsAliasMarked` | schemas/quote.go:178 | Its example `name AS a` becomes `[name] AS [a]` under brackets that mark both words |
| `Quoting.AliasQuotedIff` | schemas/quote.go:106-137 | A name, blanks and an alias without AS: the alias gets its marks exactly unless it starts with the letters `as` |
| `Quoting.AliasCut` | schemas/quote.go:125-129 | The input `name asc`, cut after the letters `as` and quoted as `[name] as[c]` |
| `Quoting.TrimTo` | schemas/quote.go:45-62 | The loop drops opening marks at the front or after a dot and closing marks at the end or before a dot |
| `Quoting.TrimInvertsQuote` | schemas/quote.go:45-62 | Trim takes the quotes of the canonical form away again, if the bare words do not start or end with the marks |
| `Quoting.ReplaceTo` | schemas/quote.go:212-247 | The loop computes Replace |
| `Quoting.ReplaceRewrites` | schemas/quote.go:212-247 | For every text, cut into characters, single-quoted literals and back-ticked words: the back-ticked words get the dialect's marks and everything else is copied |
| `Quoting.Pieces` | schemas/quote.go:212-247 | Every text can be cut into such pieces, of which only the last may lack its closing mark |
| `Quoting.ReplaceIsIdentityIff` | schemas/quote.go:212-247 | With the back-tick quoter Replace is the identity exactly on text whose back-ticks outside quotes are balanced; otherwise one back-tick is added at the end |
| `NameMapper.SnakeCasedName` | names/mapper.go:90-104 | The loop puts an underscore before each capital but the first character and lowers it |
| `NameMapper.TitleCasedName` | names/mapper.go:111-134 | The loop drops underscores and raises the character after each, and the first |
| `NameMapper.SnakeRoundTripIff` | names/mapper.go:90-134 | For every ASCII name: object to table to object is the identity exactly if the name is empty, or starts with no small letter and has no underscore after its first character |
| `NameMapper.LettersPair` | names/mapper.go:90-134 | The 26 capitals and small letters are paired, and no other ASCII character is a letter or changes case |
| `NameMapper.GonicCasedName` | names/mapper.go:156-176 | The loop with its in-place underscore insertion computes the fold of its step |
| `NameMapper.GonicTable2Obj` | names/mapper.go:184-201 | The nested loops join the cased parts |
| `NameMapper.GonicIsSpread` | names/mapper.go:156-176 | For every ASCII name the loop, insertions in place included, lowers the name and puts an underscore exactly before each capital, not at the front, that follows no capital or precedes a character that is none |
| `NameMapper.GonicRoundTripIff` | names/mapper.go:156-201 | For words of small letters and digits that start with a letter: the table name comes back exactly if no two words that become capitals stand side by side, and each initialism among them is all letters, or one letter and digits |
| `NameMapper.Utf8DoesNotReturn` | names/mapper.go:204-240 | The listed initialism UTF8 is neither: utf8 becomes UTF8 becomes ut_f8 |
| `SqliteColumn.SplitColStr` | dialects/sqlite3.go:319-344 | The loop over three variables splits at blanks outside single quotes |
| `SqliteColumn.ColumnObject.SQLType` | dialects/sqlite3.go:211-246 | The printed type name, and the changes to the column: digits for boolean defaults, keys for serials |
| `SqliteColumn.ColumnObject.ColumnString` | dialects/dialect.go:303-367 | The builder's text is the words of the definition with single blanks, after the change SQLType makes |
| `SqliteColumn.ParseString` | dialects/sqlite3.go:346-378 | The loop over the fields gives the parsed column, or panics on a trailing DEFAULT |
| `SqliteColumn.SplitSpaced` | dialects/sqlite3.go:319-344 | Fields joined by blanks are split apart again, blanks inside quotes included |
| `SqliteColumn.FieldThen` | dialects/sqlite3.go:319-344 | After a field any of the six ASCII separators ends it, and separators in a row count once |
| `SqliteColumn.BareFieldIff` | dialects/sqlite3.go:319-344 | Text without a quote is one field exactly if it is not empty and holds none of them |
| `SqliteColumn.ColumnRoundTripIff` | dialects/sqlite3.go:319-378 | Reading a printed definition gives name, printed type, keys, default and nullability back exactly unless the default is a bare PRIMARY, AUTOINCREMENT, DEFAULT or NOT that the column does not bear out |
| `SqliteColumn.LiteralDefaultsReturn` | dialects/sqlite3.go:346-378 | So every quoted literal and every number as default comes back |
| `SqliteTypes.TypeNamed` | dialects/sqlite3.go:211-246 | Which type each type gets: DATETIME, TEXT, INTEGER, REAL, NUMERIC or BLOB, or itself |
| `SqliteTypes.TypeKeptIff` | schemas/type.go:96-362 | The type a column gets has the same category and the same kind of Go value as its own, by the tables of the schema package, exactly unless it is BOOL or TIMESTAMPZ |
| `SqliteTypes.TypeSettles` | dialects/sqlite3.go:211-246 | A type that a column gets is given itself |
| `SqliteTypes.DefaultKept` | dialects/sqlite3.go:213-220 | A boolean default keeps its truth, as a digit if it was one of the two words; any other default stays |
| `SqliteTypes.SerialIsKey` | dialects/sqlite3.go:238-241 | After asking for the type a column is a primary key, auto-incremented, exactly if it was or is a serial, and a serial is not null |
| `SqliteTypes.CollationReturns` | dialects/dialect.go:318-324 | The collation stands behind the type in the printed text exactly if there is one and it is asked for, and is read from there |
| `BufferIterate.Iterate` | session_iterate.go:72-111 | The page loop terminates and shows the callback a prefix of the rows of the pages, with consecutive numbers up to its first refusal; all of that if no query fails, and it succeeds only then |
| `BufferIterate.IteratePlain` | session_iterate.go:47-63 | The unbuffered loop shows the rows of the one query likewise |
| `BufferIterate.PagesAreThePlainPassIff` | session_iterate.go:72-111 | The pages hold the rows of the plain pass exactly if there is no limit, or no offset, or the buffer takes the whole limit, or the result ends before it matters |
| `BufferIterate.BufferedIsUnbuffered` | session_iterate.go:25-111 | Under that condition buffered and unbuffered iteration show the callback the same rows with the same numbers |
| `BufferIterate.VisitsAre` | session_iterate.go:47-63 | What the callback is shown: the rows in order with consecutive numbers, each but the last accepted, and it stops short only at a refusal |
| `Migrations.Migrator.Migrate` | migrate/migrate.go:88-107 | Table creation, first-run test, then InitSchema or one migration after the other, each step able to fail |
| `Migrations.Migrator.RunOne` | migrate/migrate.go:169-189 | One migration: refused without id, skipped if recorded, else run and then recorded |
| `Migrations.Migrator.InitAndRecord` | migrate/migrate.go:155-167 | InitSchema, then all ids recorded one by one |
| `Migrations.Migrator.GetLastRunned` | migrate/migrate.go:123-134 | The last migration of the list whose id is recorded |
| `Migrations.Migrator.RollbackMigration` | migrate/migrate.go:137-153 | The rollback function, then the deletion of the id |
| `Migrations.Migrator.RollbackLast` | migrate/migrate.go:110-121 | Finds the last recorded migration and rolls it back |
| `Migrations.AlwaysAPrefix` | migrate/migrate.go:88-189 | Over any run of Migrate and RollbackLast, with any statement or migration failing, the recorded ids are those of a prefix of the list, if its ids occur for the last time in the order in which they occur for the first time |
| `Migrations.DistinctStayAPrefix` | migrate/migrate.go:88-189 | So they are for distinct ids |
| `Migrations.PrefixIff` | migrate/migrate.go:88-189 | For every list of non-empty ids with migrations that succeed, that order is exactly the condition: otherwise some run from the empty table leaves no prefix |
| `Migrations.OutOfOrder` | migrate/migrate.go:123-153 | The list a, b, a is out of order, the list a, a is not |
| `Migrations.MigrateRecords` | migrate/migrate.go:88-107 | Migrate only lengthens the recorded prefix, and success means the whole list is recorded |
| `Migrations.RollbackRecords` | migrate/migrate.go:110-153 | RollbackLast shortens the prefix by one exactly if it succeeds |
| `Migrations.MigrateInStep` | migrate/migrate.go:169-189 | If no statement fails and failing migrations change nothing, the schema is the one of the recorded prefix wherever Migrate stops |
| `Migrations.MigrateInStepIff` | migrate/migrate.go:169-189 | Whatever fails: from a state in step, with migrations that change the schema or fail and leave it alone, Migrate ends in step with some prefix exactly unless the INSERT that records a migration fails after that migration ran |
| `Migrations.RollbackInStepIff` | migrate/migrate.go:137-153 | So does RollbackLast, exactly unless the DELETE fails after the rollback function ran |
| `Migrations.MigrateThenRollback` | migrate/migrate.go:88-153 | A Migrate from an empty table, complete or stopped, followed by as many RollbackLast as ids are recorded restores schema and record |
| `Migrations.UnrecordedRunsAgain` | migrate/migrate.go:180-187 | When recording fails the schema is one migration ahead, and the next Migrate runs that migration again |
| `Migrations.InitSchemaReplacesAll` | migrate/migrate.go:155-167 | On a first run InitSchema takes the place of the list: the schema is the one it leaves, whatever fails afterwards; no id is recorded if it fails; success means that all are, and comes if no statement fails |
| `Migrations.InitSchemaOnlyOnce` | migrate/migrate.go:93-100 | With anything recorded Migrate is what it would be without InitSchema |
| `Migrations.MissingIdStops` | migrate/migrate.go:169-172 | Migrate returns ErrMissingID exactly if it reaches a migration without id, and stops there before running it |
| `Migrations.RollbackRuns` | migrate/migrate.go:137-153 | RollbackLast runs the rollback function of the last recorded migration, whatever then fails, and its id goes exactly if all succeeds |
| `Migrations.RollbackOutcomes` | migrate/migrate.go:110-153 | Its three refusals, an empty list, none of the ids recorded, and no rollback function, are told apart and change nothing |
| `RoundRobin.WeightRoundRobin.constructor` | engine_group_policy.go:73-80 | The nested loops spell each slave's number as often as its weight says, not at all if that is not positive, in order and nothing else; the table is as long as the positive weights add up to |
| `RoundRobin.WeightRoundRobin.Pick` | engine_group_policy.go:82-97 | Position forward or back to the start, and the last slave for numbers beyond the slaves |
| `RoundRobin.WeightRoundRobin.PickMany` | engine_group_policy.go:82-97 | Many picks in a row, as a sequence |
| `RoundRobin.PlainRoundRobin.Pick` | engine_group_policy.go:58-69 | The next position, or the first one when there are no more slaves, from any position and for any number of slaves but none: the number may have changed |
| `RoundRobin.EveryWindowIsFair` | engine_group_policy.go:73-98 | From any position, as many consecutive picks as the positive weights add up to choose each slave as often as it is due: its weight, the last slave with the weights of all missing ones added |
| `RoundRobin.EveryReachableWindowIsFair` | engine_group_policy.go:73-98 | The same for the window after any number of picks of a new policy |
| `RoundRobin.ShareIsWeight` | engine_group_policy.go:73-98 | With a slave for every weight each is due `weights[i]` picks if that is positive, and none otherwise |
| `RoundRobin.PlainWindowIsFair` | engine_group_policy.go:55-70 | Plain round robin chooses each of n slaves once in every n picks, from any position left by any earlier number of slaves |

## Left out

- CachedSession.Session.Find: results into maps, joins, HAVING and GROUP BY are not modelled; the latter two only appear as queries that are not cacheable.
- CachedSession.Session.Delete: the rows a DELETE takes are a subset of what its query selects; conversion of the SQL (`ConvertIDSQL`) is not modelled.
- LruCacher.LRUCacher.GetBean: a method reads the clock once, where the Go code may read it twice; locking makes each method one step.
- LruInvariant.GenSqlKeyInjectiveIff: arguments are text; numbers, times and structs print in other ways, and two queries with different SQL are not compared.
- TxSession.Session.Commit: closures are opaque; one that calls the session again is not modelled.
- TxSession.Session.Close: prepared statements are one parameter, whether all of them close without error.
- TxClosures.RunsAtMostOnce: closures given to After and consumed by a read (Get, Find) are not modelled; reads do not clear them.
- TxSession.Transaction: the run starts on a world with no earlier transaction; a panic of the body counts as its failure.
- ImportSplit.Import: bufio.Scanner's limit of 64 KB per statement, and its limit on empty tokens, are not modelled.
- DumpScript.DumpSplitsBack: the rows of one table; CREATE TABLE, index and sequence statements of a dump are not modelled, nor the times that Dameng and Gbase rewrite.
- DumpRows.InsertReadsBack: the names of the table and its columns hold no parenthesis, that of the table no quote mark or comma either, and a row has at least one value.
- DumpCells.DumpReturns: numbers are written as they are and hold no quote mark, semicolon, parenthesis, comma or two dashes in a row; the bytes of a blob are characters below 256; backslash escapes are off in MySQL, as the dump asks.
- CacheUse.GetThenGet: the cache has room for one more list and bean, and no cached bean of the table has expired at the first Get, which would take the new list with it.
- CacheUse.FindThenFind: the same, with room for all beans of the result, which are at most 500, none listed twice.
- LruVisits.LeastRecentlyVisitedGoes: a monotone clock, and Puts of unlisted keys only, as `LruOrder.PutPresentKeepsOrderIff` shows what else would happen.
- SqliteTypes.TypeKeptIff: type names in the capitals that the schema package uses; the width of a Go type is left aside.
- DumpConcat.ConcatRoundTripIff: CONCAT takes any number of arguments; a database that limits it to two is not modelled.
- FilterTokens.ScanIsRewrite: texts on which the scanner disagrees with SQL outside the listed cases, such as nested block comments or escape strings, have no spelling by tokens and are not described.
- NameMapper.GonicCasedName: ASCII names; the Go loop counts bytes and would differ on other text. CacheMapper, PrefixMapper and SuffixMapper are not modelled.
- NameMapper.GonicRoundTripIff: words start with a small letter; table names with empty words, or words that start with a digit, are not described on the way back.
- FilterTokens.FilterTwice: that no written parameter begins a tag suffices for each text; a text that breaks it may still come out unchanged, and the exact condition is proved for beginnings of texts, over all literals that may follow (`FilterStreams.SecondPassKeepsIff`), where the dollar quote that ends the tag does not hold the tag itself.
- Migrations.PrefixIff: ids are not empty, as Migrate refuses an empty one; the failing runs use migrations that succeed and have a rollback.
- SqliteColumn.SplitColStr: ASCII text, where byte and rune positions agree.
- SqliteColumn.ColumnObject.ColumnString: column names of one word, as the quoter would split others.
- BufferIterate.Iterate: the result does not change between pages.
- Migrations.Migrator.RollbackMigration: as a call of its own, on a migration that is not the last one recorded, it is modelled but not part of the runs.
- RoundRobin.EveryWindowIsFair: the number of slaves stays the same during the window.
- Interleaved sessions: every session operation is one step, and coherence is claimed for one session outside transactions.
- Aliasing of the caller's bean with the cached one: beans are values.
- LevelDB and other stores, and stores shared between cachers.
- Reflection, scanning, builder conditions, drivers, schema SQL of the dialects, context cache, logging, hooks before writes, random and least-connection policies.
