# Semantic animal search: the vector-store core

The server answers free-text questions about animals with the catalog entry
whose description is semantically nearest. Its core is `modules/database.js`,
which has two operations over one SQLite (libSQL) database file:

- `prepare` bootstraps the store once. If the database file exists with a
  non-zero size, it does nothing. Otherwise it writes the schema: an
  `animals` table with a vector index, and a `searches` table that caches
  query embeddings. It then asks the embedding provider for one vector per
  dataset description and inserts all the animals in a single batch.
- `search` normalises the query: it trims it, lower-cases it, and replaces
  every run of two or more whitespace characters with one space. A query
  that normalises to the empty string returns no rows. Otherwise the vector
  comes from the `searches` cache. On a miss it comes from the provider and
  is stored under the normalised query. The top-1 neighbour from the vector
  index is then joined back to `animals` and returned.

The model has two modules:

- `QueryText` (`query_text.dfy`) holds the normalisation as pure functions.
  Its lemmas prove that the normalised form is a normal form: it is
  idempotent, and it is insensitive to case, to edge whitespace and to the
  length of inner whitespace runs of two or more characters. A lone tab or
  newline between words is kept, as TabIsDistinctKey shows. The lemmas also
  prove when the key is empty.
- `Database` (`database.dfy`) holds the store as a class `Store`. Its
  fields are the file size, the `animals` rows, the `searches` rows, and a
  ghost log of every text sent to the provider. `Search` and `Prepare` are
  methods proved against the lookup, join and first-failure functions, and
  against the store invariant `Valid`. The invariant says an empty file
  holds no tables, the rows are numbered from 1, the cache has one row per
  query, and the index returns at most k ids.

The embedding provider and the vector index are foreign code. Each enters
as a function fixed at construction:

- `embed` returns `None` when a call fails.
- `index` is promised only to return at most `k` ids.

Failures that the JavaScript lets propagate become `Err(ProviderFailure)`,
`Err(StoreFailure)` or `Fail(ProviderFailure)`.

A provider failure during bootstrap cannot leave a partial catalog. The
inserts are only collected inside the loop and are written in one batch after
it (`modules/database.js:76-91`). So the failure leaves the freshly written
schema with an empty `animals` table. The file is then non-empty, so later
`prepare` calls skip the bootstrap. `Store.Prepare` states exactly this.

## Model

| member | source | states |
|---|---|---|
| QueryText.IsSpace | modules/database.js:107-109 | no contract of its own: the ECMAScript WhiteSpace and LineTerminator characters, the set both `trim` and the `\s` class use |
| QueryText.Lower | modules/database.js:108 | an upper-case ASCII letter becomes the lower-case letter at the same place in the alphabet, and every other character is kept, so the result is never an upper-case ASCII letter (ASCII only, see Left out) |
| QueryText.LowerFacts | modules/database.js:108 | lower-casing a character twice is the same as once, and lower-casing keeps whether a character is whitespace |
| QueryText.SpaceRun | modules/database.js:107 | the leading whitespace run: every character before it is whitespace, and the one after it (if any) is not |
| QueryText.TrimEnd | modules/database.js:107 | the result is a prefix of the input, everything dropped is whitespace, and the result does not end in whitespace |
| QueryText.Trim | modules/database.js:106-107 | the trimmed query neither starts nor ends with whitespace, is no longer than the input, and is empty exactly when the input is all whitespace |
| QueryText.TrimFixed | modules/database.js:107 | a text that neither starts nor ends with whitespace is left unchanged by trimming |
| QueryText.TrimIgnoresEdges | modules/database.js:107 | whitespace of any length added at either end is removed by trimming, whatever the text in between |
| QueryText.LowerAll | modules/database.js:108 | lower-casing keeps the length and maps each character on its own |
| QueryText.Collapse | modules/database.js:109 | collapsing never lengthens the text and empties only the empty text |
| QueryText.CollapseEdges | modules/database.js:109 | collapsing keeps whether the text starts, and whether it ends, with whitespace |
| QueryText.CollapseNoDoubleSpace | modules/database.js:109 | after collapsing, no two whitespace characters are adjacent |
| QueryText.CollapseFixed | modules/database.js:109 | text with no two adjacent whitespace characters is left unchanged, so a lone tab or newline survives |
| QueryText.CollapseRunHead | modules/database.js:109 | a whitespace run in front of a word becomes one space when it has two or more characters, and is kept as it is when it has one |
| QueryText.CollapseTrailingRun | modules/database.js:109 | a whitespace run of two or more characters at the end of the text also becomes one space |
| QueryText.CollapseSplit | modules/database.js:109 | after a non-whitespace character, the text before and the text after collapse independently, since no run crosses that point |
| QueryText.CollapseInnerRun | modules/database.js:109 | between two words, any whitespace run of length two or more collapses like a single space |
| QueryText.AllLowerCollapse | modules/database.js:108-109 | collapsing lower-case text yields lower-case text |
| QueryText.Normalize | modules/database.js:106-113 | the cache key is no longer than the query and is empty, so the search returns no rows, exactly when the query is all whitespace; its meaning is stated by NormalizeNormalized, NormalizedFixed, NormalizeIdempotent, NormalizeIgnoresCase, NormalizeIgnoresEdges and NormalizeInnerRun |
| QueryText.NormalizeNormalized | modules/database.js:106-109 | every cache key has no edge whitespace, no double whitespace and no upper-case letter |
| QueryText.NormalizedFixed | modules/database.js:106-109 | a string already in that form is its own key |
| QueryText.NormalizeIdempotent | modules/database.js:106-109 | normalising a key again gives the same key |
| QueryText.TabIsDistinctKey | modules/database.js:109 | "a\tb" and "a b" are both their own keys and differ, so they are cached separately |
| QueryText.NormalizeIgnoresCase | modules/database.js:108 | lower-casing the query first does not change its key |
| QueryText.NormalizeIgnoresEdges | modules/database.js:107 | whitespace added at either end of the query does not change its key |
| QueryText.NormalizeInnerRun | modules/database.js:109 | between two words, any whitespace run of length two or more gives the same key as one space |
| Database.Lookup | modules/database.js:115-124 | the lookup misses exactly when no cached row has the key, and a hit returns the vector of a cached row for that key |
| Database.LookupAppended | modules/database.js:123-137 | after a miss, the row inserted for the key is what the next lookup of that key returns |
| Database.LookupOther | modules/database.js:134-137 | inserting a row for one key leaves the lookup of every other key unchanged |
| Database.LookupUnique | modules/database.js:115-124 | with one row per key, the lookup returns the vector stored for the key |
| Database.AppendKeepsUnique | modules/database.js:134-137 | inserting only after a miss keeps one row per key |
| Database.Project | modules/database.js:141 | no contract of its own: the id, name and description columns a search returns for a row, without the embedding |
| Database.Matches | modules/database.js:140-145 | the join side for one id is empty exactly when no catalog row has that id, and holds only projections of rows with that id |
| Database.MatchesById | modules/database.js:140-145 | with rows numbered consecutively, an id matches exactly the row at its position, or nothing |
| Database.Join | modules/database.js:140-145 | every returned hit is the projection of a catalog row; with JoinAppend, JoinSingle and JoinInOrder it is fixed as the rows numbered by the index's ids, in the index's order, with ids that number no row dropped |
| Database.JoinBounded | modules/database.js:140-145 | the join returns no more rows than the index returned ids |
| Database.JoinAppend | modules/database.js:140-145 | the join works id by id: the rows for a list of ids are the rows for its first part followed by the rows for the rest |
| Database.JoinSingle | modules/database.js:140-145 | one id joins to the catalog row it numbers, or to nothing when no row has it |
| Database.JoinHead | modules/database.js:140-145 | the first id, when it numbers a row, contributes that row in front of the rows for the remaining ids |
| Database.JoinInOrder | modules/database.js:140-145 | when every id the index returns numbers a row, the join returns exactly those rows, one per id, in the index's order |
| Database.Numbered | modules/database.js:85-91 | no contract of its own: the ids an integer primary key gives a batch written after id `base`, in batch order; the promise (rows numbered from 1 in dataset order) is stated by Store.Prepare |
| Database.FirstFailure | modules/database.js:76-89 | the provider succeeds on every description before the returned position and fails on the description at it |
| Database.Store.constructor | modules/database.js:25-26 | the client opened on a database file starts in the given state, satisfying the store invariant |
| Database.Store.Search | modules/database.js:104-146 | an empty key returns no rows and changes nothing; a missing schema fails with nothing changed; a hit returns the joined top-1 row without calling the provider; a miss calls the provider once with the key, fails with the cache unchanged if the call fails, and otherwise caches the vector and returns the joined row; the catalog is unchanged, at most one row is returned, every row is from the catalog, and afterwards the key is cached with the vector the rows were ranked by |
| Database.Store.Prepare | modules/database.js:35-92 | a non-empty file is left untouched; otherwise the schema is written, the provider is asked for the descriptions in order up to and including the first failure, a failure leaves the catalog empty, and success gives one row per entry, numbered from 1 in dataset order, with the entry's name, description and vector |
| Database.SearchTwice | modules/database.js:115-145 | two queries with the same key: if the first succeeds, the second returns the same rows, and the pair calls the provider at most once, with the key |
| Database.PrepareTwice | modules/database.js:35-43 | the second bootstrap succeeds and changes nothing: an already-prepared store is left as it was and the first call passes; otherwise the pair ends exactly as one bootstrap does (empty catalog after a provider failure, numbered rows after success, provider asked for each description at most once, cache untouched) |

## Left out

- QueryText.Lower: only ASCII letters are lower-cased. JavaScript's `toLowerCase` also maps non-ASCII letters and can change the string's length. Full Unicode case mapping tables are out of scope.
- Store.Prepare: the file size is abstracted to zero (absent or empty) or at least one page. Exact sizes and a non-empty file that lacks the tables are not modelled.
- Store.Prepare: reading and parsing `data/animals.json` is file I/O. The parsed entries are a parameter, and read or parse errors are not modelled.
- Store.Prepare: a failure of the schema batch or of the insert batch is not modelled. Only provider failures are. The schema batch cannot meet existing tables, because the file is empty.
- Store.Prepare: ids come from the database as the next integer key. The model numbers the rows 1, 2, ... in dataset order, which is what that gives on a freshly created table.
- Store.Search: a failed insert into `searches` after a successful provider call is not modelled. A store failure is modelled only as the missing schema of an empty file.
- Store.Search: the model numbers the rows as a sequence and does not model SQL result order beyond the index's ranking. Which row a lookup returns when a key occurs twice is not modelled either, because the invariant keeps keys unique.
- Database.TopKIndex: the embeddings are floating-point vectors, and the index is a nearest-neighbour search. The model treats vectors as opaque text and the index as a foreign function. The only promise taken from it is that it returns at most k ids, so no ranking property is claimed.
- Database.Embedder: the provider is a deterministic function of its input. Retries, timeouts, rate limits and varying answers are not modelled.
- Concurrency: overlapping `search` calls can both miss on the same key and insert it twice. The model runs calls one at a time, and one row per key is an invariant only under that schedule.
- The HTTP server, the browser-side form script, configuration and the provider client module are not part of this model.
