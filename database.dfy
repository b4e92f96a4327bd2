/** The vector store of modules/database.js: the `animals` catalog, the
    `searches` query cache, the one-time bootstrap `prepare` and the
    cache-or-compute `search`. The embedding provider and the vector index
    are foreign code and enter the model as functions fixed at construction. */
module Database {
  import opened QueryText

  datatype Option<+T> = None | Some(value: T)

  /** Failures that propagate out of `search` and `prepare` uncaught. */
  datatype Failure = ProviderFailure | StoreFailure

  datatype Result<+T> = Ok(value: T) | Err(error: Failure)

  datatype Outcome = Pass | Fail(error: Failure)

  /** The vector as text, `JSON.stringify` of the embedding array. Its
      contents are never inspected by the core. */
  type Vector = string

  /** The embedding provider (model text-embedding-3-small, 1024 dimensions):
      deterministic in its input; `None` is a failed call. */
  type Embedder = string -> Option<Vector>

  /** The top-k query on the vector index over `animals.embedding`: the ids
      of the catalog rows nearest to `v`, closest first. */
  type TopKIndex = (seq<Row>, Vector, nat) -> seq<nat>

  /** One entry of the static dataset (`AnimalData`). */
  datatype Entry = Entry(name: string, description: string)

  /** One row of the `animals` table. */
  datatype Row = Row(id: nat, name: string, description: string, embedding: Vector)

  /** What `search` returns for a row (`AnimalRecord`): the embedding is left out. */
  datatype Hit = Hit(id: nat, name: string, description: string)

  /** One row of the `searches` table. */
  datatype CachedQuery = CachedQuery(query: string, vector: Vector)

  /** A pending insert into `animals`; the id is assigned when the
      batch is written. */
  datatype Insert = Insert(name: string, description: string, embedding: Vector)

  /** The number of neighbours `search` asks the index for. */
  const TopK: nat := 1

  /** SQLite's default page size: a database file holding a schema has at
      least this many bytes. */
  const PageSize: nat := 4096

  function Project(row: Row): Hit {
    Hit(row.id, row.name, row.description)
  }

  /** The only promise taken from the index: at most `k` ids. */
  ghost predicate IndexBounded(index: TopKIndex) {
    forall c, v, k :: |index(c, v, k)| <= k
  }

  /** An integer primary key on a table filled once from empty: the rows
      have ids 1, 2, ... in insertion order. */
  predicate IdsFrom(catalog: seq<Row>, base: nat) {
    forall i :: 0 <= i < |catalog| ==> catalog[i].id == base + i + 1
  }

  /** The cache holds at most one row per normalised query. */
  predicate UniqueQueries(cache: seq<CachedQuery>) {
    forall i, j :: 0 <= i < j < |cache| ==> cache[i].query != cache[j].query
  }

  function Descriptions(dataset: seq<Entry>): seq<string> {
    seq(|dataset|, i requires 0 <= i < |dataset| => dataset[i].description)
  }

  /** The rows a batch of inserts adds to a table whose last id is `base`. */
  function Numbered(inserts: seq<Insert>, base: nat): seq<Row> {
    seq(|inserts|, i requires 0 <= i < |inserts| =>
      Row(base + i + 1, inserts[i].name, inserts[i].description, inserts[i].embedding))
  }

  /** The cache lookup: the vector of the first `searches` row whose query
      equals `q`, if any. */
  function Lookup(cache: seq<CachedQuery>, q: string): (r: Option<Vector>)
    ensures r.None? <==> forall i :: 0 <= i < |cache| ==> cache[i].query != q
    ensures r.Some? ==> CachedQuery(q, r.value) in cache
  {
    if cache == [] then None
    else if cache[0].query == q then Some(cache[0].vector)
    else Lookup(cache[1..], q)
  }

  /** A row appended after a miss is what the next lookup of its query finds. */
  lemma {:induction false} LookupAppended(cache: seq<CachedQuery>, q: string, v: Vector)
    requires Lookup(cache, q).None?
    ensures Lookup(cache + [CachedQuery(q, v)], q) == Some(v)
  {
    if cache != [] {
      assert (cache + [CachedQuery(q, v)])[1..] == cache[1..] + [CachedQuery(q, v)];
      LookupAppended(cache[1..], q, v);
    }
  }

  /** Appending a row for one query does not change what other queries find. */
  lemma {:induction false} LookupOther(cache: seq<CachedQuery>, q: string, v: Vector, q': string)
    requires q' != q
    ensures Lookup(cache + [CachedQuery(q, v)], q') == Lookup(cache, q')
  {
    if cache == [] {
      assert [CachedQuery(q, v)][1..] == [];
    } else {
      assert (cache + [CachedQuery(q, v)])[1..] == cache[1..] + [CachedQuery(q, v)];
      LookupOther(cache[1..], q, v, q');
    }
  }

  /** With one row per query, a lookup finds the vector stored for it. */
  lemma {:induction false} LookupUnique(cache: seq<CachedQuery>, q: string, v: Vector)
    requires UniqueQueries(cache)
    requires CachedQuery(q, v) in cache
    ensures Lookup(cache, q) == Some(v)
  {
    var j :| 0 <= j < |cache| && cache[j] == CachedQuery(q, v);
    if cache[0].query == q {
      assert j == 0;
    } else {
      assert cache[1..][j - 1] == cache[j];
      LookupUnique(cache[1..], q, v);
    }
  }

  /** Inserting only after a miss keeps one row per query. */
  lemma AppendKeepsUnique(cache: seq<CachedQuery>, q: string, v: Vector)
    requires UniqueQueries(cache)
    requires Lookup(cache, q).None?
    ensures UniqueQueries(cache + [CachedQuery(q, v)])
  {
  }

  /** The catalog rows whose id is `id`, projected: one side of the join. */
  function Matches(catalog: seq<Row>, id: nat): (r: seq<Hit>)
    ensures r == [] <==> forall i :: 0 <= i < |catalog| ==> catalog[i].id != id
    ensures forall h :: h in r ==> exists i :: 0 <= i < |catalog| && catalog[i].id == id && h == Project(catalog[i])
  {
    if catalog == [] then []
    else
      var rest := Matches(catalog[1..], id);
      assert forall h :: h in rest ==> exists i :: 0 <= i < |catalog| && catalog[i].id == id && h == Project(catalog[i]) by {
        forall h | h in rest ensures exists i :: 0 <= i < |catalog| && catalog[i].id == id && h == Project(catalog[i]) {
          var i :| 0 <= i < |catalog[1..]| && catalog[1..][i].id == id && h == Project(catalog[1..][i]);
          assert catalog[i + 1] == catalog[1..][i];
        }
      }
      (if catalog[0].id == id then [Project(catalog[0])] else []) + rest
  }

  /** With ids numbered from `base + 1`, an id matches exactly the row at
      its position, or nothing. */
  lemma {:induction false} MatchesById(catalog: seq<Row>, base: nat, id: nat)
    requires IdsFrom(catalog, base)
    ensures Matches(catalog, id) ==
      if base < id <= base + |catalog| then [Project(catalog[id - base - 1])] else []
  {
    if catalog != [] {
      assert IdsFrom(catalog[1..], base + 1) by {
        forall i | 0 <= i < |catalog[1..]| ensures catalog[1..][i].id == base + 1 + i + 1 {
          assert catalog[1..][i] == catalog[i + 1];
        }
      }
      MatchesById(catalog[1..], base + 1, id);
      if id == base + 1 {
        assert Matches(catalog[1..], id) == [];
      } else if base + 1 < id <= base + |catalog| {
        assert catalog[1..][id - (base + 1) - 1] == catalog[id - base - 1];
      }
    }
  }

  /** The join of the index's ids with `animals` on the id column: the
      catalog rows for the index's ids, in the index's order. */
  function Join(catalog: seq<Row>, ids: seq<nat>): (r: seq<Hit>)
    ensures forall h :: h in r ==> exists i :: 0 <= i < |catalog| && h == Project(catalog[i])
  {
    if ids == [] then []
    else Matches(catalog, ids[0]) + Join(catalog, ids[1..])
  }

  /** The join yields at most one row per id the index returns. */
  lemma {:induction false} JoinBounded(catalog: seq<Row>, ids: seq<nat>)
    requires IdsFrom(catalog, 0)
    ensures |Join(catalog, ids)| <= |ids|
  {
    if ids != [] {
      MatchesById(catalog, 0, ids[0]);
      JoinBounded(catalog, ids[1..]);
    }
  }

  /** The join works id by id: the rows for a list of ids are the rows for
      its first part followed by the rows for the rest. */
  lemma {:induction false} JoinAppend(catalog: seq<Row>, a: seq<nat>, b: seq<nat>)
    ensures Join(catalog, a + b) == Join(catalog, a) + Join(catalog, b)
  {
    if a == [] {
      assert a + b == b;
    } else {
      assert (a + b)[0] == a[0];
      assert (a + b)[1..] == a[1..] + b;
      JoinAppend(catalog, a[1..], b);
      var m := Matches(catalog, a[0]);
      assert m + (Join(catalog, a[1..]) + Join(catalog, b)) == (m + Join(catalog, a[1..])) + Join(catalog, b);
    }
  }

  /** One id joins to the row it numbers, or to nothing when no row has it. */
  lemma JoinSingle(catalog: seq<Row>, id: nat)
    requires IdsFrom(catalog, 0)
    ensures Join(catalog, [id]) == if 1 <= id <= |catalog| then [Project(catalog[id - 1])] else []
  {
    var m := Matches(catalog, id);
    assert [id][1..] == [];
    assert Join(catalog, [id]) == m + Join(catalog, []);
    assert m + [] == m;
    MatchesById(catalog, 0, id);
  }

  /** When every id the index returns numbers a row, the join returns exactly
      those rows, one per id, in the index's order. */
  lemma {:induction false} JoinInOrder(catalog: seq<Row>, ids: seq<nat>)
    requires IdsFrom(catalog, 0)
    requires forall i :: 0 <= i < |ids| ==> 1 <= ids[i] <= |catalog|
    ensures |Join(catalog, ids)| == |ids|
    ensures forall i :: 0 <= i < |ids| ==> Join(catalog, ids)[i] == Project(catalog[ids[i] - 1])
  {
    if ids != [] {
      var tail := ids[1..];
      assert forall i :: 0 <= i < |tail| ==> tail[i] == ids[i + 1];
      JoinInOrder(catalog, tail);
      var rest := Join(catalog, tail);
      var j := Join(catalog, ids);
      JoinHead(catalog, ids);
      forall i | 1 <= i < |ids| ensures j[i] == Project(catalog[ids[i] - 1]) {
        assert j[i] == rest[i - 1];
        assert tail[i - 1] == ids[i];
      }
    }
  }

  /** The first id of the list contributes its row in front. */
  lemma JoinHead(catalog: seq<Row>, ids: seq<nat>)
    requires IdsFrom(catalog, 0)
    requires ids != [] && 1 <= ids[0] <= |catalog|
    ensures Join(catalog, ids) == [Project(catalog[ids[0] - 1])] + Join(catalog, ids[1..])
  {
    MatchesById(catalog, 0, ids[0]);
  }

  /** The position of the first entry whose description the provider fails
      on, or the number of entries when it fails on none. */
  function FirstFailure(embed: Embedder, dataset: seq<Entry>): (k: nat)
    ensures k <= |dataset|
    ensures forall i :: 0 <= i < k ==> embed(dataset[i].description).Some?
    ensures k < |dataset| ==> embed(dataset[k].description).None?
  {
    if dataset == [] || embed(dataset[0].description).None? then 0
    else 1 + FirstFailure(embed, dataset[1..])
  }

  /** The database behind `database.db`, with the provider and the index the
      module's client uses. */
  class Store {
    /** Size of the database file in bytes; 0 when the file is absent or empty. */
    var fileSize: nat
    /** The `animals` table, in id order. */
    var catalog: seq<Row>
    /** The `searches` table, in insertion order. */
    var cache: seq<CachedQuery>
    /** Every text sent to the embedding provider, in order. */
    ghost var requests: seq<string>
    const embed: Embedder
    const index: TopKIndex

    /** An absent or empty file holds no tables; the catalog is numbered from
        1; the cache has one row per query; the index keeps its bound. */
    ghost predicate Valid()
      reads this
    {
      && (fileSize == 0 ==> catalog == [] && cache == [])
      && IdsFrom(catalog, 0)
      && UniqueQueries(cache)
      && IndexBounded(index)
    }

    constructor (fileSize: nat, catalog: seq<Row>, cache: seq<CachedQuery>, embed: Embedder, index: TopKIndex)
      requires fileSize == 0 ==> catalog == [] && cache == []
      requires IdsFrom(catalog, 0) && UniqueQueries(cache) && IndexBounded(index)
      ensures Valid()
      ensures this.fileSize == fileSize && this.catalog == catalog && this.cache == cache
      ensures this.embed == embed && this.index == index && requests == []
    {
      this.fileSize := fileSize;
      this.catalog := catalog;
      this.cache := cache;
      this.embed := embed;
      this.index := index;
      requests := [];
    }

    /** `search(query)`: normalise, return nothing for an empty query, take
        the vector from the cache or from the provider (recording it), then
        return the catalog rows the index ranks nearest. */
    method Search(raw: string) returns (r: Result<seq<Hit>>)
      requires Valid()
      modifies this
      ensures Valid()
      ensures fileSize == old(fileSize) && catalog == old(catalog)
      ensures Normalize(raw) == [] ==> r == Ok([]) && unchanged(this)
      ensures Normalize(raw) != [] && fileSize == 0 ==> r == Err(StoreFailure) && unchanged(this)
      ensures Normalize(raw) != [] && fileSize > 0 && Lookup(old(cache), Normalize(raw)).Some? ==>
        && cache == old(cache) && requests == old(requests)
        && r == Ok(Join(catalog, index(catalog, Lookup(old(cache), Normalize(raw)).value, TopK)))
      ensures Normalize(raw) != [] && fileSize > 0 && Lookup(old(cache), Normalize(raw)).None? ==>
        && requests == old(requests) + [Normalize(raw)]
        && (embed(Normalize(raw)).None? ==> r == Err(ProviderFailure) && cache == old(cache))
        && (embed(Normalize(raw)).Some? ==>
              && cache == old(cache) + [CachedQuery(Normalize(raw), embed(Normalize(raw)).value)]
              && r == Ok(Join(catalog, index(catalog, embed(Normalize(raw)).value, TopK))))
      ensures r.Ok? ==> |r.value| <= TopK
      ensures r.Ok? ==> forall h :: h in r.value ==> exists i :: 0 <= i < |catalog| && h == Project(catalog[i])
      ensures r.Ok? && Normalize(raw) != [] ==>
        && Lookup(cache, Normalize(raw)).Some?
        && r.value == Join(catalog, index(catalog, Lookup(cache, Normalize(raw)).value, TopK))
    {
      var query := Normalize(raw);
      if |query| < 1 {
        return Ok([]);
      }
      if fileSize == 0 {
        // No `searches` table in an empty database file.
        return Err(StoreFailure);
      }
      var found := Lookup(cache, query);
      var embedding: Vector;
      if found.Some? {
        embedding := found.value;
      } else {
        requests := requests + [query];
        var response := embed(query);
        if response.None? {
          return Err(ProviderFailure);
        }
        embedding := response.value;
        AppendKeepsUnique(cache, query, embedding);
        LookupAppended(cache, query, embedding);
        cache := cache + [CachedQuery(query, embedding)];
      }
      var ids := index(catalog, embedding, TopK);
      JoinBounded(catalog, ids);
      r := Ok(Join(catalog, ids));
    }

    /** `prepare()`: nothing when the file exists with a non-zero size;
        otherwise the schema batch, one provider call per dataset entry in
        order, and one batch of inserts after the loop. */
    method Prepare(dataset: seq<Entry>) returns (r: Outcome)
      requires Valid()
      modifies this
      ensures Valid()
      ensures old(fileSize) > 0 ==> r == Pass && unchanged(this)
      ensures old(fileSize) == 0 ==> fileSize > 0 && cache == old(cache)
      ensures old(fileSize) == 0 && FirstFailure(embed, dataset) < |dataset| ==>
        && r == Fail(ProviderFailure)
        && catalog == []
        && requests == old(requests) + Descriptions(dataset)[..FirstFailure(embed, dataset) + 1]
      ensures old(fileSize) == 0 && FirstFailure(embed, dataset) == |dataset| ==>
        && r == Pass
        && requests == old(requests) + Descriptions(dataset)
        && |catalog| == |dataset|
        && forall i :: 0 <= i < |dataset| ==>
             catalog[i] == Row(i + 1, dataset[i].name, dataset[i].description, embed(dataset[i].description).value)
    {
      if fileSize > 0 {
        return Pass;
      }
      // The schema batch drops `animals` and `queries`, then creates `animals`,
      // its vector index, `searches` and its index. The file now has content.
      catalog := [];
      fileSize := PageSize;
      ghost var texts := Descriptions(dataset);
      var statements: seq<Insert> := [];
      var i := 0;
      while i < |dataset|
        invariant 0 <= i <= |dataset|
        invariant forall j :: 0 <= j < i ==> embed(dataset[j].description).Some?
        invariant requests == old(requests) + texts[..i]
        invariant |statements| == i
        invariant forall j :: 0 <= j < i ==>
          statements[j] == Insert(dataset[j].name, dataset[j].description, embed(dataset[j].description).value)
        invariant catalog == [] && cache == old(cache) && fileSize > 0
      {
        assert texts[..i + 1] == texts[..i] + [dataset[i].description];
        requests := requests + [dataset[i].description];
        var response := embed(dataset[i].description);
        if response.None? {
          // The rejection leaves the loop before the insert batch.
          assert FirstFailure(embed, dataset) == i by {
            var k := FirstFailure(embed, dataset);
            assert embed(dataset[i].description).None?;
            assert k < |dataset| ==> embed(dataset[k].description).None?;
          }
          return Fail(ProviderFailure);
        }
        statements := statements + [Insert(dataset[i].name, dataset[i].description, response.value)];
        i := i + 1;
      }
      assert texts[..|dataset|] == texts;
      assert FirstFailure(embed, dataset) == |dataset|;
      catalog := catalog + Numbered(statements, |catalog|);
      return Pass;
    }
  }

  /** Two searches whose queries normalise alike: if the first succeeds, the
      second returns the same rows and the pair asks the provider at most once,
      with the normalised query. */
  method SearchTwice(db: Store, raw1: string, raw2: string) returns (first: Result<seq<Hit>>, second: Result<seq<Hit>>)
    requires db.Valid()
    requires Normalize(raw1) == Normalize(raw2)
    modifies db
    ensures db.Valid() && db.catalog == old(db.catalog)
    ensures first.Ok? ==> second == first
    ensures first.Ok? ==>
      db.requests == old(db.requests) || db.requests == old(db.requests) + [Normalize(raw1)]
  {
    first := db.Search(raw1);
    second := db.Search(raw2);
  }

  /** Calling `prepare` twice: the second call is a no-op, so the store is
      written by at most one bootstrap and the dataset is embedded at most
      once; the pair leaves the store as the first call left it. */
  method PrepareTwice(db: Store, dataset: seq<Entry>) returns (first: Outcome, second: Outcome)
    requires db.Valid()
    modifies db
    ensures db.Valid()
    ensures second == Pass
    ensures db.fileSize > 0
    ensures |db.requests| <= |old(db.requests)| + |dataset|
    ensures db.cache == old(db.cache)
    ensures old(db.fileSize) > 0 ==>
      && first == Pass
      && db.fileSize == old(db.fileSize)
      && db.requests == old(db.requests)
      && db.catalog == old(db.catalog)
    ensures old(db.fileSize) == 0 && FirstFailure(db.embed, dataset) < |dataset| ==>
      && first == Fail(ProviderFailure)
      && db.catalog == []
      && db.requests == old(db.requests) + Descriptions(dataset)[..FirstFailure(db.embed, dataset) + 1]
    ensures old(db.fileSize) == 0 && FirstFailure(db.embed, dataset) == |dataset| ==>
      && first == Pass
      && db.requests == old(db.requests) + Descriptions(dataset)
      && |db.catalog| == |dataset|
      && forall i :: 0 <= i < |dataset| ==>
           db.catalog[i] == Row(i + 1, dataset[i].name, dataset[i].description, db.embed(dataset[i].description).value)
  {
    first := db.Prepare(dataset);
    second := db.Prepare(dataset);
  }
}
