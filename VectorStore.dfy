/**
 * Model of FAISSVectorStore (backend/app/services/vector_store.py): the coupled state of
 * an HNSW index, the chunk-metadata list kept beside it by position and the document
 * registry, with the staleness check that reloads it from disk.
 *
 * The index is an append-only sequence of vectors (`ntotal` is its length); the nearest
 * neighbour search inside FAISS is an oracle returning `(distance, position)` pairs.  File
 * modification times, the artifacts `_load` reads and the outcome of `_save` are inputs.
 *
 * The class methods are proved against pure functions of the abstract state
 * (`StoreState`), and the properties are proved about those functions.
 */
module VectorStore {
  import opened Wrappers
  import Chunker

  type Vector = seq<real>

  /** `datetime.utcnow().isoformat()`, kept opaque. */
  type Timestamp = string

  /** One entry of the metadata list; entry i describes the i-th vector of the index. */
  datatype ChunkRecord = ChunkRecord(documentId: string, filename: string, content: string,
                                     chunkIndex: int, totalChunks: int, addedAt: Timestamp)

  /** One entry of `document_info`. */
  datatype DocumentRecord = DocumentRecord(filename: string, uploadDate: Timestamp, chunkCount: int)

  /** Modification times of faiss.index, metadata.pkl and documents.json; None when unknown. */
  datatype Mtimes = Mtimes(index: Option<int>, metadata: Option<int>, docInfo: Option<int>)

  /** What the file system shows when the store looks: which files exist and their mtimes. */
  datatype DiskView = DiskView(indexExists: bool, metadataExists: bool, now: Mtimes)

  /** An index as `faiss.read_index` returns it: its width, its vectors and its search breadth. */
  datatype StoredIndex = StoredIndex(d: int, vectors: seq<Vector>, efSearch: int)

  /**
   * What `_load` reads: the index, the pickled metadata and, when documents.json exists,
   * the registry; or an exception at any of these steps.
   */
  datatype LoadOutcome =
    | Loaded(index: StoredIndex, metadata: seq<ChunkRecord>, documentInfo: Option<map<string, DocumentRecord>>)
    | LoadFailed

  /** One neighbour reported by the index: squared L2 distance and position (-1 when missing). */
  datatype Hit = Hit(dist: real, idx: int)

  /** A search result: the chunk's metadata with its similarity score. */
  datatype SearchResult = SearchResult(chunk: ChunkRecord, similarityScore: real)

  /** What `get_stats` reports. */
  datatype Stats = Stats(totalVectors: nat, dimension: Option<int>, totalDocuments: nat, documents: set<DocumentRecord>)

  /** The ValueError `add_documents` raises when the embeddings are not a 2-D array. */
  datatype AddError = NotTwoDimensional

  /** The error FAISS's own `search` raises: a query whose width is not the index's. */
  datatype SearchError = QueryWidthMismatch

  /** The index's search: (vectors, query, k) to at most k hits. */
  type AnnSearch = (seq<Vector>, Vector, nat) -> seq<Hit>

  /** The abstract state of a store; `efSearch` belongs to the index and means nothing without one. */
  datatype StoreState = StoreState(index: Option<seq<Vector>>, efSearch: int, metadata: seq<ChunkRecord>,
                                   documentInfo: map<string, DocumentRecord>, dimension: Option<int>,
                                   mtimes: Mtimes)

  /** HNSW search breadth set when the index is created. */
  const CreatedEfSearch: int := 128
  const MinEfSearch: int := 64
  const MaxEfSearch: int := 512
  const EfPerResult: int := 32

  const NoMtimes := Mtimes(None, None, None)

  /** A store before anything is loaded or added. */
  const EmptyState := StoreState(None, 0, [], map[], None, NoMtimes)

  /** `index.ntotal`, or 0 when there is no index. */
  function NTotal(s: StoreState): nat
  {
    if s.index.Some? then |s.index.value| else 0
  }

  /** One metadata entry per indexed vector: the positional coupling search relies on. */
  predicate Aligned(s: StoreState)
  {
    |s.metadata| == NTotal(s)
  }

  // ---------------------------------------------------------------------------
  // Loading and the staleness check
  // ---------------------------------------------------------------------------

  /**
   * `_load`: on success the index, metadata, width and (when documents.json exists) the
   * registry come from disk and the mtimes are recorded; on failure the index, metadata and
   * registry are emptied and the width and recorded mtimes are kept.
   */
  function LoadSpec(s: StoreState, load: LoadOutcome, disk: DiskView): (r: StoreState)
    ensures load.LoadFailed? ==>
      r.index.None? && r.metadata == [] && r.documentInfo == map[] &&
      r.dimension == s.dimension && r.mtimes == s.mtimes && r.efSearch == s.efSearch && NTotal(r) == 0
    ensures load.Loaded? ==>
      r.index == Some(load.index.vectors) && r.metadata == load.metadata &&
      r.dimension == Some(load.index.d) && r.mtimes == disk.now && r.efSearch == load.index.efSearch &&
      r.documentInfo == (if load.documentInfo.Some? then load.documentInfo.value else s.documentInfo)
  {
    match load
    case LoadFailed => s.(index := None, metadata := [], documentInfo := map[])
    case Loaded(ix, md, di) =>
      s.(index := Some(ix.vectors), efSearch := ix.efSearch, metadata := md,
         documentInfo := if di.Some? then di.value else s.documentInfo,
         dimension := Some(ix.d), mtimes := disk.now)
  }

  /** The staleness test of `_reload_if_changed`, in the order the source evaluates it. */
  predicate NeedsReload(hasIndex: bool, disk: DiskView, recorded: Mtimes)
    ensures !hasIndex && disk.indexExists && disk.metadataExists ==> NeedsReload(hasIndex, disk, recorded)
    ensures hasIndex && disk.now == recorded ==> !NeedsReload(hasIndex, disk, recorded)
  {
    var now := disk.now;
    var missingIndex := !hasIndex && disk.indexExists && disk.metadataExists;
    var becameAvailable :=
      (now.index.Some? && recorded.index.None?) ||
      (now.metadata.Some? && recorded.metadata.None?) ||
      (now.docInfo.Some? && recorded.docInfo.None?);
    var changedAfter :=
      (recorded.index.Some? && now.index.Some? && now.index.value > recorded.index.value) ||
      (recorded.metadata.Some? && now.metadata.Some? && now.metadata.value > recorded.metadata.value) ||
      (recorded.docInfo.Some? && now.docInfo.Some? && now.docInfo.value > recorded.docInfo.value);
    missingIndex || becameAvailable || changedAfter
  }

  /** `_reload_if_changed`: reload when stale, otherwise keep the state. */
  function ReloadSpec(s: StoreState, disk: DiskView, load: LoadOutcome): (r: StoreState)
    ensures !NeedsReload(s.index.Some?, disk, s.mtimes) ==> r == s
    ensures r == s || r == LoadSpec(s, load, disk)
    // whichever branch was taken, a successful read leaves the store up to date with the disk
    ensures load.Loaded? ==> !NeedsReload(r.index.Some?, disk, r.mtimes)
  {
    if NeedsReload(s.index.Some?, disk, s.mtimes) then LoadSpec(s, load, disk) else s
  }

  /** The three on-disk artifacts. */
  datatype Artifact = IndexFile | MetadataFile | DocInfoFile

  function MtimeOf(m: Mtimes, f: Artifact): Option<int>
  {
    match f
    case IndexFile => m.index
    case MetadataFile => m.metadata
    case DocInfoFile => m.docInfo
  }

  /** A file now has an mtime, and either none was recorded or the recorded one is older. */
  predicate Newer(now: Option<int>, recorded: Option<int>)
  {
    now.Some? && (recorded.None? || now.value > recorded.value)
  }

  /**
   * A reload happens exactly when there is no index in memory while both the index and the
   * metadata files exist, or when some artifact has an mtime that is new or newer than the
   * recorded one.
   */
  lemma ReloadCriterion(hasIndex: bool, disk: DiskView, recorded: Mtimes)
    ensures NeedsReload(hasIndex, disk, recorded) <==>
      (!hasIndex && disk.indexExists && disk.metadataExists) ||
      exists f: Artifact :: Newer(MtimeOf(disk.now, f), MtimeOf(recorded, f))
  {
    if Newer(MtimeOf(disk.now, IndexFile), MtimeOf(recorded, IndexFile)) {
    } else if Newer(MtimeOf(disk.now, MetadataFile), MtimeOf(recorded, MetadataFile)) {
    } else if Newer(MtimeOf(disk.now, DocInfoFile), MtimeOf(recorded, DocInfoFile)) {
    } else {
      forall f: Artifact ensures !Newer(MtimeOf(disk.now, f), MtimeOf(recorded, f)) {
        match f
        case IndexFile =>
        case MetadataFile =>
        case DocInfoFile =>
      }
    }
  }

  /**
   * A successful load leaves nothing stale: checking again against the same files does not
   * reload.  A store with an index whose recorded mtimes match the files does not reload.
   */
  lemma LoadSettles(s: StoreState, load: LoadOutcome, disk: DiskView)
    requires load.Loaded?
    ensures !NeedsReload(LoadSpec(s, load, disk).index.Some?, disk, LoadSpec(s, load, disk).mtimes)
  {
  }

  /**
   * Reloading twice from the same artifacts gives the state the first reload gave, whether
   * the first check reloaded or not and whether the load succeeded or failed.
   */
  lemma ReloadIdempotent(s: StoreState, disk: DiskView, load: LoadOutcome)
    ensures ReloadSpec(ReloadSpec(s, disk, load), disk, load) == ReloadSpec(s, disk, load)
  {
  }

  /** The state after construction: `_load_or_create` loads only when both files exist. */
  function InitialState(disk: DiskView, load: LoadOutcome): (r: StoreState)
    ensures !(disk.indexExists && disk.metadataExists) ==> r == EmptyState
    ensures load.LoadFailed? ==> NTotal(r) == 0 && r.metadata == [] && r.documentInfo == map[]
    ensures disk.indexExists && disk.metadataExists && load.Loaded? ==>
      r.index == Some(load.index.vectors) && r.metadata == load.metadata &&
      r.dimension == Some(load.index.d) && r.efSearch == load.index.efSearch && r.mtimes == disk.now &&
      r.documentInfo == (if load.documentInfo.Some? then load.documentInfo.value else map[])
  {
    if disk.indexExists && disk.metadataExists then LoadSpec(EmptyState, load, disk) else EmptyState
  }

  // ---------------------------------------------------------------------------
  // Adding documents
  // ---------------------------------------------------------------------------

  /** `np.array(embeddings).ndim == 2`: at least one row, every row as wide as the first. */
  predicate IsMatrix(embeddings: seq<Vector>)
    ensures IsMatrix(embeddings) ==>
      |embeddings| > 0 &&
      forall i, j :: 0 <= i < |embeddings| && 0 <= j < |embeddings| ==> |embeddings[i]| == |embeddings[j]|
    ensures |embeddings| == 0 ==> !IsMatrix(embeddings)
  {
    |embeddings| > 0 && forall i :: 0 <= i < |embeddings| ==> |embeddings[i]| == |embeddings[0]|
  }

  /** The metadata entries `add_documents` appends, the i-th stamped with the i-th clock reading. */
  function NewRecords(chunks: seq<Chunker.Chunk>, documentId: string, filename: string,
                      clock: nat -> Timestamp): (r: seq<ChunkRecord>)
    ensures |r| == |chunks|
    ensures forall i | 0 <= i < |chunks| ::
      r[i].documentId == documentId && r[i].filename == filename && r[i].content == chunks[i].content &&
      r[i].chunkIndex == chunks[i].chunkIndex && r[i].totalChunks == chunks[i].totalChunks && r[i].addedAt == clock(i)
  {
    seq(|chunks|, i requires 0 <= i < |chunks| =>
      ChunkRecord(documentId, filename, chunks[i].content, chunks[i].chunkIndex, chunks[i].totalChunks, clock(i)))
  }

  /**
   * `add_documents`.  `clock(i)` is the i-th reading of the clock during the call;
   * `saved` is None when `_save` raised and otherwise the mtimes it recorded.
   */
  function AddSpec(s: StoreState, chunks: seq<Chunker.Chunk>, embeddings: seq<Vector>,
                   documentId: string, filename: string, clock: nat -> Timestamp,
                   saved: Option<Mtimes>): (r: Result<StoreState, AddError>)
    ensures r.Failure? <==> !IsMatrix(embeddings)
    ensures r.Success? ==>
      var t := r.value;
      // the index gains the new vectors after the old ones; it is created on the first add
      t.index.Some? && NTotal(t) == NTotal(s) + |embeddings| &&
      t.index.value == (if s.index.Some? then s.index.value else []) + embeddings &&
      // the width is fixed by the batch that creates the index, and kept afterwards
      (s.index.None? ==> t.dimension == Some(|embeddings[0]|) && t.efSearch == CreatedEfSearch) &&
      (s.index.Some? ==> t.dimension == s.dimension && t.efSearch == s.efSearch)
    ensures r.Success? ==>
      var t := r.value;
      // metadata: exactly |chunks| entries appended in chunk order, earlier ones untouched
      |t.metadata| == |s.metadata| + |chunks| &&
      t.metadata[..|s.metadata|] == s.metadata &&
      (forall i | 0 <= i < |chunks| ::
         t.metadata[|s.metadata| + i].documentId == documentId &&
         t.metadata[|s.metadata| + i].filename == filename &&
         t.metadata[|s.metadata| + i].content == chunks[i].content &&
         t.metadata[|s.metadata| + i].chunkIndex == chunks[i].chunkIndex &&
         t.metadata[|s.metadata| + i].totalChunks == chunks[i].totalChunks)
    ensures r.Success? ==>
      var t := r.value;
      // registry: this document's count is overwritten; every other key is unchanged
      documentId in t.documentInfo &&
      t.documentInfo[documentId].chunkCount == |chunks| &&
      t.documentInfo[documentId].filename == filename &&
      t.documentInfo.Keys == s.documentInfo.Keys + {documentId} &&
      (forall k | k in s.documentInfo && k != documentId :: t.documentInfo[k] == s.documentInfo[k])
    ensures r.Success? ==> r.value.mtimes == (if saved.Some? then saved.value else s.mtimes)
  {
    if !IsMatrix(embeddings) then Failure(NotTwoDimensional)
    else
      var created := s.index.None?;
      var before := if created then [] else s.index.value;
      var added := NewRecords(chunks, documentId, filename, clock);
      var t := s.(index := Some(before + embeddings),
                  dimension := if created then Some(|embeddings[0]|) else s.dimension,
                  efSearch := if created then CreatedEfSearch else s.efSearch,
                  metadata := s.metadata + added,
                  documentInfo := s.documentInfo[documentId := DocumentRecord(filename, clock(|chunks|), |chunks|)],
                  mtimes := if saved.Some? then saved.value else s.mtimes);
      assert t.metadata[..|s.metadata|] == s.metadata;
      Success(t)
  }

  /** Adding one chunk per vector keeps the metadata list in step with the index. */
  lemma AddKeepsAligned(s: StoreState, chunks: seq<Chunker.Chunk>, embeddings: seq<Vector>,
                        documentId: string, filename: string, clock: nat -> Timestamp, saved: Option<Mtimes>)
    requires Aligned(s) && |chunks| == |embeddings| && IsMatrix(embeddings)
    ensures AddSpec(s, chunks, embeddings, documentId, filename, clock, saved).Success?
    ensures Aligned(AddSpec(s, chunks, embeddings, documentId, filename, clock, saved).value)
  {
  }

  // ---------------------------------------------------------------------------
  // Searching
  // ---------------------------------------------------------------------------

  /** The `efSearch` the query asks for: `top_k * 32` clamped to [64, 512]. */
  function TargetEf(topK: int): (ef: int)
    ensures MinEfSearch <= ef <= MaxEfSearch
    ensures 2 <= topK <= 16 ==> ef == topK * EfPerResult
    ensures topK <= 2 ==> ef == MinEfSearch
    ensures topK >= 16 ==> ef == MaxEfSearch
  {
    Max(MinEfSearch, Min(MaxEfSearch, topK * EfPerResult))
  }

  /** The tuning rule: raise `efSearch` to the target, never lower it. */
  function TunedEf(current: int, topK: int): (ef: int)
    ensures ef >= current && ef >= TargetEf(topK)
    ensures ef == current || ef == TargetEf(topK)
  {
    if TargetEf(topK) > current then TargetEf(topK) else current
  }

  /**
   * Map a squared L2 distance between unit vectors to a score in [0, 1]: the cosine
   * `1 - dist/2`, clamped to [-1, 1], then `(cosine + 1) / 2`.  On [0, 4], the range of
   * such distances, that is `1 - dist/4`.
   */
  function SimilarityScore(dist: real): (score: real)
    ensures 0.0 <= score <= 1.0
    ensures 0.0 <= dist <= 4.0 ==> score == 1.0 - dist / 4.0
    ensures dist <= 0.0 ==> score == 1.0
    ensures dist >= 4.0 ==> score == 0.0
  {
    var cosine := 1.0 - dist / 2.0;
    var clamped := if cosine > 1.0 then 1.0 else if cosine < -1.0 then -1.0 else cosine;
    (clamped + 1.0) / 2.0
  }

  /** A nearer hit never scores lower. */
  lemma ScoreAntitone(d1: real, d2: real)
    requires d1 <= d2
    ensures SimilarityScore(d1) >= SimilarityScore(d2)
  {
  }

  /** The hits kept by the bounds guard `0 <= idx < len(metadata)`, in order, with their scores. */
  function FilterHits(hits: seq<Hit>, metadata: seq<ChunkRecord>): (r: seq<SearchResult>)
    ensures |r| <= |hits|
    ensures forall i :: 0 <= i < |r| ==> 0.0 <= r[i].similarityScore <= 1.0
    ensures forall x :: x in r ==> exists h :: (h in hits && 0 <= h.idx < |metadata| &&
      x == SearchResult(metadata[h.idx], SimilarityScore(h.dist)))
  {
    if hits == [] then []
    else
      var h := hits[0];
      var rest := FilterHits(hits[1..], metadata);
      assert forall x :: x in rest ==> exists g :: (g in hits && 0 <= g.idx < |metadata| &&
        x == SearchResult(metadata[g.idx], SimilarityScore(g.dist))) by {
        forall x | x in rest ensures exists g :: (g in hits && 0 <= g.idx < |metadata| &&
          x == SearchResult(metadata[g.idx], SimilarityScore(g.dist))) {
          var g :| g in hits[1..] && 0 <= g.idx < |metadata| && x == SearchResult(metadata[g.idx], SimilarityScore(g.dist));
          assert g in hits;
        }
      }
      if 0 <= h.idx < |metadata| then [SearchResult(metadata[h.idx], SimilarityScore(h.dist))] + rest
      else rest
  }

  /** No in-bounds hit is lost: each appears in the results with its score. */
  lemma {:induction false} FilterHitsComplete(hits: seq<Hit>, metadata: seq<ChunkRecord>)
    ensures forall j :: 0 <= j < |hits| && 0 <= hits[j].idx < |metadata| ==>
      SearchResult(metadata[hits[j].idx], SimilarityScore(hits[j].dist)) in FilterHits(hits, metadata)
  {
    if hits != [] {
      FilterHitsComplete(hits[1..], metadata);
      assert forall j :: 1 <= j < |hits| ==> hits[j] == hits[1..][j - 1];
    }
  }

  /**
   * The guard looks at one hit at a time: filtering two runs of hits is filtering each in
   * turn, so the kept results come in the order of their hits.
   */
  lemma {:induction false} FilterHitsAppend(a: seq<Hit>, b: seq<Hit>, metadata: seq<ChunkRecord>)
    ensures FilterHits(a + b, metadata) == FilterHits(a, metadata) + FilterHits(b, metadata)
    decreases |a|
  {
    if a != [] {
      assert (a + b)[0] == a[0];
      assert (a + b)[1..] == a[1..] + b;
      FilterHitsAppend(a[1..], b, metadata);
    } else {
      assert a + b == b;
    }
  }

  /** A single hit gives its scored record when its index is in bounds, and nothing otherwise. */
  lemma FilterHitsOne(h: Hit, metadata: seq<ChunkRecord>)
    ensures FilterHits([h], metadata) ==
      if 0 <= h.idx < |metadata| then [SearchResult(metadata[h.idx], SimilarityScore(h.dist))] else []
  {
  }

  /** When every hit is in bounds, none is dropped: result i describes hit i. */
  lemma {:induction false} FilterHitsKeepsValid(hits: seq<Hit>, metadata: seq<ChunkRecord>)
    requires forall i :: 0 <= i < |hits| ==> 0 <= hits[i].idx < |metadata|
    ensures |FilterHits(hits, metadata)| == |hits|
    ensures forall i :: 0 <= i < |hits| ==>
      FilterHits(hits, metadata)[i] == SearchResult(metadata[hits[i].idx], SimilarityScore(hits[i].dist))
  {
    if hits != [] {
      FilterHitsKeepsValid(hits[1..], metadata);
    }
  }

  predicate SortedByDistance(hits: seq<Hit>)
  {
    forall i, j :: 0 <= i < j < |hits| ==> hits[i].dist <= hits[j].dist
  }

  predicate SortedByScore(results: seq<SearchResult>)
  {
    forall i, j :: 0 <= i < j < |results| ==> results[i].similarityScore >= results[j].similarityScore
  }

  /** Hits ordered nearest first give results ordered by descending score. */
  lemma {:induction false} FilterHitsRanked(hits: seq<Hit>, metadata: seq<ChunkRecord>)
    requires SortedByDistance(hits)
    ensures SortedByScore(FilterHits(hits, metadata))
  {
    if hits != [] {
      var rest := FilterHits(hits[1..], metadata);
      FilterHitsRanked(hits[1..], metadata);
      var h := hits[0];
      if 0 <= h.idx < |metadata| {
        var r := FilterHits(hits, metadata);
        assert r == [SearchResult(metadata[h.idx], SimilarityScore(h.dist))] + rest;
        forall j | 0 < j < |r| ensures r[0].similarityScore >= r[j].similarityScore {
          assert r[j] in rest;
          var g :| g in hits[1..] && 0 <= g.idx < |metadata| && r[j] == SearchResult(metadata[g.idx], SimilarityScore(g.dist));
          var k :| 0 <= k < |hits[1..]| && hits[1..][k] == g;
          assert hits[k + 1] == g;
          ScoreAntitone(h.dist, g.dist);
        }
      }
    }
  }

  /** The index's search never reports more than k hits. */
  ghost predicate AnnBounded(ann: AnnSearch)
  {
    forall vs, q, k :: |ann(vs, q, k)| <= k
  }

  /** The hits of a query against a non-empty index, asking for `min(top_k, ntotal)`. */
  function AnnHits(p: StoreState, query: Vector, topK: int, ann: AnnSearch): seq<Hit>
    requires topK >= 1 && NTotal(p) > 0
  {
    ann(p.index.value, query, Min(topK, NTotal(p)))
  }

  /**
   * What `search` returns once the store is up to date: nothing without an index or with
   * an empty one, otherwise at most `min(top_k, ntotal)` results, each an entry of the
   * metadata list with a score in [0, 1].
   */
  function SearchResults(p: StoreState, query: Vector, topK: int, ann: AnnSearch): (r: seq<SearchResult>)
    requires topK >= 1 && AnnBounded(ann)
    ensures NTotal(p) == 0 ==> r == []
    ensures |r| <= Min(topK, NTotal(p))
    ensures forall i :: 0 <= i < |r| ==> 0.0 <= r[i].similarityScore <= 1.0 && r[i].chunk in p.metadata
  {
    if p.index.None? || |p.index.value| == 0 then []
    else
      var r := FilterHits(AnnHits(p, query, topK, ann), p.metadata);
      forall i | 0 <= i < |r| ensures r[i].chunk in p.metadata {
        assert r[i] in r;
      }
      r
  }

  /**
   * FAISS's `search` rejects a query whose width is not the index's. The service reaches
   * that call only on a non-empty index, after tuning `efSearch`.
   */
  predicate WidthMismatch(p: StoreState, query: Vector)
  {
    NTotal(p) > 0 && p.dimension.Some? && |query| != p.dimension.value
  }

  /** The state after `search`: only `efSearch` may change, and only upwards. */
  function SearchState(p: StoreState, topK: int): (s: StoreState)
    ensures s == p.(efSearch := s.efSearch)
    ensures s.efSearch >= p.efSearch
    ensures NTotal(p) > 0 ==> s.efSearch == Max(p.efSearch, TargetEf(topK))
    ensures NTotal(p) == 0 ==> s == p
  {
    if p.index.None? || |p.index.value| == 0 then p
    else p.(efSearch := TunedEf(p.efSearch, topK))
  }

  /**
   * On a store whose metadata is in step with its index, a query whose hits are all real
   * positions, nearest first, gets every hit back, in order, ranked by descending score.
   */
  lemma SearchAlignedRanked(p: StoreState, query: Vector, topK: int, ann: AnnSearch)
    requires topK >= 1 && AnnBounded(ann) && Aligned(p) && NTotal(p) > 0
    requires forall i :: 0 <= i < |AnnHits(p, query, topK, ann)| ==> 0 <= AnnHits(p, query, topK, ann)[i].idx < NTotal(p)
    requires SortedByDistance(AnnHits(p, query, topK, ann))
    ensures |SearchResults(p, query, topK, ann)| == |AnnHits(p, query, topK, ann)|
    ensures forall i :: 0 <= i < |AnnHits(p, query, topK, ann)| ==>
      SearchResults(p, query, topK, ann)[i].chunk == p.metadata[AnnHits(p, query, topK, ann)[i].idx]
    ensures SortedByScore(SearchResults(p, query, topK, ann))
  {
    FilterHitsKeepsValid(AnnHits(p, query, topK, ann), p.metadata);
    FilterHitsRanked(AnnHits(p, query, topK, ann), p.metadata);
  }

  /**
   * The result loop of `search`: walk the hits in order, skip those outside the metadata
   * list, and score the others.
   */
  method CollectResults(hits: seq<Hit>, metadata: seq<ChunkRecord>) returns (results: seq<SearchResult>)
    ensures results == FilterHits(hits, metadata)
    ensures |results| <= |hits|
    ensures forall i :: 0 <= i < |results| ==> 0.0 <= results[i].similarityScore <= 1.0
  {
    results := [];
    var n := 0;
    while n < |hits|
      invariant 0 <= n <= |hits|
      invariant results + FilterHits(hits[n..], metadata) == FilterHits(hits, metadata)
    {
      var hit := hits[n];
      FilterHitsStep(hits, n, metadata);
      ghost var prev := results;
      if 0 <= hit.idx < |metadata| {
        var cosine := 1.0 - hit.dist / 2.0;
        if cosine > 1.0 {
          cosine := 1.0;
        } else if cosine < -1.0 {
          cosine := -1.0;
        }
        var similarity := (cosine + 1.0) / 2.0;
        ClampedScore(hit.dist, cosine, similarity);
        results := results + [SearchResult(metadata[hit.idx], similarity)];
      }
      Chunker.AppendAssoc(prev, results[|prev|..], FilterHits(hits[n + 1..], metadata));
      n := n + 1;
    }
    assert hits[n..] == [];
  }

  /** The clamp-and-map the result loop does inline is `SimilarityScore`. */
  lemma ClampedScore(dist: real, cosine: real, similarity: real)
    requires var c := 1.0 - dist / 2.0;
      cosine == (if c > 1.0 then 1.0 else if c < -1.0 then -1.0 else c)
    requires similarity == (cosine + 1.0) / 2.0
    ensures similarity == SimilarityScore(dist)
  {
  }

  /** Hit n contributes its scored record when in bounds, nothing otherwise, ahead of the hits after it. */
  lemma FilterHitsStep(hits: seq<Hit>, n: nat, metadata: seq<ChunkRecord>)
    requires n < |hits|
    ensures FilterHits(hits[n..], metadata) ==
      (if 0 <= hits[n].idx < |metadata| then [SearchResult(metadata[hits[n].idx], SimilarityScore(hits[n].dist))] else []) +
      FilterHits(hits[n + 1..], metadata)
  {
    assert hits[n..][0] == hits[n];
    assert hits[n..][1..] == hits[n + 1..];
  }

  // ---------------------------------------------------------------------------
  // Projections
  // ---------------------------------------------------------------------------

  /** `get_stats` of an up-to-date state. */
  function StatsOf(s: StoreState): (st: Stats)
    ensures st.totalVectors == NTotal(s) && (s.index.None? ==> st.totalVectors == 0)
    ensures st.totalDocuments == |s.documentInfo|
    ensures st.dimension == s.dimension
    ensures forall d :: d in st.documents <==> exists k :: k in s.documentInfo && s.documentInfo[k] == d
  {
    Stats(NTotal(s), s.dimension, |s.documentInfo|, s.documentInfo.Values)
  }

  /**
   * After a successful add the statistics count the new vectors, and one more document
   * exactly when the id was not registered before.
   */
  lemma AddUpdatesStats(s: StoreState, chunks: seq<Chunker.Chunk>, embeddings: seq<Vector>,
                        documentId: string, filename: string, clock: nat -> Timestamp, saved: Option<Mtimes>)
    requires IsMatrix(embeddings)
    ensures var t := AddSpec(s, chunks, embeddings, documentId, filename, clock, saved).value;
      StatsOf(t).totalVectors == StatsOf(s).totalVectors + |embeddings| &&
      StatsOf(t).totalDocuments == StatsOf(s).totalDocuments + (if documentId in s.documentInfo then 0 else 1)
  {
  }

  /** `get_document_info` of an up-to-date state. */
  function DocumentInfoOf(s: StoreState, documentId: string): (r: Option<DocumentRecord>)
    ensures r.Some? <==> documentId in s.documentInfo
    ensures r.Some? ==> r.value == s.documentInfo[documentId]
  {
    if documentId in s.documentInfo then Some(s.documentInfo[documentId]) else None
  }

  // ---------------------------------------------------------------------------
  // The store object
  // ---------------------------------------------------------------------------

  /**
   * `FAISSVectorStore`. The path fields are left out (the disk is an input), and `efSearch`
   * stands for `index.hnsw.efSearch`, an attribute of the index object in the source.
   */
  class FaissVectorStore {
    var index: Option<seq<Vector>>
    var efSearch: int
    var metadata: seq<ChunkRecord>
    var documentInfo: map<string, DocumentRecord>
    var dimension: Option<int>
    var indexMtime: Option<int>
    var metadataMtime: Option<int>
    var docInfoMtime: Option<int>

    ghost function State(): StoreState
      reads this
    {
      StoreState(index, efSearch, metadata, documentInfo, dimension, Mtimes(indexMtime, metadataMtime, docInfoMtime))
    }

    /** `__init__` followed by `_load_or_create`. */
    constructor (disk: DiskView, load: LoadOutcome)
      ensures State() == InitialState(disk, load)
    {
      index := None;
      efSearch := 0;
      metadata := [];
      documentInfo := map[];
      dimension := None;
      indexMtime, metadataMtime, docInfoMtime := None, None, None;
      new;
      if disk.indexExists && disk.metadataExists {
        Load(load, disk);
      }
    }

    /** `_load`, with `_refresh_mtimes` reading `disk`. */
    method Load(load: LoadOutcome, disk: DiskView)
      modifies this
      ensures State() == LoadSpec(old(State()), load, disk)
    {
      match load
      case LoadFailed =>
        index := None;
        metadata := [];
        documentInfo := map[];
      case Loaded(ix, md, di) =>
        index := Some(ix.vectors);
        efSearch := ix.efSearch;
        metadata := md;
        if di.Some? {
          documentInfo := di.value;
        }
        dimension := Some(ix.d);
        indexMtime, metadataMtime, docInfoMtime := disk.now.index, disk.now.metadata, disk.now.docInfo;
    }

    /** `_reload_if_changed`. */
    method ReloadIfChanged(disk: DiskView, load: LoadOutcome)
      modifies this
      ensures State() == ReloadSpec(old(State()), disk, load)
    {
      if NeedsReload(index.Some?, disk, Mtimes(indexMtime, metadataMtime, docInfoMtime)) {
        Load(load, disk);
      }
    }

    /** `add_documents`: append vectors and metadata, overwrite the document's registry entry, save. */
    method AddDocuments(chunks: seq<Chunker.Chunk>, embeddings: seq<Vector>, documentId: string,
                        filename: string, clock: nat -> Timestamp, saved: Option<Mtimes>)
      returns (r: Result<(), AddError>)
      modifies this
      ensures r.Failure? <==> !IsMatrix(embeddings)
      ensures r.Failure? ==> State() == old(State())
      ensures r.Success? ==> State() == AddSpec(old(State()), chunks, embeddings, documentId, filename, clock, saved).value
    {
      if !IsMatrix(embeddings) {
        return Failure(NotTwoDimensional);
      }
      if index.None? {
        dimension := Some(|embeddings[0]|);
        index := Some([]);
        efSearch := CreatedEfSearch;
      }
      index := Some(index.value + embeddings);
      ghost var before := metadata;
      ghost var added := NewRecords(chunks, documentId, filename, clock);
      ghost var fixedIndex, fixedEf, fixedDim := index, efSearch, dimension;
      var i := 0;
      while i < |chunks|
        invariant 0 <= i <= |chunks|
        invariant metadata == before + added[..i]
        invariant index == fixedIndex && efSearch == fixedEf && dimension == fixedDim
        invariant documentInfo == old(documentInfo)
        invariant indexMtime == old(indexMtime) && metadataMtime == old(metadataMtime) && docInfoMtime == old(docInfoMtime)
      {
        var chunk := chunks[i];
        var chunkMetadata := ChunkRecord(documentId, filename, chunk.content, chunk.chunkIndex, chunk.totalChunks, clock(i));
        assert added[..i + 1] == added[..i] + [chunkMetadata];
        metadata := metadata + [chunkMetadata];
        i := i + 1;
      }
      assert added[..|chunks|] == added;
      documentInfo := documentInfo[documentId := DocumentRecord(filename, clock(|chunks|), |chunks|)];
      if saved.Some? {
        indexMtime, metadataMtime, docInfoMtime := saved.value.index, saved.value.metadata, saved.value.docInfo;
      }
      r := Success(());
    }

    /**
     * `search`: bring the store up to date, then, on a non-empty index, raise `efSearch`
     * for the request, ask the index for `min(top_k, ntotal)` neighbours and keep the
     * in-bounds ones with their scores.
     */
    method Search(query: Vector, topK: int, disk: DiskView, load: LoadOutcome, ann: AnnSearch)
      returns (r: Result<seq<SearchResult>, SearchError>)
      requires topK >= 1 && AnnBounded(ann)
      modifies this
      // the reload and the tuning happen whether or not FAISS then rejects the query
      ensures State() == SearchState(ReloadSpec(old(State()), disk, load), topK)
      ensures r.Failure? <==> WidthMismatch(ReloadSpec(old(State()), disk, load), query)
      ensures r.Success? ==> r.value == SearchResults(ReloadSpec(old(State()), disk, load), query, topK, ann)
      ensures r.Success? ==> |r.value| <= topK
      ensures r.Success? ==> forall i :: 0 <= i < |r.value| ==> 0.0 <= r.value[i].similarityScore <= 1.0
      ensures !NeedsReload(old(index.Some?), disk, old(State().mtimes)) ==> efSearch >= old(efSearch)
    {
      ReloadIfChanged(disk, load);
      if index.None? || |index.value| == 0 {
        return Success([]);
      }
      efSearch := TunedEf(efSearch, topK);
      if dimension.Some? && |query| != dimension.value {
        return Failure(QueryWidthMismatch);
      }
      var hits := ann(index.value, query, Min(topK, |index.value|));
      var results := CollectResults(hits, metadata);
      r := Success(results);
    }

    /** `get_stats`, after the staleness check. */
    method GetStats(disk: DiskView, load: LoadOutcome) returns (stats: Stats)
      modifies this
      ensures State() == ReloadSpec(old(State()), disk, load)
      ensures stats == StatsOf(State())
    {
      ReloadIfChanged(disk, load);
      var total := if index.Some? then |index.value| else 0;
      stats := Stats(total, dimension, |documentInfo|, documentInfo.Values);
    }

    /** `get_document_info`, after the staleness check. */
    method GetDocumentInfo(documentId: string, disk: DiskView, load: LoadOutcome) returns (info: Option<DocumentRecord>)
      modifies this
      ensures State() == ReloadSpec(old(State()), disk, load)
      ensures info == DocumentInfoOf(State(), documentId)
    {
      ReloadIfChanged(disk, load);
      info := if documentId in documentInfo then Some(documentInfo[documentId]) else None;
    }
  }
}
