# Vector store and chunker of a RAG chat backend, in Dafny

This project models the two services of the backend that hold its logic:

- **`LLMChunker`** (`Chunker.dfy`): turns document text into chunks. A document within
  `chunk_size` tokens becomes one chunk holding the text verbatim. A longer one is split
  either by the LLM, whose reply is used when it parses as a non-empty list and replaced
  by the naive split otherwise, or by the naive splitter: windows of `max(chunk_size, 1)`
  tokens starting every `max(chunk_size - chunk_overlap, 1)` tokens, decoded and
  stripped, blank ones dropped. Each chunk is then labelled with its position, the
  total count and the file name.
- **`FAISSVectorStore`** (`VectorStore.dfy`): an HNSW index modelled as an append-only
  sequence of vectors, the chunk-metadata list kept beside it by position, and the
  `document_info` registry. The model covers adding documents, the staleness check
  that reloads from disk when another writer changed the files, a load failure that
  resets to empty, the `efSearch` tuning, the bounds guard and score mapping of search,
  and the statistics.

The store is a class, `FaissVectorStore`. Its fields are those of the Python object
(`index`, `metadata`, `document_info`, `dimension` and the three recorded mtimes), with
two differences. The three path fields are left out, since the disk is an input. The
field `efSearch` stands for `index.hnsw.efSearch`, which in the source is an attribute
of the index object rather than of the store.
Each of its methods is proved to move the abstract state (`StoreState`) as a pure
function says: `AddSpec`, `LoadSpec`, `ReloadSpec`, `SearchState`/`SearchResults`. The
properties are proved about those functions. The loops of the source are methods with
loop invariants: `NaiveSplit` (its loop is `SlideWindows`), the labelling loop of `ChunkDocument`, the metadata loop
of `AddDocuments` and the result loop of search (`CollectResults`). `count_tokens` is
the function `Chunker.CountTokens`.

Foreign code is abstract. The tokenizer's `encode`/`decode` and `str.strip` are
uninterpreted functions. The LLM is an oracle from the variable parts of the prompt
(sections asked for, target size, the first 10000 characters, whether they were cut) to
its parsed reply. FAISS's nearest-neighbour search is an oracle returning at most `k`
`(distance, position)` pairs. File modification times, what `_load` reads, whether
`_save` succeeded, and clock readings are inputs.

## Notes on the code

These facts about the code shape the model:

- `add_documents` has no dimension check. The width is taken from the batch that
  creates the index, and the service never compares it again. FAISS's own `add`
  rejects a batch of another width (see "## Left out"). FAISS's own `search` rejects a
  query of another width, after the service has already raised `efSearch`; the model
  returns `Failure(QueryWidthMismatch)` there.
- `chunk_count` in the registry is overwritten by each add for the same id.
- Nothing keeps `len(metadata) == ntotal`: chunks and embeddings are not compared.
  The model proves the coupling is kept when each add passes one chunk per vector
  (`AddKeepsAligned`).
- The `efSearch` floor is 64: `max(64, min(512, top_k * 32))`.
- Empty text is within any non-negative chunk size, so `chunk_document("")` returns one
  chunk with empty content.
- The naive splitter is a plain token window. It does not look for sentence ends and
  does not deduplicate.
- With chunk size 1000 and overlap 200, 2500 tokens give four windows, at 0, 800, 1600
  and 2400, because `range(0, 2500, 800)` includes 2400. The fourth window (100 tokens)
  lies wholly inside the third (`DefaultSettingsWindows`).
- With the LLM path on and `chunk_size == 0`, `total_tokens // chunk_size` raises
  outside the `try`. The model returns `Failure(ZeroDivision)` there.

## Model

| member | source | states |
|---|---|---|
| `Chunker.CountTokens` | backend/app/services/llm_chunker.py:18-20 | the count is the length of the encoding, zero exactly when the text encodes to no tokens |
| `Chunker.WindowsFrom` | backend/app/services/llm_chunker.py:125-127 | the windows from a start position are empty exactly when the start is at or past the end of the tokens |
| `Chunker.WindowsFromCount` | backend/app/services/llm_chunker.py:125 | from a start position within the tokens there are `ceil((n - start) / step)` windows |
| `Chunker.WindowsFromAt` | backend/app/services/llm_chunker.py:125-127 | window j from a start position begins at `start + j*step`, below `n`, and is the slice of at most `window` tokens from there |
| `Chunker.Windows` | backend/app/services/llm_chunker.py:122-127 | `range(0, n, step)` gives `ceil(n / step)` windows; window j starts at `j*step < n`, is the token slice `tokens[j*step:j*step+window]`, and holds between 1 and `window` tokens |
| `Chunker.Clean` | backend/app/services/llm_chunker.py:128-132 | every kept chunk is non-empty and is the stripped decoding of one of the windows; there are no more chunks than windows |
| `Chunker.CleanComplete` | backend/app/services/llm_chunker.py:128-132 | no window is lost: the stripped decoding of every window that is not blank is among the chunks |
| `Chunker.CleanAppend` | backend/app/services/llm_chunker.py:125-132 | windows are cleaned one at a time and in order: cleaning two runs of windows gives the chunks of the first run followed by those of the second |
| `Chunker.NaiveSplitSpec` | backend/app/services/llm_chunker.py:119-133 | no tokens give `[]`; at most `ceil(n / step)` chunks; each chunk is the non-blank stripped decoding of a window, and every window whose stripped decoding is not blank gives a chunk |
| `Chunker.WindowsCover` | backend/app/services/llm_chunker.py:122-127 | when `step <= window`, token p lies in window `p / step`, at offset `p - (p/step)*step`, so no position is skipped |
| `Chunker.NaiveWindowsCover` | backend/app/services/llm_chunker.py:122-125 | a non-negative `chunk_overlap` gives `step <= window_size`, so some window covers every token position |
| `Chunker.DefaultSettingsWindows` | backend/app/services/llm_chunker.py:122-127 | with chunk size 1000 and overlap 200, 2500 tokens give windows at 0, 800, 1600 and 2400; the last lies inside the third |
| `Chunker.NaiveSplit` | backend/app/services/llm_chunker.py:113-133 | `_naive_split` returns exactly `NaiveSplitSpec`; no tokens give `[]`; every chunk is non-blank; there are at most `ceil(n / step)` chunks |
| `Chunker.SlideWindows` | backend/app/services/llm_chunker.py:122-133 | the window loop returns the cleaned windows of `range(0, n, step)`, in order |
| `Chunker.SectionsRequested` | backend/app/services/llm_chunker.py:77 | the number of sections asked for is one more than the floor of tokens over chunk size: `(n-1)*size <= tokens < n*size` for a positive size, mirrored for a negative one |
| `Chunker.PromptFor` | backend/app/services/llm_chunker.py:77-95 | the prompt asks for one more section than the whole chunk sizes in the token count, names the chunk size as the target, and carries the first 10000 characters of the text, followed by "..." exactly when the text is longer |
| `Chunker.SemanticSplit` | backend/app/services/llm_chunker.py:60-111 | a small text is returned whole; a zero chunk size raises iff the text has tokens; the LLM's list is used iff it parsed and is non-empty, the naive split otherwise; an empty result can only come from the naive split |
| `Chunker.Sections` | backend/app/services/llm_chunker.py:43-46 | the split is chosen by the LLM flag; only the LLM path with a zero chunk size fails; without the LLM it is the naive split; an empty list of sections can only come from the naive split |
| `Chunker.ChunkDocument` | backend/app/services/llm_chunker.py:22-58 | a text within the chunk size gives exactly one chunk holding it verbatim, index 0 of 1; otherwise chunk i holds section i with index i, the total count and the file name; with a tokenizer that never raises, it fails only in the zero-chunk-size LLM case |
| `VectorStore.LoadSpec` | backend/app/services/vector_store.py:41-60 | a failed load empties index, metadata and registry and keeps width, `efSearch` and recorded mtimes; a successful one takes index, metadata, width and the index's `efSearch` from disk, the registry only when its file exists, and records the mtimes |
| `VectorStore.NeedsReload` | backend/app/services/vector_store.py:97-113 | a store without an index reloads when both files exist; a store with an index whose recorded mtimes equal the files' does not |
| `VectorStore.ReloadSpec` | backend/app/services/vector_store.py:90-116 | when nothing is stale the state is unchanged; otherwise it is the state `_load` gives; after a successful read the store is no longer stale |
| `VectorStore.ReloadCriterion` | backend/app/services/vector_store.py:90-116 | a reload happens iff there is no index in memory while the index and metadata files exist, or some artifact has an mtime that is newly available or strictly newer than the recorded one |
| `VectorStore.LoadSettles` | backend/app/services/vector_store.py:84-116 | after a successful load, checking again against the same files does not reload |
| `VectorStore.ReloadIdempotent` | backend/app/services/vector_store.py:90-116 | reloading twice from the same artifacts gives the state the first reload gave |
| `VectorStore.InitialState` | backend/app/services/vector_store.py:34-39 | the store starts empty unless both the index and the metadata files exist; a failed initial load also leaves it empty; a successful one takes index, metadata, width and `efSearch` from disk, the registry when its file exists (empty otherwise), and records the mtimes |
| `VectorStore.IsMatrix` | backend/app/services/vector_store.py:135-137 | a batch passes the 2-D check only when it has at least one row and all rows have the same width; an empty batch fails it |
| `VectorStore.NewRecords` | backend/app/services/vector_store.py:158-167 | one record per chunk, in chunk order, each with the document id, file name, the chunk's content, index and total, and the i-th clock reading |
| `VectorStore.AddSpec` | backend/app/services/vector_store.py:134-177 | a non-2-D batch raises and changes nothing; otherwise the new index is the old vectors (none when there was no index) followed by the batch, the index and its width are fixed by the first batch, exactly one metadata entry per chunk is appended in order with the given id, file name and the chunk's fields, earlier entries are untouched, the document's count is overwritten with the number of chunks, and every other registry key is unchanged |
| `VectorStore.AddKeepsAligned` | backend/app/services/vector_store.py:155-167 | when metadata and index are in step and an add passes one chunk per vector, they stay in step |
| `VectorStore.AddUpdatesStats` | backend/app/services/vector_store.py:170-174 | after an add, the vector total grows by the batch size and the document total grows by one exactly when the id is new |
| `VectorStore.TargetEf` | backend/app/services/vector_store.py:205 | the requested breadth lies in [64, 512]: `top_k * 32` for `top_k` in 2..16, 64 below, 512 above |
| `VectorStore.TunedEf` | backend/app/services/vector_store.py:205-210 | the new `efSearch` is the larger of the current value and the target, so it never decreases |
| `VectorStore.SimilarityScore` | backend/app/services/vector_store.py:224-231 | every score lies in [0, 1]; on distances in [0, 4] it is `1 - dist/4`, clamping to 1 below and 0 above |
| `VectorStore.ScoreAntitone` | backend/app/services/vector_store.py:224-231 | a smaller distance never gets a lower score |
| `VectorStore.FilterHits` | backend/app/services/vector_store.py:218-236 | the kept results are no more than the hits, each the metadata entry of an in-bounds hit with its score, and every score is in [0, 1] |
| `VectorStore.FilterHitsComplete` | backend/app/services/vector_store.py:218-236 | no in-bounds hit is lost: each gives its metadata entry with its score |
| `VectorStore.FilterHitsAppend` | backend/app/services/vector_store.py:218-236 | hits are filtered one at a time and in order: filtering two runs of hits gives the results of the first run followed by those of the second |
| `VectorStore.FilterHitsOne` | backend/app/services/vector_store.py:219-236 | one hit gives its scored metadata entry when its position is in bounds, and nothing otherwise |
| `VectorStore.FilterHitsKeepsValid` | backend/app/services/vector_store.py:219-236 | when every hit is in bounds none is dropped, and result i describes hit i |
| `VectorStore.FilterHitsRanked` | backend/app/services/vector_store.py:219-236 | hits ordered nearest first give results ordered by descending score |
| `VectorStore.ClampedScore` | backend/app/services/vector_store.py:224-231 | the clamp and mapping done inline in the result loop give exactly `SimilarityScore` |
| `VectorStore.CollectResults` | backend/app/services/vector_store.py:217-238 | the result loop returns the filtered, scored hits in order, no more than the hits, with scores in [0, 1] |
| `VectorStore.SearchResults` | backend/app/services/vector_store.py:195-238 | no index or an empty one gives `[]`; otherwise at most `min(top_k, ntotal)` results, each a metadata entry with a score in [0, 1] |
| `VectorStore.SearchState` | backend/app/services/vector_store.py:196-212 | search changes only `efSearch`; on a non-empty index it becomes `max(old, target)`, so it never decreases |
| `VectorStore.SearchAlignedRanked` | backend/app/services/vector_store.py:215-238 | on a store whose metadata is in step with its index, hits at real positions ordered nearest first all come back, in order, ranked by descending score |
| `VectorStore.StatsOf` | backend/app/services/vector_store.py:240-249 | `total_vectors` is `ntotal` (0 without an index), `total_documents` is the registry size, and the documents are the registry's records |
| `VectorStore.DocumentInfoOf` | backend/app/services/vector_store.py:251-254 | a document's record is returned iff its id is registered |
| `VectorStore.FaissVectorStore.constructor` | backend/app/services/vector_store.py:15-39 | the new store is in the initial state: empty, or loaded when both files exist |
| `VectorStore.FaissVectorStore.Load` | backend/app/services/vector_store.py:41-60 | the fields change as `LoadSpec` says |
| `VectorStore.FaissVectorStore.ReloadIfChanged` | backend/app/services/vector_store.py:90-116 | the store reloads exactly when the staleness test holds and is otherwise unchanged |
| `VectorStore.FaissVectorStore.AddDocuments` | backend/app/services/vector_store.py:118-177 | raises iff the batch is not 2-D, leaving the state unchanged; otherwise the new state is `AddSpec` of the old |
| `VectorStore.FaissVectorStore.Search` | backend/app/services/vector_store.py:179-238 | after the staleness check the new state is `SearchState` whether or not the query is rejected; it fails exactly when the index is non-empty and the query's width differs from the index's, and otherwise returns `SearchResults`: at most `top_k` results with scores in [0, 1]; without a reload `efSearch` does not decrease |
| `VectorStore.FaissVectorStore.GetStats` | backend/app/services/vector_store.py:240-249 | reports the statistics of the state after the staleness check |
| `VectorStore.FaissVectorStore.GetDocumentInfo` | backend/app/services/vector_store.py:251-254 | returns the registry entry of the state after the staleness check, if any |

## Left out

- FAISS internals: the HNSW graph (`M = 32`, `efConstruction = 100`), `faiss.normalize_L2`, and the search and insertion routines. Stored vectors stand for their normalised forms. The search is an oracle returning at most `k` hits. A batch whose width differs from the index's is rejected inside FAISS's own `add` (an `AssertionError` after normalisation, with the index unchanged). That rejection is not modelled for `add`, since the service itself has no such check. The same rejection in FAISS's `search` is modelled, as `FaissVectorStore.Search` failing.
- Floating point: distances and scores are reals. `float32` rounding and NaN distances are not modelled.
- Disk I/O: `_save` writes, `pickle`/`json` encoding and `faiss.write_index`/`read_index` are not modelled. What `_load` reads, whether `_save` succeeded and the mtimes `_refresh_mtimes` records are inputs. The mtimes read by the staleness check and those recorded by the reload it triggers are taken from one view of the disk.
- `hasattr(self.index, "hnsw")` and the `try` around the tuning: the index is always HNSW in the model, so tuning always applies.
- The `idx is None` test in the search loop and the empty-slice test in `_naive_split` cannot fire (FAISS returns integers; a window starting before the end is never empty), so they are not modelled.
- Timestamps: `datetime.utcnow()` readings are values from a `clock` input, the i-th chunk stamped with reading i and the registry entry with the reading after them.
- The chunks passed to `add_documents` are `Chunk` records, so the `KeyError` a dict missing `content`, `chunk_index` or `total_chunks` would raise part-way through the loop is not modelled.
- `VectorStore.StatsOf`: `documents` is the set of registry values, so the insertion order and repeated equal records of the Python list are not kept.
- The LLM prompt's wording, the HTTP client, and replies that parse as a list with non-string elements are not modelled. A reply is either a list of strings or a failure.
- The tokenizer is total in the model. tiktoken's `encode` raises `ValueError` on text holding a special token such as `<|endoftext|>`. That happens in `count_tokens` (line 20), reached from `chunk_document` (line 34) and `_semantic_split` (line 70), and in `_naive_split` (line 119), all outside any `try`. That error is not modelled.
- `tiktoken` and `str.strip` are uninterpreted. The model does not say what decoding or stripping produce, only that a kept chunk is the stripped decoding of its window.
- `async`/`await`, the module-level singletons, concurrent writers and the `print` logging are not modelled.
- Document extraction, the API routes and settings loading are not part of this model. `chunk_size`, `chunk_overlap` and `use_llm_chunking` are parameters, and `top_k >= 1` is a precondition of search, as the request schema bounds it to 1..20.
