/**
 * Model of LLMChunker (backend/app/services/llm_chunker.py): the small-document
 * short-circuit, the token sliding-window splitter, the LLM parse-or-fallback rule
 * and the positional metadata attached to every chunk.
 *
 * The tokenizer (tiktoken's cl100k_base encode/decode) and Python's `str.strip` are
 * foreign code: they appear as uninterpreted total functions.  The LLM is an oracle
 * from the variable parts of the prompt to its parsed reply.
 */
module Chunker {
  import opened Wrappers

  /** The tokenizer: text to token ids and back. */
  datatype Encoding = Encoding(encode: string -> seq<int>, decode: seq<int> -> string)

  /** The fields an LLMChunker is built with; none of them changes afterwards. */
  datatype Config = Config(encoding: Encoding, chunkSize: int, chunkOverlap: int)

  /** A chunk as `chunk_document` returns it. */
  datatype Chunk = Chunk(content: string, chunkIndex: int, filename: string, totalChunks: int)

  /** The one error that escapes chunking: `total_tokens // chunk_size` with a zero chunk size. */
  datatype ChunkError = ZeroDivision

  /**
   * The parts of the LLM prompt that vary: the number of sections asked for, the target
   * section size, the first 10000 characters of the document and whether "..." follows them.
   */
  datatype Prompt = Prompt(sections: int, targetTokens: int, excerpt: string, truncated: bool)

  /**
   * The LLM, called and its reply parsed as JSON: `Some(xs)` when the reply is a JSON list
   * of strings, `None` when the call raises, the reply is not JSON, or it is not a list.
   */
  type SectionOracle = Prompt -> Option<seq<string>>

  /** Maximum number of characters of the document placed in the prompt. */
  const PromptExcerptLimit: nat := 10000

  /** `count_tokens`: the length of the text's encoding; zero exactly when the encoding is empty. */
  function CountTokens(c: Config, text: string): (n: nat)
    ensures n == 0 <==> c.encoding.encode(text) == []
  {
    |c.encoding.encode(text)|
  }

  /** Tokens per window, `max(chunk_size, 1)`. */
  function WindowSize(c: Config): nat
  {
    Max(c.chunkSize, 1)
  }

  /** Distance between window starts, `max(chunk_size - chunk_overlap, 1)`. */
  function StepSize(c: Config): nat
  {
    Max(c.chunkSize - c.chunkOverlap, 1)
  }

  // ---------------------------------------------------------------------------
  // The token sliding window (_naive_split)
  // ---------------------------------------------------------------------------

  /**
   * The windows whose starts are `start, start + step, ...` below `|tokens|`, each slice
   * clamped at the end: there are none exactly when the start is at or past the end
   * (`WindowsFromCount` gives their number, `WindowsFromAt` each one).
   */
  function WindowsFrom(tokens: seq<int>, start: nat, step: nat, window: nat): (ws: seq<seq<int>>)
    requires step >= 1
    ensures ws == [] <==> start >= |tokens|
    decreases |tokens| - start
  {
    if start >= |tokens| then []
    else [tokens[start..Min(start + window, |tokens|)]] + WindowsFrom(tokens, start + step, step, window)
  }

  /**
   * All windows of `range(0, len(tokens), step)`: there are `ceil(|tokens| / step)` of
   * them, and window j is the slice starting at `j*step` that holds at most `window`
   * tokens, and at least one.
   */
  function Windows(tokens: seq<int>, step: nat, window: nat): (ws: seq<seq<int>>)
    requires step >= 1
    ensures |ws| == (|tokens| + step - 1) / step
    ensures forall j :: 0 <= j < |ws| ==>
      j * step < |tokens| && ws[j] == tokens[j * step..Min(j * step + window, |tokens|)]
    ensures window >= 1 ==> forall j :: 0 <= j < |ws| ==> 1 <= |ws[j]| <= window
  {
    WindowsFromCount(tokens, 0, step, window);
    WindowsFromSlices(tokens, step, window);
    WindowsFrom(tokens, 0, step, window)
  }

  /**
   * Decode and strip each window, dropping those that strip to the empty string.
   * Every kept chunk is non-empty and is the stripped text of one of the windows;
   * `CleanComplete` shows that none is lost and `CleanAppend` that window order is kept.
   */
  function Clean(decode: seq<int> -> string, strip: string -> string, ws: seq<seq<int>>): (r: seq<string>)
    ensures |r| <= |ws|
    ensures forall i :: 0 <= i < |r| ==> r[i] != ""
    ensures forall t :: t in r ==> exists w :: w in ws && t == strip(decode(w))
  {
    if ws == [] then []
    else
      var t := strip(decode(ws[0]));
      var rest := Clean(decode, strip, ws[1..]);
      assert forall u :: u in rest ==> exists w :: w in ws && u == strip(decode(w)) by {
        forall u | u in rest ensures exists w :: w in ws && u == strip(decode(w)) {
          var w :| w in ws[1..] && u == strip(decode(w));
          assert w in ws;
        }
      }
      if t != "" then [t] + rest else rest
  }

  /** Nothing is lost: the stripped text of every window that is not blank is among the chunks. */
  lemma {:induction false} CleanComplete(decode: seq<int> -> string, strip: string -> string, ws: seq<seq<int>>)
    ensures forall j :: 0 <= j < |ws| && strip(decode(ws[j])) != "" ==> strip(decode(ws[j])) in Clean(decode, strip, ws)
  {
    if ws != [] {
      CleanComplete(decode, strip, ws[1..]);
      assert forall j :: 1 <= j < |ws| ==> ws[j] == ws[1..][j - 1];
    }
  }

  /** Cleaning works window by window: cleaning two runs of windows is cleaning each in turn. */
  lemma {:induction false} CleanAppend(decode: seq<int> -> string, strip: string -> string, a: seq<seq<int>>, b: seq<seq<int>>)
    ensures Clean(decode, strip, a + b) == Clean(decode, strip, a) + Clean(decode, strip, b)
    decreases |a|
  {
    if a != [] {
      assert (a + b)[0] == a[0];
      assert (a + b)[1..] == a[1..] + b;
      CleanAppend(decode, strip, a[1..], b);
    } else {
      assert a + b == b;
    }
  }

  /** The first window contributes its stripped text, or nothing when that is blank. */
  lemma CleanHead(decode: seq<int> -> string, strip: string -> string, ws: seq<seq<int>>)
    requires ws != []
    ensures Clean(decode, strip, ws) ==
      (if strip(decode(ws[0])) != "" then [strip(decode(ws[0]))] else []) + Clean(decode, strip, ws[1..])
  {
  }

  lemma AppendAssoc<T>(a: seq<T>, b: seq<T>, c: seq<T>)
    ensures a + (b + c) == (a + b) + c
  {
  }

  /** The run from `start` is the window at `start` followed by the run from `start + step`. */
  lemma WindowsFromHead(tokens: seq<int>, start: nat, step: nat, window: nat)
    requires step >= 1 && start < |tokens|
    ensures WindowsFrom(tokens, start, step, window) != []
    ensures WindowsFrom(tokens, start, step, window)[0] == tokens[start..Min(start + window, |tokens|)]
    ensures WindowsFrom(tokens, start, step, window)[1..] == WindowsFrom(tokens, start + step, step, window)
  {
  }

  /**
   * What `_naive_split` returns: nothing for a text without tokens; otherwise at most one
   * chunk per window, each the non-blank stripped text of a window, with none of those left out.
   */
  function NaiveSplitSpec(c: Config, strip: string -> string, text: string): (r: seq<string>)
    ensures c.encoding.encode(text) == [] ==> r == []
    ensures |r| <= (CountTokens(c, text) + StepSize(c) - 1) / StepSize(c)
    ensures forall i :: 0 <= i < |r| ==> r[i] != ""
    ensures forall t :: t in r ==>
      exists w :: (w in Windows(c.encoding.encode(text), StepSize(c), WindowSize(c)) && t == strip(c.encoding.decode(w)))
    ensures var ws := Windows(c.encoding.encode(text), StepSize(c), WindowSize(c));
      forall j :: 0 <= j < |ws| && strip(c.encoding.decode(ws[j])) != "" ==> strip(c.encoding.decode(ws[j])) in r
  {
    var tokens := c.encoding.encode(text);
    var ws := Windows(tokens, StepSize(c), WindowSize(c));
    if tokens == [] then
      assert ws == [];
      []
    else
      var r := Clean(c.encoding.decode, strip, ws);
      assert |r| <= |ws| == (|tokens| + StepSize(c) - 1) / StepSize(c);
      CleanComplete(c.encoding.decode, strip, ws);
      r
  }

  /** `a / b` rounded towards minus infinity, as Python's `//`. */
  function FloorDiv(a: int, b: int): int
    requires b != 0
  {
    if b > 0 then a / b else (-a) / (-b)
  }

  lemma DivBounds(a: int, b: int)
    requires b > 0
    ensures (a / b) * b <= a < (a / b + 1) * b
  {
  }

  /**
   * The number of sections requested from the LLM, `total_tokens // chunk_size + 1`:
   * one more than the number of whole chunk sizes in the token count.
   */
  function SectionsRequested(totalTokens: int, chunkSize: int): (n: int)
    requires chunkSize != 0
    ensures chunkSize > 0 ==> (n - 1) * chunkSize <= totalTokens < n * chunkSize
    ensures chunkSize < 0 ==> n * chunkSize < totalTokens <= (n - 1) * chunkSize
  {
    var q := FloorDiv(totalTokens, chunkSize);
    if chunkSize > 0 then
      DivBounds(totalTokens, chunkSize);
      q + 1
    else
      DivBounds(-totalTokens, -chunkSize);
      assert q * (-chunkSize) <= -totalTokens < (q + 1) * (-chunkSize);
      q + 1
  }

  /** The variable parts of the prompt `_semantic_split` sends. */
  function PromptFor(c: Config, text: string): (p: Prompt)
    requires c.chunkSize != 0
    ensures p.targetTokens == c.chunkSize
    ensures c.chunkSize > 0 ==> (p.sections - 1) * c.chunkSize <= CountTokens(c, text) < p.sections * c.chunkSize
    ensures |p.excerpt| == Min(PromptExcerptLimit, |text|) && p.excerpt <= text
    ensures p.truncated <==> |text| > PromptExcerptLimit
    ensures !p.truncated ==> p.excerpt == text
  {
    Prompt(SectionsRequested(CountTokens(c, text), c.chunkSize), c.chunkSize,
           text[..Min(PromptExcerptLimit, |text|)], |text| > PromptExcerptLimit)
  }

  /**
   * `_semantic_split`: the LLM's sections when its reply parses as a non-empty list,
   * the naive split otherwise.  The division computing the section count is outside the
   * `try`, so a zero chunk size raises.
   */
  function SemanticSplit(c: Config, strip: string -> string, text: string, llm: SectionOracle): (r: Result<seq<string>, ChunkError>)
    ensures CountTokens(c, text) <= c.chunkSize ==> r == Success([text])
    ensures r.Failure? <==> c.chunkSize == 0 && CountTokens(c, text) > 0
    ensures CountTokens(c, text) > c.chunkSize && c.chunkSize != 0 ==>
      var reply := llm(PromptFor(c, text));
      (reply.Some? && reply.value != [] ==> r == Success(reply.value)) &&
      (reply.None? || reply.value == [] ==> r == Success(NaiveSplitSpec(c, strip, text)))
    ensures r.Success? && r.value == [] ==> r.value == NaiveSplitSpec(c, strip, text)
  {
    var total := CountTokens(c, text);
    if total <= c.chunkSize then Success([text])
    else if c.chunkSize == 0 then Failure(ZeroDivision)
    else
      var reply := llm(PromptFor(c, text));
      if reply.Some? && |reply.value| > 0 then Success(reply.value)
      else Success(NaiveSplitSpec(c, strip, text))
  }

  /**
   * The sections `chunk_document` labels once the document is over the chunk size: only
   * the LLM path with a zero chunk size fails, and an empty list of sections can only come
   * from the naive split, never from the LLM.
   */
  function Sections(c: Config, strip: string -> string, text: string, useLlm: bool, llm: SectionOracle): (r: Result<seq<string>, ChunkError>)
    ensures r.Failure? <==> useLlm && c.chunkSize == 0 && CountTokens(c, text) > 0
    ensures !useLlm ==> r == Success(NaiveSplitSpec(c, strip, text))
    ensures r.Success? && r.value == [] ==> r.value == NaiveSplitSpec(c, strip, text)
  {
    if useLlm then SemanticSplit(c, strip, text, llm) else Success(NaiveSplitSpec(c, strip, text))
  }

  // ---------------------------------------------------------------------------
  // Properties of the windows
  // ---------------------------------------------------------------------------

  lemma DivUnique(a: int, d: int, q: int, r: int)
    requires d > 0 && 0 <= r < d && a == q * d + r
    ensures a / d == q
  {
    var k := q - a / d;
    assert k * d == a % d - r;
    MulAwayFromZero(k, d);
  }

  lemma MulAwayFromZero(k: int, d: int)
    requires d > 0
    ensures k >= 1 ==> k * d >= d
    ensures k <= -1 ==> k * d <= -d
  {
  }

  lemma {:induction false} WindowsFromCount(tokens: seq<int>, start: nat, step: nat, window: nat)
    requires step >= 1 && start <= |tokens|
    ensures |WindowsFrom(tokens, start, step, window)| == (|tokens| - start + step - 1) / step
    decreases |tokens| - start
  {
    var x := |tokens| - start;
    if x == 0 {
      DivUnique(step - 1, step, 0, step - 1);
    } else if start + step <= |tokens| {
      WindowsFromCount(tokens, start + step, step, window);
      var q := (x - 1) / step;
      DivUnique(x - 1, step, q, (x - 1) % step);
      DivUnique(x + step - 1, step, q + 1, (x - 1) % step);
    } else {
      assert WindowsFrom(tokens, start + step, step, window) == [];
      DivUnique(x + step - 1, step, 1, x - 1);
    }
  }

  lemma {:induction false} WindowsFromAt(tokens: seq<int>, start: nat, step: nat, window: nat, j: nat)
    requires step >= 1 && j < |WindowsFrom(tokens, start, step, window)|
    ensures start + j * step < |tokens|
    ensures WindowsFrom(tokens, start, step, window)[j] == tokens[start + j * step..Min(start + j * step + window, |tokens|)]
    decreases j
  {
    if j > 0 {
      WindowsFromAt(tokens, start + step, step, window, j - 1);
      assert start + step + (j - 1) * step == start + j * step;
    }
  }

  lemma {:induction false} WindowsFromReaches(tokens: seq<int>, start: nat, step: nat, window: nat, j: nat)
    requires step >= 1 && start + j * step < |tokens|
    ensures j < |WindowsFrom(tokens, start, step, window)|
    decreases j
  {
    if j > 0 {
      assert start + step + (j - 1) * step == start + j * step;
      WindowsFromReaches(tokens, start + step, step, window, j - 1);
    }
  }

  /** Window j of the run from 0 is the slice from `j*step`, which lies inside the tokens. */
  lemma WindowsFromSlices(tokens: seq<int>, step: nat, window: nat)
    requires step >= 1
    ensures forall j :: 0 <= j < |WindowsFrom(tokens, 0, step, window)| ==>
      j * step < |tokens| &&
      WindowsFrom(tokens, 0, step, window)[j] == tokens[j * step..Min(j * step + window, |tokens|)]
  {
    forall j | 0 <= j < |WindowsFrom(tokens, 0, step, window)|
      ensures j * step < |tokens|
      ensures WindowsFrom(tokens, 0, step, window)[j] == tokens[j * step..Min(j * step + window, |tokens|)]
    {
      WindowsFromAt(tokens, 0, step, window, j);
    }
  }

  /**
   * When the step does not exceed the window (the case `chunk_overlap >= 0`), every token
   * position p lies in the window numbered `p / step`, at offset `p - (p / step) * step`.
   */
  lemma WindowsCover(tokens: seq<int>, step: nat, window: nat, p: nat)
    requires 1 <= step <= window && p < |tokens|
    ensures var j := p / step;
      j < |Windows(tokens, step, window)| &&
      j * step <= p < j * step + |Windows(tokens, step, window)[j]| &&
      Windows(tokens, step, window)[j][p - j * step] == tokens[p]
  {
    var j := p / step;
    DivBounds(p, step);
    WindowsFromReaches(tokens, 0, step, window, j);
    WindowsFromAt(tokens, 0, step, window, j);
  }

  /** A non-negative overlap makes the step no larger than the window, so the windows cover every token. */
  lemma NaiveWindowsCover(c: Config, tokens: seq<int>, p: nat)
    requires c.chunkOverlap >= 0 && p < |tokens|
    ensures StepSize(c) <= WindowSize(c)
    ensures exists j :: (0 <= j < |Windows(tokens, StepSize(c), WindowSize(c))| &&
      j * StepSize(c) <= p < j * StepSize(c) + |Windows(tokens, StepSize(c), WindowSize(c))[j]|)
  {
    WindowsCover(tokens, StepSize(c), WindowSize(c), p);
  }

  /**
   * The default settings (1000 tokens, overlap 200) on 2500 tokens: the windows start at
   * 0, 800, 1600 and 2400.  The last one, 100 tokens long, lies wholly inside the third.
   */
  lemma DefaultSettingsWindows(c: Config, tokens: seq<int>)
    requires c.chunkSize == 1000 && c.chunkOverlap == 200 && |tokens| == 2500
    ensures StepSize(c) == 800 && WindowSize(c) == 1000
    ensures var ws := Windows(tokens, StepSize(c), WindowSize(c));
      |ws| == 4 && ws[0] == tokens[0..1000] && ws[1] == tokens[800..1800] &&
      ws[2] == tokens[1600..2500] && ws[3] == tokens[2400..2500] && ws[3] == ws[2][800..]
  {
  }

  // ---------------------------------------------------------------------------
  // The imperative operations
  // ---------------------------------------------------------------------------

  /**
   * `_naive_split`: slide a window of `max(chunk_size, 1)` tokens by `max(chunk_size - chunk_overlap, 1)`,
   * decode each window, and keep the stripped text of those that are not blank.
   */
  method NaiveSplit(c: Config, strip: string -> string, text: string) returns (chunks: seq<string>)
    ensures chunks == NaiveSplitSpec(c, strip, text)
    ensures c.encoding.encode(text) == [] ==> chunks == []
    ensures forall i :: 0 <= i < |chunks| ==> chunks[i] != ""
    ensures |chunks| <= (CountTokens(c, text) + StepSize(c) - 1) / StepSize(c)
  {
    var tokens := c.encoding.encode(text);
    if tokens == [] {
      chunks := [];
    } else {
      chunks := SlideWindows(c.encoding.decode, strip, tokens, StepSize(c), WindowSize(c));
    }
    SplitBound(c, strip, text, chunks);
  }

  /** The chunk-count bound of `NaiveSplitSpec`, carried over to a result equal to it. */
  lemma SplitBound(c: Config, strip: string -> string, text: string, chunks: seq<string>)
    requires chunks == NaiveSplitSpec(c, strip, text)
    ensures |chunks| <= (CountTokens(c, text) + StepSize(c) - 1) / StepSize(c)
  {
  }

  /** The loop of `_naive_split` over `range(0, len(tokens), step)`. */
  method SlideWindows(decode: seq<int> -> string, strip: string -> string, tokens: seq<int>, step: nat, window: nat)
    returns (chunks: seq<string>)
    requires step >= 1
    ensures chunks == Clean(decode, strip, Windows(tokens, step, window))
  {
    ghost var all := WindowsFrom(tokens, 0, step, window);
    ghost var pending := all;
    chunks := [];
    var start: nat := 0;
    while start < |tokens|
      invariant pending == WindowsFrom(tokens, start, step, window)
      invariant chunks + Clean(decode, strip, pending) == Clean(decode, strip, all)
      decreases |tokens| - start
    {
      var end := start + window;
      var chunkTokens := tokens[start..Min(end, |tokens|)];
      WindowsFromHead(tokens, start, step, window);
      CleanHead(decode, strip, pending);
      ghost var prev := chunks;
      var chunkText := decode(chunkTokens);
      if strip(chunkText) != "" {
        chunks := chunks + [strip(chunkText)];
      }
      AppendAssoc(prev, chunks[|prev|..], Clean(decode, strip, pending[1..]));
      pending := pending[1..];
      start := start + step;
    }
    assert chunks == Clean(decode, strip, all);
  }

  /**
   * `chunk_document`: a document within the chunk size becomes one chunk holding the text
   * verbatim; otherwise the sections of the chosen split are labelled by position.
   */
  method ChunkDocument(c: Config, strip: string -> string, text: string, filename: string,
                       useLlm: bool, llm: SectionOracle)
    returns (r: Result<seq<Chunk>, ChunkError>)
    ensures CountTokens(c, text) <= c.chunkSize ==> r == Success([Chunk(text, 0, filename, 1)])
    ensures CountTokens(c, text) > c.chunkSize ==>
      var sections := Sections(c, strip, text, useLlm, llm);
      (r.Failure? <==> sections.Failure?) &&
      (r.Success? ==> |r.value| == |sections.value| &&
                      forall i :: 0 <= i < |r.value| ==> r.value[i].content == sections.value[i])
    ensures r.Success? ==> forall i :: 0 <= i < |r.value| ==>
      r.value[i].chunkIndex == i && r.value[i].totalChunks == |r.value| && r.value[i].filename == filename
    ensures r.Failure? <==> useLlm && c.chunkSize == 0 && CountTokens(c, text) > 0
  {
    if CountTokens(c, text) <= c.chunkSize {
      return Success([Chunk(text, 0, filename, 1)]);
    }
    var sections: seq<string>;
    if useLlm {
      var s := SemanticSplit(c, strip, text, llm);
      if s.Failure? {
        return Failure(s.error);
      }
      sections := s.value;
    } else {
      sections := NaiveSplit(c, strip, text);
    }
    var chunkDicts: seq<Chunk> := [];
    var idx := 0;
    while idx < |sections|
      invariant 0 <= idx <= |sections|
      invariant |chunkDicts| == idx
      invariant forall k :: 0 <= k < idx ==> chunkDicts[k] == Chunk(sections[k], k, filename, |sections|)
    {
      chunkDicts := chunkDicts + [Chunk(sections[idx], idx, filename, |sections|)];
      idx := idx + 1;
    }
    r := Success(chunkDicts);
  }
}
