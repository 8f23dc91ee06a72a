/**
 * The coarse decoder `generate_coarse_new`: history flattening and trimming, the sliding
 * window loop that appends exactly n_steps tokens, the per-codebook offsets of the sampled
 * slice, and the reshape that removes them again. The forward pass and the draw are an
 * oracle: `draws[n]` is the index sampled at step n inside the CODEBOOK_SIZE-wide slice.
 * The float arithmetic of `semantic_to_coarse_ratio` is left out: the values it produces
 * (n_steps, the history lengths, max_semantic_history and the window's semantic index)
 * are inputs.
 */
module BarkCoarse {
  import opened Wrappers
  import opened BarkVocab
  import opened BarkPrompts
  import opened PyBuiltins

  /** The coarse model's context: 256 semantic tokens, the infer token, the coarse history. */
  const ModelContext: int := 1024
  const SemanticWindow: nat := 256

  predicate MajorStep(v: Vocab, nStep: nat)
    requires v.Valid()
  {
    nStep % v.nCoarseCodebooks == 0
  }

  /** `logit_start_idx`: SEMANTIC_VOCAB_SIZE + (1 - is_major_step) * CODEBOOK_SIZE */
  function LogitStart(v: Vocab, nStep: nat): int
    requires v.Valid()
  {
    v.semanticVocabSize + (1 - if MajorStep(v, nStep) then 1 else 0) * v.codebookSize
  }

  /** `logit_end_idx`: SEMANTIC_VOCAB_SIZE + (2 - is_major_step) * CODEBOOK_SIZE */
  function LogitEnd(v: Vocab, nStep: nat): int
    requires v.Valid()
  {
    v.semanticVocabSize + (2 - if MajorStep(v, nStep) then 1 else 0) * v.codebookSize
  }

  /** The sampled slice is one codebook wide; even steps read the first codebook's slice and
      odd steps the second's, which is codebook `nStep % N_COARSE_CODEBOOKS` shifted by its
      index times CODEBOOK_SIZE, the shift the reshape at the end removes. */
  lemma LogitSliceIsCodebook(v: Vocab, nStep: nat)
    requires v.Valid()
    ensures LogitEnd(v, nStep) - LogitStart(v, nStep) == v.codebookSize
    ensures MajorStep(v, nStep) ==> LogitStart(v, nStep) == v.semanticVocabSize
    ensures !MajorStep(v, nStep) ==> LogitStart(v, nStep) == v.semanticVocabSize + v.codebookSize
    ensures LogitStart(v, nStep) == v.semanticVocabSize + (nStep % v.nCoarseCodebooks) * v.codebookSize
  {
  }

  /** The tokens the loop appends: each draw shifted to the start of its step's slice. */
  function OffsetTokens(v: Vocab, draws: seq<int>): (tokens: seq<int>)
    requires v.Valid()
    ensures |tokens| == |draws|
  {
    seq(|draws|, n requires 0 <= n < |draws| => draws[n] + LogitStart(v, n))
  }

  /**
   * `gen_coarse_arr.reshape(-1, N_COARSE_CODEBOOKS).T - SEMANTIC_VOCAB_SIZE` followed by
   * `row n -= n * CODEBOOK_SIZE`: token `t * N + r` of the flat stream is column t of row r.
   */
  function CoarseCodes(v: Vocab, flat: seq<int>): (m: Matrix)
    requires v.Valid() && |flat| % v.nCoarseCodebooks == 0
    ensures Shaped(m, v.nCoarseCodebooks, |flat| / v.nCoarseCodebooks)
  {
    var cols := |flat| / 2;
    seq(2, r requires 0 <= r < 2 =>
      seq(cols, t requires 0 <= t < cols => flat[2 * t + r] - v.semanticVocabSize - r * v.codebookSize))
  }

  /**
   * Line 255: `_flatten_codebooks(x_coarse_history) + SEMANTIC_VOCAB_SIZE`. The upstream
   * `_flatten_codebooks` adds n * CODEBOOK_SIZE to row n and reads the array column-major.
   */
  function FlattenCoarseHistory(v: Vocab, m: Matrix): (flat: seq<int>)
    requires v.Valid() && CoarseHistoryValid(m, v)
    ensures |flat| == 2 * Width(m)
  {
    seq(2 * Width(m), k requires 0 <= k < 2 * Width(m) =>
      m[k % 2][k / 2] + (k % 2) * v.codebookSize + v.semanticVocabSize)
  }

  /** The reshape at the end of the decoder inverts the flattening of a history. */
  lemma {:induction false} CoarseCodesUndoFlatten(v: Vocab, m: Matrix)
    requires v.Valid() && CoarseHistoryValid(m, v)
    ensures CoarseCodes(v, FlattenCoarseHistory(v, m)) == m
  {
    var flat := FlattenCoarseHistory(v, m);
    var back := CoarseCodes(v, flat);
    assert |back| == |m|;
    forall r | 0 <= r < 2
      ensures back[r] == m[r]
    {
      assert |back[r]| == |m[r]|;
      forall t | 0 <= t < |m[r]|
        ensures back[r][t] == m[r][t]
      {
        assert (2 * t + r) % 2 == r && (2 * t + r) / 2 == t;
      }
    }
  }

  /** De-offsetting the generated stream gives back the draws, codebook by codebook, so every
      coarse row lies in [0, CODEBOOK_SIZE). */
  lemma {:induction false} CoarseCodesRecoverDraws(v: Vocab, draws: seq<int>)
    requires v.Valid() && |draws| % 2 == 0 && AllBelow(draws, v.codebookSize)
    ensures var m := CoarseCodes(v, OffsetTokens(v, draws));
      Shaped(m, 2, |draws| / 2)
      && (forall r, t :: 0 <= r < 2 && 0 <= t < |draws| / 2 ==> m[r][t] == draws[2 * t + r])
      && MatrixBelow(m, v.codebookSize)
  {
    var m := CoarseCodes(v, OffsetTokens(v, draws));
    forall r, t | 0 <= r < 2 && 0 <= t < |draws| / 2
      ensures m[r][t] == draws[2 * t + r]
    {
      assert (2 * t + r) % 2 == r;
      LogitSliceIsCodebook(v, 2 * t + r);
    }
  }

  /** The reshape loop of lines 371-373, over a value matrix. */
  method Deoffset(v: Vocab, gen: seq<int>) returns (m: Matrix)
    requires v.Valid() && |gen| % v.nCoarseCodebooks == 0
    ensures m == CoarseCodes(v, gen)
  {
    var cols := |gen| / v.nCoarseCodebooks;
    m := seq(v.nCoarseCodebooks, r requires 0 <= r < v.nCoarseCodebooks =>
      seq(cols, t requires 0 <= t < cols => gen[t * v.nCoarseCodebooks + r] - v.semanticVocabSize));
    for n := 1 to v.nCoarseCodebooks
      invariant |m| == v.nCoarseCodebooks
      invariant forall r :: 0 <= r < |m| ==> |m[r]| == cols
      invariant forall r, t :: 0 <= r < n && 0 <= t < cols ==> m[r][t] == CoarseCodes(v, gen)[r][t]
      invariant forall r, t :: n <= r < |m| && 0 <= t < cols ==> m[r][t] == gen[t * 2 + r] - v.semanticVocabSize
    {
      m := m[n := seq(cols, t requires 0 <= t < cols => m[n][t] - n * v.codebookSize)];
    }
    var spec := CoarseCodes(v, gen);
    forall r | 0 <= r < 2
      ensures m[r] == spec[r]
    {
      assert |m[r]| == |spec[r]|;
    }
  }

  // ---------------------------------------------------------------------------
  // History trimming (lines 257-268)

  /** The last n elements, none when n is 0. */
  function Tail(s: seq<int>, n: nat): (r: seq<int>)
    ensures |r| == Min(n, |s|) && r == s[|s| - |r|..]
  {
    if n >= |s| then s else s[|s| - n..]
  }

  /** `s[:-2]` */
  function DropLastTwo(s: seq<int>): (r: seq<int>)
    ensures |r| == Max(0, |s| - 2) && r == s[..|r|]
  {
    if |s| >= 2 then s[..|s| - 2] else []
  }

  /** Lines 265-268 as written: `x[-n:]` with n == 0 keeps the whole history. */
  function TrimHistoriesAsWritten(semantic: seq<int>, coarseFlat: seq<int>, nSemantic: nat, nCoarse: nat): (seq<int>, seq<int>)
  {
    (PyTail(semantic, nSemantic), DropLastTwo(PyTail(coarseFlat, nCoarse)))
  }

  /** Lines 265-268 as intended: keep the last n tokens of each history, none when n is 0. */
  function TrimHistories(semantic: seq<int>, coarseFlat: seq<int>, nSemantic: nat, nCoarse: nat): (r: (seq<int>, seq<int>))
    ensures |r.0| == Min(nSemantic, |semantic|) && r.0 == semantic[|semantic| - |r.0|..]
    ensures |r.1| == Max(0, Min(nCoarse, |coarseFlat|) - 2)
    ensures r.1 == coarseFlat[|coarseFlat| - Min(nCoarse, |coarseFlat|)..][..|r.1|]
  {
    (Tail(semantic, nSemantic), DropLastTwo(Tail(coarseFlat, nCoarse)))
  }

  /** A valid one-token semantic prompt gives `len - len % 2 == 0` provided tokens, and the
      code then keeps the whole of both histories instead of none. */
  lemma TrimAsWrittenKeepsAllForZero(semantic: seq<int>, coarseFlat: seq<int>)
    requires |semantic| == 1 && |coarseFlat| >= 3
    ensures |TrimHistoriesAsWritten(semantic, coarseFlat, 0, 0).0| == 1
    ensures |TrimHistoriesAsWritten(semantic, coarseFlat, 0, 0).1| == |coarseFlat| - 2
    ensures TrimHistories(semantic, coarseFlat, 0, 0) == ([], [])
  {
  }

  /** Trimming never makes a history longer than its provided length. */
  lemma TrimHistoriesBounded(semantic: seq<int>, coarseFlat: seq<int>, nSemantic: nat, nCoarse: nat)
    ensures |TrimHistories(semantic, coarseFlat, nSemantic, nCoarse).0| <= nSemantic
    ensures |TrimHistories(semantic, coarseFlat, nSemantic, nCoarse).1| <= nCoarse
  {
  }

  // ---------------------------------------------------------------------------
  // The sliding-window loop

  /** `int(np.ceil(n / d))` for a positive d. */
  function CeilDiv(n: nat, d: nat): (q: nat)
    requires d > 0
    ensures q * d >= n && (q > 0 ==> (q - 1) * d < n)
  {
    (n + d - 1) / d
  }

  /** `x_in` at the start of a window: 256 semantic tokens from the window's semantic index
      (right-padded), the infer token, and the last max_coarse_history coarse tokens. */
  function CoarseWindowInput(v: Vocab, xSemantic: seq<int>, semanticIdx: int, maxSemanticHistory: nat,
                             xCoarse: seq<int>, maxCoarseHistory: nat): (xIn: seq<int>)
    requires maxCoarseHistory >= 1
    ensures |xIn| == SemanticWindow + 1 + Min(maxCoarseHistory, |xCoarse|)
    ensures var from := Max(0, semanticIdx - maxSemanticHistory);
      forall k :: 0 <= k < SemanticWindow ==>
        xIn[k] == if from + k < |xSemantic| then xSemantic[from + k] else v.coarseSemanticPad
    ensures xIn[SemanticWindow] == v.coarseInfer
    ensures xIn[SemanticWindow + 1..] == xCoarse[|xCoarse| - Min(maxCoarseHistory, |xCoarse|)..]
  {
    var from := Max(0, semanticIdx - maxSemanticHistory);
    var rest := if from <= |xSemantic| then xSemantic[from..] else [];
    PadRight(TakeFirst(rest, SemanticWindow), SemanticWindow, v.coarseSemanticPad)
      + [v.coarseInfer] + TakeLast(xCoarse, maxCoarseHistory)
  }

  /** Appending the token of step n extends the offset stream by one. */
  lemma OffsetTokensSnoc(v: Vocab, draws: seq<int>, n: nat)
    requires v.Valid() && n < |draws|
    ensures OffsetTokens(v, draws[..n + 1]) == OffsetTokens(v, draws[..n]) + [draws[n] + LogitStart(v, n)]
  {
  }

  /** One window: up to sliding_window_len steps, each skipped once n_step reaches n_steps. */
  method RunCoarseWindow(v: Vocab, xIn0: seq<int>, xCoarse0: seq<int>, history: seq<int>, nStep0: nat,
                         nSteps: nat, slidingWindowLen: nat, maxCoarseHistory: nat, draws: seq<int>)
    returns (xCoarse: seq<int>, nStep: nat)
    requires v.Valid()
    requires nSteps <= |draws| && nStep0 <= nSteps
    requires |xIn0| <= SemanticWindow + 1 + maxCoarseHistory
    requires maxCoarseHistory + slidingWindowLen <= ModelContext - 256
    requires xCoarse0 == history + OffsetTokens(v, draws[..nStep0])
    ensures nStep == Min(nStep0 + slidingWindowLen, nSteps)
    ensures xCoarse == history + OffsetTokens(v, draws[..nStep])
  {
    xCoarse, nStep := xCoarse0, nStep0;
    var xIn := xIn0;
    for j := 0 to slidingWindowLen
      invariant nStep == Min(nStep0 + j, nSteps)
      invariant xCoarse == history + OffsetTokens(v, draws[..nStep])
      invariant |xIn| <= SemanticWindow + 1 + maxCoarseHistory + j
    {
      if nStep >= nSteps {
        continue;
      }
      // the model input never exceeds the model's context (the assert at line 213)
      assert |xIn| <= ModelContext;
      var item := draws[nStep] + LogitStart(v, nStep);
      OffsetTokensSnoc(v, draws, nStep);
      xCoarse := xCoarse + [item];
      xIn := xIn + [item];
      nStep := nStep + 1;
    }
  }

  /**
   * The window loop: ceil(n_steps / sliding_window_len) windows of sliding_window_len steps.
   * `semanticIndex(n_step)` stands for `base_semantic_idx + round(n_step / semantic_to_coarse_ratio)`.
   */
  method RunCoarseWindows(v: Vocab, xSemantic: seq<int>, maxSemanticHistory: nat, semanticIndex: nat -> int,
                          history: seq<int>, nSteps: nat, slidingWindowLen: nat, maxCoarseHistory: nat,
                          draws: seq<int>)
    returns (xCoarse: seq<int>)
    requires v.Valid()
    requires 60 <= maxCoarseHistory <= 630 && maxCoarseHistory + slidingWindowLen <= ModelContext - 256
    requires slidingWindowLen > 0
    requires nSteps <= |draws|
    ensures xCoarse == history + OffsetTokens(v, draws[..nSteps])
  {
    xCoarse := history;
    var nWindowSteps := CeilDiv(nSteps, slidingWindowLen);
    var nStep := 0;
    for w := 0 to nWindowSteps
      invariant nStep == Min(w * slidingWindowLen, nSteps)
      invariant xCoarse == history + OffsetTokens(v, draws[..nStep])
    {
      var xIn := CoarseWindowInput(v, xSemantic, semanticIndex(nStep), maxSemanticHistory, xCoarse, maxCoarseHistory);
      xCoarse, nStep := RunCoarseWindow(v, xIn, xCoarse, history, nStep, nSteps, slidingWindowLen, maxCoarseHistory, draws);
      assert (w + 1) * slidingWindowLen == w * slidingWindowLen + slidingWindowLen;
    }
  }

  predicate CoarseArgumentsValid(v: Vocab, xSemantic: seq<int>, maxCoarseHistory: int, slidingWindowLen: int) {
    SemanticTokensValid(xSemantic, v)
    && 60 <= maxCoarseHistory <= 630
    && maxCoarseHistory + slidingWindowLen <= ModelContext - 256
  }

  /** The histories lines 255-268 leave for the decoder: both empty without a history prompt. */
  function TrimmedHistories(v: Vocab, histories: Option<(seq<int>, Matrix)>,
                            nSemanticHistProvided: nat, nCoarseHistProvided: nat): (seq<int>, seq<int>)
    requires v.Valid() && (histories.Some? ==> CoarseHistoryValid(histories.value.1, v))
  {
    match histories
    case None => ([], [])
    case Some((semantic, coarse)) =>
      TrimHistories(semantic, FlattenCoarseHistory(v, coarse), nSemanticHistProvided, nCoarseHistProvided)
  }

  /** A coarse prompt two columns wide, trimmed to three tokens, leaves a single token: the
      history a negative window turns into the IndexError of line 371. */
  lemma OneTokenCoarseHistory(v: Vocab, semantic: seq<int>, coarse: Matrix, nSemanticHistProvided: nat)
    requires v.Valid() && CoarseHistoryValid(coarse, v) && Width(coarse) == 2
    ensures |TrimmedHistories(v, Some((semantic, coarse)), nSemanticHistProvided, 3).1| == 1
  {
  }

  /**
   * The whole decoder after the history has been resolved. Every error the source raises is
   * an `Err`, in the order the source meets them: a failed argument assert, a missing file or
   * key, an unbound history after a skipped reference, a failed history assert or an empty
   * reduction, the n_steps assert, and the division by a zero window length. With a negative
   * window no window runs; the final `squeeze()` then turns a one-token coarse history into a
   * 0-d array, whose slice at line 371 raises IndexError, and otherwise the length assert
   * at line 373 fails.
   */
  method GenerateCoarse(v: Vocab, xSemantic: seq<int>, res: Resolution,
                        maxCoarseHistory: int, slidingWindowLen: int,
                        maxSemanticHistory: nat, nSemanticHistProvided: nat, nCoarseHistProvided: nat,
                        nSteps: int, semanticIndex: nat -> int, draws: seq<int>)
    returns (r: Result<Matrix, BarkError>)
    requires v.Valid()
    requires nSteps <= |draws| && AllBelow(draws, v.codebookSize)
    ensures r.Ok? <==>
      CoarseArgumentsValid(v, xSemantic, maxCoarseHistory, slidingWindowLen)
      && CoarseHistory(res, v).Ok?
      && nSteps > 0 && nSteps % v.nCoarseCodebooks == 0
      && slidingWindowLen > 0
    ensures !CoarseArgumentsValid(v, xSemantic, maxCoarseHistory, slidingWindowLen) ==> r == Err(AssertionFailed)
    ensures (CoarseArgumentsValid(v, xSemantic, maxCoarseHistory, slidingWindowLen) && CoarseHistory(res, v).Err?) ==>
      r == Err(CoarseHistory(res, v).error)
    ensures (CoarseArgumentsValid(v, xSemantic, maxCoarseHistory, slidingWindowLen) && res.Skipped?) ==>
      r == Err(UnboundHistory)
    ensures (CoarseArgumentsValid(v, xSemantic, maxCoarseHistory, slidingWindowLen) && CoarseHistory(res, v).Ok?
             && nSteps > 0 && nSteps % v.nCoarseCodebooks == 0 && slidingWindowLen <= 0) ==>
      var kept := TrimmedHistories(v, CoarseHistory(res, v).value, nSemanticHistProvided, nCoarseHistProvided).1;
      r == Err(if slidingWindowLen == 0 then DivisionByZero
               else if |kept| == 1 then IndexError
               else AssertionFailed)
    ensures r.Ok? ==>
      Shaped(r.value, v.nCoarseCodebooks, nSteps / v.nCoarseCodebooks)
      && MatrixBelow(r.value, v.codebookSize)
      && forall row, t :: 0 <= row < 2 && 0 <= t < nSteps / 2 ==> r.value[row][t] == draws[2 * t + row]
  {
    if !CoarseArgumentsValid(v, xSemantic, maxCoarseHistory, slidingWindowLen) {
      return Err(AssertionFailed);
    }
    var histories := CoarseHistory(res, v);
    if histories.Err? {
      // a skipped reference leaves the histories unbound, and line 255 reads them
      return Err(histories.error);
    }
    var trimmed := TrimmedHistories(v, histories.value, nSemanticHistProvided, nCoarseHistProvided);
    var semanticHistory, coarseHistory := trimmed.0, trimmed.1;
    if !(nSteps > 0 && nSteps % v.nCoarseCodebooks == 0) {
      return Err(AssertionFailed);
    }
    if slidingWindowLen == 0 {
      return Err(DivisionByZero);
    }
    if slidingWindowLen < 0 {
      // no window runs: a [1, 1] tensor squeezes to a 0-d array, which cannot be sliced;
      // any other length leaves `len(gen_coarse_arr) == 0 != n_steps`
      return Err(if |coarseHistory| == 1 then IndexError else AssertionFailed);
    }
    var xCoarse := RunCoarseWindows(v, semanticHistory + xSemantic, maxSemanticHistory, semanticIndex,
                                    coarseHistory, nSteps, slidingWindowLen, maxCoarseHistory, draws);
    var gen := xCoarse[|coarseHistory|..];
    assert gen == OffsetTokens(v, draws[..nSteps]);
    assert |gen| % 2 == 0;
    var codes := Deoffset(v, gen);
    CoarseCodesRecoverDraws(v, draws[..nSteps]);
    r := Ok(codes);
  }
}
