/**
 * The fine decoder `generate_fine_new`: the padded input array, the overlapping 1024-wide
 * windows that overwrite the fine codebooks in place, and the trim back to the coarse length.
 * The model and its sampler are an oracle: `predict(n, nn, k)` is the token chosen for
 * codebook nn at position k of window n (argmax or multinomial over the first CODEBOOK_SIZE
 * logits, so always in [0, CODEBOOK_SIZE)).
 */
module BarkFine {
  import opened Wrappers
  import opened BarkVocab
  import opened BarkPrompts

  /** The non-causal model's window. */
  const Window: nat := 1024
  /** The distance between consecutive windows, and the most history kept. */
  const Hop: nat := 512

  /** The assert at the head of the decoder: one to N_FINE_CODEBOOKS - 1 codebook rows,
      at least one column, every token in range. */
  predicate CoarseInputValid(x: Matrix, v: Vocab) {
    1 <= |x| <= v.nFineCodebooks - 1 && Rectangular(x) && Width(x) > 0 && MatrixBelow(x, v.codebookSize)
  }

  /** `n_history`: the columns of the last 512 of the history, 0 without one. */
  function HistoryColumns(history: Option<Matrix>): (h: nat)
    ensures h <= Hop
    ensures history.None? ==> h == 0
    ensures history.Some? ==> h == Min(Hop, Width(history.value))
  {
    if history.None? then 0 else Min(Hop, Width(history.value))
  }

  /** A history, when there is one, has one row per fine codebook, all of one width. */
  predicate HistoryShaped(history: Option<Matrix>, v: Vocab) {
    history.Some? ==> |history.value| == v.nFineCodebooks && Rectangular(history.value)
  }

  /** The cell at codebook c, column t of the input array, laid out as the decoder builds it. */
  function InputCell(v: Vocab, coarse: Matrix, history: Option<Matrix>, c: nat, t: nat): int
    requires HistoryShaped(history, v)
    requires c < v.nFineCodebooks && Rectangular(coarse)
  {
    var h := HistoryColumns(history);
    if t < h then history.value[c][Width(history.value) - h + t]
    else if t < h + Width(coarse) && c < |coarse| then coarse[c][t - h]
    else v.codebookSize
  }

  /**
   * Lines 434-462: the coarse rows stacked over CODEBOOK_SIZE placeholder rows, the last 512
   * history columns in front, and CODEBOOK_SIZE padding behind up to 1024 columns.
   */
  function FineInput(v: Vocab, coarse: Matrix, history: Option<Matrix>): (m: Matrix)
    requires v.Valid() && CoarseInputValid(coarse, v)
    requires history.Some? ==> FineHistoryValid(history.value, v)
    ensures Shaped(m, v.nFineCodebooks, Max(Window, HistoryColumns(history) + Width(coarse)))
  {
    var T := Width(coarse);
    var stacked := coarse + seq(v.nFineCodebooks - |coarse|, _ => seq(T, _ => v.codebookSize));
    var withHistory := match history
      case None => stacked
      case Some(hist) =>
        seq(v.nFineCodebooks, c requires 0 <= c < v.nFineCodebooks => TakeLast(hist[c], Hop) + stacked[c]);
    var nRemoveFromEnd := Max(0, Window - (HistoryColumns(history) + T));
    seq(v.nFineCodebooks, c requires 0 <= c < v.nFineCodebooks => withHistory[c] + seq(nRemoveFromEnd, _ => v.codebookSize))
  }

  /** Row c of the input array as three pieces: its history columns, its coarse row or
      placeholder row, and its padding. */
  function LayoutRow(v: Vocab, coarse: Matrix, history: Option<Matrix>, c: nat): seq<int>
    requires HistoryShaped(history, v)
    requires c < v.nFineCodebooks
  {
    (if history.Some? then TakeLast(history.value[c], Hop) else [])
    + (if c < |coarse| then coarse[c] else seq(Width(coarse), _ => v.codebookSize))
    + seq(Max(0, Window - (HistoryColumns(history) + Width(coarse))), _ => v.codebookSize)
  }

  /** The stacking, the history prepend and the padding build each row from those pieces. */
  lemma FineInputRow(v: Vocab, coarse: Matrix, history: Option<Matrix>, c: nat)
    requires v.Valid() && CoarseInputValid(coarse, v)
    requires history.Some? ==> FineHistoryValid(history.value, v)
    requires c < v.nFineCodebooks
    ensures FineInput(v, coarse, history)[c] == LayoutRow(v, coarse, history, c)
  {
  }

  /** An index into a three-part concatenation lands in the part that covers it. */
  lemma ConcatIndex(x: seq<int>, y: seq<int>, z: seq<int>, t: nat)
    requires t < |x| + |y| + |z|
    ensures (x + y + z)[t] == if t < |x| then x[t] else if t < |x| + |y| then y[t - |x|] else z[t - |x| - |y|]
  {
    if t < |x| + |y| {
      assert (x + y + z)[t] == (x + y)[t];
    }
  }

  /** Column t of the last 512 history columns is column `width - n_history + t` of the history. */
  lemma HistoryFrontCell(hist: Matrix, c: nat, t: nat)
    requires Rectangular(hist) && c < |hist| && t < Min(Hop, Width(hist))
    ensures TakeLast(hist[c], Hop)[t] == hist[c][Width(hist) - Min(Hop, Width(hist)) + t]
  {
    assert |hist[c]| == Width(hist);
  }

  /** One cell of a row is where the layout puts it. */
  lemma LayoutCell(v: Vocab, coarse: Matrix, history: Option<Matrix>, c: nat, t: nat)
    requires Rectangular(coarse) && HistoryShaped(history, v)
    requires c < v.nFineCodebooks && t < |LayoutRow(v, coarse, history, c)|
    ensures LayoutRow(v, coarse, history, c)[t] == InputCell(v, coarse, history, c, t)
  {
    var h := HistoryColumns(history);
    var T := Width(coarse);
    var front := if history.Some? then TakeLast(history.value[c], Hop) else [];
    var row := if c < |coarse| then coarse[c] else seq(T, _ => v.codebookSize);
    var pad := seq(Max(0, Window - (h + T)), _ => v.codebookSize);
    assert |front| == h by {
      if history.Some? {
        assert |history.value[c]| == Width(history.value);
      }
    }
    assert |row| == T;
    ConcatIndex(front, row, pad, t);
    if t < h {
      HistoryFrontCell(history.value, c, t);
    } else if t < h + T {
      assert row[t - h] == InputCell(v, coarse, history, c, t);
    } else {
      assert pad[t - h - T] == v.codebookSize;
    }
  }

  /** The stacking and padding put every cell where the layout says: history columns first,
      then the coarse codebooks over CODEBOOK_SIZE placeholders, then CODEBOOK_SIZE padding. */
  lemma FineInputLayout(v: Vocab, coarse: Matrix, history: Option<Matrix>)
    requires v.Valid() && CoarseInputValid(coarse, v)
    requires history.Some? ==> FineHistoryValid(history.value, v)
    ensures var m := FineInput(v, coarse, history);
      forall c, t :: 0 <= c < v.nFineCodebooks && 0 <= t < |m[c]| ==> m[c][t] == InputCell(v, coarse, history, c, t)
  {
    var m := FineInput(v, coarse, history);
    forall c, t | 0 <= c < v.nFineCodebooks && 0 <= t < |m[c]|
      ensures m[c][t] == InputCell(v, coarse, history, c, t)
    {
      FineInputRow(v, coarse, history, c);
      LayoutCell(v, coarse, history, c, t);
    }
  }

  // ---------------------------------------------------------------------------
  // The windows

  /** `n_loops` (line 464). */
  function FineLoops(T: nat, h: nat): (loops: nat)
    ensures loops >= 1
  {
    (if T + h <= Window then 0 else (T + h - Window + Hop - 1) / Hop) + 1
  }

  /** `start_idx` of window n in a buffer of W columns. */
  function StartIdx(n: nat, W: nat): int {
    Min(Hop * n, W - Window)
  }

  /** `start_fill_idx` of window n. */
  function StartFill(n: nat, h: nat, W: nat): int {
    Min(h + Hop * n, W - Hop)
  }

  /** Every window lies inside the buffer, fills from at or after the history, and refills at
      most the first half of itself. */
  lemma WindowBounds(n: nat, h: nat, W: nat)
    requires W >= Window && h <= Hop
    ensures 0 <= StartIdx(n, W) && StartIdx(n, W) + Window <= W
    ensures h <= StartFill(n, h, W)
    ensures 0 <= StartFill(n, h, W) - StartIdx(n, W) <= Hop
  {
  }

  /** Consecutive windows leave no gap: each fill starts no later than where the previous
      window ended, and the windows move forward. */
  lemma WindowsChain(n: nat, h: nat, W: nat)
    requires W >= Window && h <= Hop
    ensures StartFill(n + 1, h, W) <= StartIdx(n, W) + Window
    ensures StartIdx(n, W) <= StartIdx(n + 1, W)
  {
  }

  /** The last window ends at the end of the buffer. */
  lemma {:induction false} LastWindowReachesEnd(T: nat, h: nat)
    ensures StartIdx(FineLoops(T, h) - 1, Max(Window, h + T)) + Window == Max(Window, h + T)
  {
    var W := Max(Window, h + T);
    if T + h > Window {
      var q := (T + h - Window + Hop - 1) / Hop;
      assert Hop * q >= T + h - Window by {
        assert (T + h - Window + Hop - 1) % Hop < Hop;
      }
    }
  }

  /** The end of the region filled so far. */
  function Covered(n: nat, h: nat, W: nat): int {
    if n == 0 then h else StartIdx(n - 1, W) + Window
  }

  predicate InRange(x: int, v: Vocab) {
    0 <= x < v.codebookSize
  }

  /** One window (lines 467-491): every fine codebook is predicted from `rel_start_fill_idx` to the
      end of the window and written through the view into the buffer, which is time by codebook. */
  method FillWindow(v: Vocab, buf: array2<int>, nCoarse: nat, n: nat, h: nat, predict: (nat, nat, nat) -> int)
    requires v.Valid() && buf.Length1 == v.nFineCodebooks && buf.Length0 >= Window
    requires nCoarse <= v.nFineCodebooks && h <= Hop
    modifies buf
    ensures forall t, c :: 0 <= t < buf.Length0 && 0 <= c < buf.Length1 ==>
      buf[t, c] == if nCoarse <= c && StartFill(n, h, buf.Length0) <= t < StartIdx(n, buf.Length0) + Window
                   then predict(n, c, t - StartIdx(n, buf.Length0))
                   else old(buf[t, c])
  {
    var W := buf.Length0;
    WindowBounds(n, h, W);
    var startIdx := StartIdx(n, W);
    var startFill := StartFill(n, h, W);
    var rel := startFill - startIdx;
    for nn := nCoarse to v.nFineCodebooks
      invariant forall t, c :: 0 <= t < W && 0 <= c < buf.Length1 ==>
        buf[t, c] == if nCoarse <= c < nn && startFill <= t < startIdx + Window
                     then predict(n, c, t - startIdx)
                     else old(buf[t, c])
    {
      forall k | rel <= k < Window {
        buf[startIdx + k, nn] := predict(n, nn, k);
      }
    }
  }

  /**
   * All windows (line 467). Afterwards every fine-codebook cell from the history boundary to
   * the end holds a prediction, and the coarse rows and the history columns are untouched.
   */
  method FillFineBuffer(v: Vocab, buf: array2<int>, nCoarse: nat, h: nat, loops: nat, predict: (nat, nat, nat) -> int)
    requires v.Valid() && buf.Length1 == v.nFineCodebooks && buf.Length0 >= Window
    requires nCoarse <= v.nFineCodebooks && h <= Hop
    requires loops >= 1 && StartIdx(loops - 1, buf.Length0) + Window == buf.Length0
    requires forall n, c, k :: InRange(predict(n, c, k), v)
    modifies buf
    ensures forall t, c :: 0 <= t < buf.Length0 && 0 <= c < buf.Length1 ==>
      if nCoarse <= c && h <= t then InRange(buf[t, c], v) else buf[t, c] == old(buf[t, c])
  {
    var W := buf.Length0;
    for n := 0 to loops
      invariant forall t, c :: 0 <= t < W && 0 <= c < buf.Length1 ==>
        if nCoarse <= c && h <= t then (t < Covered(n, h, W) ==> InRange(buf[t, c], v))
        else buf[t, c] == old(buf[t, c])
    {
      WindowBounds(n, h, W);
      if n > 0 {
        WindowsChain(n - 1, h, W);
      }
      FillWindow(v, buf, nCoarse, n, h, predict);
    }
  }

  /** The buffer read back codebook by codebook: `in_arr.T`. */
  function Codebooks(buf: array2<int>): (m: Matrix)
    reads buf
    ensures Shaped(m, buf.Length1, buf.Length0)
    ensures forall c, t :: 0 <= c < buf.Length1 && 0 <= t < buf.Length0 ==> m[c][t] == buf[t, c]
  {
    seq(buf.Length1, c requires 0 <= c < buf.Length1 reads buf =>
      seq(buf.Length0, t requires 0 <= t < buf.Length0 reads buf => buf[t, c]))
  }

  /** Lines 502-504: drop the history columns, then the padding, but only when there is some,
      since `[:, :-0]` would drop everything. */
  function TrimColumns(m: Matrix, h: nat, nRemoveFromEnd: nat): (r: Matrix)
    requires Rectangular(m) && h + nRemoveFromEnd <= Width(m)
    ensures Shaped(r, |m|, Width(m) - h - nRemoveFromEnd)
    ensures forall c, t :: 0 <= c < |r| && 0 <= t < |r[c]| ==> r[c][t] == m[c][h + t]
  {
    var dropped := seq(|m|, c requires 0 <= c < |m| => m[c][h..]);
    if nRemoveFromEnd > 0 then
      seq(|m|, c requires 0 <= c < |m| => dropped[c][..|dropped[c]| - nRemoveFromEnd])
    else dropped
  }

  /** The buffer after the windows: the fine codebooks from the history boundary on hold
      in-range tokens, every other cell still holds the input layout. */
  predicate FilledFromInput(filled: Matrix, v: Vocab, coarse: Matrix, history: Option<Matrix>)
    requires history.Some? ==> FineHistoryValid(history.value, v)
    requires v.Valid() && CoarseInputValid(coarse, v)
  {
    var h := HistoryColumns(history);
    var W := Max(Window, h + Width(coarse));
    Shaped(filled, v.nFineCodebooks, W)
    && forall c, t :: 0 <= c < v.nFineCodebooks && 0 <= t < W ==>
      if |coarse| <= c && h <= t then InRange(filled[c][t], v)
      else filled[c][t] == InputCell(v, coarse, history, c, t)
  }

  /** Row c of the trimmed buffer: in range, and the coarse row itself when c is a coarse
      codebook. */
  lemma TrimmedRow(v: Vocab, coarse: Matrix, history: Option<Matrix>, filled: Matrix, gen: Matrix, c: nat)
    requires v.Valid() && CoarseInputValid(coarse, v)
    requires history.Some? ==> FineHistoryValid(history.value, v)
    requires FilledFromInput(filled, v, coarse, history)
    requires gen == TrimColumns(filled, HistoryColumns(history), |filled[0]| - (HistoryColumns(history) + Width(coarse)))
    requires c < v.nFineCodebooks
    ensures AllBelow(gen[c], v.codebookSize)
    ensures c < |coarse| ==> gen[c] == coarse[c]
  {
    var h := HistoryColumns(history);
    var T := Width(coarse);
    forall t | 0 <= t < T
      ensures InRange(gen[c][t], v) && (c < |coarse| ==> gen[c][t] == coarse[c][t])
    {
      assert gen[c][t] == filled[c][h + t];
      if c < |coarse| {
        assert filled[c][h + t] == InputCell(v, coarse, history, c, h + t);
        assert |coarse[c]| == T && AllBelow(coarse[c], v.codebookSize);
      }
    }
    if c < |coarse| {
      assert |gen[c]| == |coarse[c]|;
    }
  }

  /** A buffer that still holds the input array outside the predicted region is filled from
      the input layout. */
  lemma FilledFromLayout(v: Vocab, coarse: Matrix, history: Option<Matrix>, filled: Matrix)
    requires v.Valid() && CoarseInputValid(coarse, v)
    requires history.Some? ==> FineHistoryValid(history.value, v)
    requires var W := Max(Window, HistoryColumns(history) + Width(coarse));
      Shaped(filled, v.nFineCodebooks, W)
      && forall c, t :: 0 <= c < v.nFineCodebooks && 0 <= t < W ==>
        if |coarse| <= c && HistoryColumns(history) <= t then InRange(filled[c][t], v)
        else filled[c][t] == FineInput(v, coarse, history)[c][t]
    ensures FilledFromInput(filled, v, coarse, history)
  {
    var h := HistoryColumns(history);
    var W := Max(Window, h + Width(coarse));
    forall c, t | 0 <= c < v.nFineCodebooks && 0 <= t < W && !(|coarse| <= c && h <= t)
      ensures filled[c][t] == InputCell(v, coarse, history, c, t)
    {
      FineInputRow(v, coarse, history, c);
      LayoutCell(v, coarse, history, c, t);
    }
  }

  /** Whatever the windows predict, trimming the filled buffer gives back the coarse codebooks
      and in-range tokens everywhere else. */
  lemma FilledOutputKeepsCoarse(v: Vocab, coarse: Matrix, history: Option<Matrix>, filled: Matrix)
    requires v.Valid() && CoarseInputValid(coarse, v)
    requires history.Some? ==> FineHistoryValid(history.value, v)
    requires FilledFromInput(filled, v, coarse, history)
    ensures var h := HistoryColumns(history);
      var gen := TrimColumns(filled, h, Max(Window, h + Width(coarse)) - (h + Width(coarse)));
      Shaped(gen, v.nFineCodebooks, Width(coarse))
      && MatrixBelow(gen, v.codebookSize)
      && forall c :: 0 <= c < |coarse| ==> gen[c] == coarse[c]
  {
    var h := HistoryColumns(history);
    var T := Width(coarse);
    var gen := TrimColumns(filled, h, Max(Window, h + T) - (h + T));
    forall c | 0 <= c < v.nFineCodebooks
      ensures AllBelow(gen[c], v.codebookSize) && (c < |coarse| ==> gen[c] == coarse[c])
    {
      TrimmedRow(v, coarse, history, filled, gen, c);
    }
  }

  /** The array in the model's time-by-codebook order: `in_arr.T`, copied into a buffer. */
  method TimeMajor(m: Matrix, W: nat) returns (buf: array2<int>)
    requires Shaped(m, |m|, W)
    ensures fresh(buf) && buf.Length0 == W && buf.Length1 == |m|
    ensures forall t, c :: 0 <= t < W && 0 <= c < |m| ==> buf[t, c] == m[c][t]
  {
    buf := new int[W, |m|]((t, c) requires 0 <= t < W && 0 <= c < |m| => m[c][t]);
  }

  /**
   * Lines 434-504 once the input has passed its assert and the history is known: build the
   * padded buffer, run the windows, read it back and trim it. The result has the coarse
   * input's length, keeps its codebooks and fills the rest with predicted tokens.
   */
  method DecodeFine(v: Vocab, coarse: Matrix, history: Option<Matrix>, predict: (nat, nat, nat) -> int)
    returns (gen: Matrix)
    requires v.Valid() && CoarseInputValid(coarse, v)
    requires history.Some? ==> FineHistoryValid(history.value, v)
    requires forall n, c, k :: InRange(predict(n, c, k), v)
    ensures Shaped(gen, v.nFineCodebooks, Width(coarse))
    ensures MatrixBelow(gen, v.codebookSize)
    ensures forall c :: 0 <= c < |coarse| ==> gen[c] == coarse[c]
  {
    var input := FineInput(v, coarse, history);
    var T := Width(coarse);
    var h := HistoryColumns(history);
    var W := Max(Window, h + T);
    var nRemoveFromEnd := W - (h + T);
    var buf := TimeMajor(input, W);
    LastWindowReachesEnd(T, h);
    FillFineBuffer(v, buf, |coarse|, h, FineLoops(T, h), predict);
    var filled := Codebooks(buf);
    forall c, t | 0 <= c < v.nFineCodebooks && 0 <= t < W
      ensures if |coarse| <= c && h <= t then InRange(filled[c][t], v) else filled[c][t] == input[c][t]
    {
      assert filled[c][t] == buf[t, c];
    }
    FilledFromLayout(v, coarse, history, filled);
    gen := TrimColumns(filled, h, nRemoveFromEnd);
    FilledOutputKeepsCoarse(v, coarse, history, filled);
  }

  /**
   * The whole decoder after the history has been resolved: the input assert, then the
   * history, then the decoding; the final length assert of line 505 never fails.
   */
  method GenerateFine(v: Vocab, coarse: Matrix, res: Resolution, predict: (nat, nat, nat) -> int)
    returns (r: Result<Matrix, BarkError>)
    requires v.Valid()
    requires forall n, c, k :: InRange(predict(n, c, k), v)
    ensures r.Ok? <==> CoarseInputValid(coarse, v) && FineHistory(res, v).Ok?
    ensures !CoarseInputValid(coarse, v) ==> r == Err(AssertionFailed)
    ensures (CoarseInputValid(coarse, v) && FineHistory(res, v).Err?) ==> r == Err(FineHistory(res, v).error)
    ensures r.Ok? ==>
      Shaped(r.value, v.nFineCodebooks, Width(coarse))
      && MatrixBelow(r.value, v.codebookSize)
      && forall c :: 0 <= c < |coarse| ==> r.value[c] == coarse[c]
  {
    if !CoarseInputValid(coarse, v) {
      return Err(AssertionFailed);
    }
    var history := FineHistory(res, v);
    if history.Err? {
      return Err(history.error);
    }
    var gen := DecodeFine(v, coarse, history.value, predict);
    r := Ok(gen);
  }
}
