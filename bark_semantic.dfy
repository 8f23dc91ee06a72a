/**
 * The semantic decoder `generate_text_semantic_new`: the fixed 513-token context, the
 * autoregressive loop with its stopping rules, and the top-p mask. The forward pass and
 * the multinomial draw are an oracle: `draws[n]` is the index sampled at step n, in the
 * range of the logits slice the code builds.
 */
module BarkSemantic {
  import opened Wrappers
  import opened BarkVocab
  import opened BarkPrompts

  const TextWidth: nat := 256
  const HistoryWidth: nat := 256
  /** 256 text tokens, 256 history tokens and the infer token. */
  const ContextLength: nat := 513
  /** n_tot_steps */
  const MaxSteps: nat := 768

  /** `np.array(tokens) + TEXT_ENCODING_OFFSET` */
  function EncodeText(tokens: seq<int>, v: Vocab): (encoded: seq<int>)
    ensures |encoded| == |tokens|
    ensures forall k :: 0 <= k < |tokens| ==> encoded[k] - v.textEncodingOffset == tokens[k]
  {
    seq(|tokens|, k requires 0 <= k < |tokens| => tokens[k] + v.textEncodingOffset)
  }

  /** The context `x` before the first step: text cut to 256 and padded, history cut to
      its last 256 and padded (256 pad tokens when there is none), then the infer token. */
  function SemanticContext(text: seq<int>, history: Option<seq<int>>, v: Vocab): (ctx: seq<int>)
    ensures |ctx| == ContextLength
    ensures forall k :: 0 <= k < TextWidth ==> ctx[k] == if k < |text| then text[k] else v.textPad
    ensures history.None? ==> forall k :: TextWidth <= k < TextWidth + HistoryWidth ==> ctx[k] == v.semanticPad
    ensures history.Some? ==>
      var h := history.value;
      var kept := Min(|h|, HistoryWidth);
      forall k :: TextWidth <= k < TextWidth + HistoryWidth ==>
        ctx[k] == if k - TextWidth < kept then h[|h| - kept + k - TextWidth] else v.semanticPad
    ensures ctx[ContextLength - 1] == v.semanticInfer
  {
    var paddedText := PadRight(TakeFirst(text, TextWidth), TextWidth, v.textPad);
    var paddedHistory :=
      match history
      case None => seq(HistoryWidth, _ => v.semanticPad)
      case Some(h) => PadRight(TakeLast(h, HistoryWidth), HistoryWidth, v.semanticPad);
    paddedText + paddedHistory + [v.semanticInfer]
  }

  /** The text half of the context, read back: the first 256 positions hold the tokenizer's
      tokens shifted by TEXT_ENCODING_OFFSET, in order, and TEXT_PAD after the last one. */
  lemma TextHalfOfContext(tokens: seq<int>, history: Option<seq<int>>, v: Vocab)
    ensures var ctx := SemanticContext(EncodeText(tokens, v), history, v);
      (forall k :: 0 <= k < Min(|tokens|, TextWidth) ==> ctx[k] - v.textEncodingOffset == tokens[k])
      && (forall k :: |tokens| <= k < TextWidth ==> ctx[k] == v.textPad)
  {
    var ctx := SemanticContext(EncodeText(tokens, v), history, v);
    forall k | 0 <= k < Min(|tokens|, TextWidth)
      ensures ctx[k] - v.textEncodingOffset == tokens[k]
    {
      assert ctx[k] == EncodeText(tokens, v)[k];
    }
  }

  /** Text beyond 256 tokens is lopped off: two texts that agree on their first 256 tokens
      give the same context. */
  lemma TextBeyondWidthIsDropped(tokens: seq<int>, tokens': seq<int>, history: Option<seq<int>>, v: Vocab)
    requires |tokens| >= TextWidth && |tokens'| >= TextWidth
    requires tokens[..TextWidth] == tokens'[..TextWidth]
    ensures SemanticContext(EncodeText(tokens, v), history, v) == SemanticContext(EncodeText(tokens', v), history, v)
  {
    var ctx := SemanticContext(EncodeText(tokens, v), history, v);
    var ctx' := SemanticContext(EncodeText(tokens', v), history, v);
    forall k | 0 <= k < TextWidth
      ensures ctx[k] == ctx'[k]
    {
      assert tokens[k] == tokens[..TextWidth][k] == tokens'[k];
      assert ctx[k] == EncodeText(tokens, v)[k] && ctx'[k] == EncodeText(tokens', v)[k];
    }
  }

  /** Width of the sampled slice: the semantic vocabulary, plus the eos slot when early
      stopping is allowed. */
  function SemanticChoices(v: Vocab, allowEarlyStop: bool): nat {
    if allowEarlyStop then v.semanticVocabSize + 1 else v.semanticVocabSize
  }

  /** The early-stop test: the eos slot was drawn, or its probability reached min_eos_p. */
  predicate EarlyStopAt(n: nat, v: Vocab, allowEarlyStop: bool, draws: seq<int>, eosProbReached: seq<bool>)
    requires n < |draws| && n < |eosProbReached|
  {
    allowEarlyStop && (draws[n] == v.semanticVocabSize || eosProbReached[n])
  }

  /**
   * The decode loop. `eosProbReached[n]` is `probs[-1] >= min_eos_p` at step n (always false
   * when min_eos_p is None) and `durationExceeded[n]` is the duration cut-off after the n-th
   * token is appended (always false when max_gen_duration_s is None).
   */
  method SampleSemantic(v: Vocab, ctx: seq<int>, allowEarlyStop: bool,
                        draws: seq<int>, eosProbReached: seq<bool>, durationExceeded: seq<bool>)
    returns (out: seq<int>)
    requires |draws| == MaxSteps && |eosProbReached| == MaxSteps && |durationExceeded| == MaxSteps
    requires forall n :: 0 <= n < MaxSteps ==> 0 <= draws[n] < SemanticChoices(v, allowEarlyStop)
    ensures |out| <= MaxSteps
    ensures out == draws[..|out|]
    ensures AllBelow(out, v.semanticVocabSize)
    ensures forall n :: 0 <= n < |out| ==> !EarlyStopAt(n, v, allowEarlyStop, draws, eosProbReached)
    ensures forall n :: 0 <= n < |out| - 1 ==> !durationExceeded[n]
    ensures |out| < MaxSteps ==>
      EarlyStopAt(|out|, v, allowEarlyStop, draws, eosProbReached) || (|out| > 0 && durationExceeded[|out| - 1])
  {
    var x := ctx;
    var n := 0;
    while n < MaxSteps
      invariant n < MaxSteps
      invariant |x| == |ctx| + n && x[..|ctx|] == ctx && x[|ctx|..] == draws[..n]
      invariant forall i :: 0 <= i < n ==> !EarlyStopAt(i, v, allowEarlyStop, draws, eosProbReached)
      invariant forall i :: 0 <= i < n ==> !durationExceeded[i]
      decreases MaxSteps - n
    {
      var item := draws[n];
      if allowEarlyStop && (item == v.semanticVocabSize || eosProbReached[n]) {
        break;
      }
      x := x + [item];
      if durationExceeded[n] {
        break;
      }
      if n == MaxSteps - 1 {
        break;
      }
      n := n + 1;
    }
    out := x[|ctx|..];
    forall i | 0 <= i < |out|
      ensures 0 <= out[i] < v.semanticVocabSize
    {
      assert out[i] == draws[i] && !EarlyStopAt(i, v, allowEarlyStop, draws, eosProbReached);
    }
  }

  /** The whole decoder after the history has been resolved: `tokens` is the tokenizer's
      output for the normalised text. */
  method GenerateTextSemantic(v: Vocab, tokens: seq<int>, res: Resolution, allowEarlyStop: bool,
                              draws: seq<int>, eosProbReached: seq<bool>, durationExceeded: seq<bool>)
    returns (r: Result<seq<int>, BarkError>)
    requires |draws| == MaxSteps && |eosProbReached| == MaxSteps && |durationExceeded| == MaxSteps
    requires forall n :: 0 <= n < MaxSteps ==> 0 <= draws[n] < SemanticChoices(v, allowEarlyStop)
    ensures r.Err? <==> SemanticHistory(res, v).Err?
    ensures r.Err? ==> r.error == SemanticHistory(res, v).error
    ensures r.Ok? ==> |r.value| <= MaxSteps && AllBelow(r.value, v.semanticVocabSize) && r.value == draws[..|r.value|]
    ensures r.Ok? && durationExceeded[0] ==> |r.value| <= 1
  {
    var history := SemanticHistory(res, v);
    if history.Err? {
      return Err(history.error);
    }
    var ctx := SemanticContext(EncodeText(tokens, v), history.value, v);
    assert |ctx| == TextWidth + HistoryWidth + 1;
    var out := SampleSemantic(v, ctx, allowEarlyStop, draws, eosProbReached, durationExceeded);
    r := Ok(out);
  }

  // ---------------------------------------------------------------------------
  // Nucleus (top-p) filtering

  /**
   * `sorted_indices_to_remove`: positions of the descending sort whose cumulative probability
   * exceeds top_p, shifted right by one, with slot 0 cleared. The probabilities themselves are
   * floating point and left out; `cumulative` stands for `np.cumsum(softmax(sorted_logits))`.
   */
  function TopPRemovalMask(cumulative: seq<real>, topP: real): (remove: seq<bool>)
    ensures |remove| == |cumulative|
    ensures |remove| > 0 ==> !remove[0]
    ensures forall i :: 1 <= i < |remove| ==> (remove[i] <==> cumulative[i - 1] > topP)
  {
    var exceeds := seq(|cumulative|, i requires 0 <= i < |cumulative| => cumulative[i] > topP);
    if |exceeds| == 0 then [] else [false] + exceeds[..|exceeds| - 1]
  }

  ghost predicate Nondecreasing(s: seq<real>) {
    forall i, j :: 0 <= i <= j < |s| ==> s[i] <= s[j]
  }

  /** With a cumulative sum, the removed positions form a suffix of the sorted order. */
  lemma TopPRemovesSuffix(cumulative: seq<real>, topP: real, i: nat, j: nat)
    requires Nondecreasing(cumulative)
    requires i <= j < |cumulative|
    ensures TopPRemovalMask(cumulative, topP)[i] ==> TopPRemovalMask(cumulative, topP)[j]
  {
    var remove := TopPRemovalMask(cumulative, topP);
    if remove[i] {
      assert cumulative[i - 1] <= cumulative[j - 1];
    }
  }

  /** The kept positions are exactly the shortest prefix whose cumulative probability exceeds
      top_p: everything up to and including the first position past the threshold. */
  lemma TopPKeepsNucleus(cumulative: seq<real>, topP: real, last: nat)
    requires Nondecreasing(cumulative)
    requires last < |cumulative| && cumulative[last] > topP
    requires forall i :: 0 <= i < last ==> cumulative[i] <= topP
    ensures forall i :: 0 <= i < |cumulative| ==> (!TopPRemovalMask(cumulative, topP)[i] <==> i <= last)
  {
    var remove := TopPRemovalMask(cumulative, topP);
    forall i | 0 <= i < |cumulative|
      ensures !remove[i] <==> i <= last
    {
      if i > last {
        assert cumulative[last] <= cumulative[i - 1];
      }
    }
  }

  /** top_p = 0 with positive probabilities keeps only the highest-ranked token: greedy. */
  lemma TopPZeroIsGreedy(cumulative: seq<real>)
    requires |cumulative| > 0
    requires forall i :: 0 <= i < |cumulative| ==> cumulative[i] > 0.0
    ensures forall i :: 0 <= i < |cumulative| ==> (!TopPRemovalMask(cumulative, 0.0)[i] <==> i == 0)
  {
  }
}
