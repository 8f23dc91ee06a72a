/**
 * The token vocabulary that the Bark decoders share. Its sizes and special tokens are
 * imported from the upstream `bark.generation` module, so they are parameters here,
 * constrained only by what the decoders themselves assume.
 */
module BarkVocab {

  datatype Vocab = Vocab(
    semanticVocabSize: nat,   // SEMANTIC_VOCAB_SIZE
    codebookSize: nat,        // CODEBOOK_SIZE
    nCoarseCodebooks: nat,    // N_COARSE_CODEBOOKS
    nFineCodebooks: nat,      // N_FINE_CODEBOOKS
    textEncodingOffset: int,  // TEXT_ENCODING_OFFSET
    textPad: int,             // TEXT_PAD_TOKEN
    semanticPad: int,         // SEMANTIC_PAD_TOKEN
    semanticInfer: int,       // SEMANTIC_INFER_TOKEN
    coarseSemanticPad: int,   // COARSE_SEMANTIC_PAD_TOKEN
    coarseInfer: int)         // COARSE_INFER_TOKEN
  {
    /** The `(1 - is_major)` offset formula of the coarse decoder is only right for two
        coarse codebooks; the vocabularies are non-empty so that a draw exists. */
    predicate Valid() {
      semanticVocabSize >= 1 && codebookSize >= 1 && nCoarseCodebooks == 2 && nFineCodebooks >= 1
    }
  }

  /** A 2-D integer array, stored row by row (codebook by codebook). */
  type Matrix = seq<seq<int>>

  predicate Shaped(m: Matrix, rows: nat, cols: nat) {
    |m| == rows && forall r :: 0 <= r < |m| ==> |m[r]| == cols
  }

  /** Every NumPy 2-D array is rectangular. */
  predicate Rectangular(m: Matrix) {
    forall r :: 0 <= r < |m| ==> |m[r]| == |m[0]|
  }

  function Width(m: Matrix): nat {
    if |m| == 0 then 0 else |m[0]|
  }

  predicate AllBelow(s: seq<int>, bound: int) {
    forall k :: 0 <= k < |s| ==> 0 <= s[k] < bound
  }

  predicate MatrixBelow(m: Matrix, bound: int) {
    forall r :: 0 <= r < |m| ==> AllBelow(m[r], bound)
  }

  function Min(a: int, b: int): int { if a <= b then a else b }

  function Max(a: int, b: int): int { if a >= b then a else b }

  /** `np.pad(s, (0, width - len(s)), constant_values=pad)`: right padding to a fixed width. */
  function PadRight(s: seq<int>, width: nat, pad: int): (r: seq<int>)
    requires |s| <= width
    ensures |r| == width
    ensures forall k :: 0 <= k < width ==> r[k] == if k < |s| then s[k] else pad
  {
    s + seq(width - |s|, _ => pad)
  }

  /** `s[:n]` */
  function TakeFirst(s: seq<int>, n: nat): (r: seq<int>)
    ensures |r| == Min(n, |s|) && r == s[..|r|]
  {
    if |s| <= n then s else s[..n]
  }

  /** `s[-n:]` for n >= 1: the last n elements, or all of them if there are fewer. */
  function TakeLast(s: seq<int>, n: nat): (r: seq<int>)
    requires n >= 1
    ensures |r| == Min(n, |s|) && r == s[|s| - |r|..]
  {
    if |s| <= n then s else s[|s| - n..]
  }
}
