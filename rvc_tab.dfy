/**
 * The voice-conversion tab: `flatten_audio` on tensor shapes and types, `merge_and_match` on
 * one-channel signals, the model-selection handlers, and `gen`, which runs the processing
 * stages in a fixed order and keeps one text-to-speech model cached between calls.
 * Speech synthesis, source separation, denoising and voice conversion are foreign calls:
 * only whether each one runs, and in which order, is modelled.
 */
module RvcTab {
  import opened Wrappers
  import opened PyBuiltins

  // ---------------------------------------------------------------------------
  // flatten_audio

  datatype ElemType = Int16 | Int32 | Float32 | OtherFloat(name: string) | OtherInt(name: string)

  predicate IsFloating(e: ElemType) {
    e.Float32? || e.OtherFloat?
  }

  /** A tensor as far as `flatten_audio` looks at it: its element type and its shape. */
  datatype Tensor = Tensor(dtype: ElemType, shape: seq<nat>)

  /** What `flatten_audio` accepts: a tensor, a sample rate, or a pair of either. */
  datatype AudioValue = Rate(rate: int) | Samples(tensor: Tensor) | Pair(first: AudioValue, second: AudioValue)

  datatype FlattenError =
    | NoDType          // AttributeError: the value is not a tensor
    | MeanOfIntegers   // RuntimeError: `mean()` of an integer tensor

  /** `x.float() / 32767.0` and `x.float() / 2147483647.0` give float32; other types stay. */
  function Promoted(e: ElemType): (p: ElemType)
    ensures e == Int16 || e == Int32 ==> p == Float32
    ensures e != Int16 && e != Int32 ==> p == e
  {
    if e == Int16 || e == Int32 then Float32 else e
  }

  function Product(shape: seq<nat>): nat {
    if |shape| == 0 then 1 else shape[0] * Product(shape[1..])
  }

  /** A 2-D tensor with a dimension of 2 holds two channels. */
  predicate Stereo(shape: seq<nat>) {
    |shape| == 2 && (shape[0] == 2 || shape[1] == 2)
  }

  /** `flatten_audio` on a tensor (lines 24-38). */
  function FlattenTensor(t: Tensor, addBatch: bool): (r: Result<Tensor, FlattenError>)
    ensures r.Err? <==> Stereo(t.shape) && !IsFloating(Promoted(t.dtype))
    ensures r.Err? ==> r.error == MeanOfIntegers
    ensures r.Ok? ==> r.value.dtype == Promoted(t.dtype)
    ensures r.Ok? && addBatch ==> |r.value.shape| >= 1 && r.value.shape[0] == 1
    ensures r.Ok? && |t.shape| == 2 ==>
      var channel := if addBatch then r.value.shape[1..] else r.value.shape;
      |channel| == 1 && Product(t.shape) == (if Stereo(t.shape) then 2 else 1) * channel[0]
    ensures r.Ok? && |t.shape| != 2 ==> r.value.shape == (if addBatch then [1] else []) + t.shape
  {
    var dtype := Promoted(t.dtype);
    var shape := t.shape;
    if Stereo(shape) && !IsFloating(dtype) then Err(MeanOfIntegers)
    else
      var merged :=
        if |shape| != 2 then shape
        else if shape[0] == 2 then [shape[1]]
        else if shape[1] == 2 then [shape[0]]
        else [shape[0] * shape[1]];
      assert |shape| == 2 ==> Product(shape) == shape[0] * shape[1] by {
        if |shape| == 2 { assert Product(shape[1..][1..]) == 1; }
      }
      Ok(Tensor(dtype, if addBatch then [1] + merged else merged))
  }

  /** `flatten_audio` (lines 18-38). A pair recurses into its tensor with the default
      `add_batch=True`, whatever the outer call asked for. */
  function FlattenAudio(a: AudioValue, addBatch: bool): (r: Result<AudioValue, FlattenError>)
    ensures a.Rate? || (a.Pair? && a.first.Pair?) ==> r == Err(NoDType)
    ensures a.Samples? ==> r == (match FlattenTensor(a.tensor, addBatch)
                                 case Ok(t) => Ok(Samples(t))
                                 case Err(e) => Err(e))
    decreases a
  {
    match a
    case Rate(_) => Err(NoDType)
    case Samples(t) =>
      (match FlattenTensor(t, addBatch)
       case Ok(t') => Ok(Samples(t'))
       case Err(e) => Err(e))
    case Pair(first, second) =>
      (match first
       case Rate(rate) =>
         (match FlattenAudio(second, true)
          case Ok(v) => Ok(Pair(first, v))
          case Err(e) => Err(e))
       case Samples(t) =>
         (match FlattenTensor(t, true)
          case Ok(t') => Ok(Pair(Samples(t'), second))
          case Err(e) => Err(e))
       case Pair(_, _) => Err(NoDType))
  }

  /** `(rate, tensor)` keeps the rate and flattens the tensor with a batch dimension;
      `(tensor, x)` flattens the tensor and keeps x; the outer flag plays no part. */
  lemma {:induction false} FlattenPairs(rate: int, t: Tensor, x: AudioValue, addBatch: bool)
    ensures FlattenAudio(Pair(Rate(rate), Samples(t)), addBatch) ==
      (match FlattenTensor(t, true) case Ok(f) => Ok(Pair(Rate(rate), Samples(f))) case Err(e) => Err(e))
    ensures FlattenAudio(Pair(Samples(t), x), addBatch) ==
      (match FlattenTensor(t, true) case Ok(f) => Ok(Pair(Samples(f), x)) case Err(e) => Err(e))
  {
    assert FlattenAudio(Samples(t), true) ==
      (match FlattenTensor(t, true) case Ok(f) => Ok(Samples(f)) case Err(e) => Err(e));
  }

  /** Without a batch dimension, flattening a flattened tensor changes nothing. */
  lemma FlattenIdempotent(t: Tensor)
    requires FlattenTensor(t, false).Ok?
    ensures FlattenTensor(FlattenTensor(t, false).value, false) == FlattenTensor(t, false)
  {
  }

  /** With a batch dimension, a flattened signal of n samples has shape [1, n], and flattening
      it again keeps it, except for n == 2, where the samples are taken for two channels and
      averaged. */
  lemma BatchedReflatten(t: Tensor)
    requires FlattenTensor(t, true).Ok? && |t.shape| <= 2 && IsFloating(Promoted(t.dtype))
    ensures var f := FlattenTensor(t, true).value;
      |f.shape| == 2 ==>
        if f.shape[1] == 2 then FlattenTensor(f, true) == Ok(Tensor(f.dtype, [1, 1]))
        else FlattenTensor(f, true) == Ok(f)
  {
    var f := FlattenTensor(t, true).value;
    if |t.shape| == 2 {
      var merged := if t.shape[0] == 2 then [t.shape[1]] else if t.shape[1] == 2 then [t.shape[0]] else [t.shape[0] * t.shape[1]];
      assert f.shape == [1] + merged;
    }
    assert Promoted(f.dtype) == f.dtype;
    if |f.shape| == 2 {
      assert f.shape[0] == 1;
      var g := FlattenTensor(f, true);
      assert g.Ok?;
      if f.shape[1] == 2 {
        assert g.value.shape == [1, 1];
      } else {
        assert !Stereo(f.shape);
        assert g.value.shape == [1] + [1 * f.shape[1]];
        assert g.value.shape == f.shape;
      }
    }
  }

  // ---------------------------------------------------------------------------
  // merge_and_match

  datatype MergeError =
    | ZeroLengthBackground   // ZeroDivisionError in the resampling ratio
    | ResampleFailed(message: string)
    | SizeMismatch           // the two signals do not broadcast

  function Halved(x: seq<real>): (r: seq<real>)
    ensures |r| == |x| && forall k :: 0 <= k < |x| ==> r[k] == x[k] / 2.0
  {
    seq(|x|, k requires 0 <= k < |x| => x[k] / 2.0)
  }

  /** `a.add(b)` for one-dimensional tensors: equal lengths add elementwise, a length of one
      broadcasts, anything else raises. */
  function AddBroadcast(a: seq<real>, b: seq<real>): (r: Result<seq<real>, MergeError>)
    ensures |a| == |b| ==> r.Ok? && |r.value| == |a| && forall k :: 0 <= k < |a| ==> r.value[k] == a[k] + b[k]
    ensures r.Err? <==> |a| != |b| && |a| != 1 && |b| != 1
  {
    if |a| == |b| then Ok(seq(|a|, k requires 0 <= k < |a| => a[k] + b[k]))
    else if |a| == 1 then Ok(seq(|b|, k requires 0 <= k < |b| => a[0] + b[k]))
    else if |b| == 1 then Ok(seq(|a|, k requires 0 <= k < |a| => a[k] + b[0]))
    else Err(SizeMismatch)
  }

  /**
   * `merge_and_match` for one-channel signals (lines 41-51): both are halved, y is resampled
   * towards x's length, the longer one keeps only its last len(shorter) samples, and the two
   * are added. `resampled` is what resampling the halved y returned.
   */
  function MergeAndMatch(x: seq<real>, y: seq<real>, resampled: Result<seq<real>, string>): (r: Result<seq<real>, MergeError>)
    ensures |y| == 0 ==> r == Err(ZeroLengthBackground)
    ensures |y| > 0 && resampled.Err? ==> r == Err(ResampleFailed(resampled.error))
  {
    if |y| == 0 then Err(ZeroLengthBackground)
    else match resampled
      case Err(e) => Err(ResampleFailed(e))
      case Ok(y2) =>
        var x2 := Halved(x);
        if |x2| > |y2| then AddBroadcast(PyTail(x2, |y2|), y2)
        else AddBroadcast(x2, PyTail(y2, |x2|))
  }

  /** A foreground longer than the resampled background keeps its last len(background)
      halved samples, which are added to the background. */
  lemma MergeTrimsForeground(x: seq<real>, y: seq<real>, y2: seq<real>)
    requires |x| > |y2| > 0 && |y| > 0
    ensures var r := MergeAndMatch(x, y, Ok(y2));
      r.Ok? && |r.value| == |y2|
      && forall k :: 0 <= k < |y2| ==> r.value[k] == x[|x| - |y2| + k] / 2.0 + y2[k]
  {
    var x2 := Halved(x);
    var a := PyTail(x2, |y2|);
    assert a == x2[|x2| - |y2|..];
    var r := AddBroadcast(a, y2);
    assert MergeAndMatch(x, y, Ok(y2)) == r;
    forall k | 0 <= k < |y2|
      ensures r.value[k] == x[|x| - |y2| + k] / 2.0 + y2[k]
    {
      assert a[k] == x2[|x| - |y2| + k];
    }
  }

  /** A resampled background at least as long as the foreground keeps its last len(foreground)
      samples, which are added to the halved foreground. */
  lemma MergeTrimsBackground(x: seq<real>, y: seq<real>, y2: seq<real>)
    requires 0 < |x| <= |y2| && |y| > 0
    ensures var r := MergeAndMatch(x, y, Ok(y2));
      r.Ok? && |r.value| == |x|
      && forall k :: 0 <= k < |x| ==> r.value[k] == x[k] / 2.0 + y2[|y2| - |x| + k]
  {
    var x2 := Halved(x);
    var b := PyTail(y2, |x2|);
    assert b == y2[|y2| - |x2|..];
    var r := AddBroadcast(x2, b);
    assert MergeAndMatch(x, y, Ok(y2)) == r;
    forall k | 0 <= k < |x|
      ensures r.value[k] == x[k] / 2.0 + y2[|y2| - |x| + k]
    {
      assert b[k] == y2[|y2| - |x| + k];
    }
  }

  /** A resampled background that came out empty is not trimmed but kept whole, and the sum
      then fails unless the foreground has a single sample. */
  lemma MergeWithEmptyResample(x: seq<real>, y: seq<real>)
    requires |x| >= 2 && |y| > 0
    ensures MergeAndMatch(x, y, Ok([])) == Err(SizeMismatch)
  {
  }

  // ---------------------------------------------------------------------------
  // Model selection

  /** What the external RVC module is asked to do. */
  datatype RvcCall = UnloadRvcModel | LoadRvcModel(name: string)

  /** The speaker-id slider after a selection change. */
  datatype SliderUpdate = SliderUpdate(maximum: int, value: int, visible: bool)

  /** The two widget updates: the model dropdown (None leaves it as it is) and the slider. */
  datatype SelectionReply = SelectionReply(call: RvcCall, modelValue: Option<string>, slider: SliderUpdate)

  /** `unload_rvc`: unload, clear the dropdown, hide the slider. */
  function UnloadRvc(): (reply: SelectionReply)
    ensures reply.call == UnloadRvcModel && reply.modelValue == Some("")
    ensures !reply.slider.visible && reply.slider.maximum == 0 && reply.slider.value == 0
  {
    SelectionReply(UnloadRvcModel, Some(""), SliderUpdate(0, 0, false))
  }

  /** `load_rvc`: an empty selection unloads; otherwise the model's speaker count (what the
      external load returned) sets the slider, which shows only when it is positive. */
  function LoadRvc(model: Option<string>, speakers: int): (reply: SelectionReply)
    ensures (model.None? || model.value == "") <==> reply == UnloadRvc()
    ensures model.Some? && model.value != "" ==>
      reply.call == LoadRvcModel(model.value) && reply.modelValue.None?
      && reply.slider.maximum == speakers && reply.slider.value == 0
      && (reply.slider.visible <==> speakers > 0)
  {
    if model.None? || model.value == "" then UnloadRvc()
    else SelectionReply(LoadRvcModel(model.value), None, SliderUpdate(speakers, 0, speakers > 0))
  }

  // ---------------------------------------------------------------------------
  // The text-to-speech cache

  /** A synthesiser as `TTS(name)` builds it; `TTS(None)` builds one with no model loaded. */
  datatype TtsModel = TtsModel(name: Option<string>)

  /** The module globals `tts_model` and `tts_model_name`. */
  datatype TtsCache = TtsCache(model: Option<TtsModel>, name: Option<string>)

  /** A recorded name always comes with the model built for it, and a cached model was built
      for the recorded name. */
  predicate Consistent(c: TtsCache) {
    (c.name.Some? ==> c.model.Some?) && (c.model.Some? ==> c.model.value.name == c.name)
  }

  /** The error Python gives for `None.tts(...)`. */
  const NoneHasNoTts: string := "'NoneType' object has no attribute 'tts'"
  /** What a synthesiser built without a model name raises when asked to speak. */
  const EmptyTtsModel: string := "no TTS model loaded"

  /** `tts_model.tts(text_in)` on the cached synthesiser: it must exist and have a model. */
  function Speak(model: Option<TtsModel>): (r: Result<TtsModel, string>)
    ensures r.Ok? <==> model.Some? && model.value.name.Some?
    ensures r.Ok? ==> r.value == model.value
    ensures model.None? ==> r == Err(NoneHasNoTts)
  {
    if model.None? then Err(NoneHasNoTts)
    else if model.value.name.None? then Err(EmptyTtsModel)
    else Ok(model.value)
  }

  /**
   * Lines 88-98 as written: on a new name (None while no model is picked in the dropdown) the
   * old model is dropped and the name recorded before `TTS(tts)` runs. `buildError` is what
   * `TTS(tts)` raised, if anything.
   */
  function TtsStepAsWritten(c: TtsCache, tts: Option<string>, buildError: Option<string>): (TtsCache, Result<TtsModel, string>) {
    if c.name != tts then
      match buildError
      case Some(e) => (TtsCache(None, tts), Err(e))
      case None => (TtsCache(Some(TtsModel(tts)), tts), Speak(Some(TtsModel(tts))))
    else (c, Speak(c.model))
  }

  /** As written, one failed build leaves the name without a model, and every later call for
      that name fails without building again, even when building would now succeed. */
  lemma TtsFailedBuildIsNeverRetried(c: TtsCache, tts: string, e: string, later: Option<string>)
    requires c.name != Some(tts)
    ensures var after := TtsStepAsWritten(c, Some(tts), Some(e)).0;
      !Consistent(after)
      && TtsStepAsWritten(after, Some(tts), later) == (after, Err(NoneHasNoTts))
  {
  }

  /** Lines 88-98 as intended: build when the cache does not hold the requested model, and
      record the name together with the model only once the build succeeded. */
  function TtsStep(c: TtsCache, tts: Option<string>, buildError: Option<string>): (r: (TtsCache, Result<TtsModel, string>))
    requires Consistent(c)
    ensures Consistent(r.0)
    ensures r.1.Ok? <==> tts.Some? && (c.name == tts || buildError.None?)
    ensures r.1.Ok? ==> r.1.value == TtsModel(tts) && r.0.model == Some(r.1.value) && r.0.name == tts
    ensures c.name != tts && buildError.Some? ==> r == (TtsCache(None, None), Err(buildError.value))
    ensures c.name == tts ==> r.0 == c
  {
    if c.name == tts then (c, Speak(c.model))
    else match buildError
      case Some(e) => (TtsCache(None, None), Err(e))
      case None => (TtsCache(Some(TtsModel(tts)), tts), Speak(Some(TtsModel(tts))))
  }

  /** At start-up no synthesiser is cached and the dropdown has no value, so `None != None`
      is false: nothing is built and speaking fails on None, as written and as corrected. */
  lemma TtsStartWithoutSelectionFails(buildError: Option<string>)
    ensures TtsStepAsWritten(TtsCache(None, None), None, buildError) == (TtsCache(None, None), Err(NoneHasNoTts))
    ensures TtsStep(TtsCache(None, None), None, buildError) == (TtsCache(None, None), Err(NoneHasNoTts))
  {
  }

  /** With the corrected step a failed build is retried on the next call. */
  lemma {:induction false} TtsStepRetriesAfterFailure(c: TtsCache, tts: string, e: string)
    requires Consistent(c) && c.name != Some(tts)
    ensures var after := TtsStep(c, Some(tts), Some(e)).0;
      TtsStep(after, Some(tts), None).1 == Ok(TtsModel(Some(tts)))
  {
    var after := TtsStep(c, Some(tts), Some(e)).0;
    assert after == TtsCache(None, None);
  }

  /** Both versions agree whenever building succeeds: the bug needs a failed build. */
  lemma TtsStepsAgreeWithoutFailure(c: TtsCache, tts: Option<string>)
    requires Consistent(c)
    ensures TtsStepAsWritten(c, tts, None) == TtsStep(c, tts, None)
  {
  }

  // ---------------------------------------------------------------------------
  // gen

  /** `flag_strings` (line 12). */
  const DenoiseFlag: string := "denoise"
  const DenoiseOutputFlag: string := "denoise output"
  const SeparateBackgroundFlag: string := "separate background"
  const RecombineBackgroundFlag: string := "recombine background"

  function FlagStrings(): (flags: seq<string>)
    ensures |flags| == 4 && forall i, j :: 0 <= i < j < 4 ==> flags[i] != flags[j]
  {
    [DenoiseFlag, DenoiseOutputFlag, SeparateBackgroundFlag, RecombineBackgroundFlag]
  }

  datatype Stage = Synthesise | Flatten | SeparateBackground | Denoise | ConvertVoice | RecombineBackground | DenoiseOutput

  /** The position of each stage in the pipeline. */
  function Rank(s: Stage): nat {
    match s
    case Synthesise => 0
    case Flatten => 1
    case SeparateBackground => 2
    case Denoise => 3
    case ConvertVoice => 4
    case RecombineBackground => 5
    case DenoiseOutput => 6
  }

  predicate InPipelineOrder(stages: seq<Stage>) {
    forall i, j :: 0 <= i < j < |stages| ==> Rank(stages[i]) < Rank(stages[j])
  }

  /** What one `gen` call did: the stages it ran, the flattened input, and which of the
      optional outputs (the separated background, the voice before remixing) it returns. */
  datatype GenTrace = GenTrace(stages: seq<Stage>, flattened: AudioValue, returnsBackground: bool, returnsUnmixed: bool)

  datatype GenError = TtsFailed(message: string) | FlattenFailed(error: FlattenError)

  /** A stage that runs only when `present` holds. */
  function Optional(present: bool, s: Stage): (r: seq<Stage>)
    ensures s in r <==> present
    ensures forall i :: 0 <= i < |r| ==> r[i] == s
  {
    if present then [s] else []
  }

  /** The stages `gen` runs, in order: the synthesiser only without input audio, then the
      flattening, then each optional stage that is switched on (lines 87-140). */
  function PipelineStages(synthesise: bool, separate: bool, denoise: bool, convert: bool, recombine: bool, denoiseOutput: bool): seq<Stage> {
    Optional(synthesise, Synthesise)
    + [Flatten]
    + Optional(separate, SeparateBackground)
    + Optional(denoise, Denoise)
    + Optional(convert, ConvertVoice)
    + Optional(recombine, RecombineBackground)
    + Optional(denoiseOutput, DenoiseOutput)
  }

  /** Every stage of the trace comes before pipeline position `bound`. */
  predicate RanksBelow(stages: seq<Stage>, bound: nat) {
    forall i :: 0 <= i < |stages| ==> Rank(stages[i]) < bound
  }

  /** Appending an optional stage that comes after every stage so far keeps the order. */
  lemma {:induction false} AppendOptional(stages: seq<Stage>, s: Stage, present: bool)
    requires InPipelineOrder(stages) && RanksBelow(stages, Rank(s))
    ensures InPipelineOrder(stages + Optional(present, s))
    ensures RanksBelow(stages + Optional(present, s), Rank(s) + 1)
  {
    var t := stages + Optional(present, s);
    forall i, j | 0 <= i < j < |t|
      ensures Rank(t[i]) < Rank(t[j])
    {
      if j >= |stages| {
        assert t[j] == s;
      }
    }
  }

  /** The stage at each pipeline position. */
  function StageAt(i: nat): (s: Stage)
    requires i < 7
    ensures Rank(s) == i
  {
    [Synthesise, Flatten, SeparateBackground, Denoise, ConvertVoice, RecombineBackground, DenoiseOutput][i]
  }

  /** The stages of the first |on| positions that `on` switches on, in position order. */
  function SwitchedOn(on: seq<bool>): seq<Stage>
    requires |on| <= 7
  {
    if |on| == 0 then [] else SwitchedOn(on[..|on| - 1]) + Optional(on[|on| - 1], StageAt(|on| - 1))
  }

  lemma {:induction false} SwitchedOnInOrder(on: seq<bool>)
    requires |on| <= 7
    ensures InPipelineOrder(SwitchedOn(on)) && RanksBelow(SwitchedOn(on), |on|)
  {
    if |on| > 0 {
      SwitchedOnInOrder(on[..|on| - 1]);
      AppendOptional(SwitchedOn(on[..|on| - 1]), StageAt(|on| - 1), on[|on| - 1]);
    }
  }

  lemma {:induction false} SwitchedOnMembers(on: seq<bool>, x: Stage)
    requires |on| <= 7
    ensures x in SwitchedOn(on) <==> Rank(x) < |on| && on[Rank(x)]
  {
    if |on| > 0 {
      SwitchedOnInOrder(on[..|on| - 1]);
      SwitchedOnMembers(on[..|on| - 1], x);
      if x in SwitchedOn(on[..|on| - 1]) {
        assert Rank(x) < |on| - 1;
      }
    }
  }

  /** Switching on one more position appends that stage when its flag is set. */
  lemma SwitchedOnStep(on: seq<bool>, k: nat)
    requires k < |on| <= 7
    ensures SwitchedOn(on[..k + 1]) == SwitchedOn(on[..k]) + Optional(on[k], StageAt(k))
  {
    assert on[..k + 1][..k] == on[..k];
  }

  /** The flat definition of the pipeline is the switched-on stages of its seven flags, the
      second of which, the flattening, is always on. */
  lemma {:induction false} PipelineStagesSwitchedOn(on: seq<bool>)
    requires |on| == 7 && on[1]
    ensures PipelineStages(on[0], on[2], on[3], on[4], on[5], on[6]) == SwitchedOn(on)
  {
    assert on[..7] == on;
    assert SwitchedOn(on[..0]) == [];
    SwitchedOnStep(on, 0);
    assert [] + Optional(on[0], Synthesise) == Optional(on[0], Synthesise);
    SwitchedOnStep(on, 1);
    SwitchedOnStep(on, 2);
    SwitchedOnStep(on, 3);
    SwitchedOnStep(on, 4);
    SwitchedOnStep(on, 5);
    SwitchedOnStep(on, 6);
  }

  /** Every run goes through the stages in pipeline order. */
  lemma PipelineStagesInOrder(synthesise: bool, separate: bool, denoise: bool, convert: bool, recombine: bool, denoiseOutput: bool)
    ensures InPipelineOrder(PipelineStages(synthesise, separate, denoise, convert, recombine, denoiseOutput))
  {
    var on := [synthesise, true, separate, denoise, convert, recombine, denoiseOutput];
    PipelineStagesSwitchedOn(on);
    SwitchedOnInOrder(on);
  }

  /** Each optional stage is in the trace exactly when it is switched on, and the flattening
      always is. */
  lemma PipelineStagesPresent(synthesise: bool, separate: bool, denoise: bool, convert: bool, recombine: bool, denoiseOutput: bool)
    ensures var stages := PipelineStages(synthesise, separate, denoise, convert, recombine, denoiseOutput);
      (Synthesise in stages <==> synthesise)
      && Flatten in stages
      && (SeparateBackground in stages <==> separate)
      && (Denoise in stages <==> denoise)
      && (ConvertVoice in stages <==> convert)
      && (RecombineBackground in stages <==> recombine)
      && (DenoiseOutput in stages <==> denoiseOutput)
  {
    var on := [synthesise, true, separate, denoise, convert, recombine, denoiseOutput];
    PipelineStagesSwitchedOn(on);
    forall x: Stage
      ensures x in SwitchedOn(on) <==> on[Rank(x)]
    {
      SwitchedOnMembers(on, x);
    }
  }

  /**
   * The switchable stages of `gen` after the flattening (lines 106-140), appended to the
   * stages run so far: background separation, denoising, voice conversion, recombination
   * (only after a separation) and output denoising.
   */
  method OptionalStages(prefix: seq<Stage>, synthesise: bool, rvcModelSelected: string, flag: seq<string>)
    returns (stages: seq<Stage>, background: bool, unmixed: bool)
    requires prefix == Optional(synthesise, Synthesise) + [Flatten]
    ensures stages == PipelineStages(synthesise, SeparateBackgroundFlag in flag, DenoiseFlag in flag,
                                     rvcModelSelected != "",
                                     SeparateBackgroundFlag in flag && RecombineBackgroundFlag in flag,
                                     DenoiseOutputFlag in flag)
    ensures background <==> SeparateBackgroundFlag in flag
    ensures unmixed <==> SeparateBackgroundFlag in flag && RecombineBackgroundFlag in flag
  {
    stages := prefix;
    background := false;
    ghost var before := stages;
    if SeparateBackgroundFlag in flag {
      stages := stages + [SeparateBackground];
      background := true;
    }
    assert stages == before + Optional(SeparateBackgroundFlag in flag, SeparateBackground);
    before := stages;
    if DenoiseFlag in flag {
      stages := stages + [Denoise];
    }
    assert stages == before + Optional(DenoiseFlag in flag, Denoise);
    before := stages;
    if rvcModelSelected != "" {
      stages := stages + [ConvertVoice];
    }
    assert stages == before + Optional(rvcModelSelected != "", ConvertVoice);
    before := stages;
    unmixed := false;
    if background && RecombineBackgroundFlag in flag {
      stages := stages + [RecombineBackground];
      unmixed := true;
    }
    assert stages == before + Optional(background && RecombineBackgroundFlag in flag, RecombineBackground);
    before := stages;
    if DenoiseOutputFlag in flag {
      stages := stages + [DenoiseOutput];
    }
    assert stages == before + Optional(DenoiseOutputFlag in flag, DenoiseOutput);
  }

  class RvcSession {
    var ttsModel: Option<TtsModel>
    var ttsModelName: Option<string>

    function Cache(): TtsCache
      reads this
    {
      TtsCache(ttsModel, ttsModelName)
    }

    /** The state at import: no synthesiser cached. */
    constructor ()
      ensures Consistent(Cache()) && ttsModel.None? && ttsModelName.None?
    {
      ttsModel, ttsModelName := None, None;
    }

    /**
     * `gen` (lines 83-150). `tts` is the dropdown's value, None until a model is picked.
     * Without input audio the cached synthesiser (rebuilt by the corrected step when needed)
     * speaks the text; `ttsAudio` is its output. The input is
     * flattened, then each optional stage runs when its flag or condition holds. The stages
     * after the flattening are foreign calls whose failures are not modelled.
     */
    method Gen(rvcModelSelected: string, tts: Option<string>, audioIn: Option<(int, Tensor)>, flag: seq<string>,
               buildError: Option<string>, ttsAudio: (int, Tensor))
      returns (r: Result<GenTrace, GenError>)
      requires Consistent(Cache())
      modifies this
      ensures Consistent(Cache())
      ensures audioIn.Some? ==> Cache() == old(Cache())
      ensures audioIn.None? ==> Cache() == TtsStep(old(Cache()), tts, buildError).0
      ensures audioIn.None? && tts.None? ==> r.Err?
      ensures audioIn.None? && TtsStep(old(Cache()), tts, buildError).1.Err? ==>
        r == Err(TtsFailed(TtsStep(old(Cache()), tts, buildError).1.error))
      ensures !(audioIn.None? && TtsStep(old(Cache()), tts, buildError).1.Err?) ==>
        var input := if audioIn.Some? then audioIn.value else ttsAudio;
        match FlattenTensor(input.1, true)
        case Err(e) => r == Err(FlattenFailed(e))
        case Ok(t) =>
          r == Ok(GenTrace(PipelineStages(audioIn.None?, SeparateBackgroundFlag in flag, DenoiseFlag in flag,
                                           rvcModelSelected != "",
                                           SeparateBackgroundFlag in flag && RecombineBackgroundFlag in flag,
                                           DenoiseOutputFlag in flag),
                           Pair(Rate(input.0), Samples(t)),
                           SeparateBackgroundFlag in flag,
                           SeparateBackgroundFlag in flag && RecombineBackgroundFlag in flag))
    {
      var stages: seq<Stage> := [];
      var input: (int, Tensor);
      if audioIn.None? {
        var step := TtsStep(Cache(), tts, buildError);
        ttsModel, ttsModelName := step.0.model, step.0.name;
        if step.1.Err? {
          return Err(TtsFailed(step.1.error));
        }
        stages := stages + [Synthesise];
        input := ttsAudio;
      } else {
        input := audioIn.value;
      }
      assert stages == Optional(audioIn.None?, Synthesise);
      var flattened := FlattenAudio(Pair(Rate(input.0), Samples(input.1)), true);
      FlattenPairs(input.0, input.1, Rate(input.0), true);
      if flattened.Err? {
        return Err(FlattenFailed(flattened.error));
      }
      stages := stages + [Flatten];
      var background, unmixed;
      stages, background, unmixed := OptionalStages(stages, audioIn.None?, rvcModelSelected, flag);
      r := Ok(GenTrace(stages, flattened.value, background, unmixed));
    }
  }

  /** Flags are whole list entries: ticking only 'denoise output' denoises the output but not
      the input. */
  lemma DenoiseOutputAloneSkipsDenoise(synthesise: bool, convert: bool)
    ensures var flag := [DenoiseOutputFlag];
      var stages := PipelineStages(synthesise, SeparateBackgroundFlag in flag, DenoiseFlag in flag, convert,
                                   SeparateBackgroundFlag in flag && RecombineBackgroundFlag in flag,
                                   DenoiseOutputFlag in flag);
      Denoise !in stages && DenoiseOutput in stages && SeparateBackground !in stages
  {
    PipelineStagesPresent(synthesise, false, false, convert, false, true);
  }
}
