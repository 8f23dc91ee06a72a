# audio-webui core, modelled in Dafny

This project models the bookkeeping that audio-webui wraps around its pretrained models. It proves properties of that model. Four parts are modelled:

- **Bark token pipeline** (`webui/modules/implementations/patches/bark_generation.py`), covering:
  - the allow-list of built-in voice presets;
  - the resolution of a `history_prompt` (inline dict, `.npz` path, preset name, custom speaker, or nothing found);
  - the three decoders:
    - the semantic decoder's 513-token context and stopping rules;
    - the coarse decoder's sliding windows, the per-codebook token offsets, and the reshape that removes them;
    - the fine decoder's padded token buffer, filled in place by 1024-wide windows that advance by 512.

  The networks and samplers are oracles. A draw is any index in the slice the code samples from. A fine prediction is any token in `[0, CODEBOOK_SIZE)`. The early-stop, eos-probability and duration tests are arbitrary booleans. The upstream constants `SEMANTIC_VOCAB_SIZE`, `CODEBOOK_SIZE`, `N_COARSE_CODEBOOKS` and `N_FINE_CODEBOOKS` and the special tokens are parameters (`BarkVocab.Vocab`). They are constrained only by what the code assumes: two coarse codebooks, and non-empty vocabularies.
- **Speaker-info helpers** (`bark_speaker_info.py`):
  - the integer branches of `convert_to_16_bit_wav`, with their uint16 wrap-around and truncating division;
  - the suffix dispatch of `semantics_to_audio` and `audio_to_prompts`;
  - the `str.replace` rename that gives a temporary file a chosen basename.
- **Whisper model slot** (`webui/modules/implementations/whisper.py`). `get_official_models` is modelled, along with the four module globals as the fields of a `WhisperSession` object, with `load`, `unload` and `transcribe` as its methods.
- **Voice-conversion tab** (`webui/ui/tabs/rvc.py`):
  - `flatten_audio`, on tensor shapes and element types;
  - `merge_and_match`, on one-channel signals;
  - `load_rvc` and `unload_rvc`;
  - `gen` as a method of an `RvcSession` object. That object holds the cached text-to-speech model, and `gen` records which stages ran, in which order.

Python behaviour that matters here is written out:
- `s[-0:]` is the whole sequence (`PyBuiltins.PyTail`);
- `str.replace` with an empty pattern inserts the replacement everywhere;
- `min()` of an empty array raises;
- an unbound local raises;
- a float quotient cast to an integer type truncates toward zero;
- uint16 arithmetic wraps modulo 2^16.

Every exception the modelled code can raise is an `Err` value, in the order the source meets them.

Files:
- `wrappers.dfy`: `Option` and `Result`;
- `py_builtins.dfy`: Python built-ins;
- `bark_vocab.dfy`, `bark_prompts.dfy`, `bark_semantic.dfy`, `bark_coarse.dfy`, `bark_fine.dfy`: the Bark pipeline;
- `speaker_info.dfy`;
- `whisper_cache.dfy`;
- `rvc_tab.dfy`.

## Model

| member | source | states |
|---|---|---|
| BarkPrompts.BuildAllowedPrompts | webui/modules/implementations/patches/bark_generation.py:22-28 | The nested append loops build exactly the 271-name list: "announcer", then per language and per prefix "" / "v2<sep>" the ten `<lang>_speaker_<n>`, then `speaker_0..9`. |
| BarkPrompts.AllowedPromptsMembership | webui/modules/implementations/patches/bark_generation.py:6-28 | A name is in ALLOWED_PROMPTS if and only if it is the announcer, one of the 13 languages' 20 presets, or a plain speaker. |
| BarkPrompts.LangPresetIndex | webui/modules/implementations/patches/bark_generation.py:23-26 | Language li, prefix p and speaker n land at position 1 + 20·li + 10·p + n of the list. |
| BarkPrompts.ResolveHistory | webui/modules/implementations/patches/bark_generation.py:47-65 | None gives no history. A dict is used inline. A name ending in ".npz" is loaded from that path. Otherwise an allowed name is loaded from the bundled asset. Otherwise an existing custom speaker file is read. Skip holds exactly when all of these fail. A load failure happens only on the two load paths. |
| BarkPrompts.PresetNamesAreNotPaths | webui/modules/implementations/patches/bark_generation.py:51-54 | No preset name ends in ".npz", so the path branch never catches a preset. |
| BarkPrompts.PresetShadowsCustomSpeaker | webui/modules/implementations/patches/bark_generation.py:54-63 | For a preset name, the result does not depend on whether a custom speaker file of that name exists. |
| BarkPrompts.SemanticHistory | webui/modules/implementations/patches/bark_generation.py:47-77 | Skip or None means no history. A failed load is a missing-file error for that path. A missing "semantic_prompt" key is a key error. With the key present, it succeeds if and only if the prompt is non-empty and below SEMANTIC_VOCAB_SIZE, and it then returns the prompt unchanged. |
| BarkPrompts.CoarseHistory | webui/modules/implementations/patches/bark_generation.py:233-255 | Skip is an unbound-history error. With both keys present, it succeeds if and only if the semantic prompt is valid and the coarse prompt has two rectangular rows, at least one column and in-range tokens; it then returns both unchanged. Zero columns give the empty-reduction error. A failed load is a missing-file error; a missing key is a key error for the first key missing. |
| BarkPrompts.FineHistory | webui/modules/implementations/patches/bark_generation.py:410-422 | Skip is an unbound-history error. With the key present, it succeeds if and only if the prompt has N_FINE_CODEBOOKS rectangular rows, at least one column and in-range tokens, and returns it unchanged. A failed load is a missing-file error; a missing key is a key error. |
| BarkSemantic.TextHalfOfContext | webui/modules/implementations/patches/bark_generation.py:86-99 | The first 256 context positions hold the tokenizer's tokens in order, each shifted by TEXT_ENCODING_OFFSET, and TEXT_PAD after the last token. |
| BarkSemantic.TextBeyondWidthIsDropped | webui/modules/implementations/patches/bark_generation.py:90-93 | Text beyond 256 tokens is cut off: two texts that agree on their first 256 tokens give the same context. |
| BarkSemantic.SemanticContext | webui/modules/implementations/patches/bark_generation.py:90-117 | 513 tokens: the first 256 text tokens padded with TEXT_PAD, then the last 256 history tokens padded with SEMANTIC_PAD (all pad without history), then the infer token. |
| BarkSemantic.SampleSemantic | webui/modules/implementations/patches/bark_generation.py:126-185 | The output is a prefix of the draws, at most 768 long, all below SEMANTIC_VOCAB_SIZE. No earlier step stopped early or exceeded the duration. A short output ends at an early stop or a duration cut-off. |
| BarkSemantic.GenerateTextSemantic | webui/modules/implementations/patches/bark_generation.py:100-190 | Fails exactly when the history does, with its error. Otherwise returns at most 768 in-range tokens, a prefix of the draws, and at most one token when the duration is exceeded at once. |
| BarkSemantic.TopPRemovalMask | webui/modules/implementations/patches/bark_generation.py:144-150 | The mask is the "cumulative > top_p" test shifted right by one, with slot 0 always kept. |
| BarkSemantic.TopPRemovesSuffix | webui/modules/implementations/patches/bark_generation.py:144-150 | Over a cumulative sum, the removed positions form a suffix of the sorted order. |
| BarkSemantic.TopPKeepsNucleus | webui/modules/implementations/patches/bark_generation.py:144-150 | The kept positions are exactly those up to and including the first one whose cumulative sum passes top_p. |
| BarkSemantic.TopPZeroIsGreedy | webui/modules/implementations/patches/bark_generation.py:147-149 | top_p = 0 keeps only the highest-ranked token. |
| BarkCoarse.LogitSliceIsCodebook | webui/modules/implementations/patches/bark_generation.py:319-333 | The sampled slice is CODEBOOK_SIZE wide. Major steps start at SVS and the others at SVS + CS, that is, SVS + (n mod 2)·CS. |
| BarkCoarse.CoarseCodesUndoFlatten | webui/modules/implementations/patches/bark_generation.py:371-373 | The final reshape and de-offset undo the history flattening of line 255 exactly. |
| BarkCoarse.CoarseCodesRecoverDraws | webui/modules/implementations/patches/bark_generation.py:359-373 | De-offsetting the generated stream gives row r, column t = draw 2t + r, so every coarse row is in [0, CODEBOOK_SIZE). |
| BarkCoarse.Deoffset | webui/modules/implementations/patches/bark_generation.py:371-373 | The in-place row loop computes the reshape specification `CoarseCodes`. |
| BarkCoarse.TrimHistories | webui/modules/implementations/patches/bark_generation.py:265-268 | Keeps the last n tokens of each history (none for n = 0), then drops two coarse tokens. |
| BarkCoarse.TrimAsWrittenKeepsAllForZero | webui/modules/implementations/patches/bark_generation.py:257-266 | As written, a one-token semantic prompt gives n = 0, and `[-0:]` keeps both whole histories where the intended trim keeps none. |
| BarkCoarse.TrimHistoriesBounded | webui/modules/implementations/patches/bark_generation.py:265-268 | A trimmed history is never longer than the count it was trimmed to. |
| BarkCoarse.CeilDiv | webui/modules/implementations/patches/bark_generation.py:295 | `ceil(n / d)`: the least q with q·d ≥ n. |
| BarkCoarse.CoarseWindowInput | webui/modules/implementations/patches/bark_generation.py:298-314 | A window's input is 256 semantic tokens, taken from position max(0, semantic_idx - max_semantic_history) on and right-padded with COARSE_SEMANTIC_PAD once the semantic tokens run out; then the infer token; then the last max_coarse_history coarse tokens. |
| BarkCoarse.OffsetTokensSnoc | webui/modules/implementations/patches/bark_generation.py:359-360 | Each step appends its draw shifted to the start of its slice. |
| BarkCoarse.RunCoarseWindow | webui/modules/implementations/patches/bark_generation.py:316-363 | One window advances n_step to min(n_step + window, n_steps). Skipped steps append nothing. The model input stays within 1024 tokens. |
| BarkCoarse.RunCoarseWindows | webui/modules/implementations/patches/bark_generation.py:295-363 | ceil(n_steps / window) windows append exactly the n_steps offset draws after the history. |
| BarkCoarse.OneTokenCoarseHistory | webui/modules/implementations/patches/bark_generation.py:257-268 | A two-column coarse prompt trimmed to three tokens leaves one token, the case where a negative window raises IndexError. |
| BarkCoarse.GenerateCoarse | webui/modules/implementations/patches/bark_generation.py:205-375 | Succeeds if and only if the argument asserts hold, the history is usable, n_steps is a positive even number and the window is positive. Skip gives the unbound-history error. Otherwise a zero window divides by zero. A negative window runs no window: it raises IndexError when exactly one coarse history token is left, and otherwise fails the length assert. On success the result is 2 × n_steps/2, with row r, column t equal to draw 2t + r, all in range. |
| BarkFine.HistoryColumns | webui/modules/implementations/patches/bark_generation.py:441-452 | n_history is min(512, history width), or 0 without history. |
| BarkFine.FineInput | webui/modules/implementations/patches/bark_generation.py:434-462 | The input array has N_FINE_CODEBOOKS rows of max(1024, n_history + T) columns. |
| BarkFine.FineInputLayout | webui/modules/implementations/patches/bark_generation.py:434-462 | Each cell is, in order: a history column, a coarse token over CODEBOOK_SIZE placeholder rows, then CODEBOOK_SIZE padding. |
| BarkFine.FineLoops | webui/modules/implementations/patches/bark_generation.py:464 | n_loops is at least one. |
| BarkFine.WindowBounds | webui/modules/implementations/patches/bark_generation.py:468-471 | Every window lies inside the buffer. Filling starts at or after n_history, and 0 ≤ rel_start_fill_idx ≤ 512. |
| BarkFine.WindowsChain | webui/modules/implementations/patches/bark_generation.py:464-470 | Windows move forward, and each fill starts no later than where the previous window ended. |
| BarkFine.LastWindowReachesEnd | webui/modules/implementations/patches/bark_generation.py:464-468 | The last of the n_loops windows ends at the end of the buffer. |
| BarkFine.FillWindow | webui/modules/implementations/patches/bark_generation.py:467-491 | One window overwrites the fine codebooks from start_fill_idx to the window's end with the predictions, and nothing else. |
| BarkFine.FillFineBuffer | webui/modules/implementations/patches/bark_generation.py:463-496 | After all windows, every fine-codebook cell from n_history to the end holds an in-range token. Coarse rows and history columns are untouched. |
| BarkFine.Codebooks | webui/modules/implementations/patches/bark_generation.py:498 | Reading the buffer back transposes time × codebook into codebook × time. |
| BarkFine.TrimColumns | webui/modules/implementations/patches/bark_generation.py:502-504 | Drops the history columns, and the padding only when there is some. |
| BarkFine.FilledOutputKeepsCoarse | webui/modules/implementations/patches/bark_generation.py:502-505 | After trimming, the filled buffer has the coarse width, keeps the coarse rows and is in range everywhere. |
| BarkFine.TimeMajor | webui/modules/implementations/patches/bark_generation.py:466 | The buffer is the input array transposed to time × codebook. |
| BarkFine.DecodeFine | webui/modules/implementations/patches/bark_generation.py:434-504 | After the input assert and with a usable history, the output is N_FINE_CODEBOOKS × T, keeps the coarse rows unchanged and holds in-range tokens everywhere. |
| BarkFine.GenerateFine | webui/modules/implementations/patches/bark_generation.py:385-507 | Succeeds if and only if the coarse input assert holds and the history is usable. On success the result is N_FINE_CODEBOOKS × T, keeps the coarse rows and is in range, so the final width assert holds. |
| PyBuiltins.PyTail | webui/modules/implementations/patches/bark_generation.py:265-266 | `s[-n:]` is the last n elements, or all of s when n is 0 or at least its length. |
| PyBuiltins.ReplaceAllOnlySuffix | bark_speaker_info.py:86 | `str.replace` of a pattern that occurs only as the suffix swaps that suffix. |
| PyBuiltins.ReplaceAllWithoutOccurrence | bark_speaker_info.py:29 | `str.replace` of a pattern that does not occur changes nothing. |
| PyBuiltins.InsertEverywhere | bark_speaker_info.py:29 | `str.replace("", r)` is len(s) blocks, each a copy of r followed by the next character of s, and then one more copy of r. |
| SpeakerInfo.UnsignedBranchesShift | bark_speaker_info.py:151-156 | Despite the uint16 wrap-around and the reinterpreting cast, uint16 x gives x − 32768 and uint8 x gives 257x − 32768. |
| SpeakerInfo.UnsignedEndpoints | bark_speaker_info.py:151-156 | 0 becomes −32768, and 65535 (uint16) and 255 (uint8) become 32767. |
| SpeakerInfo.Int32QuotientFits | bark_speaker_info.py:146-148 | Every int32 divided by 65538 (truncated) fits in int16. |
| SpeakerInfo.ConvertSample | bark_speaker_info.py:143-156 | Each integer branch's per-sample mapping, and int16 range for every branch but int64. |
| SpeakerInfo.ConvertTo16BitWav | bark_speaker_info.py:135-162 | int16 is unchanged. uint16, uint8, int32 and in-range int64 map as above. Any other dtype raises the ValueError with its message. |
| SpeakerInfo.SemanticsReaderFor | bark_speaker_info.py:67-95 | The .npz, .npy and .zip readers are chosen exactly by suffix; anything else returns (None, None). |
| SpeakerInfo.SuffixesExclusive | bark_speaker_info.py:67-78 | No name has two of the three suffixes, so the order of the tests is irrelevant. |
| SpeakerInfo.SavePrompts | bark_speaker_info.py:109-110 | Exactly the two paths are written. The coarse history is at its path. The fine history survives unless the two paths coincide. |
| SpeakerInfo.AudioToPrompts | bark_speaker_info.py:100-113 | Gives nothing (`(None, None)`) if and only if the name does not end in ".wav". Otherwise it returns the temporary files renamed to fine_prompt.npy and coarse_prompt.npy, with both histories saved there. |
| SpeakerInfo.PromptPathsDiffer | bark_speaker_info.py:105-108 | A fine_prompt.npy path and a coarse_prompt.npy path never coincide, whatever their directories. |
| SpeakerInfo.AudioToPromptsKeepsBoth | bark_speaker_info.py:100-113 | For a ".wav" input and fresh temporary names, the prompts land in the temporary files' directories, and both histories are kept. |
| SpeakerInfo.LastSegment | bark_speaker_info.py:29 | `split('/')[-1]` is the slash-free suffix after the last '/'. |
| SpeakerInfo.BasenameIsSuffix | bark_speaker_info.py:29 | The basename found in the normalised name is a suffix of the raw name and contains neither separator. |
| SpeakerInfo.RenameKeepsDirectory | bark_speaker_info.py:29 | When the basename occurs only at the end, the rename keeps the directory and swaps in the target. |
| SpeakerInfo.RenameRewritesEveryOccurrence | bark_speaker_info.py:34 | Every occurrence of the basename is rewritten, directories included: for any non-empty basename b without a separator, "/b/b" renamed to t gives "/t/t". |
| SpeakerInfo.RenameOfDirectoryName | bark_speaker_info.py:47 | For any name ending in '/' or '\\', the basename is empty, and the rename is `str.replace("", target)`: the target goes around every character. |
| SpeakerInfo.WavEntryNameSwapsExtension | bark_speaker_info.py:86 | An entry "stem.npy" is written as "stem.wav". |
| WhisperCache.OfficialModels | webui/modules/implementations/whisper.py:12-36 | Ten names: the four ".en" variants of tiny, small, base and medium, then tiny, small, base, medium, large, large-v2. |
| WhisperCache.OfficialModelsDistinct | webui/modules/implementations/whisper.py:25-36 | No name is listed twice. |
| WhisperCache.Strip | webui/modules/implementations/whisper.py:76 | `str.strip()` is the slice between leading and trailing whitespace, with no whitespace at its ends. |
| WhisperCache.StripIdempotent | webui/modules/implementations/whisper.py:76 | Stripping twice is stripping once. |
| WhisperCache.WhisperSession.constructor | webui/modules/implementations/whisper.py:6-9 | All four globals start as None. |
| WhisperCache.WhisperSession.Unload | webui/modules/implementations/whisper.py:39-47 | Clears all four globals and answers "Unloaded". |
| WhisperCache.WhisperSession.Load | webui/modules/implementations/whisper.py:50-62 | The loaded name changes nothing. A successful load of another name records the model, the name and the device. A failed load clears everything and answers "Failed to load, <e>". |
| WhisperCache.WhisperSession.Transcribe | webui/modules/implementations/whisper.py:65-81 | Without a model it answers the hint. Otherwise it resamples exactly when sr ≠ 16000, turns an exception into "Exception: <e>" and strips the text. |
| RvcTab.Promoted | webui/ui/tabs/rvc.py:24-27 | int16 and int32 become float32, and other types are kept. |
| RvcTab.FlattenTensor | webui/ui/tabs/rvc.py:24-38 | Fails exactly for a two-channel integer tensor (mean of an integer type). Otherwise it keeps the promoted type, gives a 2-D input one channel of the same element count (half for two channels), keeps other ranks, and prepends a 1 with add_batch. |
| RvcTab.FlattenAudio | webui/ui/tabs/rvc.py:18-38 | A bare rate or a pair that starts with a pair has no dtype. A tensor is flattened as above. |
| RvcTab.FlattenPairs | webui/ui/tabs/rvc.py:19-23 | (rate, t) keeps the rate and (t, x) keeps x. The inner call always adds the batch dimension, whatever the outer flag. |
| RvcTab.FlattenIdempotent | webui/ui/tabs/rvc.py:28-35 | Without a batch dimension, flattening twice is flattening once. |
| RvcTab.BatchedReflatten | webui/ui/tabs/rvc.py:28-37 | Re-flattening a batched [1, n] signal keeps it, except n = 2, which is averaged to [1, 1]. |
| RvcTab.AddBroadcast | webui/ui/tabs/rvc.py:51 | Equal lengths add sample by sample. It fails exactly when the lengths differ and neither is 1. |
| RvcTab.MergeAndMatch | webui/ui/tabs/rvc.py:41-51 | An empty background divides by zero, and a failed resample is passed on. |
| RvcTab.MergeTrimsForeground | webui/ui/tabs/rvc.py:41-51 | When the foreground is longer than the resampled background, the result has the background's length and adds the last samples of the halved foreground to the background sample by sample. |
| RvcTab.MergeTrimsBackground | webui/ui/tabs/rvc.py:41-51 | When the resampled background is at least as long as the foreground, the result has the foreground's length and adds the halved foreground to the background's last samples sample by sample. |
| RvcTab.MergeWithEmptyResample | webui/ui/tabs/rvc.py:46-51 | An empty resampled background is kept whole by `[-0:]`, and the sum fails. |
| RvcTab.UnloadRvc | webui/ui/tabs/rvc.py:58-61 | Unloads, clears the dropdown and hides the zeroed slider. |
| RvcTab.LoadRvc | webui/ui/tabs/rvc.py:64-69 | An empty or missing model is exactly the unload reply. Otherwise it loads the model, leaves the dropdown, and sets the slider to maximum = speaker count and value 0, visible if and only if the count is positive. |
| RvcTab.TtsFailedBuildIsNeverRetried | webui/ui/tabs/rvc.py:88-98 | As written, a failed build leaves the cache inconsistent, and every later call for that name fails with `'NoneType' object has no attribute 'tts'`. |
| RvcTab.Speak | webui/ui/tabs/rvc.py:98 | Speaking succeeds if and only if a synthesiser is cached and it was built with a model name. With none cached it fails with `'NoneType' object has no attribute 'tts'`. |
| RvcTab.TtsStep | webui/ui/tabs/rvc.py:88-98 | Keeps the cache consistent. The request is the dropdown value, None until a model is picked. It builds only when the requested name differs from the cached one. It succeeds if and only if a name is requested and either it is cached or its build succeeds. It then returns the model for that name. A failed build empties the cache. |
| RvcTab.TtsStartWithoutSelectionFails | webui/ui/tabs/rvc.py:88-98 | At start-up with no model picked, `None != None` is false. Nothing is built, and speaking fails on None, both as written and as corrected. |
| RvcTab.TtsStepRetriesAfterFailure | webui/ui/tabs/rvc.py:88-97 | With the corrected cache, the call after a failed build builds again. |
| RvcTab.TtsStepsAgreeWithoutFailure | webui/ui/tabs/rvc.py:88-97 | When building succeeds, the as-written and the corrected cache behave identically. |
| RvcTab.FlagStrings | webui/ui/tabs/rvc.py:12 | The four flags, pairwise distinct. |
| RvcTab.PipelineStagesInOrder | webui/ui/tabs/rvc.py:87-140 | The stages always run in the order TTS, flatten, separate, denoise, RVC, recombine, denoise output. |
| RvcTab.PipelineStagesPresent | webui/ui/tabs/rvc.py:87-140 | Each optional stage runs exactly when it is switched on, and flatten always runs. |
| RvcTab.OptionalStages | webui/ui/tabs/rvc.py:106-140 | After the flattening, the stages appended make the whole trace equal the pipeline for the flags. Background is returned exactly when separation ran, and the unmixed voice exactly when recombination ran. |
| RvcTab.DenoiseOutputAloneSkipsDenoise | webui/ui/tabs/rvc.py:115-140 | Flags are exact list entries: 'denoise output' alone denoises only the output. |
| RvcTab.RvcSession.constructor | webui/ui/tabs/rvc.py:14-15 | No model and no name are cached at import. |
| RvcTab.RvcSession.Gen | webui/ui/tabs/rvc.py:83-150 | The cache changes only without input audio, by the corrected step. Without input audio and with no TTS model picked, it fails. A build, speaking or flatten failure is returned. Otherwise the trace is the stage sequence for the flags, the selected model and the input kind, and the background and unmixed outputs are returned exactly when separation and recombination ran. |

## Left out

- The neural networks, the codec, Whisper, Coqui TTS, RVC voice conversion, source separation, denoising and resampling are foreign calls. Each is an oracle parameter that returns a value in the range the code relies on, or raises.
- Softmax, temperature, top-k, multinomial and argmax sampling, and the eos-probability and duration tests are floating point or random. Draws are indices in the sliced range, and the tests are boolean inputs. Top-p keeps only its mask structure over an abstract cumulative sum.
- BarkCoarse.GenerateCoarse: it uses the corrected TrimHistories (see Findings), so a zero trim count keeps no history. As written, the source keeps the whole arrays in that case. The returned codes are the draws either way; only the context given to the model differs.
- BarkCoarse.GenerateCoarse: the float ratio arithmetic (`semantic_to_coarse_ratio`, `max_semantic_history`, the provided history counts, `n_steps` and the window's semantic index) is taken as inputs, not computed.
- BarkSemantic.GenerateTextSemantic: whitespace normalisation and tokenisation are upstream. The text arrives as token ids.
- BarkSemantic.SampleSemantic: key-value caching only changes what the oracle sees, so it is not modelled.
- BarkFine.GenerateFine: the predictions do not depend on the buffer contents. The transfer loop of lines 493-496 copies the buffer view onto itself, so only the writes through the view are modelled. The `temp is None` and multinomial branches differ only in the oracle.
- BarkCoarse.FlattenCoarseHistory: the upstream `_flatten_codebooks` is modelled by its effect (row n offset by n·CODEBOOK_SIZE, read column by column), since its source is not part of this model.
- SpeakerInfo.ConvertTo16BitWav: the float branch (lines 139-142) is floating point and is not modelled. The int64 branch is stated only where the quotient fits in int16, because the cast of a larger float is platform-defined. The uint8 and uint16 branches assume NumPy 1 value-based casting, under which `data * 257` is uint16.
- WhisperCache.WhisperSession.Transcribe: unpacking a missing recording (`sr, wav = wav` on None) raises before the model check; audio is always present in this model.
- RvcTab.FlattenTensor: sample values, and the scaling and averaging, are not modelled. Only the element type and the shape are tracked.
- RvcTab.MergeAndMatch: only one-channel signals are modelled, with samples as reals. The resampled length comes from the oracle.
- RvcTab.Speak: the failure Coqui TTS raises when a synthesiser built without a model name is asked to speak is one constant message; its exception type and text are not modelled.
- RvcTab.RvcSession.Gen: its cache follows the corrected TtsStep (see Findings). As written (rvc.py:95-97), a call after a failed build with the same name skips the build and fails on the missing model.
- RvcTab.RvcSession.Gen: the stages after flattening are assumed not to fail. Neither are modelled: the re-flattening of the separated foreground and background, the int16 rescale before recombining, the numpy conversion of the outputs, or the waveform.
- `codec_decode`'s uint16 path, `create_custom_semantics`, the archive loops of `semantics_to_audio`, `file_to_audio`, `denoise`, `get_models_installed`, and every Gradio layout function are file I/O, UI or foreign calls.
- There is no concurrency: each module global is single-user state, modelled as one object's fields.

## Findings

| source | as written | input that shows it | evidently intended | confidence | as-written member | corrected member |
|---|---|---|---|---|---|---|
| webui/modules/implementations/patches/bark_generation.py:265-266 | `x_semantic_history[-n:]` and `x_coarse_history[-n:]` with n = 0 keep the whole arrays, since `-0` is `0` | a valid history with a one-token `semantic_prompt` and a coarse prompt of two or more columns: `len - len % 2` is 0, so n is 0 for both | keep no history when the provided count is 0 | high; not executed | BarkCoarse.TrimAsWrittenKeepsAllForZero | BarkCoarse.TrimHistories |
| webui/ui/tabs/rvc.py:95-97 | `tts_model_name` is set before `TTS(tts)` runs | a first `gen` without audio whose `TTS(name)` raises, then any later call with the same name | build again, or record the name only once the model exists | high; not executed | RvcTab.TtsFailedBuildIsNeverRetried | RvcTab.TtsStep |
