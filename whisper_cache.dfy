/**
 * The speech-recognition wrapper: the list of official model names and the single global
 * model slot that `load`, `unload` and `transcribe` share. The module globals are the fields
 * of one `WhisperSession` object. Loading a checkpoint, resampling and decoding are foreign
 * calls; each one is an oracle argument that either gives a value or names the exception it
 * raised.
 */
module WhisperCache {
  import opened Wrappers

  /** `get_official_models`: the English-only checkpoints first, then the multilingual ones. */
  function OfficialModels(): (names: seq<string>)
    ensures |names| == 10
    ensures forall i :: 0 <= i < 4 ==> names[i] == names[i + 4] + ".en"
    ensures names[4..] == ["tiny", "small", "base", "medium", "large", "large-v2"]
  {
    ["tiny.en", "small.en", "base.en", "medium.en", "tiny", "small", "base", "medium", "large", "large-v2"]
  }

  /** No name is offered twice. */
  lemma OfficialModelsDistinct()
    ensures forall i, j :: 0 <= i < j < |OfficialModels()| ==> OfficialModels()[i] != OfficialModels()[j]
  {
    var names := OfficialModels();
    forall i, j | 0 <= i < j < 10
      ensures names[i] != names[j]
    {
      if |names[i]| == |names[j]| {
        assert names[i][0] != names[j][0] || names[i][1] != names[j][1] || names[i][|names[i]| - 1] != names[j][|names[j]| - 1];
      }
    }
  }

  /** A checkpoint as `whisper.load_model` returns it. */
  datatype WhisperModel = WhisperModel(checkpoint: string, device: string)

  /** The processor slot is declared but nothing in the wrapper ever fills it. */
  datatype Processor = Processor(name: string)

  // ---------------------------------------------------------------------------
  // `str.strip()`

  /** The characters `str.strip()` removes: those for which Python's `str.isspace()` holds. */
  predicate IsSpace(c: char) {
    ('\t' <= c <= '\r') || ('\U{1c}' <= c <= ' ') || c == '\U{85}' || c == '\U{a0}' || c == '\U{1680}'
    || ('\U{2000}' <= c <= '\U{200a}') || c == '\U{2028}' || c == '\U{2029}' || c == '\U{202f}'
    || c == '\U{205f}' || c == '\U{3000}'
  }

  /** The index of the first non-whitespace character at or after i, or |s|. */
  function SkipSpaces(s: string, i: nat): (n: nat)
    requires i <= |s|
    ensures i <= n <= |s|
    ensures forall k :: i <= k < n ==> IsSpace(s[k])
    ensures n < |s| ==> !IsSpace(s[n])
    decreases |s| - i
  {
    if i < |s| && IsSpace(s[i]) then SkipSpaces(s, i + 1) else i
  }

  /** Moving down from j, but not below lo: the end of the text before the trailing whitespace. */
  function TrimEnd(s: string, lo: nat, j: nat): (e: nat)
    requires lo <= j <= |s|
    ensures lo <= e <= j
    ensures forall k :: e <= k < j ==> IsSpace(s[k])
    ensures e > lo ==> !IsSpace(s[e - 1])
    decreases j
  {
    if j > lo && IsSpace(s[j - 1]) then TrimEnd(s, lo, j - 1) else j
  }

  /** r is the slice of s that starts at i, and everything around it is whitespace. */
  predicate TrimmedSliceAt(s: string, r: string, i: int) {
    0 <= i <= |s| - |r| && s[i..i + |r|] == r
    && (forall k :: 0 <= k < i ==> IsSpace(s[k]))
    && (forall k :: i + |r| <= k < |s| ==> IsSpace(s[k]))
  }

  /** `s.strip()`: the text between the leading and the trailing whitespace. */
  function Strip(s: string): (r: string)
    ensures |r| == 0 || (!IsSpace(r[0]) && !IsSpace(r[|r| - 1]))
    ensures exists i :: TrimmedSliceAt(s, r, i)
  {
    var i := SkipSpaces(s, 0);
    var j := TrimEnd(s, i, |s|);
    assert TrimmedSliceAt(s, s[i..j], i);
    s[i..j]
  }

  /** Stripping twice is stripping once. */
  lemma StripIdempotent(s: string)
    ensures Strip(Strip(s)) == Strip(s)
  {
    var r := Strip(s);
    assert SkipSpaces(r, 0) == 0;
    assert TrimEnd(r, 0, |r|) == |r|;
    assert r[0..|r|] == r;
  }

  // ---------------------------------------------------------------------------
  // The model slot

  /** What `whisper.load_model` did: returned a checkpoint or raised. */
  datatype LoadOutcome = LoadedCheckpoint(model: WhisperModel) | LoadRaised(message: string)

  /** The result of one `transcribe` call, and whether the audio went through resampling. */
  datatype TranscribeReply = TranscribeReply(reply: string, resampled: bool)

  class WhisperSession {
    var model: Option<WhisperModel>
    var processor: Option<Processor>
    var device: Option<string>
    var loadedModel: Option<string>

    /** A model is loaded exactly when a name is recorded, it always has a device, and the
        processor slot stays empty. */
    ghost predicate Valid()
      reads this
    {
      (model.Some? <==> loadedModel.Some?)
      && (loadedModel.Some? ==> device.Some?)
      && processor.None?
    }

    /** The state at import: every global is None. */
    constructor ()
      ensures Valid()
      ensures model.None? && processor.None? && device.None? && loadedModel.None?
    {
      model, processor, device, loadedModel := None, None, None, None;
    }

    /** `unload`: clears every global. */
    method Unload() returns (reply: string)
      modifies this
      ensures Valid()
      ensures model.None? && processor.None? && device.None? && loadedModel.None?
      ensures reply == "Unloaded"
    {
      model, processor, device, loadedModel := None, None, None, None;
      reply := "Unloaded";
    }

    /**
     * `load`: the same name again is a no-op; any other name first unloads, then either
     * records the new checkpoint and device or, when loading raised, unloads once more.
     */
    method Load(name: string, mapDevice: string, outcome: LoadOutcome) returns (reply: string)
      requires Valid()
      modifies this
      ensures Valid()
      ensures old(loadedModel) == Some(name) ==>
        unchanged(this) && reply == "Loaded " + name
      ensures old(loadedModel) != Some(name) && outcome.LoadedCheckpoint? ==>
        model == Some(outcome.model) && loadedModel == Some(name) && device == Some(mapDevice)
        && processor.None? && reply == "Loaded " + name
      ensures old(loadedModel) != Some(name) && outcome.LoadRaised? ==>
        model.None? && processor.None? && device.None? && loadedModel.None?
        && reply == "Failed to load, " + outcome.message
    {
      if loadedModel != Some(name) {
        var _ := Unload();
        match outcome {
          case LoadedCheckpoint(m) =>
            model := Some(m);
            loadedModel := Some(name);
            device := Some(mapDevice);
          case LoadRaised(e) =>
            var _ := Unload();
            return "Failed to load, " + e;
        }
      }
      reply := "Loaded " + name;
    }

    /**
     * `transcribe`: without a loaded model it only answers with a hint. Otherwise audio not
     * at 16 kHz is resampled first; an exception from resampling or decoding becomes the
     * reply, and a decoded text is returned stripped. Nothing in the session changes.
     */
    method Transcribe(sampleRate: int, resampleRaised: Option<string>, decoded: Result<string, string>)
      returns (r: TranscribeReply)
      ensures loadedModel.None? ==> r == TranscribeReply("No model loaded! Please load a model.", false)
      ensures loadedModel.Some? ==> (r.resampled <==> sampleRate != 16000)
      ensures loadedModel.Some? && sampleRate != 16000 && resampleRaised.Some? ==>
        r.reply == "Exception: " + resampleRaised.value
      ensures loadedModel.Some? && (sampleRate == 16000 || resampleRaised.None?) ==>
        r.reply == match decoded
          case Ok(text) => Strip(text)
          case Err(e) => "Exception: " + e
    {
      if loadedModel.None? {
        return TranscribeReply("No model loaded! Please load a model.", false);
      }
      var resampled := false;
      if sampleRate != 16000 {
        resampled := true;
        if resampleRaised.Some? {
          return TranscribeReply("Exception: " + resampleRaised.value, resampled);
        }
      }
      match decoded {
        case Ok(text) => r := TranscribeReply(Strip(text), resampled);
        case Err(e) => r := TranscribeReply("Exception: " + e, resampled);
      }
    }
  }
}
