/**
 * The built-in voice presets of the Bark generation patch and the resolution of a
 * history reference (an inline dict, an .npz path, a preset name or a custom speaker)
 * into the token arrays each decoder reads.
 */
module BarkPrompts {
  import opened Wrappers
  import opened BarkVocab
  import opened PyBuiltins

  /** SUPPORTED_LANGS: display name and language code, in the source's order. */
  const SupportedLangs: seq<(string, string)> := [
    ("English", "en"), ("German", "de"), ("Spanish", "es"), ("French", "fr"),
    ("Hindi", "hi"), ("Italian", "it"), ("Japanese", "ja"), ("Korean", "ko"),
    ("Polish", "pl"), ("Portuguese", "pt"), ("Russian", "ru"), ("Turkish", "tr"),
    ("Chinese", "zh")]

  /** 1 announcer + 13 languages x 2 prefixes x 10 speakers + 10 plain speakers. */
  const PresetCount: nat := 271

  /** `str(n)` for a single decimal digit. */
  function Digit(n: nat): char
    requires n < 10
  {
    "0123456789"[n]
  }

  /** The two prefixes "" and "v2" followed by the platform's path separator. */
  function VersionPrefix(p: nat, sep: char): string
    requires p < 2
  {
    if p == 0 then "" else "v2" + [sep]
  }

  function LangPreset(li: nat, p: nat, n: nat, sep: char): string
    requires li < |SupportedLangs| && p < 2 && n < 10
  {
    VersionPrefix(p, sep) + SupportedLangs[li].1 + "_speaker_" + [Digit(n)]
  }

  function PlainPreset(n: nat): string
    requires n < 10
  {
    "speaker_" + [Digit(n)]
  }

  /** The k-th entry of ALLOWED_PROMPTS, read off the order of the nested loops. */
  function PresetName(k: nat, sep: char): string
    requires k < PresetCount
  {
    if k == 0 then "announcer"
    else if k <= 260 then LangPreset((k - 1) / 20, ((k - 1) % 20) / 10, (k - 1) % 10, sep)
    else PlainPreset(k - 261)
  }

  function AllowedPrompts(sep: char): (names: seq<string>)
    ensures |names| == PresetCount
  {
    seq(PresetCount, k requires 0 <= k < PresetCount => PresetName(k, sep))
  }

  /** Declarative reading of the allow-list: which names it admits, independent of order. */
  ghost predicate IsPresetName(name: string, sep: char) {
    name == "announcer"
    || (exists li, p, n :: 0 <= li < |SupportedLangs| && 0 <= p < 2 && 0 <= n < 10 && name == LangPreset(li, p, n, sep))
    || (exists n :: 0 <= n < 10 && name == PlainPreset(n))
  }

  lemma LangPresetIndex(k: nat, li: nat, p: nat, n: nat, sep: char)
    requires li < |SupportedLangs| && p < 2 && n < 10 && k == 1 + 20 * li + 10 * p + n
    ensures k <= 260
    ensures PresetName(k, sep) == LangPreset(li, p, n, sep)
  {
    DivModByConstant(k - 1, 20, li, 10 * p + n);
    DivModByConstant(10 * p + n, 10, p, n);
    DivModByConstant(k - 1, 10, 2 * li + p, n);
    assert (k - 1) / 20 == li && ((k - 1) % 20) / 10 == p && (k - 1) % 10 == n;
    assert PresetName(k, sep) == LangPreset((k - 1) / 20, ((k - 1) % 20) / 10, (k - 1) % 10, sep);
  }

  /** Euclidean division is determined by quotient and remainder. */
  lemma DivModByConstant(a: int, d: int, q: int, r: int)
    requires d > 0 && 0 <= r < d && a == q * d + r
    ensures a / d == q && a % d == r
  {
    var k := q - a / d;
    assert k * d == q * d - (a / d) * d;
    if k >= 1 {
      MultipleAtLeast(k, d);
    } else if k <= -1 {
      assert (-k) * d == -(k * d);
      MultipleAtLeast(-k, d);
    }
  }

  lemma {:induction false} MultipleAtLeast(k: int, d: int)
    requires k >= 1 && d > 0
    ensures k * d >= d
    decreases k
  {
    if k > 1 {
      MultipleAtLeast(k - 1, d);
      assert k * d == (k - 1) * d + d;
    }
  }

  /** ALLOWED_PROMPTS is built by appending inside nested loops, as at module load. */
  method BuildAllowedPrompts(sep: char) returns (prompts: seq<string>)
    ensures prompts == AllowedPrompts(sep)
  {
    prompts := ["announcer"];
    for li := 0 to |SupportedLangs|
      invariant |prompts| == 1 + 20 * li
      invariant forall k :: 0 <= k < |prompts| ==> prompts[k] == PresetName(k, sep)
    {
      var lang := SupportedLangs[li].1;
      for p := 0 to 2
        invariant |prompts| == 1 + 20 * li + 10 * p
        invariant forall k :: 0 <= k < |prompts| ==> prompts[k] == PresetName(k, sep)
      {
        var prefix := VersionPrefix(p, sep);
        for n := 0 to 10
          invariant |prompts| == 1 + 20 * li + 10 * p + n
          invariant forall k :: 0 <= k < |prompts| ==> prompts[k] == PresetName(k, sep)
        {
          var name := prefix + lang + "_speaker_" + [Digit(n)];
          LangPresetIndex(|prompts|, li, p, n, sep);
          AppendPreset(prompts, name, sep);
          prompts := prompts + [name];
        }
      }
    }
    for n := 0 to 10
      invariant |prompts| == 261 + n
      invariant forall k :: 0 <= k < |prompts| ==> prompts[k] == PresetName(k, sep)
    {
      AppendPreset(prompts, "speaker_" + [Digit(n)], sep);
      prompts := prompts + ["speaker_" + [Digit(n)]];
    }
    assert forall k :: 0 <= k < PresetCount ==> prompts[k] == AllowedPrompts(sep)[k];
  }

  lemma AppendPreset(prompts: seq<string>, name: string, sep: char)
    requires |prompts| < PresetCount && name == PresetName(|prompts|, sep)
    requires forall k :: 0 <= k < |prompts| ==> prompts[k] == PresetName(k, sep)
    ensures forall k :: 0 <= k < |prompts| + 1 ==> (prompts + [name])[k] == PresetName(k, sep)
  {
    forall k | 0 <= k < |prompts| + 1
      ensures (prompts + [name])[k] == PresetName(k, sep)
    {
      if k < |prompts| {
        assert (prompts + [name])[k] == prompts[k];
      }
    }
  }

  /** The list admits exactly the announcer, the 260 language presets and the 10 plain speakers. */
  lemma AllowedPromptsMembership(name: string, sep: char)
    ensures name in AllowedPrompts(sep) <==> IsPresetName(name, sep)
  {
    if name in AllowedPrompts(sep) {
      ListedIsPreset(name, sep);
    }
    if IsPresetName(name, sep) {
      PresetIsListed(name, sep);
    }
  }

  lemma ListedIsPreset(name: string, sep: char)
    requires name in AllowedPrompts(sep)
    ensures IsPresetName(name, sep)
  {
    var names := AllowedPrompts(sep);
    var k :| 0 <= k < |names| && names[k] == name;
    if 1 <= k <= 260 {
      var li, p, n := (k - 1) / 20, ((k - 1) % 20) / 10, (k - 1) % 10;
      assert name == LangPreset(li, p, n, sep);
    } else if k > 260 {
      assert name == PlainPreset(k - 261);
    }
  }

  lemma PresetIsListed(name: string, sep: char)
    requires IsPresetName(name, sep)
    ensures name in AllowedPrompts(sep)
  {
    if name == "announcer" {
      assert AllowedPrompts(sep)[0] == name;
    } else if exists li, p, n :: 0 <= li < |SupportedLangs| && 0 <= p < 2 && 0 <= n < 10 && name == LangPreset(li, p, n, sep) {
      var li, p, n :| 0 <= li < |SupportedLangs| && 0 <= p < 2 && 0 <= n < 10 && name == LangPreset(li, p, n, sep);
      LangPresetListed(li, p, n, sep);
    } else {
      var n :| 0 <= n < 10 && name == PlainPreset(n);
      PlainPresetListed(n, sep);
    }
  }

  lemma LangPresetListed(li: nat, p: nat, n: nat, sep: char)
    requires li < |SupportedLangs| && p < 2 && n < 10
    ensures LangPreset(li, p, n, sep) in AllowedPrompts(sep)
  {
    var k := 1 + 20 * li + 10 * p + n;
    LangPresetIndex(k, li, p, n, sep);
    assert AllowedPrompts(sep)[k] == PresetName(k, sep);
  }

  lemma PlainPresetListed(n: nat, sep: char)
    requires n < 10
    ensures PlainPreset(n) in AllowedPrompts(sep)
  {
    assert AllowedPrompts(sep)[261 + n] == PresetName(261 + n, sep);
  }

  // ---------------------------------------------------------------------------
  // History references

  /** An .npz archive or inline dict; a key it lacks is None. */
  datatype Archive = Archive(semantic: Option<seq<int>>, coarse: Option<Matrix>, fine: Option<Matrix>)

  /** The `history_prompt` argument: a dict, or a string (path or name). */
  datatype HistoryRef = InlineHistory(archive: Archive) | NamedHistory(name: string)

  /** The files visible to `np.load` and `os.path.isfile`, by path. */
  type FileSystem = map<string, Archive>

  /** What the shared resolution block leaves behind. */
  datatype Resolution =
    | NoHistory                  // history_prompt is None
    | Resolved(archive: Archive) // a dict, or an archive that np.load read
    | Skipped                    // skip = True: nothing found for the name
    | LoadFailed(path: string)   // np.load raised: the file does not exist

  /** os.path.join(CUR_PATH, "assets", "prompts", f"{name}.npz") */
  function AssetPath(curPath: string, name: string, sep: char): string {
    curPath + [sep] + "assets" + [sep] + "prompts" + [sep] + name + ".npz"
  }

  function CustomSpeakerPath(name: string): string {
    "data/bark_custom_speakers/" + name + ".npz"
  }

  /** `np.load(path)`: the archive when the file exists, the raised error otherwise. */
  function Load(fs: FileSystem, path: string): (r: Resolution)
    ensures path in fs ==> r == Resolved(fs[path])
    ensures path !in fs ==> r == LoadFailed(path)
  {
    if path in fs then Resolved(fs[path]) else LoadFailed(path)
  }

  /** The resolution block repeated in the three decoders. */
  function ResolveHistory(ref: Option<HistoryRef>, fs: FileSystem, curPath: string, sep: char): (r: Resolution)
    ensures r == NoHistory <==> ref.None?
    ensures ref.Some? && ref.value.InlineHistory? ==> r == Resolved(ref.value.archive)
    ensures r == Skipped <==>
      ref.Some? && ref.value.NamedHistory? && !EndsWith(ref.value.name, ".npz")
      && ref.value.name !in AllowedPrompts(sep) && CustomSpeakerPath(ref.value.name) !in fs
    ensures r.LoadFailed? ==>
      ref.Some? && ref.value.NamedHistory?
      && ((EndsWith(ref.value.name, ".npz") && r.path == ref.value.name)
          || (ref.value.name in AllowedPrompts(sep) && r.path == AssetPath(curPath, ref.value.name, sep)))
    // a path ending in ".npz" is loaded as given
    ensures ref.Some? && ref.value.NamedHistory? && EndsWith(ref.value.name, ".npz") ==>
      r == Load(fs, ref.value.name)
    // otherwise a preset name is loaded from the bundled assets
    ensures (ref.Some? && ref.value.NamedHistory? && !EndsWith(ref.value.name, ".npz")
             && ref.value.name in AllowedPrompts(sep)) ==>
      r == Load(fs, AssetPath(curPath, ref.value.name, sep))
    // otherwise a saved custom speaker, when its file exists
    ensures (ref.Some? && ref.value.NamedHistory? && !EndsWith(ref.value.name, ".npz")
             && ref.value.name !in AllowedPrompts(sep) && CustomSpeakerPath(ref.value.name) in fs) ==>
      r == Resolved(fs[CustomSpeakerPath(ref.value.name)])
  {
    match ref
    case None => NoHistory
    case Some(InlineHistory(archive)) => Resolved(archive)
    case Some(NamedHistory(name)) =>
      if EndsWith(name, ".npz") then Load(fs, name)
      else if name in AllowedPrompts(sep) then Load(fs, AssetPath(curPath, name, sep))
      else if CustomSpeakerPath(name) in fs then Resolved(fs[CustomSpeakerPath(name)])
      else Skipped
  }

  /** No preset name ends in ".npz", so the path branch never hides a preset. */
  lemma PresetNamesAreNotPaths(k: nat, sep: char)
    requires k < PresetCount
    ensures !EndsWith(PresetName(k, sep), ".npz")
  {
    var name := PresetName(k, sep);
    assert name[|name| - 1] != 'z';
  }

  /** A preset name is always read from the bundled assets: a custom speaker saved under
      the same name is never consulted. */
  lemma {:induction false} PresetShadowsCustomSpeaker(name: string, fs: FileSystem, fs': FileSystem, curPath: string, sep: char)
    requires name in AllowedPrompts(sep)
    requires forall path :: path != CustomSpeakerPath(name) ==> (path in fs <==> path in fs') && (path in fs ==> fs[path] == fs'[path])
    requires AssetPath(curPath, name, sep) != CustomSpeakerPath(name)
    ensures ResolveHistory(Some(NamedHistory(name)), fs, curPath, sep) == ResolveHistory(Some(NamedHistory(name)), fs', curPath, sep)
  {
    var k :| 0 <= k < PresetCount && AllowedPrompts(sep)[k] == name;
    PresetNamesAreNotPaths(k, sep);
    var asset := AssetPath(curPath, name, sep);
    assert (asset in fs <==> asset in fs') && (asset in fs ==> fs[asset] == fs'[asset]);
  }

  // ---------------------------------------------------------------------------
  // What each decoder reads from a resolution

  datatype BarkError =
    | AssertionFailed      // an `assert` of the source fails
    | KeyMissing(key: string)
    | FileMissing(path: string)
    | UnboundHistory       // UnboundLocalError: a skipped reference is read in the coarse or fine decoder
    | EmptyReduction       // ValueError: `min()` of a zero-width history array
    | DivisionByZero
    | IndexError           // IndexError: a 0-d array is sliced

  predicate SemanticTokensValid(s: seq<int>, v: Vocab) {
    |s| > 0 && AllBelow(s, v.semanticVocabSize)
  }

  /** The semantic decoder: a skipped reference means "no history". */
  function SemanticHistory(res: Resolution, v: Vocab): (r: Result<Option<seq<int>>, BarkError>)
    ensures res == Skipped || res == NoHistory ==> r == Ok(None)
    ensures res.LoadFailed? ==> r == Err(FileMissing(res.path))
    ensures res.Resolved? && res.archive.semantic.None? ==> r == Err(KeyMissing("semantic_prompt"))
    ensures res.Resolved? && res.archive.semantic.Some? ==>
      (r.Ok? <==> SemanticTokensValid(res.archive.semantic.value, v))
      && (r.Ok? ==> r.value == Some(res.archive.semantic.value))
    ensures r.Ok? && r.value.Some? ==> SemanticTokensValid(r.value.value, v)
  {
    match res
    case NoHistory => Ok(None)
    case Skipped => Ok(None)
    case LoadFailed(path) => Err(FileMissing(path))
    case Resolved(archive) =>
      if archive.semantic.None? then Err(KeyMissing("semantic_prompt"))
      else if SemanticTokensValid(archive.semantic.value, v) then Ok(Some(archive.semantic.value))
      else Err(AssertionFailed)
  }

  /** A coarse history: two (N_COARSE_CODEBOOKS) codebook rows of in-range tokens. The assert
      allows zero columns, but `min()` of the empty array raises before the range is checked. */
  predicate CoarseHistoryValid(m: Matrix, v: Vocab) {
    |m| == v.nCoarseCodebooks && Rectangular(m) && Width(m) > 0 && MatrixBelow(m, v.codebookSize)
  }

  /** The coarse decoder: a skipped reference leaves `x_coarse_history` unbound. Both keys are
      read before the assert, which checks the semantic prompt, then the coarse shape, then
      its range. */
  function CoarseHistory(res: Resolution, v: Vocab): (r: Result<Option<(seq<int>, Matrix)>, BarkError>)
    ensures res == Skipped ==> r == Err(UnboundHistory)
    ensures res == NoHistory <==> r == Ok(None)
    ensures res.LoadFailed? ==> r == Err(FileMissing(res.path))
    ensures res.Resolved? && res.archive.semantic.None? ==> r == Err(KeyMissing("semantic_prompt"))
    ensures res.Resolved? && res.archive.semantic.Some? && res.archive.coarse.None? ==>
      r == Err(KeyMissing("coarse_prompt"))
    ensures r.Ok? && r.value.Some? ==>
      SemanticTokensValid(r.value.value.0, v) && CoarseHistoryValid(r.value.value.1, v)
    ensures res.Resolved? && res.archive.semantic.Some? && res.archive.coarse.Some? ==>
      (r.Ok? <==> SemanticTokensValid(res.archive.semantic.value, v) && CoarseHistoryValid(res.archive.coarse.value, v))
      && (r.Ok? ==> r.value == Some((res.archive.semantic.value, res.archive.coarse.value)))
    ensures r == Err(EmptyReduction) ==> res.Resolved? && res.archive.coarse.Some? && Width(res.archive.coarse.value) == 0
  {
    match res
    case NoHistory => Ok(None)
    case Skipped => Err(UnboundHistory)
    case LoadFailed(path) => Err(FileMissing(path))
    case Resolved(archive) =>
      if archive.semantic.None? then Err(KeyMissing("semantic_prompt"))
      else if archive.coarse.None? then Err(KeyMissing("coarse_prompt"))
      else
        var s, c := archive.semantic.value, archive.coarse.value;
        if !SemanticTokensValid(s, v) || |c| != v.nCoarseCodebooks || !Rectangular(c) then Err(AssertionFailed)
        else if Width(c) == 0 then Err(EmptyReduction)
        else if !MatrixBelow(c, v.codebookSize) then Err(AssertionFailed)
        else Ok(Some((s, c)))
  }

  /** A fine history: N_FINE_CODEBOOKS codebook rows of in-range tokens, at least one column
      for the same reason as a coarse history. */
  predicate FineHistoryValid(m: Matrix, v: Vocab) {
    |m| == v.nFineCodebooks && Rectangular(m) && Width(m) > 0 && MatrixBelow(m, v.codebookSize)
  }

  /** The fine decoder: a skipped reference leaves `x_fine_history` unbound. */
  function FineHistory(res: Resolution, v: Vocab): (r: Result<Option<Matrix>, BarkError>)
    ensures res == Skipped ==> r == Err(UnboundHistory)
    ensures res == NoHistory <==> r == Ok(None)
    ensures res.LoadFailed? ==> r == Err(FileMissing(res.path))
    ensures res.Resolved? && res.archive.fine.None? ==> r == Err(KeyMissing("fine_prompt"))
    ensures r.Ok? && r.value.Some? ==> FineHistoryValid(r.value.value, v)
    ensures res.Resolved? && res.archive.fine.Some? ==>
      (r.Ok? <==> FineHistoryValid(res.archive.fine.value, v))
      && (r.Ok? ==> r.value == Some(res.archive.fine.value))
    ensures r == Err(EmptyReduction) ==> res.Resolved? && res.archive.fine.Some? && Width(res.archive.fine.value) == 0
  {
    match res
    case NoHistory => Ok(None)
    case Skipped => Err(UnboundHistory)
    case LoadFailed(path) => Err(FileMissing(path))
    case Resolved(archive) =>
      if archive.fine.None? then Err(KeyMissing("fine_prompt"))
      else
        var f := archive.fine.value;
        if |f| != v.nFineCodebooks || !Rectangular(f) then Err(AssertionFailed)
        else if Width(f) == 0 then Err(EmptyReduction)
        else if !MatrixBelow(f, v.codebookSize) then Err(AssertionFailed)
        else Ok(Some(f))
  }
}
