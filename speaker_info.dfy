/**
 * The pure helpers of the speaker-info tool: the conversion of integer sample arrays to
 * 16-bit PCM, the file-suffix dispatch of the two conversion entry points, and the rename
 * that gives a temporary file a chosen basename.
 */
module SpeakerInfo {
  import opened Wrappers
  import opened PyBuiltins

  // ---------------------------------------------------------------------------
  // 16-bit PCM conversion

  datatype DType = Float64 | Float32 | Float16 | Int64 | Int32 | Int16 | UInt16 | UInt8 | OtherDType(name: string)

  predicate IsFloat(d: DType) {
    d == Float64 || d == Float32 || d == Float16
  }

  /** How NumPy prints the dtype in the error message. */
  function DTypeName(d: DType): string {
    match d
    case Float64 => "float64"
    case Float32 => "float32"
    case Float16 => "float16"
    case Int64 => "int64"
    case Int32 => "int32"
    case Int16 => "int16"
    case UInt16 => "uint16"
    case UInt8 => "uint8"
    case OtherDType(name) => name
  }

  /** The values an array of this dtype can hold. */
  predicate InDTypeRange(d: DType, x: int) {
    match d
    case Int64 => -0x8000_0000_0000_0000 <= x < 0x8000_0000_0000_0000
    case Int32 => -0x8000_0000 <= x < 0x8000_0000
    case Int16 => InInt16(x)
    case UInt16 => 0 <= x < 0x1_0000
    case UInt8 => 0 <= x < 0x100
    case _ => true
  }

  predicate InInt16(x: int) {
    -0x8000 <= x < 0x8000
  }

  /** Division truncating toward zero, as a float quotient cast to an integer type does. */
  function TruncDiv(a: int, b: int): (q: int)
    requires b > 0
    ensures a >= 0 ==> q == a / b
    ensures a < 0 ==> q == -((-a) / b)
  {
    if a >= 0 then a / b else -((-a) / b)
  }

  /** uint16 arithmetic wraps modulo 2^16. */
  function WrapUInt16(x: int): (r: int)
    ensures 0 <= r < 0x1_0000
  {
    x % 0x1_0000
  }

  /** `astype(np.int16)` of a uint16 value reinterprets its bits. */
  function UInt16AsInt16(u: int): (r: int)
    requires 0 <= u < 0x1_0000
    ensures InInt16(r) && (r - u) % 0x1_0000 == 0
  {
    if u < 0x8000 then u else u - 0x1_0000
  }

  /** The uint16 branch: `data - 32768` in uint16, then reinterpreted. */
  function ConvertUInt16(x: int): int
    requires 0 <= x < 0x1_0000
  {
    UInt16AsInt16(WrapUInt16(x - 0x8000))
  }

  /** The uint8 branch: with NumPy's value-based casting, `data * 257` is uint16 and the
      subtraction wraps in uint16 before the reinterpreting cast. */
  function ConvertUInt8(x: int): int
    requires 0 <= x < 0x100
  {
    UInt16AsInt16(WrapUInt16(WrapUInt16(x * 257) - 0x8000))
  }

  /** Both wrap-arounds cancel: an unsigned sample is shifted down by 32768, so the unsigned
      range maps onto the whole int16 range, 0 to -32768 and the maximum to 32767. */
  lemma UnsignedBranchesShift(x: int)
    ensures 0 <= x < 0x1_0000 ==> ConvertUInt16(x) == x - 0x8000
    ensures 0 <= x < 0x100 ==> ConvertUInt8(x) == x * 257 - 0x8000
  {
    if 0 <= x < 0x1_0000 {
      var u := WrapUInt16(x - 0x8000);
      assert u == if x >= 0x8000 then x - 0x8000 else x + 0x8000;
    }
    if 0 <= x < 0x100 {
      assert WrapUInt16(x * 257) == x * 257;
      var u := WrapUInt16(x * 257 - 0x8000);
      assert u == if x * 257 >= 0x8000 then x * 257 - 0x8000 else x * 257 + 0x8000;
    }
  }

  lemma UnsignedEndpoints()
    ensures ConvertUInt16(0) == -32768 && ConvertUInt16(65535) == 32767
    ensures ConvertUInt8(0) == -32768 && ConvertUInt8(255) == 32767
  {
    UnsignedBranchesShift(0);
    UnsignedBranchesShift(65535);
    UnsignedBranchesShift(255);
  }

  /** Every int32 divided by 65538 fits in int16, so that branch never overflows. */
  lemma Int32QuotientFits(x: int)
    requires InDTypeRange(Int32, x)
    ensures InInt16(TruncDiv(x, 65538))
    ensures -32767 <= TruncDiv(x, 65538) <= 32767
  {
  }

  /** One sample through its dtype's branch. */
  function ConvertSample(dtype: DType, x: int, castOutOfRange: int -> int): (y: int)
    requires !IsFloat(dtype) && !dtype.OtherDType? && InDTypeRange(dtype, x)
    ensures dtype == Int16 ==> y == x
    ensures dtype == UInt16 ==> y == x - 32768
    ensures dtype == UInt8 ==> y == x * 257 - 32768
    ensures dtype == Int32 ==> y == TruncDiv(x, 65538)
    ensures dtype == Int64 && InInt16(TruncDiv(x, 4295229444)) ==> y == TruncDiv(x, 4295229444)
    ensures dtype != Int64 ==> InInt16(y)
  {
    UnsignedBranchesShift(x);
    match dtype
    case Int64 =>
      var q := TruncDiv(x, 4295229444);
      if InInt16(q) then q else castOutOfRange(x)
    case Int32 => Int32QuotientFits(x); TruncDiv(x, 65538)
    case Int16 => x
    case UInt16 => ConvertUInt16(x)
    case UInt8 => ConvertUInt8(x)
  }

  /**
   * `convert_to_16_bit_wav` for integer sample types. The int64 branch has no range check: a
   * quotient outside int16 is cast with platform-defined results, given by `castOutOfRange`.
   */
  function ConvertTo16BitWav(dtype: DType, data: seq<int>, castOutOfRange: int -> int): (r: Result<seq<int>, string>)
    requires !IsFloat(dtype)
    requires forall k :: 0 <= k < |data| ==> InDTypeRange(dtype, data[k])
    ensures dtype.OtherDType? <==> r.Err?
    ensures r.Err? ==>
      r.error == "Audio data cannot be converted automatically from " + DTypeName(dtype) + " to 16-bit int format."
    ensures r.Ok? ==> |r.value| == |data|
    ensures dtype == Int16 ==> r == Ok(data)
    ensures dtype == UInt16 ==> forall k :: 0 <= k < |data| ==> r.value[k] == data[k] - 32768
    ensures dtype == UInt8 ==> forall k :: 0 <= k < |data| ==> r.value[k] == data[k] * 257 - 32768
    ensures dtype == Int32 ==> forall k :: 0 <= k < |data| ==> r.value[k] == TruncDiv(data[k], 65538)
    ensures dtype == Int64 ==> forall k :: 0 <= k < |data| && InInt16(TruncDiv(data[k], 4295229444)) ==>
      r.value[k] == TruncDiv(data[k], 4295229444)
    ensures r.Ok? && dtype != Int64 ==> forall k :: 0 <= k < |data| ==> InInt16(r.value[k])
  {
    if dtype.OtherDType? then
      Err("Audio data cannot be converted automatically from " + dtype.name + " to 16-bit int format.")
    else if dtype == Int16 then
      assert forall k :: 0 <= k < |data| ==> InDTypeRange(Int16, data[k]) ==> InInt16(data[k]);
      Ok(data)
    else
      Ok(seq(|data|, k requires 0 <= k < |data| && InDTypeRange(dtype, data[k]) =>
        ConvertSample(dtype, data[k], castOutOfRange)))
  }

  // ---------------------------------------------------------------------------
  // Suffix dispatch

  /** Which reader `semantics_to_audio` uses: the first matching suffix wins. */
  datatype SemanticsReader = NpzArchive | NpyArray | ZipOfArrays | Unsupported

  function SemanticsReaderFor(fileName: string): (reader: SemanticsReader)
    ensures reader == NpzArchive <==> EndsWith(fileName, ".npz")
    ensures reader == NpyArray <==> EndsWith(fileName, ".npy")
    ensures reader == ZipOfArrays <==> EndsWith(fileName, ".zip")
    ensures reader == Unsupported <==>
      !EndsWith(fileName, ".npz") && !EndsWith(fileName, ".npy") && !EndsWith(fileName, ".zip")
  {
    SuffixesExclusive(fileName);
    if EndsWith(fileName, ".npz") then NpzArchive
    else if EndsWith(fileName, ".npy") then NpyArray
    else if EndsWith(fileName, ".zip") then ZipOfArrays
    else Unsupported
  }

  /** A name ends with at most one of the three suffixes, so the order of the tests does not
      matter. */
  lemma SuffixesExclusive(fileName: string)
    ensures !(EndsWith(fileName, ".npz") && EndsWith(fileName, ".npy"))
    ensures !(EndsWith(fileName, ".npz") && EndsWith(fileName, ".zip"))
    ensures !(EndsWith(fileName, ".npy") && EndsWith(fileName, ".zip"))
  {
    if |fileName| >= 4 {
      var tail := fileName[|fileName| - 4..];
      assert ".npz"[3] == 'z' && ".npy"[3] == 'y' && ".zip"[1] == 'z' && ".npz"[1] == 'n';
      if EndsWith(fileName, ".npz") { assert tail[3] == 'z' && tail[1] == 'n'; }
      if EndsWith(fileName, ".npy") { assert tail[3] == 'y'; }
    }
  }

  // ---------------------------------------------------------------------------
  // The temp-file rename

  /** `name.replace('\\', '/')` */
  function NormaliseSeparators(name: string): (r: string)
    ensures |r| == |name|
    ensures forall k :: 0 <= k < |name| ==> r[k] == if name[k] == '\\' then '/' else name[k]
  {
    seq(|name|, k requires 0 <= k < |name| => if name[k] == '\\' then '/' else name[k])
  }

  /** The index of the last '/' in name, -1 when there is none. */
  function LastSeparator(name: string): (i: int)
    ensures -1 <= i < |name|
    ensures i >= 0 ==> name[i] == '/'
    ensures forall j :: i < j < |name| ==> name[j] != '/'
  {
    if |name| == 0 then -1
    else if name[|name| - 1] == '/' then |name| - 1
    else LastSeparator(name[..|name| - 1])
  }

  /** `name.split('/')[-1]` */
  function LastSegment(name: string): (r: string)
    ensures |r| <= |name| && r == name[|name| - |r|..]
    ensures '/' !in r
    ensures |r| < |name| ==> name[|name| - |r| - 1] == '/'
  {
    name[LastSeparator(name) + 1..]
  }

  /** `temp.name.replace(temp.name.replace('\\', '/').split('/')[-1], target)` */
  function RenameTempFile(name: string, target: string): string {
    ReplaceAll(name, LastSegment(NormaliseSeparators(name)), target)
  }

  /** The basename found in the normalised name is also the suffix of the name itself. */
  lemma {:induction false} BasenameIsSuffix(name: string)
    ensures var b := LastSegment(NormaliseSeparators(name));
      |b| <= |name| && name[|name| - |b|..] == b && '/' !in b && '\\' !in b
  {
    var n := NormaliseSeparators(name);
    var b := LastSegment(n);
    var i := |name| - |b|;
    forall j | 0 <= j < |b|
      ensures name[i + j] == b[j] && b[j] != '\\'
    {
      assert b[j] == n[i + j];
      assert b[j] != '/';
    }
    assert name[i..] == b;
  }

  /** The basename is not empty and occurs in the name only at its end. */
  predicate BasenameOnlyAtEnd(name: string) {
    var b := LastSegment(NormaliseSeparators(name));
    |b| > 0 && forall i :: 0 <= i < |name| - |b| ==> !OccursAt(name, b, i)
  }

  /** The name without its basename: the directory part, separator included. */
  function TempDirectory(name: string): (dir: string)
    ensures |dir| <= |name| && dir == name[..|dir|]
  {
    var b := LastSegment(NormaliseSeparators(name));
    BasenameIsSuffix(name);
    name[..|name| - |b|]
  }

  /**
   * When the basename occurs in the name only at its end, as with a fresh temporary file,
   * the rename keeps the directory and swaps the basename for the target.
   */
  lemma RenameKeepsDirectory(name: string, target: string)
    requires BasenameOnlyAtEnd(name)
    ensures RenameTempFile(name, target) == TempDirectory(name) + target
  {
    var b := LastSegment(NormaliseSeparators(name));
    BasenameIsSuffix(name);
    var dir := name[..|name| - |b|];
    assert dir + b == name;
    ReplaceAllOnlySuffix(dir, b, target);
  }

  /** Python replaces every occurrence: a directory named like the basename is rewritten too. */
  lemma RenameRewritesEveryOccurrence(b: string, target: string)
    requires |b| > 0 && '/' !in b && '\\' !in b
    ensures RenameTempFile("/" + b + "/" + b, target) == "/" + target + "/" + target
  {
    var name := "/" + b + "/" + b;
    NormaliseWithoutBackslash(name);
    assert name[|name| - |b|..] == b && name[|name| - |b| - 1] == '/';
    BasenameOfSlashPath(name, b);
    ReplaceInSlashPath(b, target);
  }

  lemma ReplaceInSlashPath(b: string, target: string)
    requires |b| > 0 && '/' !in b
    ensures ReplaceAll("/" + b + "/" + b, b, target) == "/" + target + "/" + target
  {
    var rest := b + "/" + b;
    assert "/" + b + "/" + b == "/" + rest;
    assert rest[..|b|] == b && rest[|b|..] == "/" + b;
    var empty: string := [];
    calc {
      ReplaceAll("/" + rest, b, target);
      == { SlashThenPattern(rest, b, target); }
      "/" + target + ReplaceAll("/" + b, b, target);
      == { SlashThenPattern(b, b, target); assert b[|b|..] == empty; }
      "/" + target + ("/" + target + ReplaceAll(empty, b, target));
      == { assert ReplaceAll(empty, b, target) == empty; }
      "/" + target + "/" + target;
    }
  }

  /** Without a backslash there is nothing to normalise. */
  lemma NormaliseWithoutBackslash(name: string)
    requires '\\' !in name
    ensures NormaliseSeparators(name) == name
  {
  }

  /** The segment after the last '/' of `name` is the slash-free suffix `b` that follows one. */
  lemma BasenameOfSlashPath(name: string, b: string)
    requires |b| < |name| && name[|name| - |b|..] == b && name[|name| - |b| - 1] == '/' && '/' !in b
    ensures LastSegment(name) == b
  {
  }

  /** '/' followed by the pattern: the '/' is kept and that occurrence replaced. */
  lemma SlashThenPattern(rest: string, pattern: string, target: string)
    requires |pattern| > 0 && '/' !in pattern && |rest| >= |pattern| && rest[..|pattern|] == pattern
    ensures ReplaceAll("/" + rest, pattern, target) == "/" + target + ReplaceAll(rest[|pattern|..], pattern, target)
  {
    var s := "/" + rest;
    assert s[..|pattern|] != pattern by {
      assert s[..|pattern|][0] == '/' != pattern[0];
    }
    calc {
      ReplaceAll(s, pattern, target);
      [s[0]] + ReplaceAll(s[1..], pattern, target);
      { assert s[1..] == rest; }
      "/" + ReplaceAll(rest, pattern, target);
      "/" + (target + ReplaceAll(rest[|pattern|..], pattern, target));
      { assert "/" + (target + ReplaceAll(rest[|pattern|..], pattern, target))
          == "/" + target + ReplaceAll(rest[|pattern|..], pattern, target); }
      "/" + target + ReplaceAll(rest[|pattern|..], pattern, target);
    }
  }

  /** A file name whose basename is empty (it ends in a separator) gets the target inserted
      around every character. */
  lemma RenameOfDirectoryName(name: string, target: string)
    requires |name| > 0 && (name[|name| - 1] == '/' || name[|name| - 1] == '\\')
    ensures RenameTempFile(name, target) == InsertEverywhere(name, target)
  {
    assert LastSegment(NormaliseSeparators(name)) == [];
  }

  /** The wav name written for each archive entry: `file_info.filename.replace('.npy', '.wav')`. */
  function WavEntryName(entryName: string): string {
    ReplaceAll(entryName, ".npy", ".wav")
  }

  lemma WavEntryNameSwapsExtension(stem: string)
    requires forall i :: 0 <= i < |stem| ==> !OccursAt(stem + ".npy", ".npy", i)
    ensures WavEntryName(stem + ".npy") == stem + ".wav"
  {
    ReplaceAllOnlySuffix(stem, ".npy", ".wav");
  }

  // ---------------------------------------------------------------------------
  // Prompts from a recording

  /** What `audio_to_prompts` leaves behind: the two paths it returns and the arrays it saved,
      by path. */
  datatype PromptFiles = PromptFiles(finePath: string, coarsePath: string, written: map<string, seq<seq<int>>>)

  /** The two `numpy.save` calls, fine first: a second save to the same path replaces the first. */
  function SavePrompts(finePath: string, coarsePath: string,
                       fineHistory: seq<seq<int>>, coarseHistory: seq<seq<int>>): (files: PromptFiles)
    ensures files.finePath == finePath && files.coarsePath == coarsePath
    ensures finePath in files.written && coarsePath in files.written
    ensures forall p :: p in files.written ==> p == finePath || p == coarsePath
    ensures files.written[coarsePath] == coarseHistory
    ensures finePath != coarsePath ==> files.written[finePath] == fineHistory
  {
    PromptFiles(finePath, coarsePath, map[finePath := fineHistory][coarsePath := coarseHistory])
  }

  /**
   * `audio_to_prompts`: a `.wav` recording gives the fine and coarse histories (computed by
   * code outside this model and passed in), saved under the two temporary files renamed to
   * fine_prompt.npy and coarse_prompt.npy; any other file gives `(None, None)`.
   */
  function AudioToPrompts(fileName: string, fineTemp: string, coarseTemp: string,
                          fineHistory: seq<seq<int>>, coarseHistory: seq<seq<int>>): (r: Option<PromptFiles>)
    ensures r.None? <==> !EndsWith(fileName, ".wav")
    ensures r.Some? ==>
      r.value == SavePrompts(RenameTempFile(fineTemp, "fine_prompt.npy"), RenameTempFile(coarseTemp, "coarse_prompt.npy"),
                             fineHistory, coarseHistory)
  {
    if EndsWith(fileName, ".wav") then
      Some(SavePrompts(RenameTempFile(fineTemp, "fine_prompt.npy"), RenameTempFile(coarseTemp, "coarse_prompt.npy"),
                       fineHistory, coarseHistory))
    else None
  }

  /** Whatever the two directories, the prompt names differ 13 characters from the end. */
  lemma PromptPathsDiffer(fineDir: string, coarseDir: string)
    ensures fineDir + "fine_prompt.npy" != coarseDir + "coarse_prompt.npy"
  {
    var f, c := fineDir + "fine_prompt.npy", coarseDir + "coarse_prompt.npy";
    if |f| == |c| {
      // the 'n' of "fine" against the 's' of "coarse"
      assert f[|f| - 13] == 'n' && c[|c| - 13] == 's';
    }
  }

  /** With fresh temporary names, the prompts land beside the temporary files, and the second
      save cannot overwrite the first: both histories are kept. */
  lemma AudioToPromptsKeepsBoth(fileName: string, fineTemp: string, coarseTemp: string,
                                fineHistory: seq<seq<int>>, coarseHistory: seq<seq<int>>)
    requires EndsWith(fileName, ".wav")
    requires BasenameOnlyAtEnd(fineTemp) && BasenameOnlyAtEnd(coarseTemp)
    ensures var r := AudioToPrompts(fileName, fineTemp, coarseTemp, fineHistory, coarseHistory);
      r.Some?
      && r.value.finePath == TempDirectory(fineTemp) + "fine_prompt.npy"
      && r.value.coarsePath == TempDirectory(coarseTemp) + "coarse_prompt.npy"
      && r.value.written[r.value.finePath] == fineHistory
      && r.value.written[r.value.coarsePath] == coarseHistory
  {
    RenameKeepsDirectory(fineTemp, "fine_prompt.npy");
    RenameKeepsDirectory(coarseTemp, "coarse_prompt.npy");
    PromptPathsDiffer(TempDirectory(fineTemp), TempDirectory(coarseTemp));
  }
}
