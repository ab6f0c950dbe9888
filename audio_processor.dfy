/** Speech synthesis per chunk and the reassembly of the part files
    (audio_processor.py). The file system is a map from path to decoded audio,
    held by a `FileSystem` object whose methods change it; audio is a sequence
    of samples, so pydub's `+=` is concatenation. The speech API is the
    parameter `tts`: `tts(text, voice)` is the audio it returns for that text,
    or `None` when the call raises. */
module AudioProcessor {
  import opened Optional
  import opened Strings
  import TextProcessor

  type Audio = seq<int>

  /** The errors the module raises: a part file that cannot be loaded, or a
      speech call that failed for the given chunk. */
  datatype Failure = FileNotFound(path: string) | SynthesisFailed(chunk: string)

  /** The directory part files are written to. */
  const OutputsDir: string := "outputs"

  /** The files on disk, by path. */
  class FileSystem {
    var files: map<string, Audio>

    constructor (initial: map<string, Audio>)
      ensures files == initial
    {
      files := initial;
    }

    /** `AudioSegment.from_mp3(path)`: the audio, or `None` when there is no such file. */
    method Load(path: string) returns (r: Option<Audio>)
      ensures r == if path in files then Some(files[path]) else None
    {
      r := if path in files then Some(files[path]) else None;
    }

    /** `os.remove(path)` */
    method Remove(path: string)
      requires path in files
      modifies this
      ensures files == old(files) - {path}
    {
      files := files - {path};
    }

    /** Writing `audio` to `path`, creating or replacing the file. */
    method Write(path: string, audio: Audio)
      modifies this
      ensures files == old(files)[path := audio]
    {
      files := files[path := audio];
    }
  }

  // ---------------------------------------------------------------------------
  // Part file names

  /** `f"{base}_part{i}{ext}"` */
  function PartPath(base: string, ext: string, i: nat): string
  {
    base + "_part" + NatToString(i) + ext
  }

  /** A part name starts with the base and ends with the extension, and the
      part number adds no slash: it lies in the directory of its base. */
  lemma PartPathShape(base: string, ext: string, i: nat)
    ensures var r := PartPath(base, ext, i);
      && |r| >= |base| + 6 + |ext|
      && r[..|base|] == base && r[|r| - |ext|..] == ext
      && ('/' in r ==> '/' in base || '/' in ext)
  {
    var number := NatToString(i);
    assert '/' !in number by {
      forall k | 0 <= k < |number| ensures number[k] != '/' {
        assert '0' <= number[k] <= '9';
      }
    }
  }

  /** Part `i` of `target` as `combine_audio_files` names it: the stem and
      extension of `target` around `_part{i}`. */
  function PartOf(target: string, i: nat): string
  {
    PartPath(SplitExt(target).0, SplitExt(target).1, i)
  }

  /** Different part numbers name different files. */
  lemma PartPathInjective(base: string, ext: string, i: nat, j: nat)
    requires PartPath(base, ext, i) == PartPath(base, ext, j)
    ensures i == j
  {
    var prefix := base + "_part";
    var si, sj := NatToString(i), NatToString(j);
    assert PartPath(base, ext, i) == prefix + si + ext;
    assert PartPath(base, ext, j) == prefix + sj + ext;
    assert si == (prefix + si + ext)[|prefix|..|prefix| + |si|];
    assert sj == (prefix + sj + ext)[|prefix|..|prefix| + |sj|];
    NatToStringInjective(i, j);
  }

  /** No part file of `target` is `target` itself. */
  lemma PartIsNotTarget(target: string, i: nat)
    ensures PartOf(target, i) != target
  {
    assert |PartOf(target, i)| > |SplitExt(target).0 + SplitExt(target).1|;
  }

  /** The part files of `target` numbered lo .. hi-1. */
  function PartsOf(target: string, lo: nat, hi: nat): set<string>
  {
    set i: nat | lo <= i < hi :: PartOf(target, i)
  }

  lemma InPartsOf(target: string, i: nat, lo: nat, hi: nat)
    ensures PartOf(target, i) in PartsOf(target, lo, hi) <==> lo <= i < hi
  {
    if PartOf(target, i) in PartsOf(target, lo, hi) {
      var j: nat :| lo <= j < hi && PartOf(target, j) == PartOf(target, i);
      PartPathInjective(SplitExt(target).0, SplitExt(target).1, i, j);
    }
  }

  /** A longer range of part numbers names more part files. */
  lemma PartsOfGrow(target: string, lo: nat, hi: nat, hi2: nat)
    requires hi <= hi2
    ensures PartsOf(target, lo, hi) <= PartsOf(target, lo, hi2)
  {
    forall p | p in PartsOf(target, lo, hi) ensures p in PartsOf(target, lo, hi2) {
      var i: nat :| lo <= i < hi && p == PartOf(target, i);
      assert lo <= i < hi2;
    }
  }

  /** A range of part numbers that starts later names fewer part files. */
  lemma PartsOfShrink(target: string, lo: nat, lo2: nat, hi: nat)
    requires lo <= lo2
    ensures PartsOf(target, lo2, hi) <= PartsOf(target, lo, hi)
  {
    forall p | p in PartsOf(target, lo2, hi) ensures p in PartsOf(target, lo, hi) {
      var i: nat :| lo2 <= i < hi && p == PartOf(target, i);
      assert lo <= i < hi;
    }
  }

  /** One more part number adds exactly its part file. */
  lemma PartsOfNext(target: string, lo: nat, i: nat)
    requires lo <= i
    ensures PartsOf(target, lo, i + 1) == PartsOf(target, lo, i) + {PartOf(target, i)}
  {
    forall p | p in PartsOf(target, lo, i + 1) ensures p in PartsOf(target, lo, i) + {PartOf(target, i)} {
      var j: nat :| lo <= j < i + 1 && p == PartOf(target, j);
      if j < i {
        assert p in PartsOf(target, lo, i);
      }
    }
  }

  // ---------------------------------------------------------------------------
  // combine_audio_files

  /** The last part `combine_audio_files(_, numChunks)` reads: part 1 always,
      then parts 2 .. numChunks. */
  function LastPart(numChunks: int): nat
  {
    if numChunks <= 1 then 1 else numChunks
  }

  /** The least part number in [lo, hi) whose file is missing, or hi. */
  function FirstMissing(files: map<string, Audio>, target: string, lo: nat, hi: nat): (k: nat)
    requires lo <= hi
    ensures lo <= k <= hi
    ensures forall i :: lo <= i < k ==> PartOf(target, i) in files
    ensures k < hi ==> PartOf(target, k) !in files
    decreases hi - lo
  {
    if lo == hi then hi
    else if PartOf(target, lo) !in files then lo
    else FirstMissing(files, target, lo + 1, hi)
  }

  /** The first missing part is k when every part before k is present and
      part k, if inside the range, is missing. */
  lemma {:induction false} FirstMissingAt(files: map<string, Audio>, target: string, lo: nat, k: nat, hi: nat)
    requires lo <= k <= hi
    requires forall i :: lo <= i < k ==> PartOf(target, i) in files
    requires k < hi ==> PartOf(target, k) !in files
    ensures FirstMissing(files, target, lo, hi) == k
    decreases hi - lo
  {
    if lo < k {
      FirstMissingAt(files, target, lo + 1, k, hi);
    }
  }

  /** Parts lo .. hi-1 of `target`, one after the other in increasing order. */
  function Joined(files: map<string, Audio>, target: string, lo: nat, hi: nat): Audio
    requires lo <= hi
    requires forall i :: lo <= i < hi ==> PartOf(target, i) in files
    decreases hi - lo
  {
    if lo == hi then [] else Joined(files, target, lo, hi - 1) + files[PartOf(target, hi - 1)]
  }

  /** The error `combine_audio_files(target, numChunks)` raises on `files`:
      the first part that cannot be loaded, if any. */
  function CombineError(files: map<string, Audio>, target: string, numChunks: int): Option<Failure>
  {
    var n := LastPart(numChunks);
    var k := FirstMissing(files, target, 1, n + 1);
    if k <= n then Some(FileNotFound(PartOf(target, k))) else None
  }

  /** Combining fails exactly when some part 1 .. N is missing, and the file
      it reports is one that is absent. */
  lemma CombineErrorMeaning(files: map<string, Audio>, target: string, numChunks: int)
    ensures var r := CombineError(files, target, numChunks);
      && (r.None? <==> forall i :: 1 <= i <= LastPart(numChunks) ==> PartOf(target, i) in files)
      && (r.Some? ==> r.value.FileNotFound? && r.value.path !in files)
  {
  }

  /** The files after `combine_audio_files(target, numChunks)`. Parts 2, 3, ...
      are removed one by one right after they are loaded; when part k cannot be
      loaded, parts 2 .. k-1 are gone and nothing is exported. Otherwise every
      part but the first is gone and `target` holds them all, in order. */
  function AfterCombine(files: map<string, Audio>, target: string, numChunks: int): map<string, Audio>
  {
    var n := LastPart(numChunks);
    var k := FirstMissing(files, target, 1, n + 1);
    if k <= n then files - PartsOf(target, 2, k)
    else (files - PartsOf(target, 2, n + 1))[target := Joined(files, target, 1, n + 1)]
  }

  /** Combining writes no file but the target and removes only parts 2 .. N. */
  lemma AfterCombineFrame(files: map<string, Audio>, target: string, numChunks: int)
    ensures var r := AfterCombine(files, target, numChunks);
      && (forall p :: p in r && p != target ==> p in files && r[p] == files[p])
      && files.Keys <= r.Keys + PartsOf(target, 2, LastPart(numChunks) + 1)
  {
    var n := LastPart(numChunks);
    PartsOfGrow(target, 2, FirstMissing(files, target, 1, n + 1), n + 1);
  }

  /** `combine_audio_files(base_filename, num_chunks)` */
  method CombineAudioFiles(fs: FileSystem, target: string, numChunks: int) returns (err: Option<Failure>)
    modifies fs
    ensures err == CombineError(old(fs.files), target, numChunks)
    ensures fs.files == AfterCombine(old(fs.files), target, numChunks)
  {
    ghost var files := fs.files;
    ghost var n := LastPart(numChunks);
    var first := fs.Load(PartOf(target, 1));
    if first.None? {
      assert FirstMissing(files, target, 1, n + 1) == 1;
      assert PartsOf(target, 2, 1) == {};
      return Some(FileNotFound(PartOf(target, 1)));
    }
    var combined := first.value;
    var i := 2;
    assert PartsOf(target, 2, 2) == {};
    while i <= numChunks
      invariant 2 <= i <= n + 1
      invariant forall j :: 1 <= j < i ==> PartOf(target, j) in files
      invariant combined == Joined(files, target, 1, i)
      invariant fs.files == files - PartsOf(target, 2, i)
    {
      var path := PartOf(target, i);
      InPartsOf(target, i, 2, i);
      var chunk := fs.Load(path);
      if chunk.None? {
        FirstMissingAt(files, target, 1, i, n + 1);
        return Some(FileNotFound(path));
      }
      combined := combined + chunk.value;
      fs.Remove(path);
      PartsOfNext(target, 2, i);
      i := i + 1;
    }
    FirstMissingAt(files, target, 1, n + 1, n + 1);
    fs.Write(target, combined);
    return None;
  }

  /** Splitting the joined parts at any part number gives the two runs. */
  lemma {:induction false} JoinedSplit(files: map<string, Audio>, target: string, lo: nat, mid: nat, hi: nat)
    requires lo <= mid <= hi
    requires forall i :: lo <= i < hi ==> PartOf(target, i) in files
    ensures Joined(files, target, lo, hi) == Joined(files, target, lo, mid) + Joined(files, target, mid, hi)
    decreases hi - mid
  {
    if mid < hi {
      JoinedSplit(files, target, lo, mid, hi - 1);
    }
  }

  /** In the joined audio, part i sits right after parts lo .. i-1, unaltered:
      the chunk boundaries appear in the order of the part numbers. */
  lemma JoinedOrder(files: map<string, Audio>, target: string, lo: nat, i: nat, hi: nat)
    requires lo <= i < hi
    requires forall j :: lo <= j < hi ==> PartOf(target, j) in files
    ensures var offset := |Joined(files, target, lo, i)|;
      var part := files[PartOf(target, i)];
      offset + |part| <= |Joined(files, target, lo, hi)|
      && Joined(files, target, lo, hi)[offset..offset + |part|] == part
  {
    JoinedSplit(files, target, lo, i + 1, hi);
    assert Joined(files, target, lo, i + 1) == Joined(files, target, lo, i) + files[PartOf(target, i)];
  }

  /** When every part 1 .. N can be loaded: `target` holds the parts in order,
      part 1 is kept, parts 2 .. N are removed, and no other file changes. */
  lemma CombineSucceeds(files: map<string, Audio>, target: string, numChunks: int)
    requires forall i :: 1 <= i <= LastPart(numChunks) ==> PartOf(target, i) in files
    ensures CombineError(files, target, numChunks) == None
    ensures var after := AfterCombine(files, target, numChunks);
      var n := LastPart(numChunks);
      && target in after
      && after[target] == Joined(files, target, 1, n + 1)
      && PartOf(target, 1) in after && after[PartOf(target, 1)] == files[PartOf(target, 1)]
      && (forall i :: 2 <= i <= n ==> PartOf(target, i) !in after)
      && (forall p :: p in after ==> p in files || p == target)
      && (forall p :: p in files && p != target && p !in PartsOf(target, 2, n + 1) ==> p in after && after[p] == files[p])
  {
    var n := LastPart(numChunks);
    assert FirstMissing(files, target, 1, n + 1) == n + 1 by {
      var k := FirstMissing(files, target, 1, n + 1);
      assert k <= n ==> PartOf(target, k) in files;
    }
    PartIsNotTarget(target, 1);
    InPartsOf(target, 1, 2, n + 1);
    forall i | 2 <= i <= n ensures PartOf(target, i) in PartsOf(target, 2, n + 1) {
      InPartsOf(target, i, 2, n + 1);
    }
  }

  /** When part k is the first that cannot be loaded: the error names it,
      parts 2 .. k-1 are removed, parts k .. N are untouched, nothing is
      exported, and no other file changes. If part 1 is missing nothing changes. */
  lemma CombineFailsAt(files: map<string, Audio>, target: string, numChunks: int, k: nat)
    requires 1 <= k <= LastPart(numChunks)
    requires forall i :: 1 <= i < k ==> PartOf(target, i) in files
    requires PartOf(target, k) !in files
    ensures CombineError(files, target, numChunks) == Some(FileNotFound(PartOf(target, k)))
    ensures var after := AfterCombine(files, target, numChunks);
      && (forall i :: 2 <= i < k ==> PartOf(target, i) !in after)
      && (forall i :: k <= i <= LastPart(numChunks) ==> (PartOf(target, i) in after <==> PartOf(target, i) in files))
      && (forall p :: p in after ==> p in files && after[p] == files[p])
      && (forall p :: p in files && p !in PartsOf(target, 2, k) ==> p in after)
      && (k == 1 ==> after == files)
  {
    var n := LastPart(numChunks);
    var m := FirstMissing(files, target, 1, n + 1);
    assert m == k;
    forall i | 2 <= i < k ensures PartOf(target, i) in PartsOf(target, 2, k) {
      InPartsOf(target, i, 2, k);
    }
    forall i | k <= i <= n ensures PartOf(target, i) !in PartsOf(target, 2, k) {
      InPartsOf(target, i, 2, k);
    }
    if k == 1 {
      assert PartsOf(target, 2, 1) == {};
    }
  }

  /** With at most one chunk the loop does not run: only part 1 is read,
      nothing is removed, and the export is a copy of part 1. */
  lemma CombineOnePart(files: map<string, Audio>, target: string, numChunks: int)
    requires numChunks <= 1
    requires PartOf(target, 1) in files
    ensures AfterCombine(files, target, numChunks) == files[target := files[PartOf(target, 1)]]
  {
    assert PartsOf(target, 2, 2) == {};
    assert FirstMissing(files, target, 1, 2) == 2;
    assert Joined(files, target, 1, 2) == [] + files[PartOf(target, 1)] == files[PartOf(target, 1)];
    assert files - PartsOf(target, 2, 2) == files;
  }

  // ---------------------------------------------------------------------------
  // create_audio_chunk and process_text_to_speech

  /** What `create_audio_chunk` leaves in its file: the synthesized audio, or
      the empty file it opened before the speech call raised. */
  function Synthesized(tts: (string, string) -> Option<Audio>, chunk: string, voice: string): Audio
  {
    if tts(chunk, voice).Some? then tts(chunk, voice).value else []
  }

  /** `create_audio_chunk(chunk, output_file, voice)`: open the file for
      writing, call the speech API, write its audio. */
  method CreateAudioChunk(fs: FileSystem, chunk: string, path: string, voice: string, tts: (string, string) -> Option<Audio>)
    returns (err: Option<Failure>)
    modifies fs
    ensures fs.files == old(fs.files)[path := Synthesized(tts, chunk, voice)]
    ensures err == if tts(chunk, voice).Some? then None else Some(SynthesisFailed(chunk))
  {
    fs.Write(path, []);
    var audio := tts(chunk, voice);
    if audio.None? {
      return Some(SynthesisFailed(chunk));
    }
    fs.Write(path, audio.value);
    return None;
  }

  /** `temp_base`: the stem of the output file, moved into `outputs/`. */
  function TempBase(outputFile: string): (r: string)
    ensures r == OutputsDir + "/" + Basename(SplitExt(outputFile).0)
  {
    var name := Basename(SplitExt(outputFile).0);
    assert name == [] || name[0] in name;
    JoinPath(OutputsDir, Basename(SplitExt(outputFile).0))
  }

  /** Part i as `process_text_to_speech` writes it. */
  function WrittenPart(outputFile: string, i: nat): string
  {
    PartPath(TempBase(outputFile), SplitExt(outputFile).1, i)
  }

  /** Every part is written directly in `outputs/`, whatever directory the
      output file is in. */
  lemma WrittenPartInOutputs(outputFile: string, i: nat)
    ensures var r := WrittenPart(outputFile, i);
      r[..|OutputsDir| + 1] == OutputsDir + "/" && '/' !in r[|OutputsDir| + 1..]
  {
    var b, ext := Basename(SplitExt(outputFile).0), SplitExt(outputFile).1;
    var r := WrittenPart(outputFile, i);
    PartPathShape(b, ext, i);
    WrittenPartForm(outputFile, i);
    assert r[|OutputsDir| + 1..] == PartPath(b, ext, i);
  }

  /** Part i is written as `outputs/`, the basename of the stem, `_part`,
      the number and the extension. */
  lemma WrittenPartForm(outputFile: string, i: nat)
    ensures var stem, ext := SplitExt(outputFile).0, SplitExt(outputFile).1;
      WrittenPart(outputFile, i) == OutputsDir + "/" + PartPath(Basename(stem), ext, i)
      && WrittenPart(outputFile, i) == (OutputsDir + "/" + Basename(stem) + "_part" + NatToString(i)) + ext
  {
  }

  /** The least chunk index from `from` on whose speech call fails, or |chunks|. */
  function FirstFailure(chunks: seq<string>, voice: string, tts: (string, string) -> Option<Audio>, from: nat): (f: nat)
    requires from <= |chunks|
    ensures from <= f <= |chunks|
    ensures forall j :: from <= j < f ==> tts(chunks[j], voice).Some?
    ensures f < |chunks| ==> tts(chunks[f], voice).None?
    decreases |chunks| - from
  {
    if from == |chunks| then from
    else if tts(chunks[from], voice).None? then from
    else FirstFailure(chunks, voice, tts, from + 1)
  }

  /** The files after parts 1 .. n were written from chunks 0 .. n-1. */
  function WriteParts(files: map<string, Audio>, chunks: seq<string>, outputFile: string, voice: string,
                      tts: (string, string) -> Option<Audio>, n: nat): (r: map<string, Audio>)
    requires n <= |chunks|
    ensures files.Keys <= r.Keys
  {
    if n == 0 then files
    else WriteParts(files, chunks, outputFile, voice, tts, n - 1)[WrittenPart(outputFile, n) := Synthesized(tts, chunks[n - 1], voice)]
  }

  /** The chunks `process_text_to_speech` speaks: `split_text(text)` with its default limit. */
  function SpeechChunks(text: string): (chunks: seq<string>)
    ensures |chunks| >= 1
  {
    TextProcessor.ChunkedNotEmpty(text, TextProcessor.DefaultMaxLength);
    TextProcessor.Chunked(text, TextProcessor.DefaultMaxLength)
  }

  /** The files after `process_text_to_speech(text, output_file, voice)`.
      One chunk is spoken straight into the output file. Several chunks are
      spoken into part files 1, 2, ... in order until a call fails (the failing
      part is left empty) and, when all succeed, the parts are combined. */
  function AfterSpeech(files: map<string, Audio>, text: string, outputFile: string, voice: string,
                       tts: (string, string) -> Option<Audio>): map<string, Audio>
  {
    var chunks := SpeechChunks(text);
    if |chunks| > 1 then
      var f := FirstFailure(chunks, voice, tts, 0);
      if f < |chunks| then WriteParts(files, chunks, outputFile, voice, tts, f + 1)
      else AfterCombine(WriteParts(files, chunks, outputFile, voice, tts, |chunks|), outputFile, |chunks|)
    else
      files[outputFile := Synthesized(tts, chunks[0], voice)]
  }

  /** The error `process_text_to_speech` catches and reports, if any. */
  function SpeechError(files: map<string, Audio>, text: string, outputFile: string, voice: string,
                       tts: (string, string) -> Option<Audio>): Option<Failure>
  {
    var chunks := SpeechChunks(text);
    if |chunks| > 1 then
      var f := FirstFailure(chunks, voice, tts, 0);
      if f < |chunks| then Some(SynthesisFailed(chunks[f]))
      else CombineError(WriteParts(files, chunks, outputFile, voice, tts, |chunks|), outputFile, |chunks|)
    else if tts(chunks[0], voice).Some? then None
    else Some(SynthesisFailed(chunks[0]))
  }

  /** Speech removes no file other than parts 2 .. N of the output. */
  lemma AfterSpeechFrame(files: map<string, Audio>, text: string, outputFile: string, voice: string,
                         tts: (string, string) -> Option<Audio>)
    ensures files.Keys <= AfterSpeech(files, text, outputFile, voice, tts).Keys + PartsOf(outputFile, 2, |SpeechChunks(text)| + 1)
  {
    var chunks := SpeechChunks(text);
    if |chunks| > 1 && FirstFailure(chunks, voice, tts, 0) == |chunks| {
      AfterCombineFrame(WriteParts(files, chunks, outputFile, voice, tts, |chunks|), outputFile, |chunks|);
    }
  }

  /** No error means every speech call succeeded; a reported speech failure
      names a chunk whose call failed. */
  lemma SpeechErrorMeaning(files: map<string, Audio>, text: string, outputFile: string, voice: string,
                           tts: (string, string) -> Option<Audio>)
    ensures var r := SpeechError(files, text, outputFile, voice, tts);
      var chunks := SpeechChunks(text);
      && (r.None? ==> forall j :: 0 <= j < |chunks| ==> tts(chunks[j], voice).Some?)
      && (r.Some? && r.value.SynthesisFailed? ==> r.value.chunk in chunks && tts(r.value.chunk, voice).None?)
  {
    var chunks := SpeechChunks(text);
    if |chunks| > 1 && FirstFailure(chunks, voice, tts, 0) == |chunks| {
      CombineErrorMeaning(WriteParts(files, chunks, outputFile, voice, tts, |chunks|), outputFile, |chunks|);
    }
  }

  /** `process_text_to_speech(text, output_file, voice)`; every error is
      caught and reported, never raised. */
  method ProcessTextToSpeech(fs: FileSystem, text: string, outputFile: string, voice: string,
                             tts: (string, string) -> Option<Audio>) returns (err: Option<Failure>)
    modifies fs
    ensures fs.files == AfterSpeech(old(fs.files), text, outputFile, voice, tts)
    ensures err == SpeechError(old(fs.files), text, outputFile, voice, tts)
  {
    ghost var files := fs.files;
    var chunks := TextProcessor.SplitText(text, TextProcessor.DefaultMaxLength);
    assert chunks == SpeechChunks(text);
    var (base, ext) := SplitExt(outputFile);
    var tempBase := JoinPath(OutputsDir, Basename(base));
    assert tempBase == TempBase(outputFile);
    if |chunks| > 1 {
      var i := 1;
      while i <= |chunks|
        invariant 1 <= i <= |chunks| + 1
        invariant FirstFailure(chunks, voice, tts, 0) >= i - 1
        invariant fs.files == WriteParts(files, chunks, outputFile, voice, tts, i - 1)
      {
        assert PartPath(tempBase, ext, i) == WrittenPart(outputFile, i);
        err := CreateAudioChunk(fs, chunks[i - 1], PartPath(tempBase, ext, i), voice, tts);
        if err.Some? {
          assert FirstFailure(chunks, voice, tts, 0) == i - 1;
          return;
        }
        i := i + 1;
      }
      assert FirstFailure(chunks, voice, tts, 0) == |chunks|;
      err := CombineAudioFiles(fs, outputFile, |chunks|);
    } else {
      err := CreateAudioChunk(fs, chunks[0], outputFile, voice, tts);
    }
  }

  // ---------------------------------------------------------------------------
  // What synthesis leaves behind

  /** The audio of chunks 0 .. n-1, one after the other. */
  function Spoken(chunks: seq<string>, voice: string, tts: (string, string) -> Option<Audio>, n: nat): Audio
    requires n <= |chunks|
  {
    if n == 0 then [] else Spoken(chunks, voice, tts, n - 1) + Synthesized(tts, chunks[n - 1], voice)
  }

  /** The basename of a path whose last component is `rest`. */
  lemma BasenameOf(dir: string, rest: string)
    requires '/' !in rest
    ensures Basename(dir + "/" + rest) == rest
  {
    var p := dir + "/" + rest;
    var slash := LastIndexOf(p, '/');
    assert p[|dir|] == '/';
    assert forall j :: |dir| < j < |p| ==> p[j] == rest[j - |dir| - 1];
    assert slash == |dir|;
    assert p[slash + 1..] == rest;
  }

  /** When the output file lies directly in `outputs/`, the parts are written
      exactly where `combine_audio_files` looks for them. */
  lemma TempBaseInOutputs(name: string)
    requires '/' !in name
    ensures TempBase(OutputsDir + "/" + name) == SplitExt(OutputsDir + "/" + name).0
    ensures forall i :: WrittenPart(OutputsDir + "/" + name, i) == PartOf(OutputsDir + "/" + name, i)
  {
    var p := OutputsDir + "/" + name;
    var slash := LastIndexOf(p, '/');
    assert p[7] == '/';
    assert forall j :: 7 < j < |p| ==> p[j] == name[j - 8];
    assert slash == 7;
    var base := SplitExt(p).0;
    assert |base| >= 8 && base <= p;
    var b := base[8..];
    assert base == OutputsDir + "/" + b;
    assert forall j :: 0 <= j < |b| ==> b[j] == name[j];
    BasenameOf(OutputsDir, b);
  }

  /** After parts 1 .. n are written, part j holds the speech of chunk j-1. */
  lemma {:induction false} WritePartsAt(files: map<string, Audio>, chunks: seq<string>, outputFile: string, voice: string,
                                        tts: (string, string) -> Option<Audio>, n: nat, j: nat)
    requires 1 <= j <= n <= |chunks|
    ensures WrittenPart(outputFile, j) in WriteParts(files, chunks, outputFile, voice, tts, n)
    ensures WriteParts(files, chunks, outputFile, voice, tts, n)[WrittenPart(outputFile, j)] == Synthesized(tts, chunks[j - 1], voice)
    decreases n
  {
    if j < n {
      if WrittenPart(outputFile, j) == WrittenPart(outputFile, n) {
        PartPathInjective(TempBase(outputFile), SplitExt(outputFile).1, j, n);
      }
      WritePartsAt(files, chunks, outputFile, voice, tts, n - 1, j);
    }
  }

  /** Writing the parts touches no other file. */
  lemma {:induction false} WritePartsElsewhere(files: map<string, Audio>, chunks: seq<string>, outputFile: string, voice: string,
                                               tts: (string, string) -> Option<Audio>, n: nat, p: string)
    requires n <= |chunks|
    requires forall j :: 1 <= j <= n ==> p != WrittenPart(outputFile, j)
    ensures p in WriteParts(files, chunks, outputFile, voice, tts, n) <==> p in files
    ensures p in files ==> WriteParts(files, chunks, outputFile, voice, tts, n)[p] == files[p]
    decreases n
  {
    if n > 0 {
      WritePartsElsewhere(files, chunks, outputFile, voice, tts, n - 1, p);
    }
  }

  /** Read back where they were written, the parts join into the speech of
      the chunks in order. */
  lemma {:induction false} JoinedWritten(files: map<string, Audio>, chunks: seq<string>, outputFile: string, voice: string,
                                         tts: (string, string) -> Option<Audio>, m: nat)
    requires forall i :: WrittenPart(outputFile, i) == PartOf(outputFile, i)
    requires m <= |chunks|
    ensures forall i :: 1 <= i < m + 1 ==> PartOf(outputFile, i) in WriteParts(files, chunks, outputFile, voice, tts, |chunks|)
    ensures Joined(WriteParts(files, chunks, outputFile, voice, tts, |chunks|), outputFile, 1, m + 1) == Spoken(chunks, voice, tts, m)
    decreases m
  {
    var w := WriteParts(files, chunks, outputFile, voice, tts, |chunks|);
    forall i | 1 <= i < m + 1 ensures PartOf(outputFile, i) in w {
      ReadBack(files, chunks, outputFile, voice, tts, i);
    }
    if m > 0 {
      JoinedWritten(files, chunks, outputFile, voice, tts, m - 1);
      ReadBack(files, chunks, outputFile, voice, tts, m);
      assert Joined(w, outputFile, 1, m + 1) == Joined(w, outputFile, 1, m) + w[PartOf(outputFile, m)];
    }
  }

  /** Part i, looked for where it was written, holds the speech of chunk i. */
  lemma ReadBack(files: map<string, Audio>, chunks: seq<string>, outputFile: string, voice: string,
                 tts: (string, string) -> Option<Audio>, i: nat)
    requires 1 <= i <= |chunks|
    requires WrittenPart(outputFile, i) == PartOf(outputFile, i)
    ensures var w := WriteParts(files, chunks, outputFile, voice, tts, |chunks|);
      PartOf(outputFile, i) in w && w[PartOf(outputFile, i)] == Synthesized(tts, chunks[i - 1], voice)
  {
    WritePartsAt(files, chunks, outputFile, voice, tts, |chunks|, i);
  }

  /** End to end, for an output file directly in `outputs/` and speech calls
      that all succeed: no error is reported, the output file holds the speech
      of every chunk in chunk order, part 1 stays behind and parts 2 .. N are gone. */
  lemma SpeechEndToEnd(files: map<string, Audio>, text: string, name: string, voice: string,
                       tts: (string, string) -> Option<Audio>)
    requires '/' !in name
    requires |SpeechChunks(text)| > 1
    requires FirstFailure(SpeechChunks(text), voice, tts, 0) == |SpeechChunks(text)|
    ensures var out := OutputsDir + "/" + name;
      var after := AfterSpeech(files, text, out, voice, tts);
      var n := |SpeechChunks(text)|;
      && SpeechError(files, text, out, voice, tts) == None
      && out in after && after[out] == Spoken(SpeechChunks(text), voice, tts, n)
      && PartOf(out, 1) in after && after[PartOf(out, 1)] == tts(SpeechChunks(text)[0], voice).value
      && (forall i :: 2 <= i <= n ==> PartOf(out, i) !in after)
      && (forall p :: p in files && p != out && p !in PartsOf(out, 1, n + 1) ==> p in after && after[p] == files[p])
      && (forall p :: p in after ==> p in files || p == out || p == PartOf(out, 1))
  {
    var out := OutputsDir + "/" + name;
    var chunks := SpeechChunks(text);
    TempBaseInOutputs(name);
    SpeechSucceededRun(files, text, out, voice, tts);
    WrittenThenCombined(files, chunks, out, voice, tts);
    WrittenThenCombinedFrame(files, chunks, out, voice, tts);
  }

  /** A run whose speech calls all succeed combines the parts it wrote. */
  lemma SpeechSucceededRun(files: map<string, Audio>, text: string, outputFile: string, voice: string,
                           tts: (string, string) -> Option<Audio>)
    requires |SpeechChunks(text)| > 1
    requires FirstFailure(SpeechChunks(text), voice, tts, 0) == |SpeechChunks(text)|
    ensures var chunks := SpeechChunks(text);
      var w := WriteParts(files, chunks, outputFile, voice, tts, |chunks|);
      && AfterSpeech(files, text, outputFile, voice, tts) == AfterCombine(w, outputFile, |chunks|)
      && SpeechError(files, text, outputFile, voice, tts) == CombineError(w, outputFile, |chunks|)
  {
  }

  /** Parts written where combining reads them, all spoken: combining
      succeeds, the output holds the chunks' speech, part 1 keeps the first
      chunk's speech and parts 2 .. N are gone. */
  lemma WrittenThenCombined(files: map<string, Audio>, chunks: seq<string>, outputFile: string, voice: string,
                            tts: (string, string) -> Option<Audio>)
    requires |chunks| >= 1
    requires forall i :: WrittenPart(outputFile, i) == PartOf(outputFile, i)
    requires forall k :: 0 <= k < |chunks| ==> tts(chunks[k], voice).Some?
    ensures var n := |chunks|;
      var w := WriteParts(files, chunks, outputFile, voice, tts, n);
      var after := AfterCombine(w, outputFile, n);
      && CombineError(w, outputFile, n) == None
      && outputFile in after && after[outputFile] == Spoken(chunks, voice, tts, n)
      && PartOf(outputFile, 1) in after && after[PartOf(outputFile, 1)] == tts(chunks[0], voice).value
      && (forall i :: 2 <= i <= n ==> PartOf(outputFile, i) !in after)
  {
    var n := |chunks|;
    JoinedWritten(files, chunks, outputFile, voice, tts, n);
    CombineSucceeds(WriteParts(files, chunks, outputFile, voice, tts, n), outputFile, n);
    ReadBack(files, chunks, outputFile, voice, tts, 1);
  }

  /** Parts written where combining reads them, all spoken: every file other
      than the output and parts 1 .. N is unchanged, and the only new files
      are the output and part 1. */
  lemma WrittenThenCombinedFrame(files: map<string, Audio>, chunks: seq<string>, outputFile: string, voice: string,
                                 tts: (string, string) -> Option<Audio>)
    requires |chunks| >= 1
    requires forall i :: WrittenPart(outputFile, i) == PartOf(outputFile, i)
    ensures var n := |chunks|;
      var after := AfterCombine(WriteParts(files, chunks, outputFile, voice, tts, n), outputFile, n);
      && (forall p :: p in files && p != outputFile && p !in PartsOf(outputFile, 1, n + 1) ==> p in after && after[p] == files[p])
      && (forall p :: p in after ==> p in files || p == outputFile || p == PartOf(outputFile, 1))
  {
    WrittenThenCombinedKeeps(files, chunks, outputFile, voice, tts);
    WrittenThenCombinedAdds(files, chunks, outputFile, voice, tts);
  }

  /** Every file other than the output and parts 1 .. N survives unchanged. */
  lemma WrittenThenCombinedKeeps(files: map<string, Audio>, chunks: seq<string>, outputFile: string, voice: string,
                                 tts: (string, string) -> Option<Audio>)
    requires |chunks| >= 1
    requires forall i :: WrittenPart(outputFile, i) == PartOf(outputFile, i)
    ensures var n := |chunks|;
      var after := AfterCombine(WriteParts(files, chunks, outputFile, voice, tts, n), outputFile, n);
      forall p :: p in files && p != outputFile && p !in PartsOf(outputFile, 1, n + 1) ==> p in after && after[p] == files[p]
  {
    var n := |chunks|;
    var w := WriteParts(files, chunks, outputFile, voice, tts, n);
    JoinedWritten(files, chunks, outputFile, voice, tts, n);
    CombineSucceeds(w, outputFile, n);
    WritePartsFrame(files, chunks, outputFile, voice, tts, n);
    PartsOfShrink(outputFile, 1, 2, n + 1);
    forall p | p !in PartsOf(outputFile, 1, n + 1) ensures NotWrittenPart(outputFile, p, n) {
      forall j | 1 <= j <= n ensures p != WrittenPart(outputFile, j) {
        InPartsOf(outputFile, j, 1, n + 1);
      }
    }
  }

  /** The only files that were not there before are the output and part 1. */
  lemma WrittenThenCombinedAdds(files: map<string, Audio>, chunks: seq<string>, outputFile: string, voice: string,
                                tts: (string, string) -> Option<Audio>)
    requires |chunks| >= 1
    requires forall i :: WrittenPart(outputFile, i) == PartOf(outputFile, i)
    ensures var n := |chunks|;
      var after := AfterCombine(WriteParts(files, chunks, outputFile, voice, tts, n), outputFile, n);
      forall p :: p in after ==> p in files || p == outputFile || p == PartOf(outputFile, 1)
  {
    var n := |chunks|;
    var w := WriteParts(files, chunks, outputFile, voice, tts, n);
    JoinedWritten(files, chunks, outputFile, voice, tts, n);
    CombineSucceeds(w, outputFile, n);
    WritePartsFrame(files, chunks, outputFile, voice, tts, n);
    forall p | p in AfterCombine(w, outputFile, n) ensures p in files || p == outputFile || p == PartOf(outputFile, 1) {
      if p != outputFile && p !in files {
        assert !NotWrittenPart(outputFile, p, n);
        var j :| 1 <= j <= n && p == WrittenPart(outputFile, j);
        assert p == PartOf(outputFile, j);
      }
    }
  }



  /** A single chunk is spoken straight into the output file; no part file is made. */
  lemma SpeechSingleChunk(files: map<string, Audio>, text: string, outputFile: string, voice: string,
                          tts: (string, string) -> Option<Audio>)
    requires |text| <= TextProcessor.DefaultMaxLength
    ensures AfterSpeech(files, text, outputFile, voice, tts) == files[outputFile := Synthesized(tts, text, voice)]
    ensures SpeechError(files, text, outputFile, voice, tts) == if tts(text, voice).Some? then None else Some(SynthesisFailed(text))
  {
  }

  /** No part file is the output file itself. */
  lemma WrittenPartIsNotOutput(outputFile: string, j: nat)
    ensures WrittenPart(outputFile, j) != outputFile
  {
    WrittenPartForm(outputFile, j);
    NotOwnPart(SplitExt(outputFile).0, SplitExt(outputFile).1, j);
  }

  /** `outputs/<basename of stem>_part<j><ext>` is never `<stem><ext>`: its
      basename would have to be longer than itself. */
  lemma NotOwnPart(stem: string, ext: string, j: nat)
    ensures (OutputsDir + "/" + Basename(stem) + "_part" + NatToString(j)) + ext != stem + ext
  {
    var b := Basename(stem);
    var rest := b + "_part" + NatToString(j);
    assert '/' !in rest by {
      PartPathShape(b, "", j);
      assert PartPath(b, "", j) == rest;
    }
    var path := OutputsDir + "/" + rest;
    assert (OutputsDir + "/" + b + "_part" + NatToString(j)) + ext == path + ext;
    BasenameOf(OutputsDir, rest);
    assert |rest| > |b|;
    SameExtensionSameStem(stem, path, ext);
  }

  /** Two paths with the same extension are equal only if their stems are. */
  lemma SameExtensionSameStem(a: string, b: string, ext: string)
    ensures a + ext == b + ext ==> a == b
  {
    if a + ext == b + ext {
      assert a == (a + ext)[..|a|] && b == (b + ext)[..|b|];
    }
  }

  /** When the speech call for chunk f (0-based) is the first to fail with
      several chunks: that failure is reported, parts 1 .. f hold the speech
      of the chunks before it, part f+1 is left empty, no later part is
      written, nothing is combined, and every other file, the output file
      among them, is untouched. */
  lemma SpeechFailsAt(files: map<string, Audio>, text: string, outputFile: string, voice: string,
                      tts: (string, string) -> Option<Audio>)
    requires |SpeechChunks(text)| > 1
    requires FirstFailure(SpeechChunks(text), voice, tts, 0) < |SpeechChunks(text)|
    ensures var chunks := SpeechChunks(text);
      var f := FirstFailure(chunks, voice, tts, 0);
      var after := AfterSpeech(files, text, outputFile, voice, tts);
      && SpeechError(files, text, outputFile, voice, tts) == Some(SynthesisFailed(chunks[f]))
      && (forall j :: 1 <= j <= f ==>
            WrittenPart(outputFile, j) in after && after[WrittenPart(outputFile, j)] == tts(chunks[j - 1], voice).value)
      && WrittenPart(outputFile, f + 1) in after && after[WrittenPart(outputFile, f + 1)] == []
      && (forall p :: NotWrittenPart(outputFile, p, f + 1) ==>
            (p in after <==> p in files) && (p in files ==> after[p] == files[p]))
      && (outputFile in after <==> outputFile in files)
      && (outputFile in files ==> after[outputFile] == files[outputFile])
  {
    var chunks := SpeechChunks(text);
    var f := FirstFailure(chunks, voice, tts, 0);
    SpeechFailedRun(files, text, outputFile, voice, tts);
    WritePartsFrame(files, chunks, outputFile, voice, tts, f + 1);
    forall k | 0 <= k < f ensures Synthesized(tts, chunks[k], voice) == tts(chunks[k], voice).value { }
    assert Synthesized(tts, chunks[f], voice) == [];
  }

  /** `p` is none of the parts 1 .. n written for `outputFile`. */
  predicate NotWrittenPart(outputFile: string, p: string, n: nat)
  {
    forall j :: 1 <= j <= n ==> p != WrittenPart(outputFile, j)
  }

  /** A run whose speech call fails at chunk f leaves the files as writing
      parts 1 .. f+1 left them and reports that chunk. */
  lemma SpeechFailedRun(files: map<string, Audio>, text: string, outputFile: string, voice: string,
                        tts: (string, string) -> Option<Audio>)
    requires |SpeechChunks(text)| > 1
    requires FirstFailure(SpeechChunks(text), voice, tts, 0) < |SpeechChunks(text)|
    ensures var chunks := SpeechChunks(text);
      var f := FirstFailure(chunks, voice, tts, 0);
      && AfterSpeech(files, text, outputFile, voice, tts) == WriteParts(files, chunks, outputFile, voice, tts, f + 1)
      && SpeechError(files, text, outputFile, voice, tts) == Some(SynthesisFailed(chunks[f]))
  {
  }

  /** After parts 1 .. n are written: each holds the speech of its chunk,
      and every other file, the output file among them, is as before. */
  lemma WritePartsFrame(files: map<string, Audio>, chunks: seq<string>, outputFile: string, voice: string,
                        tts: (string, string) -> Option<Audio>, n: nat)
    requires n <= |chunks|
    ensures var after := WriteParts(files, chunks, outputFile, voice, tts, n);
      && (forall j :: 1 <= j <= n ==>
            WrittenPart(outputFile, j) in after && after[WrittenPart(outputFile, j)] == Synthesized(tts, chunks[j - 1], voice))
      && (forall p :: NotWrittenPart(outputFile, p, n) ==>
            (p in after <==> p in files) && (p in files ==> after[p] == files[p]))
      && (outputFile in after <==> outputFile in files)
      && (outputFile in files ==> after[outputFile] == files[outputFile])
  {
    var after := WriteParts(files, chunks, outputFile, voice, tts, n);
    forall j | 1 <= j <= n
      ensures WrittenPart(outputFile, j) in after
      ensures after[WrittenPart(outputFile, j)] == Synthesized(tts, chunks[j - 1], voice)
      ensures outputFile != WrittenPart(outputFile, j)
    {
      WritePartsAt(files, chunks, outputFile, voice, tts, n, j);
      WrittenPartIsNotOutput(outputFile, j);
    }
    forall p | NotWrittenPart(outputFile, p, n)
      ensures p in after <==> p in files
      ensures p in files ==> after[p] == files[p]
    {
      WritePartsElsewhere(files, chunks, outputFile, voice, tts, n, p);
    }
  }

  /** With a single chunk whose speech call fails, the output file is still
      created (or truncated), and left empty, and the failure is reported. */
  lemma SingleChunkSpeechFails(files: map<string, Audio>, text: string, outputFile: string, voice: string,
                               tts: (string, string) -> Option<Audio>)
    requires |SpeechChunks(text)| == 1
    requires tts(SpeechChunks(text)[0], voice).None?
    ensures var after := AfterSpeech(files, text, outputFile, voice, tts);
      && outputFile in after && after[outputFile] == []
      && (forall p :: p in files && p != outputFile ==> p in after && after[p] == files[p])
      && SpeechError(files, text, outputFile, voice, tts) == Some(SynthesisFailed(SpeechChunks(text)[0]))
  {
  }

  /** `os.path.splitext` of a bare file name `stem.mp3` whose stem has no dot. */
  lemma SplitExtMp3(stem: string)
    requires stem != [] && '/' !in stem && '.' !in stem
    ensures SplitExt(stem + ".mp3") == (stem, ".mp3")
  {
    var p := stem + ".mp3";
    assert p[|stem|] == '.' && p[|stem| + 1..] == "mp3";
    assert LastIndexOf(p, '.') == |stem|;
    assert LastIndexOf(p, '/') == -1 by {
      assert forall j :: 0 <= j < |p| ==> p[j] != '/' by {
        assert forall j :: 0 <= j < |stem| ==> p[j] == stem[j];
      }
    }
    assert p[0] == stem[0] != '.';
    assert p[..|stem|] == stem;
  }

  /** For a bare output file name `stem.mp3` (the default is `output.mp3`),
      the parts are written as `outputs/stem_part{i}.mp3` but looked for as
      `stem_part{i}.mp3`; no written part is one of those, nor the output file. */
  lemma BareOutputNames(stem: string)
    requires stem != [] && '/' !in stem && '.' !in stem
    ensures var out := stem + ".mp3";
      && SplitExt(out) == (stem, ".mp3")
      && TempBase(out) == OutputsDir + "/" + stem
      && PartOf(out, 1) == PartPath(stem, ".mp3", 1)
      && forall j :: WrittenPart(out, j) != PartOf(out, 1) && WrittenPart(out, j) != out
  {
    var out := stem + ".mp3";
    SplitExtMp3(stem);
    assert LastIndexOf(stem, '/') == -1;
    assert Basename(stem) == stem;
    forall j ensures WrittenPart(out, j) != PartOf(out, 1) && WrittenPart(out, j) != out {
      var w := WrittenPart(out, j);
      assert w[7] == '/';
      assert '/' !in PartOf(out, 1) by {
        assert '/' !in NatToString(1) by {
          assert forall k :: 0 <= k < |NatToString(1)| ==> '0' <= NatToString(1)[k] <= '9';
        }
      }
    }
  }

  /** With a bare output file name `stem.mp3` and several chunks all spoken,
      combining looks for `stem_part1.mp3`, which was never written: it
      reports that file missing, the output file is neither created nor
      changed, and every written part is left in `outputs/`. */
  lemma BareOutputNotCombined(files: map<string, Audio>, text: string, stem: string, voice: string,
                              tts: (string, string) -> Option<Audio>)
    requires stem != [] && '/' !in stem && '.' !in stem
    requires |SpeechChunks(text)| > 1
    requires FirstFailure(SpeechChunks(text), voice, tts, 0) == |SpeechChunks(text)|
    requires PartPath(stem, ".mp3", 1) !in files
    ensures var out := stem + ".mp3";
      SpeechError(files, text, out, voice, tts) == Some(FileNotFound(PartPath(stem, ".mp3", 1)))
    ensures var out := stem + ".mp3";
      var after := AfterSpeech(files, text, out, voice, tts);
      && (out in after <==> out in files)
      && (out in files ==> after[out] == files[out])
      && forall i :: 1 <= i <= |SpeechChunks(text)| ==> PartPath(OutputsDir + "/" + stem, ".mp3", i) in after
  {
    var out := stem + ".mp3";
    var chunks := SpeechChunks(text);
    var n := |chunks|;
    BareOutputNames(stem);
    var w := WriteParts(files, chunks, out, voice, tts, n);
    assert AfterSpeech(files, text, out, voice, tts) == AfterCombine(w, out, n);
    assert SpeechError(files, text, out, voice, tts) == CombineError(w, out, n);
    WritePartsElsewhere(files, chunks, out, voice, tts, n, PartOf(out, 1));
    WritePartsElsewhere(files, chunks, out, voice, tts, n, out);
    CombineFailsAt(w, out, n, 1);
    assert AfterCombine(w, out, n) == w;
    forall i | 1 <= i <= n ensures PartPath(OutputsDir + "/" + stem, ".mp3", i) in w {
      WritePartsAt(files, chunks, out, voice, tts, n, i);
      assert WrittenPart(out, i) == PartPath(OutputsDir + "/" + stem, ".mp3", i);
    }
  }
}
