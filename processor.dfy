/** The orchestration in processor.py's `DocumentProcessor`: formatting a
    text chunk by chunk, naming the output file after the PDF and the clock,
    preparing a document's text, and handing it to synthesis. The text the
    PDF yields, the current time, the formatting model and the speech model
    are parameters. */
module Processor {
  import opened Optional
  import opened Strings
  import TextProcessor
  import AudioProcessor

  /** The chunk size used when formatting (about 12K tokens). */
  const FormatMaxLength: int := 48000
  /** The chunk size of the single chunk kept in test mode (about 400 tokens). */
  const TestMaxLength: int := 1600
  /** The voice every document is read in. */
  const Voice: string := "alloy"

  // ---------------------------------------------------------------------------
  // format_text_chunks

  /** The formatter applied to every chunk, in order. */
  function FormatEach(chunks: seq<string>, format: string -> string): (r: seq<string>)
    ensures |r| == |chunks|
    ensures forall i :: 0 <= i < |chunks| ==> r[i] == format(chunks[i])
  {
    if chunks == [] then [] else FormatEach(chunks[..|chunks| - 1], format) + [format(chunks[|chunks| - 1])]
  }

  /** What `format_text_chunks(text)` returns: the formatted chunks of
      `split_text(text, 48000)` joined by single spaces. A text that fits in
      one chunk is formatted as a whole, with nothing added. */
  function FormattedText(text: string, format: string -> string): (r: string)
    ensures |text| <= FormatMaxLength ==> r == format(text)
  {
    Join(FormatEach(TextProcessor.Chunked(text, FormatMaxLength), format), " ")
  }

  /** `format_text_chunks(text)`: the loop that formats chunk after chunk.
      `calls` lists the arguments the formatter was called with, in order. */
  method FormatTextChunks(text: string, format: string -> string) returns (finalText: string, calls: seq<string>)
    ensures calls == TextProcessor.Chunked(text, FormatMaxLength)
    ensures finalText == FormattedText(text, format)
    ensures |text| <= FormatMaxLength ==> calls == [text] && finalText == format(text)
  {
    var chunks := TextProcessor.SplitText(text, FormatMaxLength);
    var formatted: seq<string> := [];
    calls := [];
    for i := 0 to |chunks|
      invariant calls == chunks[..i]
      invariant formatted == FormatEach(chunks[..i], format)
    {
      formatted := formatted + [format(chunks[i])];
      calls := calls + [chunks[i]];
      assert chunks[..i + 1][..i] == chunks[..i];
    }
    assert chunks[..|chunks|] == chunks;
    finalText := Join(formatted, " ");
  }

  // ---------------------------------------------------------------------------
  // get_timestamped_filename

  /** A wall-clock reading, as `datetime.now()` gives it. */
  datatype DateTime = DateTime(year: nat, month: nat, day: nat, hour: nat, minute: nat, second: nat)

  /** The ranges Python's `datetime` allows. */
  predicate ValidDateTime(t: DateTime)
  {
    1 <= t.year <= 9999 && 1 <= t.month <= 12 && 1 <= t.day <= 31
    && t.hour < 24 && t.minute < 60 && t.second < 60
  }

  function Pow10(w: nat): nat
  {
    if w == 0 then 1 else 10 * Pow10(w - 1)
  }

  /** `n` written in exactly `w` decimal digits, with leading zeros. */
  function Padded(n: nat, w: nat): (r: string)
    ensures |r| == w
    ensures forall i :: 0 <= i < |r| ==> '0' <= r[i] <= '9'
  {
    if w == 0 then [] else Padded(n / 10, w - 1) + [DigitChar(n % 10)]
  }

  /** The value of a decimal digit character (any other character counts as 0). */
  function DigitValue(c: char): nat
  {
    if '0' <= c <= '9' then c as int - '0' as int else 0
  }

  /** The number a string of decimal digits denotes. */
  function Value(s: string): nat
  {
    if s == [] then 0 else 10 * Value(s[..|s| - 1]) + DigitValue(s[|s| - 1])
  }

  /** Reading back a padded number gives the number, when it fits in the width. */
  lemma {:induction false} ValuePadded(n: nat, w: nat)
    requires n < Pow10(w)
    ensures Value(Padded(n, w)) == n
  {
    if w > 0 {
      var p := Padded(n, w);
      assert p[..w - 1] == Padded(n / 10, w - 1);
      assert n / 10 < Pow10(w - 1);
      ValuePadded(n / 10, w - 1);
    }
  }

  /** `now.strftime("%Y%m%d_%H%M%S")` */
  function Stamp(t: DateTime): (r: string)
    requires ValidDateTime(t)
    ensures |r| == 15 && r[8] == '_'
    ensures forall i :: 0 <= i < |r| && i != 8 ==> '0' <= r[i] <= '9'
  {
    Padded(t.year, 4) + Padded(t.month, 2) + Padded(t.day, 2) + "_"
    + Padded(t.hour, 2) + Padded(t.minute, 2) + Padded(t.second, 2)
  }

  /** The clock reading a stamp was made from. */
  function ParseStamp(s: string): DateTime
    requires |s| == 15
  {
    DateTime(Value(s[0..4]), Value(s[4..6]), Value(s[6..8]), Value(s[9..11]), Value(s[11..13]), Value(s[13..15]))
  }

  /** A stamp records the clock reading exactly. */
  lemma StampRoundTrip(t: DateTime)
    requires ValidDateTime(t)
    ensures ParseStamp(Stamp(t)) == t
  {
    StampFields(t);
    assert Pow10(2) == 100 && Pow10(4) == 10000;
    ValuePadded(t.year, 4);
    ValuePadded(t.month, 2);
    ValuePadded(t.day, 2);
    ValuePadded(t.hour, 2);
    ValuePadded(t.minute, 2);
    ValuePadded(t.second, 2);
  }

  /** Where each field sits in a stamp. */
  lemma StampFields(t: DateTime)
    requires ValidDateTime(t)
    ensures var s := Stamp(t);
      && s[0..4] == Padded(t.year, 4) && s[4..6] == Padded(t.month, 2) && s[6..8] == Padded(t.day, 2)
      && s[9..11] == Padded(t.hour, 2) && s[11..13] == Padded(t.minute, 2) && s[13..15] == Padded(t.second, 2)
  {
    var y, mo, d := Padded(t.year, 4), Padded(t.month, 2), Padded(t.day, 2);
    var h, mi, se := Padded(t.hour, 2), Padded(t.minute, 2), Padded(t.second, 2);
    var date := y + mo + d;
    var time := h + mi + se;
    var s := Stamp(t);
    assert s == date + "_" + time;
    assert s[0..8] == date && s[9..15] == time;
    assert date[0..4] == y && date[4..6] == mo && date[6..8] == d;
    assert time[0..2] == h && time[2..4] == mi && time[4..6] == se;
  }

  /** `get_timestamped_filename(base_name, test_mode)` at clock reading `now`:
      the base name, `_test` in test mode, an underscore, the stamp and `.mp3`. */
  function TimestampedFilename(baseName: string, testMode: bool, now: DateTime): (r: string)
    requires ValidDateTime(now)
    ensures |r| == |baseName| + (if testMode then 5 else 0) + 20
    ensures r[..|baseName|] == baseName
    ensures testMode ==> r[|baseName|..|baseName| + 5] == "_test"
    ensures r[|r| - 20] == '_' && r[|r| - 19..|r| - 4] == Stamp(now) && r[|r| - 4..] == ".mp3"
    ensures '/' !in baseName ==> '/' !in r
  {
    var stamp := Stamp(now);
    assert '/' !in stamp by {
      forall i | 0 <= i < |stamp| ensures stamp[i] != '/' {
        if i != 8 { assert '0' <= stamp[i] <= '9'; }
      }
    }
    var tag: string := if testMode then "_test" else "";
    var suffix := "_" + stamp + ".mp3";
    assert suffix[0] == '_' && suffix[1..16] == stamp && suffix[16..] == ".mp3";
    assert '/' !in tag && '/' !in suffix;
    var r := baseName + tag + suffix;
    assert r[..|baseName|] == baseName && r[|baseName|..|baseName| + |tag|] == tag;
    assert r[|r| - 20..] == suffix;
    r
  }

  /** The clock reading recorded in a timestamped file name. */
  function TimestampOf(name: string): DateTime
    requires |name| >= 19
  {
    ParseStamp(name[|name| - 19..|name| - 4])
  }

  /** The clock reading can be read back from a file name. */
  lemma TimestampOfFilename(baseName: string, testMode: bool, now: DateTime)
    requires ValidDateTime(now)
    ensures TimestampOf(TimestampedFilename(baseName, testMode, now)) == now
  {
    StampRoundTrip(now);
  }

  /** Two runs on the same document in the same mode at different clock
      readings produce different file names. */
  lemma FilenamesDifferInTime(baseName: string, testMode: bool, t1: DateTime, t2: DateTime)
    requires ValidDateTime(t1) && ValidDateTime(t2) && t1 != t2
    ensures TimestampedFilename(baseName, testMode, t1) != TimestampedFilename(baseName, testMode, t2)
  {
    TimestampOfFilename(baseName, testMode, t1);
    TimestampOfFilename(baseName, testMode, t2);
  }

  // ---------------------------------------------------------------------------
  // process_document

  /** The text to speak and where to save the audio. */
  datatype Prepared = Prepared(text: string, outputPath: string)

  /** The `ValueError` raised when the PDF yields no text. */
  datatype DocumentError = NoTextExtracted

  datatype Result<T, E> = Ok(value: T) | Err(error: E)

  /** The stem of the PDF's file name, which the output file is named after. */
  function DocumentStem(pdfPath: string): (r: string)
    ensures '/' !in r
  {
    SplitExt(Basename(pdfPath)).0
  }

  /** The text kept in test mode: the first chunk of `split_text(raw_text, 1600)`.
      It is within the bound or a single sentence with its separator, and it is
      empty only for an empty text or a long text whose first sentence does
      not fit. */
  function TestModeText(rawText: string): (r: string)
    ensures TextProcessor.Fits(r, TextProcessor.Sentences(rawText), TestMaxLength)
    ensures r == "" <==>
      if |rawText| <= TestMaxLength then rawText == ""
      else |TextProcessor.Sentences(rawText)[0]| + 2 > TestMaxLength
  {
    TextProcessor.ChunkedOnlyFirstEmpty(rawText, TestMaxLength);
    TextProcessor.ChunkedBound(rawText, TestMaxLength);
    var chunks := TextProcessor.Chunked(rawText, TestMaxLength);
    assert chunks[0] in chunks;
    chunks[0]
  }

  /** `process_document(pdf_path, test_mode)` at clock reading `now`, where
      `rawText` is the text extracted from the PDF. */
  function ProcessDocument(pdfPath: string, testMode: bool, now: DateTime, rawText: string): (r: Result<Prepared, DocumentError>)
    requires ValidDateTime(now)
    ensures r.Err? <==> forall i :: 0 <= i < |rawText| ==> IsSpace(rawText[i])
    ensures r.Ok? ==>
      var name := TimestampedFilename(DocumentStem(pdfPath), testMode, now);
      '/' !in name && r.value.outputPath == AudioProcessor.OutputsDir + "/" + name
    ensures r.Ok? && !testMode ==> r.value.text == rawText
    ensures r.Ok? && testMode ==> r.value.text == TestModeText(rawText)
  {
    StripEmptyIffBlank(rawText);
    var outputPath := JoinPath(AudioProcessor.OutputsDir, TimestampedFilename(DocumentStem(pdfPath), testMode, now));
    OutputPathInOutputs(pdfPath, testMode, now);
    if Strip(rawText) == [] then Err(NoTextExtracted)
    else if testMode then Ok(Prepared(TestModeText(rawText), outputPath))
    else Ok(Prepared(rawText, outputPath))
  }

  /** The output file is named after the PDF's stem and sits directly in the outputs directory. */
  lemma OutputPathInOutputs(pdfPath: string, testMode: bool, now: DateTime)
    requires ValidDateTime(now)
    ensures var name := TimestampedFilename(DocumentStem(pdfPath), testMode, now);
      '/' !in name && JoinPath(AudioProcessor.OutputsDir, name) == AudioProcessor.OutputsDir + "/" + name
  {
    var name := TimestampedFilename(DocumentStem(pdfPath), testMode, now);
    assert name[0] in name;
  }

  // ---------------------------------------------------------------------------
  // convert_to_audio

  /** The text `convert_to_audio` speaks. */
  function FinalText(text: string, useFormatting: bool, format: string -> string): (r: string)
    ensures !useFormatting ==> r == text
    ensures useFormatting && |text| <= FormatMaxLength ==> r == format(text)
  {
    if useFormatting then FormattedText(text, format) else text
  }

  /** `convert_to_audio(text, output_path, use_formatting, test_mode)`:
      synthesis of the formatted or the plain text in the fixed voice. */
  method ConvertToAudio(fs: AudioProcessor.FileSystem, text: string, outputPath: string, useFormatting: bool,
                        format: string -> string, tts: (string, string) -> Option<AudioProcessor.Audio>)
    returns (err: Option<AudioProcessor.Failure>)
    modifies fs
    ensures fs.files == AudioProcessor.AfterSpeech(old(fs.files), FinalText(text, useFormatting, format), outputPath, Voice, tts)
    ensures err == AudioProcessor.SpeechError(old(fs.files), FinalText(text, useFormatting, format), outputPath, Voice, tts)
  {
    var finalText := text;
    if useFormatting {
      var calls;
      finalText, calls := FormatTextChunks(text, format);
    }
    err := AudioProcessor.ProcessTextToSpeech(fs, finalText, outputPath, Voice, tts);
  }

  /** A prepared document's output file lies directly in the outputs
      directory, so its part files are read back from where they were
      written: when several chunks are all spoken, the output file holds
      their audio in order and the later parts are gone. */
  lemma PreparedDocumentCombined(files: map<string, AudioProcessor.Audio>, pdfPath: string, testMode: bool,
                                 now: DateTime, rawText: string, useFormatting: bool, format: string -> string,
                                 tts: (string, string) -> Option<AudioProcessor.Audio>)
    requires ValidDateTime(now)
    requires ProcessDocument(pdfPath, testMode, now, rawText).Ok?
    requires var p := ProcessDocument(pdfPath, testMode, now, rawText).value;
      var chunks := AudioProcessor.SpeechChunks(FinalText(p.text, useFormatting, format));
      |chunks| > 1 && AudioProcessor.FirstFailure(chunks, Voice, tts, 0) == |chunks|
    ensures var p := ProcessDocument(pdfPath, testMode, now, rawText).value;
      var text := FinalText(p.text, useFormatting, format);
      var chunks := AudioProcessor.SpeechChunks(text);
      var after := AudioProcessor.AfterSpeech(files, text, p.outputPath, Voice, tts);
      && AudioProcessor.SpeechError(files, text, p.outputPath, Voice, tts) == None
      && p.outputPath in after
      && after[p.outputPath] == AudioProcessor.Spoken(chunks, Voice, tts, |chunks|)
      && (forall i :: 2 <= i <= |chunks| ==> AudioProcessor.PartOf(p.outputPath, i) !in after)
      && (forall f :: f in files && f != p.outputPath && f !in AudioProcessor.PartsOf(p.outputPath, 1, |chunks| + 1) ==>
            f in after && after[f] == files[f])
      && (forall f :: f in after ==> f in files || f == p.outputPath || f == AudioProcessor.PartOf(p.outputPath, 1))
  {
    var p := ProcessDocument(pdfPath, testMode, now, rawText).value;
    var name := TimestampedFilename(DocumentStem(pdfPath), testMode, now);
    AudioProcessor.SpeechEndToEnd(files, FinalText(p.text, useFormatting, format), name, Voice, tts);
  }
}
