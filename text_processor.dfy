/** Sentence-aware chunking (`split_text`) and the cost estimate
    (`calculate_costs`) of text_processor.py. */
module TextProcessor {
  import opened Strings

  /** The sentence boundary `split_text` cuts on and puts back. */
  const Separator: string := ". "

  /** Default `max_length` of `split_text`. */
  const DefaultMaxLength: int := 4000

  /** The pieces of `text.split('. ')`. */
  function Sentences(text: string): (r: seq<string>)
    ensures |r| >= 1
  {
    Split(text, Separator)
  }

  /** The chunks the packing loop still emits when it holds `current` and has
      `sentences` left to visit: a sentence joins the current chunk while the
      chunk, the sentence and its ". " fit in `maxLength`; otherwise the current
      chunk is flushed (even when it is still empty) and the sentence starts the
      next one. After the last sentence a non-empty current chunk is flushed. */
  function Pack(sentences: seq<string>, maxLength: int, current: string): (r: seq<string>)
    ensures |r| <= |sentences| + 1
    decreases |sentences|
  {
    if sentences == [] then
      if current != "" then [current] else []
    else
      var sentence := sentences[0];
      if |current| + |sentence| + 2 <= maxLength then
        Pack(sentences[1..], maxLength, current + sentence + Separator)
      else
        [current] + Pack(sentences[1..], maxLength, sentence + Separator)
  }

  /** What `split_text(text, max_length)` returns: the text itself when it fits,
      otherwise its sentences packed greedily from an empty chunk. */
  function Chunked(text: string, maxLength: int): (r: seq<string>)
    ensures |r| <= |Sentences(text)| + 1
  {
    if |text| <= maxLength then [text] else Pack(Sentences(text), maxLength, "")
  }

  /** `split_text`: the loop over the sentences, appending to `chunks`. */
  method SplitText(text: string, maxLength: int) returns (chunks: seq<string>)
    ensures chunks == Chunked(text, maxLength)
    ensures |text| <= maxLength ==> chunks == [text]
  {
    if |text| <= maxLength {
      return [text];
    }
    chunks := [];
    var sentences := Split(text, Separator);
    var current := "";
    for i := 0 to |sentences|
      invariant chunks + Pack(sentences[i..], maxLength, current) == Pack(sentences, maxLength, "")
    {
      var sentence := sentences[i];
      assert sentences[i..][1..] == sentences[i + 1..];
      if |current| + |sentence| + 2 <= maxLength {
        current := current + sentence + Separator;
      } else {
        chunks := chunks + [current];
        current := sentence + Separator;
      }
    }
    if current != "" {
      chunks := chunks + [current];
    }
  }

  // ---------------------------------------------------------------------------
  // What the chunks look like

  /** Every sentence followed by its ". ", one after the other. */
  function Punctuated(sentences: seq<string>): string
  {
    if sentences == [] then "" else sentences[0] + Separator + Punctuated(sentences[1..])
  }

  /** `c` ends with the sentence separator. */
  predicate Terminated(c: string)
  {
    |c| >= 2 && c[|c| - 2..] == Separator
  }

  /** `c` respects the limit, or is one sentence of `sentences` with its ". "
      (the case of a sentence too long to share a chunk), or is empty. */
  predicate Fits(c: string, sentences: seq<string>, maxLength: int)
  {
    c == "" || |c| <= maxLength || exists s :: s in sentences && c == s + Separator
  }

  lemma JoinCons(a: string, rest: seq<string>, sep: string)
    ensures Join([a] + rest, sep) == if rest == [] then a else a + sep + Join(rest, sep)
  {
    if rest != [] {
      assert ([a] + rest)[1..] == rest;
    }
  }

  lemma {:induction false} PunctuatedJoin(sentences: seq<string>)
    requires sentences != []
    ensures Punctuated(sentences) == Join(sentences, Separator) + Separator
    decreases |sentences|
  {
    if |sentences| > 1 {
      PunctuatedJoin(sentences[1..]);
    }
  }

  /** Concatenating what `Pack` emits gives the current chunk followed by every
      remaining sentence with its ". ". */
  lemma {:induction false} PackConcat(sentences: seq<string>, maxLength: int, current: string)
    ensures Join(Pack(sentences, maxLength, current), "") == current + Punctuated(sentences)
    decreases |sentences|
  {
    if sentences != [] {
      var sentence := sentences[0];
      if |current| + |sentence| + 2 <= maxLength {
        PackConcat(sentences[1..], maxLength, current + sentence + Separator);
      } else {
        var rest := Pack(sentences[1..], maxLength, sentence + Separator);
        PackConcat(sentences[1..], maxLength, sentence + Separator);
        JoinCons(current, rest, "");
      }
    }
  }

  /** Once the current chunk is non-empty, every chunk emitted is non-empty and
      at least one is. */
  lemma {:induction false} PackNonEmpty(sentences: seq<string>, maxLength: int, current: string)
    requires current != ""
    ensures |Pack(sentences, maxLength, current)| >= 1
    ensures forall c :: c in Pack(sentences, maxLength, current) ==> c != ""
    decreases |sentences|
  {
    if sentences != [] {
      var sentence := sentences[0];
      if |current| + |sentence| + 2 <= maxLength {
        PackNonEmpty(sentences[1..], maxLength, current + sentence + Separator);
      } else {
        PackNonEmpty(sentences[1..], maxLength, sentence + Separator);
      }
    }
  }

  /** Every non-empty chunk emitted ends with ". ". */
  lemma {:induction false} PackTerminated(sentences: seq<string>, maxLength: int, current: string)
    requires current == "" || Terminated(current)
    ensures forall c :: c in Pack(sentences, maxLength, current) ==> c == "" || Terminated(c)
    decreases |sentences|
  {
    if sentences != [] {
      var sentence := sentences[0];
      if |current| + |sentence| + 2 <= maxLength {
        PackTerminated(sentences[1..], maxLength, current + sentence + Separator);
      } else {
        PackTerminated(sentences[1..], maxLength, sentence + Separator);
      }
    }
  }

  /** Every chunk emitted fits, measured against the sentences of the whole text. */
  lemma {:induction false} PackFits(sentences: seq<string>, all: seq<string>, maxLength: int, current: string)
    requires forall s :: s in sentences ==> s in all
    requires Fits(current, all, maxLength)
    ensures forall c :: c in Pack(sentences, maxLength, current) ==> Fits(c, all, maxLength)
    decreases |sentences|
  {
    if sentences != [] {
      var sentence := sentences[0];
      assert sentence in all;
      if |current| + |sentence| + 2 <= maxLength {
        PackFits(sentences[1..], all, maxLength, current + sentence + Separator);
      } else {
        PackFits(sentences[1..], all, maxLength, sentence + Separator);
      }
    }
  }

  /** `split_text` never returns an empty list. */
  lemma ChunkedNotEmpty(text: string, maxLength: int)
    ensures |Chunked(text, maxLength)| >= 1
  {
    if |text| > maxLength {
      var sentences := Sentences(text);
      if |sentences[0]| + 2 <= maxLength {
        PackNonEmpty(sentences[1..], maxLength, sentences[0] + Separator);
        assert "" + sentences[0] + Separator == sentences[0] + Separator;
      }
    }
  }

  /** Only the first chunk can be empty. On the long path it is empty exactly
      when the first sentence with its ". " exceeds the limit, because the empty
      starting chunk is then flushed; on the short path exactly when the text is. */
  lemma ChunkedOnlyFirstEmpty(text: string, maxLength: int)
    ensures |Chunked(text, maxLength)| >= 1
    ensures forall i :: 0 < i < |Chunked(text, maxLength)| ==> Chunked(text, maxLength)[i] != ""
    ensures Chunked(text, maxLength)[0] == "" <==>
      if |text| <= maxLength then text == "" else |Sentences(text)[0]| + 2 > maxLength
  {
    if |text| > maxLength {
      var sentences := Sentences(text);
      var first := sentences[0] + Separator;
      PackNonEmpty(sentences[1..], maxLength, first);
      var rest := Pack(sentences[1..], maxLength, first);
      if |sentences[0]| + 2 <= maxLength {
        assert "" + sentences[0] + Separator == first;
        assert Chunked(text, maxLength) == rest;
        forall i | 0 <= i < |rest| ensures rest[i] != "" {
          assert rest[i] in rest;
        }
      } else {
        assert Chunked(text, maxLength) == [""] + rest;
        forall i | 0 < i < |Chunked(text, maxLength)| ensures Chunked(text, maxLength)[i] != "" {
          assert Chunked(text, maxLength)[i] == rest[i - 1];
          assert rest[i - 1] in rest;
        }
      }
    }
  }

  /** Long-path round trip: the chunks put together are the text with one
      ". " added at the end, because every piece of the split gets its ". " back. */
  lemma ChunkedRoundTrip(text: string, maxLength: int)
    requires |text| > maxLength
    ensures Join(Chunked(text, maxLength), "") == text + Separator
  {
    var sentences := Sentences(text);
    PackConcat(sentences, maxLength, "");
    PunctuatedJoin(sentences);
    JoinSplit(text, Separator);
  }

  /** Every chunk is within the limit, or is a single sentence with its ". "
      that is too long on its own (or is the empty first chunk). */
  lemma ChunkedBound(text: string, maxLength: int)
    ensures forall c :: c in Chunked(text, maxLength) ==> Fits(c, Sentences(text), maxLength)
  {
    if |text| > maxLength {
      PackFits(Sentences(text), Sentences(text), maxLength, "");
    }
  }

  /** On the long path every non-empty chunk ends with ". ". */
  lemma ChunkedTerminated(text: string, maxLength: int)
    requires |text| > maxLength
    ensures forall c :: c in Chunked(text, maxLength) ==> c == "" || Terminated(c)
  {
    PackTerminated(Sentences(text), maxLength, "");
  }

  /** Splitting text that holds no separator gives the text alone. */
  lemma {:induction false} SplitWithoutSeparator(s: string, sep: string)
    requires sep != []
    requires forall i :: !OccursAt(s, sep, i)
    ensures Split(s, sep) == [s]
    decreases |s|
  {
    if |s| >= |sep| {
      assert !OccursAt(s, sep, 0);
      forall i ensures !OccursAt(s[1..], sep, i) {
        if 0 <= i && i + |sep| <= |s| - 1 {
          assert s[1..][i..i + |sep|] == s[i + 1..i + 1 + |sep|];
          assert !OccursAt(s, sep, i + 1);
        }
      }
      SplitWithoutSeparator(s[1..], sep);
      assert [s[0]] + s[1..] == s;
    }
  }

  /** A long text without any ". " is NOT returned as one chunk: the empty
      starting chunk is flushed first, then the whole text with ". " added. */
  lemma ChunkedOneSentence(text: string, maxLength: int)
    requires |text| > maxLength
    requires forall i :: !OccursAt(text, Separator, i)
    ensures Chunked(text, maxLength) == ["", text + Separator]
  {
    SplitWithoutSeparator(text, Separator);
    assert Sentences(text) == [text];
    assert [text][1..] == [];
    assert Pack([text], maxLength, "") == [""] + Pack([], maxLength, text + Separator);
  }

  // ---------------------------------------------------------------------------
  // Cost estimate

  /** The record `calculate_costs` returns, with the three costs before rounding. */
  datatype CostEstimate = CostEstimate(
    characters: nat,
    chunks: nat,
    tokens: nat,
    gptCost: real,
    ttsCost: real,
    totalCost: real)

  /** `math.ceil(n / d)`: the least q with q * d >= n. */
  function CeilDiv(n: nat, d: nat): (q: nat)
    requires d > 0
    ensures q * d >= n
    ensures q == 0 || (q - 1) * d < n
  {
    var q := (n + d - 1) / d;
    assert (n + d - 1) == q * d + (n + d - 1) % d;
    q
  }

  /** A 4000-character chunk count never exceeds the 4-character token count. */
  lemma ChunksWithinTokens(n: nat)
    ensures CeilDiv(n, 4000) <= CeilDiv(n, 4)
  {
    var q, t := CeilDiv(n, 4000), CeilDiv(n, 4);
    if q > 0 {
      assert 4000 * (q - 1) < 4 * t;
      assert 1000 * (q - 1) < t;
    }
  }

  /** `calculate_costs(text)`: 4 characters per token, 4000 characters per
      chunk, $0.0010 per 1000 tokens of formatting and $0.015 per 1000
      characters of speech. */
  function CalculateCosts(text: string): (e: CostEstimate)
    ensures e.characters == |text|
    ensures 4 * e.tokens >= |text| && (e.tokens == 0 || 4 * (e.tokens - 1) < |text|)
    ensures 4000 * e.chunks >= |text| && (e.chunks == 0 || 4000 * (e.chunks - 1) < |text|)
    ensures e.chunks <= e.tokens
    ensures e.gptCost == e.tokens as real * 0.000001 && e.ttsCost == |text| as real * 0.000015
    ensures e.gptCost == 0.0 <==> text == []
    ensures e.ttsCost == 0.0 <==> text == []
    ensures e.totalCost == e.gptCost + e.ttsCost
  {
    var chars := |text|;
    var tokens := CeilDiv(chars, 4);
    ChunksWithinTokens(chars);
    var gpt := (tokens as real / 1000.0) * 0.0010;
    var tts := (chars as real / 1000.0) * 0.015;
    assert gpt == tokens as real * 0.000001;
    assert tts == chars as real * 0.000015;
    assert tokens == 0 <==> chars == 0;
    CostEstimate(chars, CeilDiv(chars, 4000), tokens, gpt, tts, gpt + tts)
  }

  /** A longer text never gets a smaller estimate in any field. */
  lemma CostsMonotone(shorter: string, longer: string)
    requires |shorter| <= |longer|
    ensures CalculateCosts(shorter).tokens <= CalculateCosts(longer).tokens
    ensures CalculateCosts(shorter).chunks <= CalculateCosts(longer).chunks
    ensures CalculateCosts(shorter).totalCost <= CalculateCosts(longer).totalCost
  {
    var a, b := CeilDiv(|shorter|, 4), CeilDiv(|longer|, 4);
    assert a <= b by {
      assert a == 0 || 4 * (a - 1) < 4 * b;
    }
    var c, e := CeilDiv(|shorter|, 4000), CeilDiv(|longer|, 4000);
    assert c <= e by {
      assert c == 0 || 4000 * (c - 1) < 4000 * e;
    }
  }
}
