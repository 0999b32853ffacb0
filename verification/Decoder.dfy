/** From a text to a PCM stream (inference/pipeline/decoder.py, stream_pcm_for_text). */
module Decoder {
  import opened Wrappers
  import opened Pcm16
  import opened Batching
  import opened Crossfade
  import opened Seqs
  import opened TokenText
  import opened Snac

  const SAMPLE_RATE := 24000
  const CHUNK_SIZE := 8192

  /** The segments of a list of batches; `pcmOf` is the token generator and decoder of one batch. */
  function Segments(batches: seq<string>, pcmOf: string -> seq<Pcm>): seq<Pcm> {
    seq(|batches|, i requires 0 <= i < |batches| => Concat(pcmOf(batches[i])))
  }

  /** Full chunks, and a shorter one at the end if need be. */
  ghost predicate IsChunking(chunks: seq<Pcm>, pcm: Pcm) {
    && Concat(chunks) == pcm
    && (forall k :: 0 <= k < |chunks| - 1 ==> |chunks[k]| == CHUNK_SIZE)
    && (forall k :: 0 <= k < |chunks| ==> 0 < |chunks[k]| <= CHUNK_SIZE)
  }

  lemma {:induction false} WholeConcat(chunks: seq<Pcm>)
    requires WholeSamples(chunks)
    ensures |Concat(chunks)| % 2 == 0
  {
    if chunks != [] {
      WholeConcat(Front(chunks));
    }
  }

  lemma WholeIsSegmented(batches: seq<string>, pcmOf: string -> seq<Pcm>)
    ensures (forall t :: WholeSamples(pcmOf(t))) ==>
              StitchOf(Segments(batches, pcmOf), SAMPLE_RATE).Some? && WholeSamples(Segments(batches, pcmOf))
  {
    if forall t :: WholeSamples(pcmOf(t)) {
      forall k | 0 <= k < |batches|
        ensures |Segments(batches, pcmOf)[k]| % 2 == 0
      {
        assert WholeSamples(pcmOf(batches[k]));
        WholeConcat(pcmOf(batches[k]));
      }
      WholeIsStitched(Segments(batches, pcmOf), SAMPLE_RATE);
    }
  }

  /** The audio of one batch, as the token generator and the streaming decoder give it. */
  function PcmOf(generate: string -> seq<string>, parse: Parser, decode: Snac.Decoder): string -> seq<Pcm> {
    text => Streamed(Accepted(generate(text), parse), decode).chunks
  }

  /**
    Whatever tokens the generator gives and however the decoder decodes them, the batches of a text
    are stitched, and no batch comes out shortened.
   */
  lemma DecodedIsStitched(batches: seq<string>, generate: string -> seq<string>, parse: Parser, decode: Snac.Decoder)
    requires batches != []
    ensures var segments := Segments(batches, PcmOf(generate, parse, decode));
            var r := StitchOf(segments, SAMPLE_RATE);
            r.Some? && forall k :: 0 <= k < |batches| ==> |r.value| >= |segments[k]|
  {
    var pcmOf := PcmOf(generate, parse, decode);
    forall t
      ensures WholeSamples(pcmOf(t))
    {
      StreamedIsEven(Accepted(generate(t), parse), decode);
    }
    WholeIsSegmented(batches, pcmOf);
    assert FadeSamples(SAMPLE_RATE, 50) == 1200;
    forall k | 0 <= k < |batches|
      ensures |StitchOf(Segments(batches, pcmOf), SAMPLE_RATE).value| >= |Segments(batches, pcmOf)[k]|
    {
      StitchedIsNoShorter(Segments(batches, pcmOf), SAMPLE_RATE, k);
    }
  }

  /**
    A short text is streamed as it is decoded; a long one is batched, stitched, and then sent in
    chunks that add up to the stitched audio. Absent when stitching raises, which it cannot while
    every chunk is whole samples.
   */
  method StreamPcmForText(text: string, maxChars: int, pcmOf: string -> seq<Pcm>) returns (out: Option<seq<Pcm>>)
    ensures |text| <= maxChars ==> out == Some(pcmOf(text))
    ensures |text| > maxChars ==>
              var stitched := StitchOf(Segments(Batches(text, maxChars), pcmOf), SAMPLE_RATE);
              if stitched.None? then out.None? else out.Some? && IsChunking(out.value, stitched.value)
    ensures (forall t :: WholeSamples(pcmOf(t))) ==> out.Some?
  {
    if |text| <= maxChars {
      return Some(pcmOf(text));
    }
    var batches := MakeBatches(text, maxChars);
    var segments := [];
    for k := 0 to |batches|
      invariant segments == Segments(batches[..k], pcmOf)
    {
      assert batches[..k + 1][..k] == batches[..k];
      segments := segments + [Concat(pcmOf(batches[k]))];
    }
    assert batches[..|batches|] == batches;
    WholeIsSegmented(batches, pcmOf);
    var stitched := StitchPcmSegments(segments, SAMPLE_RATE);
    if stitched.None? {
      return None;
    }
    var chunks := Slices(stitched.value);
    out := Some(chunks);
  }

  method Slices(pcm: Pcm) returns (chunks: seq<Pcm>)
    ensures IsChunking(chunks, pcm)
  {
    chunks := [];
    var i := 0;
    while i < |pcm|
      invariant Concat(chunks) == pcm[..if i <= |pcm| then i else |pcm|]
      invariant i <= |pcm| ==> forall k :: 0 <= k < |chunks| ==> |chunks[k]| == CHUNK_SIZE
      invariant forall k :: 0 <= k < |chunks| - 1 ==> |chunks[k]| == CHUNK_SIZE
      invariant forall k :: 0 <= k < |chunks| ==> 0 < |chunks[k]| <= CHUNK_SIZE
      decreases |pcm| - i
    {
      var end := if i + CHUNK_SIZE <= |pcm| then i + CHUNK_SIZE else |pcm|;
      assert Front(chunks + [pcm[i..end]]) == chunks;
      assert pcm[..i] + pcm[i..end] == pcm[..end];
      chunks := chunks + [pcm[i..end]];
      i := i + CHUNK_SIZE;
    }
    assert pcm[..|pcm|] == pcm;
  }

  /** At the rate of the stream a seam of long enough segments takes 1200 samples, fifty milliseconds. */
  lemma SeamsTakeFiftyMs(segments: seq<Pcm>)
    requires segments != [] && WholeSamples(segments)
    requires forall k :: 0 <= k < |segments| ==> |segments[k]| >= 2400
    ensures StitchOf(segments, SAMPLE_RATE).Some?
    ensures |StitchOf(segments, SAMPLE_RATE).value| == TotalBytes(segments) - 2400 * (|segments| - 1)
  {
    StitchedLength(segments, SAMPLE_RATE, 1200);
  }
}
