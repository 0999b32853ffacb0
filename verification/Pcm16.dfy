/** Signed 16-bit little-endian samples, as struct.unpack("<h") and DataView.getInt16 read them. */
module Pcm16 {
  import opened Seqs

  newtype byte = x: int | 0 <= x < 256

  type Pcm = seq<byte>

  predicate IsSample(v: int) {
    -32768 <= v < 32768
  }

  type Sample16 = v: int | IsSample(v)

  predicate AllSamples(samples: seq<int>) {
    forall i :: 0 <= i < |samples| ==> IsSample(samples[i])
  }

  function Sample(lo: byte, hi: byte): (v: int)
    ensures IsSample(v)
  {
    var u := lo as int + 256 * hi as int;
    if u < 32768 then u else u - 65536
  }

  function Low(v: int): byte {
    (v % 256) as byte
  }

  function High(v: int): byte
    requires IsSample(v)
  {
    var u := if v < 0 then v + 65536 else v;
    (u / 256) as byte
  }

  /** Every sample of a buffer; a last odd byte belongs to none. */
  function Unpack(pcm: Pcm): (samples: seq<int>)
    ensures AllSamples(samples)
  {
    seq(|pcm| / 2, i requires 0 <= i < |pcm| / 2 => Sample(pcm[2 * i], pcm[2 * i + 1]))
  }

  function Pack(samples: seq<int>): Pcm
    requires AllSamples(samples)
  {
    seq(2 * |samples|, i requires 0 <= i < 2 * |samples| =>
      if i % 2 == 0 then Low(samples[i / 2]) else High(samples[i / 2]))
  }

  /** Two bytes a sample, the low one first, in two's complement. */
  lemma LittleEndian(samples: seq<int>, i: nat)
    requires AllSamples(samples) && i < |samples|
    ensures |Pack(samples)| == 2 * |samples|
    ensures var u := Pack(samples)[2 * i] as int + 256 * Pack(samples)[2 * i + 1] as int;
            samples[i] == if u < 32768 then u else u - 65536
  {
    assert (2 * i) / 2 == i && (2 * i + 1) / 2 == i && (2 * i + 1) % 2 == 1;
    SampleOfBytes(samples[i]);
  }

  lemma SampleOfBytes(v: int)
    requires IsSample(v)
    ensures Sample(Low(v), High(v)) == v
  {}

  lemma UnpackInvertsPack(samples: seq<int>)
    requires AllSamples(samples)
    ensures Unpack(Pack(samples)) == samples
  {
    forall i | 0 <= i < |samples|
      ensures Unpack(Pack(samples))[i] == samples[i]
    {
      assert (2 * i) / 2 == i && (2 * i + 1) / 2 == i && (2 * i + 1) % 2 == 1;
      SampleOfBytes(samples[i]);
    }
  }

  lemma BytesOfSample(lo: byte, hi: byte)
    ensures Low(Sample(lo, hi)) == lo && High(Sample(lo, hi)) == hi
  {}

  lemma PackInvertsUnpack(pcm: Pcm)
    requires |pcm| % 2 == 0
    ensures Pack(Unpack(pcm)) == pcm
  {
    forall i | 0 <= i < |pcm|
      ensures Pack(Unpack(pcm))[i] == pcm[i]
    {
      BytesOfSample(pcm[2 * (i / 2)], pcm[2 * (i / 2) + 1]);
    }
  }

  lemma PackShift(a: seq<int>, b: seq<int>, i: nat)
    requires AllSamples(a) && AllSamples(b) && i < 2 * |b|
    ensures Pack(a + b)[2 * |a| + i] == Pack(b)[i]
  {
    assert (2 * |a| + i) / 2 == |a| + i / 2 && (2 * |a| + i) % 2 == i % 2;
    assert (a + b)[|a| + i / 2] == b[i / 2];
  }

  lemma PackConcat(a: seq<int>, b: seq<int>)
    requires AllSamples(a) && AllSamples(b)
    ensures Pack(a + b) == Pack(a) + Pack(b)
  {
    forall i | 0 <= i < 2 * |b|
      ensures Pack(a + b)[2 * |a| + i] == Pack(b)[i]
    {
      PackShift(a, b, i);
    }
  }

  /** No chunk ends in the middle of a sample. */
  ghost predicate WholeSamples(chunks: seq<Pcm>) {
    forall k :: 0 <= k < |chunks| ==> |chunks[k]| % 2 == 0
  }

  /** The chunks that hold any audio, in order. */
  function NonEmpty(chunks: seq<Pcm>): seq<Pcm> {
    if chunks == [] then []
    else (if chunks[0] == [] then [] else [chunks[0]]) + NonEmpty(chunks[1..])
  }

  /** Leaving out the empty chunks leaves the audio, and every chunk that has any, as they are. */
  lemma {:induction false} NonEmptyKeepsAudio(chunks: seq<Pcm>)
    ensures Concat(NonEmpty(chunks)) == Concat(chunks)
    ensures forall k :: 0 <= k < |NonEmpty(chunks)| ==> NonEmpty(chunks)[k] != []
  {
    if chunks != [] {
      var c, rest := chunks[0], chunks[1..];
      NonEmptyKeepsAudio(rest);
      assert Concat(chunks) == c + Concat(rest) by {
        assert chunks == [c] + rest;
        ConcatCons(c, rest);
      }
      if c == [] {
        assert NonEmpty(chunks) == NonEmpty(rest);
        assert c + Concat(rest) == Concat(rest);
      } else {
        assert NonEmpty(chunks) == [c] + NonEmpty(rest);
        ConcatCons(c, NonEmpty(rest));
      }
    }
  }

  lemma {:induction false} NonEmptyIsKept(chunks: seq<Pcm>)
    requires forall k :: 0 <= k < |chunks| ==> chunks[k] != []
    ensures NonEmpty(chunks) == chunks
  {
    if chunks != [] {
      NonEmptyIsKept(chunks[1..]);
    }
  }
}
