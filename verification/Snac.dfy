/**
  The streaming SNAC decoder (inference/pipeline/speechpipe.py): frames of seven codes, a sliding
  window of four frames, and the offline computation it streams. The neural decoder is a function
  from codebooks to samples that nothing is assumed about.
 */
module Snac {
  import opened Wrappers
  import opened Pcm16
  import opened Seqs
  import opened TokenText

  const WINDOW := 28
  const SAMPLES_PER_FRAME := 2048

  datatype Codebooks = Codebooks(c0: seq<int>, c1: seq<int>, c2: seq<int>)

  /** The neural decoder, with its output scaled to 16-bit samples, or nothing where it raises. */
  type Decoder = Codebooks -> Option<seq<Sample16>>

  // ---------------------------------------------------------------- interleaving

  /** Where the four codes of the third codebook stand in a frame. */
  function Third(j: nat): nat
    requires j < 4
  {
    if j == 0 then 2 else if j == 1 then 3 else if j == 2 then 5 else 6
  }

  /** The re-indexing of convert_to_audio; codes after the last whole frame are ignored. */
  function Deinterleave(codes: seq<int>): Codebooks {
    var n := |codes| / 7;
    Codebooks(
      seq(n, k requires 0 <= k < n => codes[7 * k]),
      seq(2 * n, j requires 0 <= j < 2 * n => codes[7 * (j / 2) + if j % 2 == 0 then 1 else 4]),
      seq(4 * n, j requires 0 <= j < 4 * n => codes[7 * (j / 4) + Third(j % 4)]))
  }

  ghost predicate Framed(cb: Codebooks) {
    |cb.c1| == 2 * |cb.c0| && |cb.c2| == 4 * |cb.c0|
  }

  /** The code at one of the seven positions of frame `k`. */
  function CodeAt(cb: Codebooks, k: nat, position: nat): int
    requires Framed(cb) && k < |cb.c0| && position < 7
  {
    match position
    case 0 => cb.c0[k]
    case 1 => cb.c1[2 * k]
    case 2 => cb.c2[4 * k]
    case 3 => cb.c2[4 * k + 1]
    case 4 => cb.c1[2 * k + 1]
    case 5 => cb.c2[4 * k + 2]
    case _ => cb.c2[4 * k + 3]
  }

  ghost function Interleave(cb: Codebooks): seq<int>
    requires Framed(cb)
  {
    seq(7 * |cb.c0|, i requires 0 <= i < 7 * |cb.c0| => CodeAt(cb, i / 7, i % 7))
  }

  lemma AtFrame(cb: Codebooks, k: nat, position: nat)
    requires Framed(cb) && k < |cb.c0| && position < 7
    ensures Interleave(cb)[7 * k + position] == CodeAt(cb, k, position)
  {
    assert (7 * k + position) / 7 == k && (7 * k + position) % 7 == position;
  }

  lemma SecondComesBack(cb: Codebooks, j: nat)
    requires Framed(cb) && j < |cb.c1|
    ensures Deinterleave(Interleave(cb)).c1[j] == cb.c1[j]
  {
    AtFrame(cb, j / 2, if j % 2 == 0 then 1 else 4);
  }

  lemma ThirdComesBack(cb: Codebooks, j: nat)
    requires Framed(cb) && j < |cb.c2|
    ensures Deinterleave(Interleave(cb)).c2[j] == cb.c2[j]
  {
    AtFrame(cb, j / 4, Third(j % 4));
  }

  lemma DeinterleaveInvertsInterleave(cb: Codebooks)
    requires Framed(cb)
    ensures Deinterleave(Interleave(cb)) == cb
  {
    var d := Deinterleave(Interleave(cb));
    forall k | 0 <= k < |cb.c0|
      ensures d.c0[k] == cb.c0[k]
    {
      AtFrame(cb, k, 0);
    }
    forall j | 0 <= j < |cb.c1|
      ensures d.c1[j] == cb.c1[j]
    {
      SecondComesBack(cb, j);
    }
    forall j | 0 <= j < |cb.c2|
      ensures d.c2[j] == cb.c2[j]
    {
      ThirdComesBack(cb, j);
    }
  }

  lemma SecondOfFrame(codes: seq<int>, k: nat)
    requires 7 * k + 7 <= |codes|
    ensures 2 * k + 1 < |Deinterleave(codes).c1|
    ensures Deinterleave(codes).c1[2 * k] == codes[7 * k + 1]
    ensures Deinterleave(codes).c1[2 * k + 1] == codes[7 * k + 4]
  {
    assert (2 * k) / 2 == k && (2 * k + 1) / 2 == k && (2 * k + 1) % 2 == 1;
  }

  lemma ThirdOfFrame(codes: seq<int>, k: nat, j: nat)
    requires 7 * k + 7 <= |codes| && j < 4
    ensures 4 * k + j < |Deinterleave(codes).c2|
    ensures Deinterleave(codes).c2[4 * k + j] == codes[7 * k + Third(j)]
  {
    assert (4 * k + j) / 4 == k && (4 * k + j) % 4 == j;
  }

  /** The codebooks hold the seven codes of a frame as frame `k`. */
  ghost predicate HoldsFrame(cb: Codebooks, k: nat, frame: seq<int>) {
    && Framed(cb) && k < |cb.c0| && |frame| == 7
    && cb.c0[k] == frame[0]
    && cb.c1[2 * k] == frame[1] && cb.c1[2 * k + 1] == frame[4]
    && cb.c2[4 * k] == frame[2] && cb.c2[4 * k + 1] == frame[3]
    && cb.c2[4 * k + 2] == frame[5] && cb.c2[4 * k + 3] == frame[6]
  }

  lemma HoldsCode(cb: Codebooks, k: nat, frame: seq<int>, position: nat)
    requires HoldsFrame(cb, k, frame) && position < 7
    ensures CodeAt(cb, k, position) == frame[position]
  {}

  lemma FrameComesBack(codes: seq<int>, k: nat)
    requires 7 * k + 7 <= |codes|
    ensures HoldsFrame(Deinterleave(codes), k, codes[7 * k..7 * k + 7])
  {
    SecondOfFrame(codes, k);
    ThirdOfFrame(codes, k, 0);
    ThirdOfFrame(codes, k, 1);
    ThirdOfFrame(codes, k, 2);
    ThirdOfFrame(codes, k, 3);
  }

  lemma CodeComesBack(codes: seq<int>, k: nat, position: nat)
    requires 7 * k + 7 <= |codes| && position < 7
    ensures Framed(Deinterleave(codes)) && k < |Deinterleave(codes).c0|
    ensures CodeAt(Deinterleave(codes), k, position) == codes[7 * k + position]
  {
    FrameComesBack(codes, k);
    HoldsCode(Deinterleave(codes), k, codes[7 * k..7 * k + 7], position);
    assert codes[7 * k..7 * k + 7][position] == codes[7 * k + position];
  }

  lemma InterleaveInvertsDeinterleave(codes: seq<int>)
    requires |codes| % 7 == 0
    ensures Framed(Deinterleave(codes)) && Interleave(Deinterleave(codes)) == codes
  {
    forall i | 0 <= i < |codes|
      ensures Interleave(Deinterleave(codes))[i] == codes[i]
    {
      CodeComesBack(codes, i / 7, i % 7);
    }
  }

  // ---------------------------------------------------------------- one window

  predicate InRange(codes: seq<int>) {
    forall i :: 0 <= i < |codes| ==> 0 <= codes[i] <= 4096
  }

  /** The bytes of samples 2048 to 4096. */
  function SecondFrame(samples: seq<Sample16>): Pcm {
    Pack(PySlice(samples, 2048, 4096))
  }

  /** The tensor that holds a window has 32-bit elements. */
  const INT32 := 0x8000_0000

  predicate FitsInt32(codes: seq<int>) {
    forall i :: 0 <= i < |codes| ==> -INT32 <= codes[i] < INT32
  }

  /** Some code is 2^31 or more. */
  ghost predicate TooWide(codes: seq<int>) {
    exists i :: 0 <= i < |codes| && codes[i] >= INT32
  }

  /** The codes are in range, and the neural decoder raises on them. */
  ghost predicate Refuses(decode: Decoder, w: seq<int>) {
    InRange(w) && decode(Deinterleave(w)).None?
  }

  /** What becomes of a window: its audio, nothing, or an error that ends the stream. */
  datatype Conversion = Decoded(pcm: Pcm) | Silent | Raised

  /**
    The decoded slice of a window. A code that does not fit the tensor raises, and so may the neural
    decoder; a window that is too short, or whose codes fit the tensor but not the codebooks, gives
    nothing.
   */
  function ConvertToAudio(multiframe: seq<int>, decode: Decoder): Conversion {
    if |multiframe| < 7 then Silent
    else if !FitsInt32(multiframe[..|multiframe| / 7 * 7]) then Raised
    else
      var cb := Deinterleave(multiframe);
      if !InRange(cb.c0) || !InRange(cb.c1) || !InRange(cb.c2) then Silent
      else if decode(cb).None? then Raised
      else Decoded(SecondFrame(decode(cb).value))
  }

  /** The codebook check sees every code of the whole frames and nothing else. */
  lemma RangeOfCodebooks(codes: seq<int>)
    requires |codes| % 7 == 0
    ensures var cb := Deinterleave(codes);
            InRange(cb.c0) && InRange(cb.c1) && InRange(cb.c2) <==> InRange(codes)
  {
    var cb := Deinterleave(codes);
    InterleaveInvertsDeinterleave(codes);
    if InRange(cb.c0) && InRange(cb.c1) && InRange(cb.c2) {
      forall i | 0 <= i < |codes|
        ensures 0 <= codes[i] <= 4096
      {
        CodeComesBack(codes, i / 7, i % 7);
      }
    }
  }

  // ---------------------------------------------------------------- the decoder loop

  predicate Accepts(id: Option<int>) {
    id.Some? && id.value > 0
  }

  /** A token is parsed at the number of codes kept before it. */
  function Extend(v: seq<int>, token: string, parse: Parser): seq<int> {
    var id := parse(token, |v| % 7);
    if Accepts(id) then v + [id.value] else v
  }

  /** The codes the decoder keeps. */
  function Accepted(tokens: seq<string>, parse: Parser): seq<int> {
    if tokens == [] then []
    else Extend(Accepted(tokens[..|tokens| - 1], parse), tokens[|tokens| - 1], parse)
  }

  /** The aligned windows of a code sequence: frames k to k + 3, for every k. */
  function Windows(v: seq<int>): seq<seq<int>> {
    if |v| < WINDOW then []
    else seq(|v| / 7 - 3, k requires 0 <= k < |v| / 7 - 3 => v[7 * k..7 * k + WINDOW])
  }

  /** What a generator has yielded, and whether it ended by raising. */
  datatype Output = Output(chunks: seq<Pcm>, raised: bool)

  /** One window's contribution; after an error there is none. */
  function Feed(o: Output, w: seq<int>, decode: Decoder): Output {
    if o.raised then o
    else
      match ConvertToAudio(w, decode)
      case Decoded(pcm) => o.(chunks := o.chunks + [pcm])
      case Silent => o
      case Raised => o.(raised := true)
  }

  /** The audio of windows, one after the other, up to one that raises. */
  function Audio(windows: seq<seq<int>>, decode: Decoder): Output {
    if windows == [] then Output([], false)
    else Feed(Audio(windows[..|windows| - 1], decode), windows[|windows| - 1], decode)
  }

  /** The flush after the last token: the last 28 codes, if they do not end a frame. */
  function Tail(v: seq<int>): seq<seq<int>> {
    if |v| > 27 && |v| % 7 != 0 then [v[|v| - WINDOW..]] else []
  }

  lemma WindowsAppend(v: seq<int>, c: int)
    ensures Windows(v + [c])
         == Windows(v) + if (|v| + 1) % 7 == 0 && |v| + 1 > 27 then [(v + [c])[|v| + 1 - WINDOW..]] else []
  {
    var w := v + [c];
    if |w| % 7 == 0 && |w| > 27 {
      assert |w| / 7 == |v| / 7 + 1;
      assert 7 * (|w| / 7 - 4) == |w| - WINDOW;
      assert Windows(w)[|w| / 7 - 4] == w[|w| - WINDOW..];
    } else {
      assert |w| % 7 == 0 || |w| / 7 == |v| / 7;
    }
    assert forall k :: 0 <= k < |Windows(v)| ==> v[7 * k..7 * k + WINDOW] == w[7 * k..7 * k + WINDOW];
  }

  /** The window that the last code of `v` completes, if it ends a frame and fills one. */
  function Due(v: seq<int>): seq<seq<int>> {
    if |v| % 7 == 0 && |v| > 27 then [v[|v| - WINDOW..]] else []
  }

  function FeedDue(o: Output, windows: seq<seq<int>>, decode: Decoder): Output {
    if windows == [] then o else Feed(o, windows[0], decode)
  }

  /** What the loop has yielded once the codes `v` have come in. */
  function InLoop(v: seq<int>, decode: Decoder): Output {
    if v == [] then Output([], false)
    else FeedDue(InLoop(v[..|v| - 1], decode), Due(v), decode)
  }

  /** All that tokens_decoder yields for the accepted codes `v`. */
  function Streamed(v: seq<int>, decode: Decoder): Output {
    FeedDue(InLoop(v, decode), Tail(v), decode)
  }

  lemma AcceptedNext(tokens: seq<string>, k: nat, parse: Parser)
    requires k < |tokens|
    ensures Accepted(tokens[..k + 1], parse) == Extend(Accepted(tokens[..k], parse), tokens[k], parse)
  {
    assert tokens[..k + 1][..k] == tokens[..k];
  }

  lemma LoopNext(v: seq<int>, c: int, decode: Decoder)
    ensures InLoop(v + [c], decode) == FeedDue(InLoop(v, decode), Due(v + [c]), decode)
  {
    assert (v + [c])[..|v + [c]| - 1] == v;
  }

  lemma {:induction false} AcceptedGrows(tokens: seq<string>, m: nat, parse: Parser)
    requires m <= |tokens|
    ensures Accepted(tokens[..m], parse) <= Accepted(tokens, parse)
  {
    if m == |tokens| {
      assert tokens[..m] == tokens;
    } else {
      var front := tokens[..|tokens| - 1];
      assert front[..m] == tokens[..m];
      AcceptedGrows(front, m, parse);
    }
  }

  /** Codes that come in later only add to what the loop has yielded, and nothing once it has raised. */
  lemma {:induction false} LoopGrows(v: seq<int>, w: seq<int>, decode: Decoder)
    requires v <= w
    ensures InLoop(v, decode).chunks <= InLoop(w, decode).chunks
    ensures InLoop(v, decode).raised ==> InLoop(w, decode) == InLoop(v, decode)
  {
    if v == w {
    } else {
      var front := w[..|w| - 1];
      LoopGrows(v, front, decode);
      assert w == front + [w[|w| - 1]];
      LoopNext(front, w[|w| - 1], decode);
    }
  }

  /** A loop that has raised gives what the whole stream gives. */
  lemma RaisedIsStreamed(tokens: seq<string>, m: nat, parse: Parser, decode: Decoder)
    requires m <= |tokens| && InLoop(Accepted(tokens[..m], parse), decode).raised
    ensures Streamed(Accepted(tokens, parse), decode) == InLoop(Accepted(tokens[..m], parse), decode)
  {
    AcceptedGrows(tokens, m, parse);
    LoopGrows(Accepted(tokens[..m], parse), Accepted(tokens, parse), decode);
  }

  lemma CodesEnd(v: seq<int>, decode: Decoder)
    ensures Streamed(v, decode) == if |v| > 27 && |v| % 7 != 0 then Feed(InLoop(v, decode), v[|v| - WINDOW..], decode)
                                   else InLoop(v, decode)
  {}

  lemma LoopWithinStream(v: seq<int>, w: seq<int>, decode: Decoder)
    requires v <= w
    ensures InLoop(v, decode).chunks <= Streamed(w, decode).chunks
  {
    LoopGrows(v, w, decode);
  }

  /** One round of either `convert_to_audio` call: a raised error leaves the generator. */
  method YieldWindow(before: seq<Pcm>, window: seq<int>, decode: Decoder) returns (out: seq<Pcm>, raised: bool)
    ensures Output(out, raised) == Feed(Output(before, false), window, decode)
  {
    out, raised := before, false;
    var samples := ConvertToAudio(window, decode);
    if samples.Raised? {
      raised := true;
    } else if samples.Decoded? {
      out := out + [samples.pcm];
    }
  }

  /** A code that has come in completes a window if it ends a frame and fills one. */
  method YieldIfDue(before: seq<Pcm>, buffer: seq<int>, decode: Decoder) returns (out: seq<Pcm>, raised: bool)
    requires buffer != [] && Output(before, false) == InLoop(buffer[..|buffer| - 1], decode)
    ensures Output(out, raised) == InLoop(buffer, decode)
  {
    out, raised := before, false;
    var count := |buffer|;
    if count % 7 == 0 && count > 27 {
      out, raised := YieldWindow(out, buffer[|buffer| - WINDOW..], decode);
    }
  }

  method TokensDecoder(tokens: seq<string>, ids: TokenIds, decode: Decoder) returns (out: seq<Pcm>, raised: bool)
    requires ids.Valid()
    modifies ids
    ensures ids.Valid()
    ensures Output(out, raised) == Streamed(Accepted(tokens, ids.parse), decode)
  {
    out, raised := [], false;
    var buffer, count := [], 0;
    for k := 0 to |tokens|
      invariant ids.Valid()
      invariant buffer == Accepted(tokens[..k], ids.parse) && count == |buffer|
      invariant Output(out, false) == InLoop(buffer, decode)
    {
      AcceptedNext(tokens, k, ids.parse);
      var token := ids.TurnTokenIntoId(tokens[k], count);
      if token.Some? && token.value > 0 {
        assert (buffer + [token.value])[..|buffer|] == buffer;
        buffer := buffer + [token.value];
        count := count + 1;
        out, raised := YieldIfDue(out, buffer, decode);
        if raised {
          RaisedIsStreamed(tokens, k + 1, ids.parse, decode);
          return;
        }
      }
    }
    assert tokens[..|tokens|] == tokens;
    CodesEnd(buffer, decode);
    raised := false;
    if count > 27 && count % 7 != 0 {
      out, raised := YieldWindow(out, buffer[|buffer| - WINDOW..], decode);
    }
  }

  // ---------------------------------------------------------------- streaming is an offline computation

  lemma AudioExtend(windows: seq<seq<int>>, more: seq<seq<int>>, decode: Decoder)
    requires |more| <= 1
    ensures Audio(windows + more, decode) == FeedDue(Audio(windows, decode), more, decode)
  {
    if more == [] {
      assert windows + more == windows;
    } else {
      assert (windows + more)[..|windows + more| - 1] == windows;
    }
  }

  lemma WindowsNext(v: seq<int>)
    requires v != []
    ensures Windows(v) == Windows(v[..|v| - 1]) + Due(v)
  {
    WindowsAppend(v[..|v| - 1], v[|v| - 1]);
    assert v == v[..|v| - 1] + [v[|v| - 1]];
  }

  lemma {:induction false} LoopIsWindows(v: seq<int>, decode: Decoder)
    ensures InLoop(v, decode) == Audio(Windows(v), decode)
  {
    if v != [] {
      LoopIsWindows(v[..|v| - 1], decode);
      WindowsNext(v);
      AudioExtend(Windows(v[..|v| - 1]), Due(v), decode);
    }
  }

  /** The stream is the aligned windows of the accepted codes, in order, and the unaligned tail. */
  lemma StreamedIsWindows(v: seq<int>, decode: Decoder)
    ensures Streamed(v, decode) == Audio(Windows(v) + Tail(v), decode)
  {
    LoopIsWindows(v, decode);
    AudioExtend(Windows(v), Tail(v), decode);
  }

  // ---------------------------------------------------------------- what the windows cover

  lemma {:induction false} AcceptedArePositive(tokens: seq<string>, parse: Parser)
    ensures forall i :: 0 <= i < |Accepted(tokens, parse)| ==> Accepted(tokens, parse)[i] > 0
  {
    if tokens != [] {
      AcceptedArePositive(tokens[..|tokens| - 1], parse);
    }
  }

  /** A window of positive codes: decoded up to 4096, silent up to 2^31, an error from there or from the decoder. */
  lemma ConversionOf(w: seq<int>, decode: Decoder)
    requires PositiveWindow(w)
    ensures ConvertToAudio(w, decode).Raised? <==> TooWide(w) || Refuses(decode, w)
    ensures ConvertToAudio(w, decode).Silent? <==> !TooWide(w) && exists i :: 0 <= i < |w| && w[i] > 4096
  {
    RangeOfCodebooks(w);
    assert w[..|w| / 7 * 7] == w;
  }

  /** A window of accepted codes is skipped exactly when a code exceeds 4096 and none is too wide. */
  lemma SkippedIffTooLarge(tokens: seq<string>, parse: Parser, k: nat, decode: Decoder)
    requires k < |Windows(Accepted(tokens, parse))|
    ensures var w := Windows(Accepted(tokens, parse))[k];
            && (ConvertToAudio(w, decode).Raised? <==> TooWide(w) || Refuses(decode, w))
            && (ConvertToAudio(w, decode).Silent? <==> !TooWide(w) && exists i :: 0 <= i < |w| && w[i] > 4096)
  {
    var v := Accepted(tokens, parse);
    AcceptedArePositive(tokens, parse);
    assert Windows(v)[k] == v[7 * k..7 * k + WINDOW];
    ConversionOf(v[7 * k..7 * k + WINDOW], decode);
  }

  ghost predicate PositiveWindow(w: seq<int>) {
    |w| == WINDOW && forall i :: 0 <= i < |w| ==> w[i] > 0
  }

  lemma {:induction false} AudioRaisesIff(windows: seq<seq<int>>, decode: Decoder)
    ensures Audio(windows, decode).raised
       <==> exists k :: 0 <= k < |windows| && ConvertToAudio(windows[k], decode).Raised?
  {
    if windows != [] {
      var front := windows[..|windows| - 1];
      AudioRaisesIff(front, decode);
      assert forall k :: 0 <= k < |front| ==> front[k] == windows[k];
    }
  }

  ghost predicate AnyTooWide(windows: seq<seq<int>>) {
    exists k :: 0 <= k < |windows| && TooWide(windows[k])
  }

  ghost predicate AnyRefused(windows: seq<seq<int>>, decode: Decoder) {
    exists k :: 0 <= k < |windows| && Refuses(decode, windows[k])
  }

  lemma AudioRaises(windows: seq<seq<int>>, decode: Decoder)
    requires forall k :: 0 <= k < |windows| ==> PositiveWindow(windows[k])
    ensures Audio(windows, decode).raised <==> AnyTooWide(windows) || AnyRefused(windows, decode)
  {
    AudioRaisesIff(windows, decode);
    forall k | 0 <= k < |windows|
      ensures ConvertToAudio(windows[k], decode).Raised? <==> TooWide(windows[k]) || Refuses(decode, windows[k])
    {
      assert PositiveWindow(windows[k]);
      ConversionOf(windows[k], decode);
    }
  }

  lemma WindowsArePositive(v: seq<int>)
    requires forall i :: 0 <= i < |v| ==> v[i] > 0
    ensures forall k :: 0 <= k < |Windows(v)| ==> PositiveWindow(Windows(v)[k])
    ensures |v| >= WINDOW ==> PositiveWindow(v[|v| - WINDOW..])
  {
    forall k | 0 <= k < |Windows(v)|
      ensures PositiveWindow(Windows(v)[k])
    {
      assert Windows(v)[k] == v[7 * k..7 * k + WINDOW];
    }
  }

  /** The first window that raises ends the output: every later one is lost. */
  lemma {:induction false} FirstRaiseEnds(windows: seq<seq<int>>, k: nat, decode: Decoder)
    requires k < |windows| && ConvertToAudio(windows[k], decode).Raised?
    requires forall j :: 0 <= j < k ==> !ConvertToAudio(windows[j], decode).Raised?
    ensures !Audio(windows[..k], decode).raised
    ensures Audio(windows, decode) == Output(Audio(windows[..k], decode).chunks, true)
    decreases |windows|
  {
    AudioRaisesIff(windows[..k], decode);
    var front := windows[..|windows| - 1];
    if k == |front| {
    } else {
      FirstRaiseEnds(front, k, decode);
      assert front[..k] == windows[..k];
    }
  }

  /** Every code of the whole frames is in some window, once there is one. */
  lemma InSomeWindow(v: seq<int>, i: nat) returns (k: nat)
    requires |v| >= WINDOW && i < |v| / 7 * 7
    ensures k < |Windows(v)| && v[i] in Windows(v)[k]
  {
    k := if i / 7 < |v| / 7 - 4 then i / 7 else |v| / 7 - 4;
    var w := v[7 * k..7 * k + WINDOW];
    assert Windows(v)[k] == w;
    assert w[i - 7 * k] == v[i];
  }

  lemma WindowIsPart(v: seq<int>, k: nat)
    requires k < |Windows(v)|
    ensures forall c :: c in Windows(v)[k] ==> c in v[..|v| / 7 * 7]
    ensures |Windows(v)[k]| == WINDOW && |v| >= WINDOW
  {
    var whole := v[..|v| / 7 * 7];
    assert Windows(v)[k] == v[7 * k..7 * k + WINDOW];
    assert v[7 * k..7 * k + WINDOW] == whole[7 * k..7 * k + WINDOW];
  }

  lemma WindowsTooWide(v: seq<int>)
    ensures AnyTooWide(Windows(v)) <==> |v| >= WINDOW && TooWide(v[..|v| / 7 * 7])
  {
    var whole := v[..|v| / 7 * 7];
    if k :| 0 <= k < |Windows(v)| && TooWide(Windows(v)[k]) {
      WindowIsPart(v, k);
      var j :| 0 <= j < |Windows(v)[k]| && Windows(v)[k][j] >= INT32;
      assert Windows(v)[k][j] in whole;
    }
    if |v| >= WINDOW && TooWide(whole) {
      var i :| 0 <= i < |whole| && whole[i] >= INT32;
      var k := InSomeWindow(v, i);
      assert v[i] in Windows(v)[k];
    }
  }

  /**
    The loop raises exactly when a code of a whole frame is too wide, and there is a window to hold
    it, or the neural decoder raises on a window.
   */
  lemma LoopRaisesIff(v: seq<int>, decode: Decoder)
    requires forall i :: 0 <= i < |v| ==> v[i] > 0
    ensures InLoop(v, decode).raised
       <==> (|v| >= WINDOW && TooWide(v[..|v| / 7 * 7])) || AnyRefused(Windows(v), decode)
  {
    LoopIsWindows(v, decode);
    WindowsArePositive(v);
    AudioRaises(Windows(v), decode);
    WindowsTooWide(v);
  }

  lemma TailTooWide(v: seq<int>)
    requires |v| >= WINDOW
    ensures TooWide(v) <==> TooWide(v[..|v| / 7 * 7]) || (|v| % 7 != 0 && TooWide(v[|v| - WINDOW..]))
  {
    var whole, last := v[..|v| / 7 * 7], v[|v| - WINDOW..];
    if i :| 0 <= i < |v| && v[i] >= INT32 {
      if i < |whole| {
        assert whole[i] == v[i];
      } else {
        assert last[i - (|v| - WINDOW)] == v[i];
      }
    }
    if j :| 0 <= j < |last| && last[j] >= INT32 {
      assert v[|v| - WINDOW + j] == last[j];
    }
  }

  lemma FlushRaises(v: seq<int>, decode: Decoder)
    requires forall i :: 0 <= i < |v| ==> v[i] > 0
    ensures Streamed(v, decode).raised
       <==> (InLoop(v, decode).raised
             || (|v| > 27 && |v| % 7 != 0 && (TooWide(v[|v| - WINDOW..]) || Refuses(decode, v[|v| - WINDOW..]))))
  {
    CodesEnd(v, decode);
    if |v| >= WINDOW {
      WindowsArePositive(v);
      ConversionOf(v[|v| - WINDOW..], decode);
    }
  }

  lemma RefusedWithTail(v: seq<int>, decode: Decoder)
    ensures AnyRefused(Windows(v) + Tail(v), decode)
       <==> (AnyRefused(Windows(v), decode)
             || (|v| > 27 && |v| % 7 != 0 && Refuses(decode, v[|v| - WINDOW..])))
  {
    var all := Windows(v) + Tail(v);
    assert forall k :: 0 <= k < |Windows(v)| ==> all[k] == Windows(v)[k];
    if Tail(v) != [] {
      assert all[|Windows(v)|] == v[|v| - WINDOW..];
    }
  }

  /**
    The stream ends by an error if and only if it has as many codes as a window and one of them is
    2^31 or more, wherever it is, or the neural decoder raises on one of its windows.
   */
  lemma StreamRaisesIff(tokens: seq<string>, parse: Parser, decode: Decoder)
    ensures var v := Accepted(tokens, parse);
            Streamed(v, decode).raised <==>
              ((|v| >= WINDOW && TooWide(v)) || AnyRefused(Windows(v) + Tail(v), decode))
  {
    var v := Accepted(tokens, parse);
    AcceptedArePositive(tokens, parse);
    LoopRaisesIff(v, decode);
    FlushRaises(v, decode);
    RefusedWithTail(v, decode);
    if |v| >= WINDOW {
      TailTooWide(v);
    }
  }

  /** Every chunk of a stream is whole samples. */
  lemma {:induction false} AudioIsEven(windows: seq<seq<int>>, decode: Decoder)
    ensures WholeSamples(Audio(windows, decode).chunks)
  {
    if windows != [] {
      AudioIsEven(windows[..|windows| - 1], decode);
    }
  }

  lemma StreamedIsEven(v: seq<int>, decode: Decoder)
    ensures WholeSamples(Streamed(v, decode).chunks)
  {
    StreamedIsWindows(v, decode);
    AudioIsEven(Windows(v) + Tail(v), decode);
  }

  /** Four frames of codebooks, from frame `k` on. */
  function FourFrames(cb: Codebooks, k: nat): Codebooks {
    Codebooks(PySlice(cb.c0, k, k + 4), PySlice(cb.c1, 2 * k, 2 * k + 8), PySlice(cb.c2, 4 * k, 4 * k + 16))
  }

  /**
    Streaming is the offline computation: the k-th window hands the decoder frames k to k + 3 of
    the codebooks of the whole stream.
   */
  lemma WindowIsOffline(v: seq<int>, k: nat)
    requires k < |Windows(v)|
    ensures Deinterleave(Windows(v)[k]) == FourFrames(Deinterleave(v), k)
  {
    var w := v[7 * k..7 * k + WINDOW];
    assert Windows(v)[k] == w;
    FirstIsOffline(v, k);
    SecondIsOffline(v, k);
    ThirdIsOffline(v, k);
  }

  lemma FirstIsOffline(v: seq<int>, k: nat)
    requires 7 * k + WINDOW <= |v|
    ensures Deinterleave(v[7 * k..7 * k + WINDOW]).c0 == PySlice(Deinterleave(v).c0, k, k + 4)
  {}

  lemma SecondIsOffline(v: seq<int>, k: nat)
    requires 7 * k + WINDOW <= |v|
    ensures Deinterleave(v[7 * k..7 * k + WINDOW]).c1 == PySlice(Deinterleave(v).c1, 2 * k, 2 * k + 8)
  {
    var w := v[7 * k..7 * k + WINDOW];
    var d, f := Deinterleave(w).c1, PySlice(Deinterleave(v).c1, 2 * k, 2 * k + 8);
    assert |w| / 7 == 4;
    forall j | 0 <= j < 8
      ensures d[j] == f[j]
    {
      assert (2 * k + j) / 2 == k + j / 2 && (2 * k + j) % 2 == j % 2;
      assert f[j] == Deinterleave(v).c1[2 * k + j];
    }
  }

  lemma ThirdAt(v: seq<int>, k: nat, j: nat)
    requires 7 * k + WINDOW <= |v| && j < 16
    ensures |Deinterleave(v[7 * k..7 * k + WINDOW]).c2| == 16 && 4 * k + 16 <= |Deinterleave(v).c2|
    ensures Deinterleave(v[7 * k..7 * k + WINDOW]).c2[j] == Deinterleave(v).c2[4 * k + j]
  {
    assert |v[7 * k..7 * k + WINDOW]| / 7 == 4;
    assert (4 * k + j) / 4 == k + j / 4 && (4 * k + j) % 4 == j % 4;
  }

  lemma ThirdIsOffline(v: seq<int>, k: nat)
    requires 7 * k + WINDOW <= |v|
    ensures Deinterleave(v[7 * k..7 * k + WINDOW]).c2 == PySlice(Deinterleave(v).c2, 4 * k, 4 * k + 16)
  {
    var d, all := Deinterleave(v[7 * k..7 * k + WINDOW]).c2, Deinterleave(v).c2;
    ThirdAt(v, k, 0);
    forall j | 0 <= j < 16
      ensures d[j] == all[4 * k + j]
    {
      ThirdAt(v, k, j);
    }
  }

  /**
    `audio` is what decoding the whole stream gives, as far as the second frame of every four does
    not depend on more than the four.
   */
  ghost predicate DecodesTo(v: seq<int>, decode: Decoder, audio: seq<Sample16>) {
    && |audio| == SAMPLES_PER_FRAME * (|v| / 7)
    && forall k :: 0 <= k < |v| / 7 - 3 ==>
         var part := decode(FourFrames(Deinterleave(v), k));
         part.Some? && PySlice(part.value, 2048, 4096)
           == audio[SAMPLES_PER_FRAME * (k + 1)..SAMPLES_PER_FRAME * (k + 2)]
  }

  lemma WindowAudioIsOffline(v: seq<int>, k: nat, decode: Decoder, audio: seq<Sample16>)
    requires DecodesTo(v, decode, audio) && k < |Windows(v)|
    requires forall i :: 0 <= i < |v| ==> 0 <= v[i] <= 4096
    ensures ConvertToAudio(Windows(v)[k], decode)
         == Decoded(Pack(audio[SAMPLES_PER_FRAME * (k + 1)..SAMPLES_PER_FRAME * (k + 2)]))
  {
    var w := v[7 * k..7 * k + WINDOW];
    assert Windows(v)[k] == w && InRange(w) && w[..|w| / 7 * 7] == w;
    RangeOfCodebooks(w);
    WindowIsOffline(v, k);
  }

  /** Sample `n` of the stream is in the chunk that window `k`, which starts at frame k, yields. */
  ghost predicate Emits(v: seq<int>, decode: Decoder, k: nat, n: nat)
    requires k < |Windows(v)|
  {
    var c := ConvertToAudio(Windows(v)[k], decode);
    c.Decoded? && 0 <= n - SAMPLES_PER_FRAME * (k + 1) < |Unpack(c.pcm)|
  }

  lemma EmitsFrame(v: seq<int>, decode: Decoder, audio: seq<Sample16>, k: nat, n: nat)
    requires DecodesTo(v, decode, audio) && k < |Windows(v)| && n < |audio|
    requires forall i :: 0 <= i < |v| ==> 0 <= v[i] <= 4096
    ensures Emits(v, decode, k, n) <==> n / SAMPLES_PER_FRAME == k + 1
    ensures Emits(v, decode, k, n) ==>
              Unpack(ConvertToAudio(Windows(v)[k], decode).pcm)[n - SAMPLES_PER_FRAME * (k + 1)] == audio[n]
  {
    WindowAudioIsOffline(v, k, decode, audio);
    UnpackInvertsPack(audio[SAMPLES_PER_FRAME * (k + 1)..SAMPLES_PER_FRAME * (k + 2)]);
  }

  /**
    Every sample of frames 1 to |v|/7 - 3 is yielded, as it is in the offline audio, by exactly one
    window, and no other sample by any: the stream has no gap and no repeat.
   */
  lemma SamplesOnce(v: seq<int>, decode: Decoder, audio: seq<Sample16>, n: nat)
    requires DecodesTo(v, decode, audio) && n < |audio|
    requires forall i :: 0 <= i < |v| ==> 0 <= v[i] <= 4096
    ensures (exists k :: 0 <= k < |Windows(v)| && Emits(v, decode, k, n))
       <==> 1 <= n / SAMPLES_PER_FRAME <= |v| / 7 - 3
    ensures forall j, k :: 0 <= j < k < |Windows(v)| ==> !(Emits(v, decode, j, n) && Emits(v, decode, k, n))
    ensures forall k :: 0 <= k < |Windows(v)| && Emits(v, decode, k, n) ==>
              Unpack(ConvertToAudio(Windows(v)[k], decode).pcm)[n - SAMPLES_PER_FRAME * (k + 1)] == audio[n]
  {
    forall k | 0 <= k < |Windows(v)|
      ensures Emits(v, decode, k, n) <==> n / SAMPLES_PER_FRAME == k + 1
      ensures Emits(v, decode, k, n) ==>
                Unpack(ConvertToAudio(Windows(v)[k], decode).pcm)[n - SAMPLES_PER_FRAME * (k + 1)] == audio[n]
    {
      EmitsFrame(v, decode, audio, k, n);
    }
    var f := n / SAMPLES_PER_FRAME;
    if 1 <= f <= |v| / 7 - 3 {
      assert Emits(v, decode, f - 1, n);
    }
  }

  lemma PackAdjacent(audio: seq<Sample16>, from: nat, mid: nat, to: nat)
    requires from <= mid <= to <= |audio|
    ensures Pack(audio[from..mid]) + Pack(audio[mid..to]) == Pack(audio[from..to])
  {
    PackConcat(audio[from..mid], audio[mid..to]);
    assert audio[from..mid] + audio[mid..to] == audio[from..to];
  }

  lemma {:induction false} AudioOfWindows(windows: seq<seq<int>>, pieces: seq<Pcm>, decode: Decoder)
    requires |windows| == |pieces|
    requires forall k :: 0 <= k < |windows| ==> ConvertToAudio(windows[k], decode) == Decoded(pieces[k])
    ensures Audio(windows, decode) == Output(pieces, false)
  {
    if windows != [] {
      var n := |windows| - 1;
      AudioOfWindows(windows[..n], pieces[..n], decode);
      assert pieces == pieces[..n] + [pieces[n]];
    }
  }

  /** The bytes of frames 1 to `n` of some audio, frame by frame. */
  function FrameBytes(audio: seq<Sample16>, n: nat): seq<Pcm>
    requires SAMPLES_PER_FRAME * (n + 1) <= |audio|
  {
    if n == 0 then []
    else FrameBytes(audio, n - 1) + [Pack(audio[SAMPLES_PER_FRAME * n..SAMPLES_PER_FRAME * (n + 1)])]
  }

  lemma {:induction false} ConcatOfFrames(audio: seq<Sample16>, n: nat)
    requires SAMPLES_PER_FRAME * (n + 1) <= |audio|
    ensures Concat(FrameBytes(audio, n)) == Pack(audio[SAMPLES_PER_FRAME..SAMPLES_PER_FRAME * (n + 1)])
  {
    if n > 0 {
      ConcatOfFrames(audio, n - 1);
      ConcatAppend(FrameBytes(audio, n - 1), Pack(audio[SAMPLES_PER_FRAME * n..SAMPLES_PER_FRAME * (n + 1)]));
      PackAdjacent(audio, SAMPLES_PER_FRAME, SAMPLES_PER_FRAME * n, SAMPLES_PER_FRAME * (n + 1));
    }
  }

  lemma {:induction false} FrameBytesAt(audio: seq<Sample16>, n: nat, k: nat)
    requires SAMPLES_PER_FRAME * (n + 1) <= |audio| && k < n
    ensures |FrameBytes(audio, n)| == n
    ensures FrameBytes(audio, n)[k] == Pack(audio[SAMPLES_PER_FRAME * (k + 1)..SAMPLES_PER_FRAME * (k + 2)])
  {
    if n == 1 {
      assert FrameBytes(audio, 0) == [];
    } else {
      FrameBytesAt(audio, n - 1, if k < n - 1 then k else 0);
    }
  }

  lemma WindowYieldsFrame(v: seq<int>, k: nat, decode: Decoder, audio: seq<Sample16>, n: nat)
    requires DecodesTo(v, decode, audio) && n == |v| / 7 - 3 && k < n
    requires forall i :: 0 <= i < |v| ==> 0 <= v[i] <= 4096
    ensures |Windows(v)| == |FrameBytes(audio, n)| == n
    ensures ConvertToAudio(Windows(v)[k], decode) == Decoded(FrameBytes(audio, n)[k])
  {
    FrameBytesAt(audio, n, k);
    WindowAudioIsOffline(v, k, decode, audio);
  }

  /** The loop yields one chunk a frame: frames 1 to `n`, in order. */
  lemma LoopIsFrames(v: seq<int>, decode: Decoder, audio: seq<Sample16>, n: nat)
    requires DecodesTo(v, decode, audio) && |v| >= WINDOW && n == |v| / 7 - 3
    requires forall i :: 0 <= i < |v| ==> 0 <= v[i] <= 4096
    ensures InLoop(v, decode) == Output(FrameBytes(audio, n), false)
  {
    WindowYieldsFrame(v, 0, decode, audio, n);
    forall k | 0 <= k < n
      ensures ConvertToAudio(Windows(v)[k], decode) == Decoded(FrameBytes(audio, n)[k])
    {
      WindowYieldsFrame(v, k, decode, audio, n);
    }
    AudioOfWindows(Windows(v), FrameBytes(audio, n), decode);
    LoopIsWindows(v, decode);
  }

  /**
    The in-loop output, put end to end, is frames 1 to `n` of the offline audio, all but its first
    frame and its last two: no gap, no repeat, nothing out of place.
   */
  lemma StreamIsOfflineAudio(v: seq<int>, decode: Decoder, audio: seq<Sample16>, n: nat)
    requires DecodesTo(v, decode, audio) && |v| >= WINDOW && n == |v| / 7 - 3
    requires forall i :: 0 <= i < |v| ==> 0 <= v[i] <= 4096
    ensures !InLoop(v, decode).raised
    ensures Concat(InLoop(v, decode).chunks) == Pack(audio[SAMPLES_PER_FRAME..SAMPLES_PER_FRAME * (n + 1)])
  {
    LoopIsFrames(v, decode, audio, n);
    ConcatOfFrames(audio, n);
  }

  // ---------------------------------------------------------------- the codec round trip

  function PrintAll(codes: seq<nat>): seq<string> {
    seq(|codes|, i requires 0 <= i < |codes| => PrintToken(codes[i], i))
  }

  /** A printed token adds its code, unless that is zero. */
  lemma PrintedExtends(v: seq<int>, code: nat, parse: Parser)
    requires PrintsBack(parse)
    ensures Extend(v, PrintToken(code, |v|), parse) == if code >= 1 then v + [code] else v
  {
    assert parse(PrintToken(code, |v|), |v| % 7) == Some(code);
  }

  lemma PrintAllFront(codes: seq<nat>, n: nat)
    requires n < |codes|
    ensures PrintAll(codes)[..n] == PrintAll(codes[..n]) && PrintAll(codes)[n] == PrintToken(codes[n], n)
  {}

  lemma {:induction false} PrintedAreAccepted(codes: seq<nat>, parse: Parser)
    requires PrintsBack(parse)
    requires forall i :: 0 <= i < |codes| ==> codes[i] >= 1
    ensures Accepted(PrintAll(codes), parse) == codes
  {
    if codes != [] {
      var n := |codes| - 1;
      PrintedAreAccepted(codes[..n], parse);
      PrintAllFront(codes, n);
      PrintedExtends(codes[..n], codes[n], parse);
    }
  }

  lemma {:induction false} AcceptedIsShorter(tokens: seq<string>, k: nat, parse: Parser)
    requires k <= |tokens|
    ensures |Accepted(tokens, parse)| <= |Accepted(tokens[..k], parse)| + |tokens| - k
  {
    if k == |tokens| {
      assert tokens[..k] == tokens;
    } else {
      AcceptedIsShorter(tokens[..|tokens| - 1], k, parse);
      assert tokens[..|tokens| - 1][..k] == tokens[..k];
    }
  }

  /** Code 0 is dropped, and then the stream comes out short: codes survive exactly when none is 0. */
  lemma SurvivesIffPositive(codes: seq<nat>)
    ensures Accepted(PrintAll(codes), ParseId) == codes <==> forall i :: 0 <= i < |codes| ==> codes[i] >= 1
  {
    ParseIdPrintsBack();
    SurvivesWith(codes, ParseId);
  }

  lemma SurvivesWith(codes: seq<nat>, parse: Parser)
    requires PrintsBack(parse)
    ensures Accepted(PrintAll(codes), parse) == codes <==> forall i :: 0 <= i < |codes| ==> codes[i] >= 1
  {
    if forall i :: 0 <= i < |codes| ==> codes[i] >= 1 {
      PrintedAreAccepted(codes, parse);
    } else {
      var z := FirstZero(codes, 0);
      PrintAllFront(codes, z);
      PrintedAreAccepted(codes[..z], parse);
      PrintedExtends(codes[..z], 0, parse);
      AcceptedNext(PrintAll(codes), z, parse);
      AcceptedIsShorter(PrintAll(codes), z + 1, parse);
    }
  }

  lemma {:induction false} FirstZero(codes: seq<nat>, from: nat) returns (z: nat)
    requires from < |codes|
    requires exists i :: from <= i < |codes| && codes[i] == 0
    ensures from <= z < |codes| && codes[z] == 0 && forall i :: from <= i < z ==> codes[i] >= 1
    decreases |codes| - from
  {
    if codes[from] == 0 {
      z := from;
    } else {
      z := FirstZero(codes, from + 1);
    }
  }

  ghost predicate PositiveCodes(codes: seq<int>) {
    forall i :: 0 <= i < |codes| ==> codes[i] >= 1
  }

  ghost function Naturals(codes: seq<int>): (r: seq<nat>)
    requires PositiveCodes(codes)
    ensures r == codes
  {
    seq(|codes|, i requires 0 <= i < |codes| => codes[i])
  }

  lemma InterleavedArePositive(cb: Codebooks)
    requires Framed(cb) && PositiveCodes(cb.c0) && PositiveCodes(cb.c1) && PositiveCodes(cb.c2)
    ensures PositiveCodes(Interleave(cb))
  {
    forall i | 0 <= i < |Interleave(cb)|
      ensures Interleave(cb)[i] >= 1
    {
      assert Interleave(cb)[i] == CodeAt(cb, i / 7, i % 7);
    }
  }

  /** The token strings of three codebooks. */
  ghost function PrintCodebooks(cb: Codebooks): seq<string>
    requires Framed(cb) && PositiveCodes(cb.c0) && PositiveCodes(cb.c1) && PositiveCodes(cb.c2)
  {
    InterleavedArePositive(cb);
    PrintAll(Naturals(Interleave(cb)))
  }

  /**
    The codec round trip: interleave three codebooks of positive codes, print one token per code,
    send the tokens in chunks grouped in any way; cutting, parsing and de-interleaving them
    returns the codebooks.
   */
  lemma CodecRoundTrip(cb: Codebooks, groups: seq<seq<string>>)
    requires Framed(cb) && PositiveCodes(cb.c0) && PositiveCodes(cb.c1) && PositiveCodes(cb.c2)
    requires Concat(groups) == PrintCodebooks(cb)
    ensures Deinterleave(Accepted(TokensOfLines(Chunks(groups)), ParseId)) == cb
  {
    InterleavedArePositive(cb);
    var codes := Naturals(Interleave(cb));
    forall g | 0 <= g < |groups|
      ensures WholeTokens(groups[g])
    {
      forall i | 0 <= i < |groups[g]|
        ensures Whole(groups[g][i])
      {
        InConcat(groups, g);
        assert groups[g][i] in Concat(groups);
        var j :| 0 <= j < |PrintAll(codes)| && PrintAll(codes)[j] == groups[g][i];
        PrintedIsWhole(codes[j], j);
      }
    }
    GroupingDoesNotMatter(groups);
    ParseIdPrintsBack();
    PrintedAreAccepted(codes, ParseId);
    DeinterleaveInvertsInterleave(cb);
  }

  /** And in chunks cut in any way that does not run through a token's text. */
  lemma CodecSurvivesCleanCuts(cb: Codebooks, chunks: seq<string>)
    requires Framed(cb) && PositiveCodes(cb.c0) && PositiveCodes(cb.c1) && PositiveCodes(cb.c2)
    requires Concat(chunks) == Concat(PrintCodebooks(cb)) && CleanCuts(chunks)
    ensures Deinterleave(Accepted(TokensOfLines(Texts(chunks)), ParseId)) == cb
  {
    InterleavedArePositive(cb);
    var codes := Naturals(Interleave(cb));
    forall i | 0 <= i < |codes|
      ensures Whole(PrintAll(codes)[i])
    {
      PrintedIsWhole(codes[i], i);
    }
    TokensSurviveIff(PrintAll(codes), chunks);
    ParseIdPrintsBack();
    PrintedAreAccepted(codes, ParseId);
    DeinterleaveInvertsInterleave(cb);
  }
}
