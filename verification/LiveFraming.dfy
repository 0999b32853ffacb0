/**
  Live synthesis over one connection: the inference side buffers text until a final message and
  frames each utterance's audio (inference/server.py, Synthesize and SynthesizeLive); the gateway
  forwards inbound text and turns frames into messages (api/internal/ws/live.go).
 */
module LiveFraming {
  import opened Wrappers
  import opened Billing
  import opened Pcm16
  import opened Seqs
  import opened Sums

  const DEFAULT_VOICE := "tara"

  datatype Message = Message(requestId: string, voice: string, text: string, final: bool)

  datatype AudioChunk = AudioChunk(pcm: Pcm, seqNo: int)

  const SENTINEL := AudioChunk([], -1)

  /** What the engine produces for a text before it ends or raises. */
  type Engine = (string, string, string) -> seq<Pcm>

  // ---------------------------------------------------------------- one utterance

  /** Chunks numbered from `from` on. */
  function Numbered(chunks: seq<Pcm>, from: nat): seq<AudioChunk> {
    seq(|chunks|, i requires 0 <= i < |chunks| => AudioChunk(chunks[i], from + i))
  }

  method Synthesize(chunks: seq<Pcm>) returns (out: seq<AudioChunk>)
    ensures out == Numbered(NonEmpty(chunks), 0)
  {
    out := [];
    var n := 0;
    for k := 0 to |chunks|
      invariant |out| == n && out == Numbered(NonEmpty(chunks[..k]), 0)
    {
      NonEmptyNext(chunks, k);
      if chunks[k] != [] {
        out := out + [AudioChunk(chunks[k], n)];
        n := n + 1;
      }
    }
    assert chunks[..|chunks|] == chunks;
  }

  lemma {:induction false} NonEmptyAppend(chunks: seq<Pcm>, c: Pcm)
    ensures NonEmpty(chunks + [c]) == NonEmpty(chunks) + if c == [] then [] else [c]
  {
    if chunks == [] {
      assert chunks + [c] == [c];
    } else {
      NonEmptyAppend(chunks[1..], c);
      assert (chunks + [c])[1..] == chunks[1..] + [c];
    }
  }

  lemma NonEmptyNext(chunks: seq<Pcm>, k: nat)
    requires k < |chunks|
    ensures NonEmpty(chunks[..k + 1]) == NonEmpty(chunks[..k]) + if chunks[k] == [] then [] else [chunks[k]]
  {
    NonEmptyAppend(chunks[..k], chunks[k]);
    assert chunks[..k + 1] == chunks[..k] + [chunks[k]];
  }

  // ---------------------------------------------------------------- a session

  datatype Utterance = Utterance(text: string, voice: string, requestId: string)

  datatype Session = Session(voice: string, requestId: string, buffer: seq<string>)

  /** The session's variables once the text of a message is buffered. */
  function Buffered(s: Session, m: Message): Session {
    Session(
      if m.voice != "" then m.voice else s.voice,
      if m.requestId != "" then m.requestId else s.requestId,
      if m.text != "" then s.buffer + [m.text] else s.buffer)
  }

  /** Whether a message ends an utterance. */
  predicate Ends(s: Session, m: Message) {
    m.final && Buffered(s, m).buffer != []
  }

  function After(ms: seq<Message>): Session {
    if ms == [] then Session(DEFAULT_VOICE, "", [])
    else
      var before := After(Front(ms));
      var s := Buffered(before, Last(ms));
      if Ends(before, Last(ms)) then s.(buffer := []) else s
  }

  /** The utterance that a message ends, if it ends one. */
  function Uttered(s: Session, m: Message): seq<Utterance> {
    var b := Buffered(s, m);
    if Ends(s, m) then [Utterance(Concat(b.buffer), b.voice, b.requestId)] else []
  }

  /** The utterances spoken so far. */
  function Spoken(ms: seq<Message>): seq<Utterance> {
    if ms == [] then [] else Spoken(Front(ms)) + Uttered(After(Front(ms)), Last(ms))
  }

  function Audio(u: Utterance, engine: Engine): seq<Pcm> {
    NonEmpty(engine(u.text, u.voice, u.requestId))
  }

  /** A block: numbered chunks, then the sentinel. */
  function Framed(block: seq<Pcm>): seq<AudioChunk> {
    Numbered(block, 0) + [SENTINEL]
  }

  function Frames(blocks: seq<seq<Pcm>>): seq<AudioChunk> {
    if blocks == [] then [] else Frames(Front(blocks)) + Framed(Last(blocks))
  }

  function Blocks(us: seq<Utterance>, engine: Engine): seq<seq<Pcm>> {
    seq(|us|, i requires 0 <= i < |us| => Audio(us[i], engine))
  }

  /** What one more message adds to the session and to its output. */
  lemma LiveNext(ms: seq<Message>, k: nat, engine: Engine)
    requires k < |ms|
    ensures
      var s, m := After(ms[..k]), ms[k];
      && After(ms[..k + 1]) == (if Ends(s, m) then Buffered(s, m).(buffer := []) else Buffered(s, m))
      && Frames(Blocks(Spoken(ms[..k + 1]), engine))
         == Frames(Blocks(Spoken(ms[..k]), engine))
            + if Ends(s, m) then Framed(Audio(Uttered(s, m)[0], engine)) else []
  {
    var s, m := After(ms[..k]), ms[k];
    assert Front(ms[..k + 1]) == ms[..k];
    assert Spoken(ms[..k + 1]) == Spoken(ms[..k]) + Uttered(s, m);
    if Ends(s, m) {
      BlocksAppend(Spoken(ms[..k]), Uttered(s, m)[0], engine);
    } else {
      assert Spoken(ms[..k]) + [] == Spoken(ms[..k]);
    }
  }

  method SynthesizeLive(ms: seq<Message>, engine: Engine) returns (out: seq<AudioChunk>, leftover: seq<string>)
    ensures out == Frames(Blocks(Spoken(ms), engine))
    ensures leftover == After(ms).buffer
  {
    out := [];
    var voice, requestId, buffer := DEFAULT_VOICE, "", [];
    for k := 0 to |ms|
      invariant Session(voice, requestId, buffer) == After(ms[..k])
      invariant out == Frames(Blocks(Spoken(ms[..k]), engine))
    {
      var m := ms[k];
      LiveNext(ms, k, engine);
      if m.requestId != "" {
        requestId := m.requestId;
      }
      if m.voice != "" {
        voice := m.voice;
      }
      if m.text != "" {
        buffer := buffer + [m.text];
      }
      if m.final && buffer != [] {
        var text := Concat(buffer);
        buffer := [];
        var chunks := Synthesize(engine(text, voice, requestId));
        out := out + (chunks + [SENTINEL]);
      }
    }
    assert ms[..|ms|] == ms;
    leftover := buffer;
  }

  lemma BlocksAppend(us: seq<Utterance>, u: Utterance, engine: Engine)
    ensures Frames(Blocks(us + [u], engine)) == Frames(Blocks(us, engine)) + Framed(Audio(u, engine))
  {
    assert Front(Blocks(us + [u], engine)) == Blocks(us, engine);
  }

  // ---------------------------------------------------------------- unique parsing

  /** Reads blocks back: `open` is the block being read. */
  function Parse(out: seq<AudioChunk>, open: seq<Pcm>): Option<seq<seq<Pcm>>> {
    if out == [] then (if open == [] then Some([]) else None)
    else if out[0].seqNo < 0 then
      var rest := Parse(out[1..], []);
      if rest.None? then None else Some([open] + rest.value)
    else if out[0].seqNo == |open| then Parse(out[1..], open + [out[0].pcm])
    else None
  }

  lemma {:induction false} ParseBlock(open: seq<Pcm>, more: seq<Pcm>, out: seq<AudioChunk>)
    ensures Parse(Numbered(more, |open|) + [SENTINEL] + out, open)
         == var rest := Parse(out, []);
            if rest.None? then None else Some([open + more] + rest.value)
    decreases |more|
  {
    var all := Numbered(more, |open|) + [SENTINEL] + out;
    if more == [] {
      assert all[1..] == out && all[0] == SENTINEL;
      assert open + more == open;
    } else {
      assert all[0] == AudioChunk(more[0], |open|);
      assert all[1..] == Numbered(more[1..], |open + [more[0]]|) + [SENTINEL] + out;
      ParseBlock(open + [more[0]], more[1..], out);
      assert open + [more[0]] + more[1..] == open + more;
    }
  }

  lemma {:induction false} FramesCons(block: seq<Pcm>, blocks: seq<seq<Pcm>>)
    ensures Frames([block] + blocks) == Framed(block) + Frames(blocks)
  {
    if blocks == [] {
      assert [block] + blocks == [block] && Front([block]) == [];
    } else {
      var front, last := Frames(Front(blocks)), Framed(Last(blocks));
      FramesCons(block, Front(blocks));
      assert Front([block] + blocks) == [block] + Front(blocks);
      assert Framed(block) + front + last == Framed(block) + (front + last);
    }
  }

  /** Parsing inverts framing, so a stream of frames has one reading only. */
  lemma {:induction false} ParseInvertsFrames(blocks: seq<seq<Pcm>>)
    ensures Parse(Frames(blocks), []) == Some(blocks)
  {
    if blocks != [] {
      var rest := blocks[1..];
      assert blocks == [blocks[0]] + rest;
      FramesCons(blocks[0], rest);
      ParseBlock([], blocks[0], Frames(rest));
      ParseInvertsFrames(rest);
      assert [] + blocks[0] == blocks[0];
    }
  }

  /** How many sentinels a stream holds. */
  function Sentinels(out: seq<AudioChunk>): nat {
    if out == [] then 0 else Sentinels(Front(out)) + if Last(out).seqNo < 0 then 1 else 0
  }

  lemma {:induction false} SentinelsConcat(a: seq<AudioChunk>, b: seq<AudioChunk>)
    ensures Sentinels(a + b) == Sentinels(a) + Sentinels(b)
  {
    if b == [] {
      assert a + b == a;
    } else {
      SentinelsConcat(a, Front(b));
      assert Front(a + b) == a + Front(b);
    }
  }

  lemma {:induction false} NoSentinel(chunks: seq<Pcm>, from: nat)
    ensures Sentinels(Numbered(chunks, from)) == 0
  {
    if chunks != [] {
      NoSentinel(Front(chunks), from);
      assert Front(Numbered(chunks, from)) == Numbered(Front(chunks), from);
    }
  }

  lemma {:induction false} OneSentinelPerBlock(blocks: seq<seq<Pcm>>)
    ensures Sentinels(Frames(blocks)) == |blocks|
  {
    if blocks != [] {
      OneSentinelPerBlock(Front(blocks));
      var block := Last(blocks);
      SentinelsConcat(Frames(Front(blocks)), Framed(block));
      SentinelsConcat(Numbered(block, 0), [SENTINEL]);
      NoSentinel(block, 0);
      assert Front([SENTINEL]) == [];
    }
  }

  /** How many messages are final with text in the buffer. */
  function Endings(ms: seq<Message>): nat {
    if ms == [] then 0 else Endings(Front(ms)) + if Ends(After(Front(ms)), Last(ms)) then 1 else 0
  }

  function Texts(ms: seq<Message>): string {
    if ms == [] then [] else Texts(Front(ms)) + Last(ms).text
  }

  function SpokenText(us: seq<Utterance>): string {
    if us == [] then [] else SpokenText(Front(us)) + Last(us).text
  }

  lemma SpokenAppend(us: seq<Utterance>, u: Utterance)
    ensures SpokenText(us + [u]) == SpokenText(us) + u.text
  {
    assert Front(us + [u]) == us;
  }

  /** What is spoken, followed by what is still buffered, is everything that was sent. */
  lemma {:induction false} NoTextIsLost(ms: seq<Message>)
    ensures SpokenText(Spoken(ms)) + Concat(After(ms).buffer) == Texts(ms)
  {
    if ms != [] {
      var before := After(Front(ms));
      var s := Buffered(before, Last(ms));
      NoTextIsLost(Front(ms));
      BufferGrows(before, Last(ms));
      var spoken := SpokenText(Spoken(Front(ms)));
      SpokenAppend(Spoken(Front(ms)), Utterance(Concat(s.buffer), s.voice, s.requestId));
      Associate(spoken, Concat(before.buffer), Last(ms).text);
      assert spoken + Concat(s.buffer) == Texts(ms);
      if Ends(before, Last(ms)) {
        assert After(ms).buffer == [];
      } else {
        assert After(ms).buffer == s.buffer && Spoken(ms) == Spoken(Front(ms));
      }
    }
  }

  lemma Associate(a: string, b: string, c: string)
    ensures a + (b + c) == a + b + c && a + (b + c) + [] == a + b + c
  {}

  lemma {:induction false} SpokenAtEndings(ms: seq<Message>)
    ensures |Spoken(ms)| == Endings(ms)
  {
    if ms != [] {
      SpokenAtEndings(Front(ms));
    }
  }

  lemma BufferGrows(s: Session, m: Message)
    ensures Concat(Buffered(s, m).buffer) == Concat(s.buffer) + m.text
  {
    if m.text != "" {
      assert Front(s.buffer + [m.text]) == s.buffer;
    }
  }

  /**
    Live framing: the output of a session parses, in one way, as one block per utterance; there is
    one sentinel per final message that had buffered text; and no text is lost or reordered.
   */
  lemma FramingIsFaithful(ms: seq<Message>, engine: Engine)
    ensures
      var out := Frames(Blocks(Spoken(ms), engine));
      && Parse(out, []) == Some(Blocks(Spoken(ms), engine))
      && Sentinels(out) == Endings(ms)
      && SpokenText(Spoken(ms)) + Concat(After(ms).buffer) == Texts(ms)
  {
    ParseInvertsFrames(Blocks(Spoken(ms), engine));
    OneSentinelPerBlock(Blocks(Spoken(ms), engine));
    SpokenAtEndings(ms);
    NoTextIsLost(ms);
  }

  // ---------------------------------------------------------------- what is spoken, and in which voice

  /** The last value that was given, or else the default. */
  ghost predicate IsLatest(values: seq<string>, v: string, default_: string) {
    || (v == default_ && forall k :: 0 <= k < |values| ==> values[k] == "")
    || exists j :: 0 <= j < |values| && values[j] == v != "" && forall k :: j < k < |values| ==> values[k] == ""
  }

  lemma LatestNext(values: seq<string>, v: string, default_: string, x: string)
    requires IsLatest(values, v, default_)
    ensures IsLatest(values + [x], if x != "" then x else v, default_)
  {
    var after := values + [x];
    if x != "" {
      assert after[|values|] == x;
    } else if j :| 0 <= j < |values| && values[j] == v != "" && forall k :: j < k < |values| ==> values[k] == "" {
      assert after[j] == v && forall k :: j < k < |after| ==> after[k] == "";
    }
  }

  function Voices(ms: seq<Message>): seq<string> {
    seq(|ms|, i requires 0 <= i < |ms| => ms[i].voice)
  }

  function RequestIds(ms: seq<Message>): seq<string> {
    seq(|ms|, i requires 0 <= i < |ms| => ms[i].requestId)
  }

  lemma {:induction false} SessionRemembers(ms: seq<Message>)
    ensures IsLatest(Voices(ms), After(ms).voice, "tara")
    ensures IsLatest(RequestIds(ms), After(ms).requestId, "")
    ensures forall k :: 0 <= k < |After(ms).buffer| ==> After(ms).buffer[k] != ""
  {
    if ms != [] {
      var before, m := After(Front(ms)), Last(ms);
      SessionRemembers(Front(ms));
      LatestNext(Voices(Front(ms)), before.voice, "tara", m.voice);
      LatestNext(RequestIds(Front(ms)), before.requestId, "", m.requestId);
      assert Voices(ms) == Voices(Front(ms)) + [m.voice];
      assert RequestIds(ms) == RequestIds(Front(ms)) + [m.requestId];
    }
  }

  lemma {:induction false} ConcatIsNonEmpty(texts: seq<string>)
    requires forall k :: 0 <= k < |texts| ==> texts[k] != ""
    ensures Concat(texts) == "" <==> texts == []
  {
    if texts != [] {
      ConcatIsNonEmpty(Front(texts));
    }
  }

  /** What has been sent and not yet spoken. */
  function Unspoken(ms: seq<Message>, spoken: seq<Utterance>): string {
    if |SpokenText(spoken)| <= |Texts(ms)| then Texts(ms)[|SpokenText(spoken)|..] else ""
  }

  lemma UnspokenIsBuffered(ms: seq<Message>)
    requires ms != []
    ensures Unspoken(ms, Spoken(Front(ms))) == Concat(Buffered(After(Front(ms)), Last(ms)).buffer)
  {
    NoTextIsLost(Front(ms));
    BufferGrows(After(Front(ms)), Last(ms));
    var spoken := SpokenText(Spoken(Front(ms)));
    Associate(spoken, Concat(After(Front(ms)).buffer), Last(ms).text);
    assert Texts(ms) == spoken + Concat(Buffered(After(Front(ms)), Last(ms)).buffer);
  }

  /**
    What a message brings about: a final one speaks everything that has not been spoken, if there is
    anything, in the voice and under the id that were given last; any other one speaks nothing.
   */
  lemma MessageSpeaks(ms: seq<Message>) returns (voice: string, requestId: string)
    requires ms != []
    ensures IsLatest(Voices(ms), voice, "tara") && IsLatest(RequestIds(ms), requestId, "")
    ensures var text := Unspoken(ms, Spoken(Front(ms)));
            Spoken(ms) == Spoken(Front(ms))
              + if Last(ms).final && text != "" then [Utterance(text, voice, requestId)] else []
  {
    var before := After(Front(ms));
    var b := Buffered(before, Last(ms));
    voice, requestId := After(ms).voice, After(ms).requestId;
    SessionRemembers(ms);
    SessionRemembers(Front(ms));
    UnspokenIsBuffered(ms);
    ConcatIsNonEmpty(b.buffer);
  }

  // ---------------------------------------------------------------- the gateway, inbound

  /** unicode.IsSpace. */
  predicate IsGoSpace(c: char) {
    || '\U{0009}' <= c <= '\U{000D}' || c == ' ' || c == '\U{0085}' || c == '\U{00A0}' || c == '\U{1680}'
    || '\U{2000}' <= c <= '\U{200A}'
    || c == '\U{2028}' || c == '\U{2029}' || c == '\U{202F}' || c == '\U{205F}' || c == '\U{3000}'
  }

  /** strings.TrimSpace(text) == "" */
  predicate Blank(text: string) {
    forall i :: 0 <= i < |text| ==> IsGoSpace(text[i])
  }

  /** A WebSocket message: one that is not JSON, or one with these fields. */
  datatype Inbound = Garbage | Inbound(kind: string, text: string, final: bool, voice: string)

  function VoiceAfter(ins: seq<Inbound>): string {
    if ins == [] then DEFAULT_VOICE
    else
      var m := Last(ins);
      if m.Inbound? && m.kind == "text" && m.voice != "" then m.voice else VoiceAfter(Front(ins))
  }

  predicate Passes(m: Inbound) {
    m.Inbound? && m.kind == "text" && !Blank(m.text)
  }

  /** The messages sent on; `sendOk` says for which inbound message the stream accepted it. */
  function Forwarded(ins: seq<Inbound>, requestId: string, sendOk: nat -> bool): seq<Message> {
    if ins == [] then []
    else
      var m := Last(ins);
      Forwarded(Front(ins), requestId, sendOk)
        + if Passes(m) && sendOk(|ins| - 1) then [Message(requestId, VoiceAfter(ins), m.text, m.final)] else []
  }

  method ForwardInbound(ins: seq<Inbound>, requestId: string, sendOk: nat -> bool) returns (sent: seq<Message>)
    ensures sent == Forwarded(ins, requestId, sendOk)
  {
    sent := [];
    var sessionVoice := DEFAULT_VOICE;
    for k := 0 to |ins|
      invariant sessionVoice == VoiceAfter(ins[..k])
      invariant sent == Forwarded(ins[..k], requestId, sendOk)
    {
      var m := ins[k];
      assert Front(ins[..k + 1]) == ins[..k];
      if m.Inbound? && m.kind == "text" {
        if m.voice != "" {
          sessionVoice := m.voice;
        }
        if !Blank(m.text) && sendOk(k) {
          sent := sent + [Message(requestId, sessionVoice, m.text, m.final)];
        }
      }
    }
    assert ins[..|ins|] == ins;
  }

  /** The voices asked for by text messages. */
  function AskedVoices(ins: seq<Inbound>): seq<string> {
    seq(|ins|, i requires 0 <= i < |ins| => if ins[i].Inbound? && ins[i].kind == "text" then ins[i].voice else "")
  }

  lemma {:induction false} VoiceIsLatest(ins: seq<Inbound>)
    ensures IsLatest(AskedVoices(ins), VoiceAfter(ins), "tara")
  {
    if ins != [] {
      var m := Last(ins);
      var asked := if m.Inbound? && m.kind == "text" then m.voice else "";
      VoiceIsLatest(Front(ins));
      LatestNext(AskedVoices(Front(ins)), VoiceAfter(Front(ins)), "tara", asked);
      assert AskedVoices(ins) == AskedVoices(Front(ins)) + [asked];
    }
  }

  /**
    A text message with a visible character is sent on as it is, in the voice asked for last, as far
    as the stream accepts it; nothing else is sent on.
   */
  lemma MessageIsForwarded(ins: seq<Inbound>, requestId: string, sendOk: nat -> bool) returns (voice: string)
    requires ins != []
    ensures IsLatest(AskedVoices(ins), voice, "tara")
    ensures
      var m := Last(ins);
      var before, after := Forwarded(Front(ins), requestId, sendOk), Forwarded(ins, requestId, sendOk);
      if m.Inbound? && m.kind == "text" && sendOk(|ins| - 1) && (exists i :: 0 <= i < |m.text| && !IsGoSpace(m.text[i]))
      then after == before + [Message(requestId, voice, m.text, m.final)]
      else after == before
  {
    voice := VoiceAfter(ins);
    VoiceIsLatest(ins);
  }

  function Finals(ms: seq<Message>): nat {
    if ms == [] then 0 else Finals(Front(ms)) + if Last(ms).final then 1 else 0
  }

  /** Blank texts never reach the inference side, so there every final message ends an utterance. */
  lemma {:induction false} EveryForwardedFinalEnds(ins: seq<Inbound>, requestId: string, sendOk: nat -> bool)
    ensures forall k :: 0 <= k < |Forwarded(ins, requestId, sendOk)| ==> Forwarded(ins, requestId, sendOk)[k].text != ""
    ensures Endings(Forwarded(ins, requestId, sendOk)) == Finals(Forwarded(ins, requestId, sendOk))
  {
    if ins != [] {
      EveryForwardedFinalEnds(Front(ins), requestId, sendOk);
      var before, after := Forwarded(Front(ins), requestId, sendOk), Forwarded(ins, requestId, sendOk);
      if after != before {
        assert Front(after) == before;
        assert Last(after).text != "";
      }
    }
  }

  // ---------------------------------------------------------------- the gateway, outbound

  datatype Outbound = Metadata | Binary(pcm: Pcm) | UtteranceDone(seconds: real) | Insufficient(seconds: real) | Closed

  /**
    The receive loop's variables. `active`, `firstByte` and `audioSeconds` are the utterance record
    it shares with the inbound loop.
   */
  datatype Gate = Gate(
    active: bool, firstByte: bool, audioSeconds: real,
    total: real, budget: real, out: seq<Outbound>, stopped: bool)

  /** What the inbound loop and the socket do around one receive. */
  datatype Around = Around(started: bool, refreshed: Option<real>, writeOk: bool)

  /** The record and the budget as they are when the chunk is handled. */
  function Prepared(g: Gate, e: Around): Gate {
    var g' := if e.started then g.(active := true, firstByte := false, audioSeconds := 0.0) else g;
    if e.refreshed.Some? then g'.(budget := e.refreshed.value) else g'
  }

  /** The first audio of an utterance is announced. */
  function Announcement(g: Gate): seq<Outbound> {
    if g.active && !g.firstByte then [Metadata] else []
  }

  /** The audio itself, unless the budget is spent or the socket fails. */
  function Reply(pcm: Pcm, total: real, left: real, writeOk: bool): seq<Outbound> {
    if left <= 0.0 then [Insufficient(total), Closed] else if !writeOk then [] else [Binary(pcm)]
  }

  function ReceiveAudio(g: Gate, pcm: Pcm, sec: real, price: real, writeOk: bool): Gate {
    var total, left := g.total + sec, g.budget - CostForSeconds(sec, price);
    Gate(g.active, g.firstByte || g.active, if g.active then g.audioSeconds + sec else g.audioSeconds,
         total, left, g.out + Announcement(g) + Reply(pcm, total, left, writeOk), left <= 0.0 || !writeOk)
  }

  function Receive(g: Gate, c: AudioChunk, sampleRate: int, price: real, e: Around): Gate {
    var g' := Prepared(g, e);
    if c.seqNo < 0 then
      g'.(active := false, firstByte := false, audioSeconds := 0.0, out := g'.out + [UtteranceDone(g'.audioSeconds)])
    else if c.pcm == [] then g'
    else ReceiveAudio(g', c.pcm, SecondsFromPCM(|c.pcm|, sampleRate), price, e.writeOk)
  }

  function Received(chunks: seq<AudioChunk>, sampleRate: int, price: real, budget: real, around: nat -> Around): Gate {
    if chunks == [] then Gate(false, false, 0.0, 0.0, budget, [], false)
    else
      var g := Received(Front(chunks), sampleRate, price, budget, around);
      if g.stopped then g else Receive(g, Last(chunks), sampleRate, price, around(|chunks| - 1))
  }

  lemma ReceivedNext(
    chunks: seq<AudioChunk>, k: nat, sampleRate: int, price: real, budget: real, around: nat -> Around)
    requires k < |chunks|
    ensures var g := Received(chunks[..k], sampleRate, price, budget, around);
            Received(chunks[..k + 1], sampleRate, price, budget, around)
              == if g.stopped then g else Receive(g, chunks[k], sampleRate, price, around(k))
  {
    assert Front(chunks[..k + 1]) == chunks[..k];
  }

  /** The part of the loop body that handles audio. */
  method HandleAudio(before: Gate, pcm: Pcm, sec: real, price: real, writeOk: bool) returns (g: Gate)
    requires !before.stopped
    ensures g == ReceiveAudio(before, pcm, sec, price, writeOk)
  {
    g := before;
    if g.active && !g.firstByte {
      g := g.(firstByte := true, out := g.out + [Metadata]);
    }
    if g.active {
      g := g.(audioSeconds := g.audioSeconds + sec);
    }
    g := g.(total := g.total + sec);
    g := g.(budget := g.budget - CostForSeconds(sec, price));
    if g.budget <= 0.0 {
      return g.(out := g.out + [Insufficient(g.total), Closed], stopped := true);
    }
    if !writeOk {
      return g.(stopped := true);
    }
    g := g.(out := g.out + [Binary(pcm)]);
  }

  method ReceiveLoop(chunks: seq<AudioChunk>, sampleRate: int, price: real, opening: real, around: nat -> Around)
    returns (out: seq<Outbound>)
    ensures out == Received(chunks, sampleRate, price, opening, around).out
  {
    var g := Gate(false, false, 0.0, 0.0, opening, [], false);
    for k := 0 to |chunks|
      invariant !g.stopped && g == Received(chunks[..k], sampleRate, price, opening, around)
    {
      ReceivedNext(chunks, k, sampleRate, price, opening, around);
      var c, e := chunks[k], around(k);
      if e.started {
        g := g.(active := true, firstByte := false, audioSeconds := 0.0);
      }
      if e.refreshed.Some? {
        g := g.(budget := e.refreshed.value);
      }
      if c.seqNo < 0 {
        g := g.(out := g.out + [UtteranceDone(g.audioSeconds)]);
        g := g.(active := false, firstByte := false, audioSeconds := 0.0);
      } else if c.pcm != [] {
        g := HandleAudio(g, c.pcm, SecondsFromPCM(|c.pcm|, sampleRate), price, e.writeOk);
        if g.stopped {
          StoppedForGood(chunks, k + 1, sampleRate, price, opening, around);
          return g.out;
        }
      }
    }
    assert chunks[..|chunks|] == chunks;
    out := g.out;
  }

  lemma {:induction false} StoppedForGood(
    chunks: seq<AudioChunk>, n: nat, sampleRate: int, price: real, budget: real, around: nat -> Around)
    requires n <= |chunks| && Received(chunks[..n], sampleRate, price, budget, around).stopped
    ensures Received(chunks, sampleRate, price, budget, around)
         == Received(chunks[..n], sampleRate, price, budget, around)
    decreases |chunks|
  {
    if n == |chunks| {
      assert chunks[..n] == chunks;
    } else {
      assert Front(chunks)[..n] == chunks[..n];
      StoppedForGood(Front(chunks), n, sampleRate, price, budget, around);
    }
  }

  /** What the client can tell of the frames: the audio, and an absent value for the end of an utterance. */
  function Seen(out: seq<Outbound>): seq<Option<Pcm>> {
    if out == [] then []
    else
      Seen(Front(out))
        + match Last(out)
          case Binary(pcm) => [Some(pcm)]
          case UtteranceDone(_) => [None]
          case _ => []
  }

  function Meant(chunks: seq<AudioChunk>): seq<Option<Pcm>> {
    if chunks == [] then []
    else
      Meant(Front(chunks))
        + if Last(chunks).seqNo < 0 then [None]
          else if Last(chunks).pcm == [] then [] else [Some(Last(chunks).pcm)]
  }

  lemma {:induction false} SeenConcat(a: seq<Outbound>, b: seq<Outbound>)
    ensures Seen(a + b) == Seen(a) + Seen(b)
  {
    if b == [] {
      assert a + b == a;
    } else {
      SeenConcat(a, Front(b));
      assert Front(a + b) == a + Front(b);
    }
  }

  lemma SeenOfOne(x: Outbound)
    ensures Seen([x]) == match x case Binary(pcm) => [Some(pcm)] case UtteranceDone(_) => [None] case _ => []
  {
    assert Front([x]) == [];
  }

  /**
    One for one: as long as the budget and the socket hold, every sentinel becomes exactly one
    utterance_done and every chunk with audio exactly one binary message, in order; when the loop
    stops, what was sent is a prefix of that.
   */
  lemma {:induction false} GatewayIsOneForOne(
    chunks: seq<AudioChunk>, sampleRate: int, price: real, budget: real, around: nat -> Around)
    ensures var g := Received(chunks, sampleRate, price, budget, around);
            Seen(g.out) <= Meant(chunks) && (!g.stopped ==> Seen(g.out) == Meant(chunks))
  {
    if chunks != [] {
      GatewayIsOneForOne(Front(chunks), sampleRate, price, budget, around);
      var g := Received(Front(chunks), sampleRate, price, budget, around);
      if !g.stopped {
        OneReceive(g, Last(chunks), sampleRate, price, around(|chunks| - 1));
      }
    }
  }

  lemma SeenOfAnnouncement(g: Gate)
    ensures Seen(Announcement(g)) == []
  {
    SeenOfOne(Metadata);
  }

  lemma SeenOfReply(pcm: Pcm, total: real, left: real, writeOk: bool)
    ensures Seen(Reply(pcm, total, left, writeOk)) == if left <= 0.0 || !writeOk then [] else [Some(pcm)]
  {
    SeenOfOne(Binary(pcm));
    SeenOfOne(Insufficient(total));
    SeenOfOne(Closed);
    SeenConcat([Insufficient(total)], [Closed]);
    assert [Insufficient(total)] + [Closed] == [Insufficient(total), Closed];
  }

  lemma OneAudio(g: Gate, pcm: Pcm, sec: real, price: real, writeOk: bool)
    ensures var g' := ReceiveAudio(g, pcm, sec, price, writeOk);
            Seen(g'.out) == Seen(g.out) + if g'.stopped then [] else [Some(pcm)]
  {
    var total, left := g.total + sec, g.budget - CostForSeconds(sec, price);
    SeenOfAnnouncement(g);
    SeenOfReply(pcm, total, left, writeOk);
    SeenConcat(g.out, Announcement(g));
    SeenConcat(g.out + Announcement(g), Reply(pcm, total, left, writeOk));
  }

  lemma OneReceive(g: Gate, c: AudioChunk, sampleRate: int, price: real, e: Around)
    requires !g.stopped
    ensures var g' := Receive(g, c, sampleRate, price, e);
            Seen(g'.out) == Seen(g.out) + if g'.stopped || (c.seqNo >= 0 && c.pcm == []) then []
                                          else if c.seqNo < 0 then [None] else [Some(c.pcm)]
  {
    var p := Prepared(g, e);
    if c.seqNo < 0 {
      SeenConcat(g.out, [UtteranceDone(p.audioSeconds)]);
      SeenOfOne(UtteranceDone(p.audioSeconds));
    } else if c.pcm != [] {
      OneAudio(p, c.pcm, SecondsFromPCM(|c.pcm|, sampleRate), price, e.writeOk);
    }
  }

  lemma EndedAppend(seen: seq<Option<Pcm>>, x: Option<Pcm>)
    ensures Ended(seen + [x]) == Ended(seen) + if x.None? then 1 else 0
  {
    assert Front(seen + [x]) == seen;
  }

  lemma {:induction false} MeantEndings(chunks: seq<AudioChunk>)
    ensures Ended(Meant(chunks)) == Sentinels(chunks)
  {
    if chunks != [] {
      MeantEndings(Front(chunks));
      EndedAppend(Meant(Front(chunks)), None);
      EndedAppend(Meant(Front(chunks)), Some(Last(chunks).pcm));
      assert Meant(Front(chunks)) + [] == Meant(Front(chunks));
    }
  }

  function Ended(seen: seq<Option<Pcm>>): nat {
    if seen == [] then 0 else Ended(Front(seen)) + if Last(seen).None? then 1 else 0
  }

  /**
    End to end: a session whose receive loop is not stopped reports exactly one utterance_done for
    every final message with visible text that the gateway could send.
   */
  lemma OneDonePerFinal(
    ins: seq<Inbound>, requestId: string, sendOk: nat -> bool, engine: Engine,
    sampleRate: int, price: real, budget: real, around: nat -> Around)
    ensures
      var sent := Forwarded(ins, requestId, sendOk);
      var g := Received(Frames(Blocks(Spoken(sent), engine)), sampleRate, price, budget, around);
      !g.stopped ==> Ended(Seen(g.out)) == Finals(sent)
  {
    var sent := Forwarded(ins, requestId, sendOk);
    var frames := Frames(Blocks(Spoken(sent), engine));
    GatewayIsOneForOne(frames, sampleRate, price, budget, around);
    MeantEndings(frames);
    FramingIsFaithful(sent, engine);
    EveryForwardedFinalEnds(ins, requestId, sendOk);
  }

  // ---------------------------------------------------------------- what stops the loop, and what it announces

  predicate IsAudio(c: AudioChunk) {
    c.seqNo >= 0 && c.pcm != []
  }

  function AudioSeconds(sampleRate: int): AudioChunk -> real {
    (c: AudioChunk) => if IsAudio(c) then SecondsFromPCM(|c.pcm|, sampleRate) else 0.0
  }

  function AudioCost(sampleRate: int, price: real): AudioChunk -> real {
    (c: AudioChunk) => if IsAudio(c) then CostForSeconds(SecondsFromPCM(|c.pcm|, sampleRate), price) else 0.0
  }

  /** The budget was last set before chunk `from`, to `value`: by a refresh, or to the opening balance. */
  ghost predicate IsSet(around: nat -> Around, opening: real, n: nat, from: nat, value: real) {
    || (from < n && around(from).refreshed == Some(value) && forall k :: from < k < n ==> around(k).refreshed.None?)
    || (from == 0 && value == opening && forall k :: 0 <= k < n ==> around(k).refreshed.None?)
  }

  lemma ReceiveSpends(before: Gate, c: AudioChunk, sampleRate: int, price: real, e: Around)
    ensures Receive(before, c, sampleRate, price, e).budget
         == (if e.refreshed.Some? then e.refreshed.value else before.budget) - AudioCost(sampleRate, price)(c)
  {}

  lemma SpentNext(w: AudioChunk -> real, chunks: seq<AudioChunk>, from: nat)
    requires chunks != [] && from < |chunks|
    ensures Sum(w, chunks[from..]) == Sum(w, Front(chunks)[from..]) + w(Last(chunks))
  {
    assert chunks[from..] == Front(chunks)[from..] + [Last(chunks)];
    SumAppend(w, Front(chunks)[from..], Last(chunks));
  }

  /** What is left of the budget is its last value less the audio since. */
  lemma {:induction false} BudgetIsSpent(
    chunks: seq<AudioChunk>, sampleRate: int, price: real, opening: real, around: nat -> Around,
    from: nat, value: real)
    requires IsSet(around, opening, |chunks|, from, value) && from <= |chunks|
    requires chunks != [] ==> !Received(Front(chunks), sampleRate, price, opening, around).stopped
    ensures Received(chunks, sampleRate, price, opening, around).budget
         == value - Sum(AudioCost(sampleRate, price), chunks[from..])
  {
    if chunks != [] {
      var n := |chunks| - 1;
      var before := Received(Front(chunks), sampleRate, price, opening, around);
      StopsBefore(Front(chunks), sampleRate, price, opening, around);
      ReceiveSpends(before, Last(chunks), sampleRate, price, around(n));
      SpentNext(AudioCost(sampleRate, price), chunks, from);
      if around(n).refreshed.None? {
        BudgetIsSpent(Front(chunks), sampleRate, price, opening, around, from, value);
      } else {
        assert Front(chunks)[n..] == [];
      }
    }
  }

  /** A loop that has not stopped had not stopped before. */
  lemma StopsBefore(chunks: seq<AudioChunk>, sampleRate: int, price: real, opening: real, around: nat -> Around)
    requires !Received(chunks, sampleRate, price, opening, around).stopped
    ensures chunks != [] ==> !Received(Front(chunks), sampleRate, price, opening, around).stopped
  {}

  lemma {:induction false} TotalIsReceived(
    chunks: seq<AudioChunk>, sampleRate: int, price: real, opening: real, around: nat -> Around)
    requires chunks != [] ==> !Received(Front(chunks), sampleRate, price, opening, around).stopped
    ensures Received(chunks, sampleRate, price, opening, around).total == Sum(AudioSeconds(sampleRate), chunks)
  {
    if chunks != [] {
      StopsBefore(Front(chunks), sampleRate, price, opening, around);
      TotalIsReceived(Front(chunks), sampleRate, price, opening, around);
      assert chunks[..|chunks| - 1] == Front(chunks);
    }
  }

  lemma ReceiveStops(before: Gate, c: AudioChunk, sampleRate: int, price: real, e: Around)
    requires !before.stopped
    ensures
      var g := Receive(before, c, sampleRate, price, e);
      && (g.stopped <==> IsAudio(c) && (g.budget <= 0.0 || !e.writeOk))
      && (IsAudio(c) && g.budget <= 0.0 ==>
            |g.out| >= 2 && g.out[|g.out| - 2..] == [Insufficient(g.total), Closed])
  {}

  /**
    The loop stops at a chunk with audio exactly when the audio since the budget was last set costs
    the whole of it, or the socket fails; in the first case the client is told how much it was
    sent, and the connection is closed.
   */
  lemma StopsIff(
    chunks: seq<AudioChunk>, sampleRate: int, price: real, opening: real, around: nat -> Around,
    from: nat, value: real)
    requires chunks != [] && from < |chunks| && IsSet(around, opening, |chunks|, from, value)
    requires !Received(Front(chunks), sampleRate, price, opening, around).stopped
    ensures
      var g := Received(chunks, sampleRate, price, opening, around);
      var spent := Sum(AudioCost(sampleRate, price), chunks[from..]) >= value;
      && (g.stopped <==> IsAudio(Last(chunks)) && (spent || !around(|chunks| - 1).writeOk))
      && (IsAudio(Last(chunks)) && spent ==>
            |g.out| >= 2
            && g.out[|g.out| - 2..] == [Insufficient(Sum(AudioSeconds(sampleRate), chunks)), Closed])
  {
    var before := Received(Front(chunks), sampleRate, price, opening, around);
    BudgetIsSpent(chunks, sampleRate, price, opening, around, from, value);
    TotalIsReceived(chunks, sampleRate, price, opening, around);
    ReceiveStops(before, Last(chunks), sampleRate, price, around(|chunks| - 1));
  }

  /** An utterance was started before chunk `n`, and no audio and no end of one has come in since. */
  ghost predicate Awaited(chunks: seq<AudioChunk>, around: nat -> Around, n: nat)
    requires n <= |chunks|
  {
    exists j :: 0 <= j < n && AwaitedSince(chunks, around, j, n)
  }

  ghost predicate AwaitedSince(chunks: seq<AudioChunk>, around: nat -> Around, j: nat, n: nat)
    requires n <= |chunks|
  {
    around(j).started && forall l :: j <= l < n ==> chunks[l].seqNo >= 0 && chunks[l].pcm == []
  }

  lemma {:induction false} AwaitedIsPending(
    chunks: seq<AudioChunk>, sampleRate: int, price: real, opening: real, around: nat -> Around)
    requires !Received(chunks, sampleRate, price, opening, around).stopped
    ensures var g := Received(chunks, sampleRate, price, opening, around);
            g.active && !g.firstByte <==> Awaited(chunks, around, |chunks|)
  {
    if chunks != [] {
      var n := |chunks| - 1;
      var idle := chunks[n].seqNo >= 0 && chunks[n].pcm == [];
      StopsBefore(chunks, sampleRate, price, opening, around);
      AwaitedIsPending(Front(chunks), sampleRate, price, opening, around);
      AwaitedNext(chunks, around);
    }
  }

  lemma AwaitedNext(chunks: seq<AudioChunk>, around: nat -> Around)
    requires chunks != []
    ensures
      var n := |chunks| - 1;
      var idle := chunks[n].seqNo >= 0 && chunks[n].pcm == [];
      Awaited(chunks, around, |chunks|) <==> idle && (around(n).started || Awaited(Front(chunks), around, n))
  {
    var n := |chunks| - 1;
    var idle := chunks[n].seqNo >= 0 && chunks[n].pcm == [];
    if idle && Awaited(Front(chunks), around, n) {
      var j :| 0 <= j < n && AwaitedSince(Front(chunks), around, j, n);
      assert AwaitedSince(chunks, around, j, |chunks|);
    }
    if idle && around(n).started {
      assert AwaitedSince(chunks, around, n, |chunks|);
    }
    if Awaited(chunks, around, |chunks|) {
      var j :| 0 <= j < |chunks| && AwaitedSince(chunks, around, j, |chunks|);
      assert idle;
      assert j < n ==> AwaitedSince(Front(chunks), around, j, n);
    }
  }

  function Announced(out: seq<Outbound>): nat {
    if out == [] then 0 else Announced(Front(out)) + if Last(out).Metadata? then 1 else 0
  }

  lemma {:induction false} AnnouncedConcat(a: seq<Outbound>, b: seq<Outbound>)
    ensures Announced(a + b) == Announced(a) + Announced(b)
  {
    if b == [] {
      assert a + b == a;
    } else {
      AnnouncedConcat(a, Front(b));
      assert Front(a + b) == a + Front(b);
    }
  }

  lemma AnnouncedOfOne(x: Outbound)
    ensures Announced([x]) == if x.Metadata? then 1 else 0
  {
    assert Front([x]) == [];
  }

  lemma AudioAnnounces(g: Gate, pcm: Pcm, sec: real, price: real, writeOk: bool)
    ensures Announced(ReceiveAudio(g, pcm, sec, price, writeOk).out)
         == Announced(g.out) + if g.active && !g.firstByte then 1 else 0
  {
    var total, left := g.total + sec, g.budget - CostForSeconds(sec, price);
    var reply := Reply(pcm, total, left, writeOk);
    AnnouncedConcat(g.out + Announcement(g), reply);
    AnnouncedConcat(g.out, Announcement(g));
    AnnouncedOfOne(Metadata);
    AnnouncedOfOne(Binary(pcm));
    AnnouncedOfOne(Insufficient(total));
    AnnouncedOfOne(Closed);
    AnnouncedConcat([Insufficient(total)], [Closed]);
    assert [Insufficient(total)] + [Closed] == [Insufficient(total), Closed];
  }

  /** Metadata announces exactly the first audio after an utterance was started. */
  lemma FirstAudioIsAnnounced(
    chunks: seq<AudioChunk>, sampleRate: int, price: real, opening: real, around: nat -> Around)
    requires chunks != [] && !Received(Front(chunks), sampleRate, price, opening, around).stopped
    ensures
      var n := |chunks| - 1;
      var first := IsAudio(chunks[n]) && (around(n).started || Awaited(Front(chunks), around, n));
      Announced(Received(chunks, sampleRate, price, opening, around).out)
        == Announced(Received(Front(chunks), sampleRate, price, opening, around).out) + if first then 1 else 0
  {
    var n := |chunks| - 1;
    var c, e := chunks[n], around(n);
    var g := Received(Front(chunks), sampleRate, price, opening, around);
    var p := Prepared(g, e);
    AwaitedIsPending(Front(chunks), sampleRate, price, opening, around);
    if c.seqNo < 0 {
      AnnouncedConcat(p.out, [UtteranceDone(p.audioSeconds)]);
      AnnouncedOfOne(UtteranceDone(p.audioSeconds));
    } else if c.pcm != [] {
      AudioAnnounces(p, c.pcm, SecondsFromPCM(|c.pcm|, sampleRate), price, e.writeOk);
    }
  }
}
