/**
  Audio tokens as text: how the llama.cpp client cuts server chunks into token strings
  (inference/backends/llamacpp.py, make_token_generator), and how a token string becomes a code
  (inference/pipeline/speechpipe.py, turn_token_into_id).
 */
module TokenText {
  import opened Wrappers
  import opened PyText
  import opened Seqs
  import Decimal

  const PREFIX := "<custom_token_"
  const MAX_CACHE_SIZE := 10000

  // ---------------------------------------------------------------- from chunks to token strings

  /** chunk.split(">") */
  function Split(chunk: string): (pieces: seq<string>)
    ensures pieces != []
  {
    if chunk == [] then [[]]
    else
      var rest := Split(chunk[1..]);
      if chunk[0] == '>' then [[]] + rest else [[chunk[0]] + rest[0]] + rest[1..]
  }

  /** Every nonempty piece, with the separator put back. */
  function Tokens(pieces: seq<string>): seq<string> {
    if pieces == [] then []
    else
      Tokens(pieces[..|pieces| - 1])
        + if pieces[|pieces| - 1] == [] then [] else [pieces[|pieces| - 1] + ">"]
  }

  /** One line of the server's event stream; `Unusable` stands for a JSON error or no choices. */
  datatype Line = Blank | NotData | Done | Unusable | Text(chunk: string)

  function TokensOfLines(lines: seq<Line>): seq<string> {
    if lines == [] || lines[0].Done? then []
    else (if lines[0].Text? then Tokens(Split(lines[0].chunk)) else []) + TokensOfLines(lines[1..])
  }

  method CutChunk(chunk: string) returns (out: seq<string>)
    ensures out == Tokens(Split(chunk))
  {
    out := [];
    var pieces := Split(chunk);
    for i := 0 to |pieces|
      invariant out == Tokens(pieces[..i])
    {
      assert pieces[..i + 1][..i] == pieces[..i];
      var token := pieces[i] + ">";
      if token != ">" {
        out := out + [token];
      }
    }
    assert pieces[..|pieces|] == pieces;
  }

  method TokenGenerator(lines: seq<Line>) returns (out: seq<string>)
    ensures out == TokensOfLines(lines)
  {
    out := [];
    for k := 0 to |lines|
      invariant out + TokensOfLines(lines[k..]) == TokensOfLines(lines)
    {
      var line := lines[k];
      assert lines[k..][0] == line && lines[k..][1..] == lines[k + 1..];
      if line.Done? {
        return;
      }
      if line.Text? {
        var cut := CutChunk(line.chunk);
        out := out + cut;
      }
    }
  }

  /** The texts of a stream, up to the end marker; lines that are not text are skipped. */
  ghost predicate AreTexts(lines: seq<Line>, texts: seq<string>) {
    if lines == [] || lines[0].Done? then texts == []
    else if lines[0].Text? then texts != [] && texts[0] == lines[0].chunk && AreTexts(lines[1..], texts[1..])
    else AreTexts(lines[1..], texts)
  }

  /** What stands between the texts, and what follows the end marker, does not matter. */
  lemma {:induction false} OtherLinesDoNotMatter(lines: seq<Line>, texts: seq<string>)
    requires AreTexts(lines, texts)
    ensures TokensOfLines(lines) == TokensOfLines(Texts(texts))
    decreases |lines|
  {
    if lines != [] && !lines[0].Done? {
      if lines[0].Text? {
        OtherLinesDoNotMatter(lines[1..], texts[1..]);
        FirstChunk(texts[0], Texts(texts[1..]));
      } else {
        OtherLinesDoNotMatter(lines[1..], texts);
      }
    }
  }

  /** Until the end marker, lines are handled one after the other. */
  lemma {:induction false} LinesConcat(a: seq<Line>, b: seq<Line>)
    requires forall k :: 0 <= k < |a| ==> !a[k].Done?
    ensures TokensOfLines(a + b) == TokensOfLines(a) + TokensOfLines(b)
  {
    if a == [] {
      assert a + b == b;
    } else {
      var head := if a[0].Text? then Tokens(Split(a[0].chunk)) else [];
      LinesConcat(a[1..], b);
      assert (a + b)[1..] == a[1..] + b;
      assert head + (TokensOfLines(a[1..]) + TokensOfLines(b)) == head + TokensOfLines(a[1..]) + TokensOfLines(b);
    }
  }

  /** A token string as the server emits it whole: some text without '>', then '>'. */
  ghost predicate Whole(token: string) {
    && |token| >= 2
    && token[|token| - 1] == '>'
    && forall i :: 0 <= i < |token| - 1 ==> token[i] != '>'
  }

  lemma {:induction false} SplitAtMark(body: string, rest: string)
    requires forall i :: 0 <= i < |body| ==> body[i] != '>'
    ensures Split(body + ">" + rest) == [body] + Split(rest)
  {
    var s := body + ">" + rest;
    if body == [] {
      assert s[1..] == rest;
    } else {
      SplitAtMark(body[1..], rest);
      assert s[1..] == body[1..] + ">" + rest;
      var tail := Split(s[1..]);
      assert tail[0] == body[1..] && tail[1..] == Split(rest);
      assert [s[0]] + body[1..] == body;
    }
  }

  lemma {:induction false} TokensFromFront(first: string, pieces: seq<string>)
    ensures Tokens([first] + pieces) == (if first == [] then [] else [first + ">"]) + Tokens(pieces)
  {
    var all := [first] + pieces;
    if pieces == [] {
      assert all[..0] == [];
    } else {
      var n := |pieces| - 1;
      TokensFromFront(first, pieces[..n]);
      assert all[..|all| - 1] == [first] + pieces[..n];
    }
  }

  lemma FirstIsCutOff(token: string, rest: string)
    requires Whole(token)
    ensures Split(token + rest) == [token[..|token| - 1]] + Split(rest)
  {
    var body := token[..|token| - 1];
    assert token == body + ">";
    SplitAtMark(body, rest);
  }

  /** A chunk of whole tokens is cut back into exactly those tokens. */
  lemma {:induction false} SplitInvertsJoin(tokens: seq<string>)
    requires forall i :: 0 <= i < |tokens| ==> Whole(tokens[i])
    ensures Tokens(Split(Concat(tokens))) == tokens
  {
    if tokens == [] {
      TokensFromFront([], []);
    } else {
      var t, rest := tokens[0], tokens[1..];
      assert tokens == [t] + rest;
      ConcatCons(t, rest);
      SplitInvertsJoin(rest);
      FirstIsCutOff(t, Concat(rest));
      TokensFromFront(t[..|t| - 1], Split(Concat(rest)));
      assert t[..|t| - 1] + ">" == t;
    }
  }

  /** The chunks a server sends for a grouping of whole tokens. */
  function Chunks(groups: seq<seq<string>>): seq<Line> {
    if groups == [] then [] else [Text(Concat(groups[0]))] + Chunks(groups[1..])
  }

  ghost predicate WholeTokens(tokens: seq<string>) {
    forall i :: 0 <= i < |tokens| ==> Whole(tokens[i])
  }

  lemma FirstChunk(chunk: string, lines: seq<Line>)
    ensures TokensOfLines([Text(chunk)] + lines) == Tokens(Split(chunk)) + TokensOfLines(lines)
  {
    assert ([Text(chunk)] + lines)[1..] == lines;
  }

  /** However whole tokens are grouped into chunks, the generator yields them one by one. */
  lemma {:induction false} GroupingDoesNotMatter(groups: seq<seq<string>>)
    requires forall g :: 0 <= g < |groups| ==> WholeTokens(groups[g])
    ensures TokensOfLines(Chunks(groups)) == Concat(groups)
  {
    if groups != [] {
      var g, rest := groups[0], groups[1..];
      assert Concat(groups) == g + Concat(rest) by {
        assert groups == [g] + rest;
        ConcatCons(g, rest);
      }
      assert Tokens(Split(Concat(g))) == g by {
        assert WholeTokens(g);
        SplitInvertsJoin(g);
      }
      GroupingDoesNotMatter(rest);
      FirstChunk(Concat(g), Chunks(rest));
    }
  }

  // ---------------------------------------------------------------- tokens cut by chunk boundaries

  lemma {:induction false} TokensAppend(a: seq<string>, b: seq<string>)
    ensures Tokens(a + b) == Tokens(a) + Tokens(b)
  {
    if b == [] {
      assert a + b == a;
    } else {
      TokensAppend(a, b[..|b| - 1]);
      assert (a + b)[..|a + b| - 1] == a + b[..|b| - 1];
    }
  }

  /** What a piece becomes. */
  function TokenOf(piece: string): seq<string> {
    if piece == [] then [] else [piece + ">"]
  }

  lemma TokensOfOne(piece: string)
    ensures Tokens([piece]) == TokenOf(piece)
  {
    assert [piece][..0] == [];
  }

  /** Where two texts meet, the last piece of one and the first of the other are one piece. */
  function Meet(p: seq<string>, q: seq<string>): seq<string>
    requires p != [] && q != []
  {
    Front(p) + [Last(p) + q[0]] + q[1..]
  }

  lemma MeetFirst(first: string, p: seq<string>, q: seq<string>)
    requires p != [] && q != []
    ensures Meet([first] + p, q) == [first] + Meet(p, q)
  {
    assert Front([first] + p) == [first] + Front(p);
  }

  lemma MeetLonger(c: char, p: seq<string>, q: seq<string>)
    requires p != [] && q != []
    ensures Meet([[c] + p[0]] + p[1..], q) == [[c] + Meet(p, q)[0]] + Meet(p, q)[1..]
  {
    var longer := [[c] + p[0]] + p[1..];
    if |p| == 1 {
      assert longer == [[c] + p[0]];
      assert ([c] + p[0]) + q[0] == [c] + (p[0] + q[0]);
    } else {
      assert Front(longer) == [[c] + p[0]] + Front(p)[1..];
    }
  }

  lemma {:induction false} SplitConcat(a: string, b: string)
    ensures Split(a + b) == Meet(Split(a), Split(b))
  {
    if a == [] {
      assert a + b == b;
      assert a + Split(b)[0] == Split(b)[0];
      assert Split(b) == [Split(b)[0]] + Split(b)[1..];
    } else {
      SplitConcat(a[1..], b);
      assert (a + b)[1..] == a[1..] + b;
      if a[0] == '>' {
        MeetFirst([], Split(a[1..]), Split(b));
      } else {
        MeetLonger(a[0], Split(a[1..]), Split(b));
      }
    }
  }

  lemma {:induction false} SplitEnds(a: string)
    ensures Split(a)[0] == [] <==> a == [] || a[0] == '>'
    ensures Last(Split(a)) == [] <==> a == [] || Last(a) == '>'
  {
    if a != [] {
      SplitEnds(a[1..]);
    }
  }

  /** A boundary at the end of a token or right before its '>', or one at which nothing meets. */
  ghost predicate CleanCut(a: string, b: string) {
    a == [] || b == [] || Last(a) == '>' || b[0] == '>'
  }

  lemma TokensOfMeeting(p: seq<string>, q: seq<string>)
    requires p != [] && q != []
    ensures Tokens(Meet(p, q)) == Tokens(Front(p)) + TokenOf(Last(p) + q[0]) + Tokens(q[1..])
    ensures Tokens(p) + Tokens(q) == Tokens(Front(p)) + TokenOf(Last(p)) + TokenOf(q[0]) + Tokens(q[1..])
  {
    assert p == Front(p) + [Last(p)] && q == [q[0]] + q[1..];
    TokensAppend(Front(p), [Last(p)]);
    TokensAppend([q[0]], q[1..]);
    TokensAppend(Front(p) + [Last(p) + q[0]], q[1..]);
    TokensAppend(Front(p), [Last(p) + q[0]]);
    TokensOfOne(Last(p));
    TokensOfOne(q[0]);
    TokensOfOne(Last(p) + q[0]);
  }

  lemma MeetingCosts(end: string, start: string)
    ensures end == [] || start == [] ==> TokenOf(end) + TokenOf(start) == TokenOf(end + start)
    ensures end != [] && start != [] ==> |TokenOf(end) + TokenOf(start)| == |TokenOf(end + start)| + 1
  {
    assert end == [] ==> end + start == start;
    assert start == [] ==> end + start == end;
  }

  lemma Between(before: seq<string>, middle: seq<string>, more: seq<string>, after: seq<string>)
    ensures before + middle + more + after == before + (middle + more) + after
  {}

  /** A clean boundary changes nothing, and any other one makes two tokens of one. */
  lemma CutCosts(a: string, b: string)
    ensures CleanCut(a, b) ==> Tokens(Split(a)) + Tokens(Split(b)) == Tokens(Split(a + b))
    ensures !CleanCut(a, b) ==> |Tokens(Split(a))| + |Tokens(Split(b))| == |Tokens(Split(a + b))| + 1
  {
    var p, q := Split(a), Split(b);
    var end, start := Last(p), q[0];
    SplitConcat(a, b);
    SplitEnds(a);
    SplitEnds(b);
    TokensOfMeeting(p, q);
    MeetingCosts(end, start);
    Between(Tokens(Front(p)), TokenOf(end), TokenOf(start), Tokens(q[1..]));
  }

  function Texts(chunks: seq<string>): seq<Line> {
    if chunks == [] then [] else [Text(chunks[0])] + Texts(chunks[1..])
  }

  ghost predicate CleanCuts(chunks: seq<string>) {
    forall k :: 0 <= k < |chunks| ==> CleanCut(chunks[k], Concat(chunks[k + 1..]))
  }

  lemma CleanCutsFirst(chunks: seq<string>)
    requires chunks != []
    ensures CleanCuts(chunks) <==> CleanCut(chunks[0], Concat(chunks[1..])) && CleanCuts(chunks[1..])
  {
    var rest := chunks[1..];
    assert forall k :: 0 <= k < |rest| ==> rest[k] == chunks[k + 1] && rest[k + 1..] == chunks[k + 2..];
    if CleanCut(chunks[0], Concat(rest)) && CleanCuts(rest) {
      forall k | 0 <= k < |chunks|
        ensures CleanCut(chunks[k], Concat(chunks[k + 1..]))
      {
        if k > 0 {
          assert CleanCut(rest[k - 1], Concat(rest[k..]));
        }
      }
    }
    if CleanCuts(chunks) {
      forall k | 0 <= k < |rest|
        ensures CleanCut(rest[k], Concat(rest[k + 1..]))
      {
        assert CleanCut(chunks[k + 1], Concat(chunks[k + 2..]));
      }
    }
  }

  /** Cutting a text into chunks never gives fewer tokens, and the same ones exactly when all cuts are clean. */
  lemma {:induction false} CutsCost(chunks: seq<string>)
    ensures |TokensOfLines(Texts(chunks))| >= |Tokens(Split(Concat(chunks)))|
    ensures |TokensOfLines(Texts(chunks))| == |Tokens(Split(Concat(chunks)))| ==> CleanCuts(chunks)
    ensures CleanCuts(chunks) ==> TokensOfLines(Texts(chunks)) == Tokens(Split(Concat(chunks)))
  {
    if chunks == [] {
      TokensOfOne([]);
    } else {
      var c, rest := chunks[0], chunks[1..];
      assert Concat(chunks) == c + Concat(rest) by {
        assert chunks == [c] + rest;
        ConcatCons(c, rest);
      }
      CutsCost(rest);
      CutCosts(c, Concat(rest));
      FirstChunk(c, Texts(rest));
      CleanCutsFirst(chunks);
    }
  }

  /**
    Whole tokens survive a cutting of their text into chunks exactly when every boundary falls at
    the end of a token or right before its '>'.
   */
  lemma TokensSurviveIff(tokens: seq<string>, chunks: seq<string>)
    requires WholeTokens(tokens) && Concat(chunks) == Concat(tokens)
    ensures TokensOfLines(Texts(chunks)) == tokens <==> CleanCuts(chunks)
  {
    SplitInvertsJoin(tokens);
    CutsCost(chunks);
  }

  // ---------------------------------------------------------------- from token strings to codes

  /** p in s */
  predicate Contains(s: string, p: string) {
    RFind(s, p).Some?
  }

  /** The number after the last occurrence of `p`, if the stripped string ends right after it with '>'. */
  function NumberAfter(p: string, token: string): Option<int>
    requires p != []
  {
    if !Contains(token, p) then None
    else
      var t := Strip(token);
      var start := RFind(t, p);
      if start.None? then None
      else
        var last := t[start.value..];
        if last[|last| - 1] != '>' || |last| == |p| then None else PyInt(last[|p|..|last| - 1])
  }

  function Rebased(n: Option<int>, phase: nat): Option<int> {
    if n.None? then None else Some(n.value - 10 - phase * 4096)
  }

  /** What turn_token_into_id computes without its cache. */
  function ParseId(token: string, phase: nat): Option<int> {
    Rebased(NumberAfter(PREFIX, token), phase)
  }

  function PrintNumber(p: string, n: nat): string {
    p + Decimal.Print(n) + ">"
  }

  function PrintToken(code: nat, index: nat): string {
    PrintNumber(PREFIX, code + 10 + 4096 * (index % 7))
  }

  /** A pattern whose first character is visible and occurs nowhere else in it. */
  ghost predicate Marked(p: string) {
    && p != [] && !IsSpace(p[0]) && p[0] != '>' && !Decimal.IsDigit(p[0])
    && forall i :: 1 <= i < |p| ==> p[i] != p[0] && p[i] != '>'
  }

  lemma PrefixIsMarked()
    ensures Marked(PREFIX) && |PREFIX| == 14
  {}

  lemma {:induction false} OnlyAtFront(p: string, s: string)
    requires Marked(p) && forall i :: 0 <= i < |s| ==> s[i] != p[0]
    ensures RFind(p + s, p) == Some(0)
  {
    var t := p + s;
    if s != [] {
      OnlyAtFront(p, s[..|s| - 1]);
      assert t[..|t| - 1] == p + s[..|s| - 1];
      assert t[|t| - |p|..][0] == t[|s|];
      assert t[|s|] != p[0];
    } else {
      assert t == p;
    }
  }

  lemma PrintedShape(p: string, n: nat)
    requires Marked(p)
    ensures var t := PrintNumber(p, n);
            Whole(t) && Contains(t, p) && Strip(t) == t && RFind(t, p) == Some(0)
  {
    var d := Decimal.Print(n);
    var t := PrintNumber(p, n);
    StripOfTight(t);
    OnlyAtFront(p, d + ">");
    assert t == p + (d + ">");
  }

  lemma NumberAfterPrint(p: string, n: nat)
    requires Marked(p)
    ensures NumberAfter(p, PrintNumber(p, n)) == Some(n)
  {
    var t := PrintNumber(p, n);
    PrintedShape(p, n);
    PyIntOfPrint(n);
    assert t[0..] == t;
    assert t[|p|..|t| - 1] == Decimal.Print(n);
  }

  /** Parsing inverts printing for every code, at the phase it was printed for. */
  lemma ParseInvertsPrint(code: nat, index: nat)
    ensures ParseId(PrintToken(code, index), index % 7) == Some(code)
  {
    PrefixIsMarked();
    var n := code + 10 + 4096 * (index % 7);
    calc {
      ParseId(PrintToken(code, index), index % 7);
      Rebased(NumberAfter(PREFIX, PrintNumber(PREFIX, n)), index % 7);
      { NumberAfterPrint(PREFIX, n); }
      Rebased(Some(n), index % 7);
      Some(code);
    }
  }

  lemma NoNumberWithout(p: string, token: string)
    requires p != [] && forall i: nat :: !OccursAt(token, p, i)
    ensures NumberAfter(p, token) == None
  {
    RFindIsLast(token, p);
  }

  /** A string without the prefix is no token, whatever else it is. */
  lemma NoPrefixNoCode(token: string, phase: nat)
    requires forall i: nat :: !OccursAt(token, PREFIX, i)
    ensures ParseId(token, phase) == None
  {
    PrefixIsMarked();
    NoNumberWithout(PREFIX, token);
  }

  lemma NoNumberUnclosed(p: string, token: string)
    requires Marked(p) && (Strip(token) == [] || Strip(token)[|Strip(token)| - 1] != '>')
    ensures NumberAfter(p, token) == None
  {}

  /** Nor is one that does not end with '>', white space aside. */
  lemma UnclosedNoCode(token: string, phase: nat)
    requires Strip(token) == [] || Strip(token)[|Strip(token)| - 1] != '>'
    ensures ParseId(token, phase) == None
  {
    PrefixIsMarked();
    NoNumberUnclosed(PREFIX, token);
  }

  lemma NotAtEnd(s: string, p: string)
    requires p != [] && |s| > |p| && s[|s| - |p|] != p[0]
    ensures RFind(s, p) == RFind(s[..|s| - 1], p)
  {
    assert s[|s| - |p|..][0] == s[|s| - |p|];
  }

  lemma {:induction false} FoundAfter(before: string, p: string, s: string)
    requires Marked(p) && forall i :: 0 <= i < |s| ==> s[i] != p[0]
    ensures RFind(before + p + s, p) == Some(|before|)
  {
    var t := before + p + s;
    if s == [] {
      assert t[|t| - |p|..] == p;
    } else {
      FoundAfter(before, p, s[..|s| - 1]);
      assert t[..|t| - 1] == before + p + s[..|s| - 1];
      LaterIsNotFirst(before, p, s, |s|);
      NotAtEnd(t, p);
    }
  }

  lemma LaterIsNotFirst(before: string, p: string, s: string, k: nat)
    requires Marked(p) && (forall i :: 0 <= i < |s| ==> s[i] != p[0]) && 0 < k < |p| + |s|
    ensures (before + p + s)[|before| + k] != p[0]
  {
    if k < |p| {
      assert (before + p + s)[|before| + k] == p[k];
    } else {
      assert (before + p + s)[|before| + k] == s[k - |p|];
    }
  }

  lemma NumberAfterAround(p: string, n: nat, before: string, post: string)
    requires Marked(p) && AllSpace(post)
    ensures NumberAfter(p, before + PrintNumber(p, n) + post) == Some(n)
  {
    var d := Decimal.Print(n);
    var token := PrintNumber(p, n);
    var whole := before + token + post;
    PrintedShape(p, n);
    RFindIsLast(whole, p);
    assert whole[|before|..|before| + |p|] == p;
    assert OccursAt(whole, p, |before|);
    var kept := StripAround(before, token, post);
    var t := kept + token;
    assert t == kept + p + (d + ">");
    FoundAfter(kept, p, d + ">");
    PyIntOfPrint(n);
    assert t[|kept|..] == token;
    assert token[|p|..|token| - 1] == d;
  }

  /** Text before the last prefix and white space after the token do not matter. */
  lemma ParseIgnoresAround(code: nat, index: nat, before: string, post: string)
    requires AllSpace(post)
    ensures ParseId(before + PrintToken(code, index) + post, index % 7) == Some(code)
  {
    PrefixIsMarked();
    var n := code + 10 + 4096 * (index % 7);
    calc {
      ParseId(before + PrintToken(code, index) + post, index % 7);
      Rebased(NumberAfter(PREFIX, before + PrintNumber(PREFIX, n) + post), index % 7);
      { NumberAfterAround(PREFIX, n, before, post); }
      Rebased(Some(n), index % 7);
      Some(code);
    }
  }

  lemma PrintedIsWhole(code: nat, index: nat)
    ensures Whole(PrintToken(code, index))
  {
    PrefixIsMarked();
    PrintedShape(PREFIX, code + 10 + 4096 * (index % 7));
  }

  /** From a token string and the phase of its frame to a code, if it is one. */
  type Parser = (string, nat) -> Option<int>

  /** A parser that gets back every code that was printed for its phase. */
  ghost predicate PrintsBack(parse: Parser) {
    forall code: nat, index: nat :: parse(PrintToken(code, index), index % 7) == Some(code)
  }

  lemma ParseIdPrintsBack()
    ensures PrintsBack(ParseId)
  {
    forall code: nat, index: nat
      ensures ParseId(PrintToken(code, index), index % 7) == Some(code)
    {
      ParseInvertsPrint(code, index);
    }
  }

  /** The module-level dictionary that remembers parsed tokens; the pipeline's parser is ParseId. */
  class TokenIds {
    const parse: Parser
    var cache: map<(string, nat), int>

    ghost predicate Valid()
      reads this
    {
      && |cache| <= MAX_CACHE_SIZE
      && forall k :: k in cache ==> parse(k.0, k.1) == Some(cache[k])
    }

    constructor (parse: Parser)
      ensures Valid() && this.parse == parse && cache == map[]
    {
      this.parse, cache := parse, map[];
    }

    /** The cache is transparent: what earlier calls left in it, full or not, never shows. */
    method TurnTokenIntoId(token: string, index: nat) returns (id: Option<int>)
      requires Valid()
      modifies this
      ensures Valid()
      ensures id == parse(token, index % 7)
      ensures id.Some? && |old(cache)| < MAX_CACHE_SIZE ==> (token, index % 7) in cache
      ensures forall k :: k in old(cache) ==> k in cache && cache[k] == old(cache)[k]
    {
      var key := (token, index % 7);
      if key in cache {
        return Some(cache[key]);
      }
      id := parse(token, index % 7);
      if id.Some? && |cache| < MAX_CACHE_SIZE {
        cache := cache[key := id.value];
      }
    }
  }
}
