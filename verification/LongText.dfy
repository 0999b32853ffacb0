/**
  Cutting a long text into sentences (inference/pipeline/long_text.py, split_text_into_sentences):
  cut after sentence punctuation, strip, and join short sentences to the ones after them.
 */
module LongText {
  import opened PyText
  import opened Seqs

  const MIN_CHARS := 20

  // ---------------------------------------------------------------- lists of texts

  /** " ".join, as the loops build it up. */
  function Join(texts: seq<string>): string {
    if texts == [] then []
    else if |texts| == 1 then texts[0]
    else Join(Front(texts)) + " " + Last(texts)
  }

  function JoinAll(groups: seq<seq<string>>): seq<string> {
    seq(|groups|, i requires 0 <= i < |groups| => Join(groups[i]))
  }

  /** The visible characters of a list of texts, in order. */
  function Visible(texts: seq<string>): string {
    if texts == [] then [] else Visible(Front(texts)) + NonSpace(Last(texts))
  }

  lemma {:induction false} VisibleConcat(a: seq<string>, b: seq<string>)
    ensures Visible(a + b) == Visible(a) + Visible(b)
  {
    if b == [] {
      assert a + b == a;
    } else {
      VisibleConcat(a, Front(b));
      assert Front(a + b) == a + Front(b) && Last(a + b) == Last(b);
      assert Visible(a) + Visible(Front(b)) + NonSpace(Last(b)) == Visible(a) + (Visible(Front(b)) + NonSpace(Last(b)));
    }
  }

  lemma {:induction false} VisibleOfConcat(pieces: seq<string>)
    ensures NonSpace(Concat(pieces)) == Visible(pieces)
  {
    if pieces != [] {
      VisibleOfConcat(Front(pieces));
      NonSpaceConcat(Concat(Front(pieces)), Last(pieces));
    }
  }

  lemma {:induction false} VisibleOfJoin(texts: seq<string>)
    ensures NonSpace(Join(texts)) == Visible(texts)
  {
    if texts == [] {
    } else if |texts| == 1 {
      assert Front(texts) == [];
    } else {
      VisibleOfJoin(Front(texts));
      NonSpaceConcat(Join(Front(texts)) + " ", Last(texts));
      NonSpaceConcat(Join(Front(texts)), " ");
      NonSpaceOfOne(' ');
    }
  }

  lemma {:induction false} VisibleOfGroups(groups: seq<seq<string>>)
    ensures Visible(JoinAll(groups)) == Visible(Concat(groups))
  {
    if groups != [] {
      VisibleOfGroups(Front(groups));
      assert Front(JoinAll(groups)) == JoinAll(Front(groups));
      VisibleOfJoin(Last(groups));
      VisibleConcat(Concat(Front(groups)), Last(groups));
    }
  }

  // ---------------------------------------------------------------- cutting

  /** `current` ends a sentence: a space after '.', '!' or '?', which does not follow '.' or ' '. */
  predicate Boundary(current: string) {
    && |current| > 3
    && (Last(current) == ' ' || Last(current) == '\n' || Last(current) == '\t')
    && (current[|current| - 2] == '.' || current[|current| - 2] == '!' || current[|current| - 2] == '?')
    && current[|current| - 3] != '.' && current[|current| - 3] != ' '
  }

  /** The unstripped pieces of a text; the last one is what is left over. */
  function Cut(text: string): (pieces: seq<string>)
    ensures pieces != []
  {
    if text == [] then [[]]
    else
      var before := Cut(Front(text));
      var current := Last(before) + [Last(text)];
      if Boundary(current) then Front(before) + [current, []] else Front(before) + [current]
  }

  /**
    What it is to be cut: nothing is lost, every piece but the last ends a sentence, and no piece
    ends one earlier.
   */
  ghost predicate IsCut(pieces: seq<string>, text: string) {
    && pieces != []
    && Concat(pieces) == text
    && (forall k :: 0 <= k < |pieces| - 1 ==> Boundary(pieces[k]))
    && (forall k, m :: 0 <= k < |pieces| && 0 <= m < |pieces[k]| ==> !Boundary(pieces[k][..m]))
    && !Boundary(Last(pieces))
  }

  /** What one more character does to the pieces. */
  lemma CutNext(text: string, c: char)
    ensures
      var before, after := Cut(text), Cut(text + [c]);
      var current := Last(before) + [c];
      if Boundary(current) then Front(after) == Front(before) + [current] && Last(after) == []
      else Front(after) == Front(before) && Last(after) == current
  {
    assert Front(text + [c]) == text && Last(text + [c]) == c;
  }

  lemma GrownCut(pieces: seq<string>, text: string, c: char)
    requires IsCut(pieces, text) && !Boundary(Last(pieces) + [c])
    ensures IsCut(Front(pieces) + [Last(pieces) + [c]], text + [c])
  {
    var current := Last(pieces) + [c];
    var after := Front(pieces) + [current];
    assert Front(after) == Front(pieces);
    assert Concat(after) == Concat(Front(pieces)) + Last(pieces) + [c];
    assert forall m :: 0 <= m < |Last(pieces)| ==> current[..m] == Last(pieces)[..m];
    assert current[..|Last(pieces)|] == Last(pieces);
  }

  lemma ClosedCut(pieces: seq<string>, text: string, c: char)
    requires IsCut(pieces, text) && Boundary(Last(pieces) + [c])
    ensures IsCut(Front(pieces) + [Last(pieces) + [c]] + [[]], text + [c])
  {
    var current := Last(pieces) + [c];
    var closed := Front(pieces) + [current];
    var after := closed + [[]];
    assert Front(after) == closed && Front(closed) == Front(pieces);
    assert Concat(after) == Concat(Front(pieces)) + Last(pieces) + [c];
    assert forall m :: 0 <= m < |Last(pieces)| ==> current[..m] == Last(pieces)[..m];
    assert current[..|Last(pieces)|] == Last(pieces);
  }

  lemma {:induction false} CutIsCut(text: string)
    ensures IsCut(Cut(text), text)
  {
    if text == [] {
      assert Front(Cut(text)) == [];
    } else {
      var before := Cut(Front(text));
      CutIsCut(Front(text));
      CutStep(before, Front(text), Last(text));
      assert text == Front(text) + [Last(text)];
    }
  }

  lemma CutStep(before: seq<string>, text: string, c: char)
    requires IsCut(before, text)
    ensures var current := Last(before) + [c];
            IsCut(if Boundary(current) then Front(before) + [current, []] else Front(before) + [current], text + [c])
  {
    var current := Last(before) + [c];
    if Boundary(current) {
      ClosedCut(before, text, c);
      assert Front(before) + [current, []] == Front(before) + [current] + [[]];
    } else {
      GrownCut(before, text, c);
    }
  }

  /** There is only one way to be cut. */
  lemma {:induction false} CutIsUnique(p: seq<string>, q: seq<string>, text: string)
    requires IsCut(p, text) && IsCut(q, text)
    ensures p == q
    decreases |p|
  {
    assert p == [p[0]] + p[1..] && q == [q[0]] + q[1..];
    ConcatCons(p[0], p[1..]);
    ConcatCons(q[0], q[1..]);
    if |p[0]| < |q[0]| {
      FirstIsNoShorter(q, p, text);
    } else if |q[0]| < |p[0]| {
      FirstIsNoShorter(p, q, text);
    }
    assert p[0] == text[..|p[0]|] && q[0] == text[..|q[0]|];
    if |p| > 1 && |q| > 1 {
      var rest := text[|p[0]|..];
      assert IsCut(p[1..], rest) by { TailIsCut(p, text); }
      assert IsCut(q[1..], rest) by { TailIsCut(q, text); }
      CutIsUnique(p[1..], q[1..], rest);
    }
  }

  lemma TailIsCut(p: seq<string>, text: string)
    requires IsCut(p, text) && |p| > 1
    ensures |p[0]| <= |text| && IsCut(p[1..], text[|p[0]|..])
  {
    assert p == [p[0]] + p[1..];
    ConcatCons(p[0], p[1..]);
  }

  lemma FirstIsNoShorter(p: seq<string>, q: seq<string>, text: string)
    requires IsCut(p, text) && IsCut(q, text)
    ensures |p[0]| <= |q[0]|
  {
    assert p == [p[0]] + p[1..] && q == [q[0]] + q[1..];
    ConcatCons(p[0], p[1..]);
    ConcatCons(q[0], q[1..]);
    assert text[..|p[0]|] == p[0] && text[..|q[0]|] == q[0];
    if |q| > 1 {
      assert Boundary(q[0]);
      var m := if |q[0]| <= |p[0]| then |q[0]| else |p[0]|;
      assert p[0][..m] == text[..m] == q[0][..m];
      assert q[0][..|q[0]|] == q[0];
    } else {
      assert q[1..] == [];
    }
  }

  predicate IsMark(c: char) {
    c == '.' || c == '!' || c == '?'
  }

  predicate IsGap(c: char) {
    c == ' ' || c == '\n' || c == '\t'
  }

  ghost predicate Unmarked(s: string) {
    forall i :: 0 <= i < |s| ==> !IsMark(s[i])
  }

  /** A sentence of two characters or more, a mark and a gap: it is cut off, and the rest is cut by itself. */
  lemma SentenceIsCutOff(body: string, mark: char, gap: char, rest: string)
    requires |body| >= 2 && Unmarked(body) && Last(body) != ' ' && IsMark(mark) && IsGap(gap)
    ensures Cut(body + [mark, gap] + rest) == [body + [mark, gap]] + Cut(rest)
  {
    var p := body + [mark, gap];
    var pieces := [p] + Cut(rest);
    CutIsCut(rest);
    CutIsCut(p + rest);
    ConcatCons(p, Cut(rest));
    forall m | 0 <= m < |p|
      ensures !Boundary(p[..m])
    {
      assert m >= 2 ==> p[..m][|p[..m]| - 2] == p[m - 2];
    }
    assert Boundary(p);
    assert forall k :: 0 < k < |pieces| ==> pieces[k] == Cut(rest)[k - 1];
    assert Last(pieces) == Last(Cut(rest));
    CutIsUnique(pieces, Cut(p + rest), p + rest);
  }

  /** After an initial, an ellipsis or a lone mark nothing is cut off. */
  lemma InitialIsNotCutOff(body: string, mark: char, gap: char, rest: string)
    requires |body| < 2 || Last(body) == '.' || Last(body) == ' '
    requires body != [] ==> Unmarked(Front(body))
    requires IsMark(mark) && IsGap(gap) && Unmarked(rest)
    ensures Cut(body + [mark, gap] + rest) == [body + [mark, gap] + rest]
  {
    var text := body + [mark, gap] + rest;
    CutIsCut(text);
    forall m | 0 <= m <= |text|
      ensures !Boundary(text[..m])
    {
      if m > 3 {
        assert text[..m][|text[..m]| - 2] == text[m - 2] && text[..m][|text[..m]| - 3] == text[m - 3];
        assert Last(text[..m]) == text[m - 1];
        if m - 2 < |body| - 1 {
          assert text[m - 2] == Front(body)[m - 2];
        } else if m - 2 > |body| + 1 {
          assert text[m - 2] == rest[m - 2 - |body| - 2];
        }
      }
    }
    assert text[..|text|] == text;
    assert Front([text]) == [];
    CutIsUnique([text], Cut(text), text);
  }

  // ---------------------------------------------------------------- stripping

  function StripAll(pieces: seq<string>): seq<string> {
    seq(|pieces|, i requires 0 <= i < |pieces| => Strip(pieces[i]))
  }

  /** The stripped sentences; a blank rest is none. */
  function Parts(text: string): seq<string> {
    var pieces := Cut(text);
    StripAll(Front(pieces)) + if Strip(Last(pieces)) == [] then [] else [Strip(Last(pieces))]
  }

  lemma {:induction false} VisibleOfStripped(pieces: seq<string>)
    ensures Visible(StripAll(pieces)) == Visible(pieces)
  {
    if pieces != [] {
      VisibleOfStripped(Front(pieces));
      NonSpaceStrip(Last(pieces));
      assert Front(StripAll(pieces)) == StripAll(Front(pieces));
    }
  }

  lemma PiecesAreVisible(text: string, i: nat)
    requires i < |Cut(text)| - 1
    ensures Strip(Cut(text)[i]) != []
  {
    CutIsCut(text);
    var piece := Cut(text)[i];
    assert Boundary(piece);
    StripKeepsVisible(piece, |piece| - 2);
  }

  lemma PartsAreNonEmpty(text: string)
    ensures forall i :: 0 <= i < |Parts(text)| ==> Parts(text)[i] != []
  {
    var pieces := Cut(text);
    forall i | 0 <= i < |pieces| - 1
      ensures Strip(pieces[i]) != []
    {
      PiecesAreVisible(text, i);
    }
  }

  /** Parts begin and end visibly. */
  lemma PartsAreStripped(text: string, i: nat)
    requires i < |Parts(text)|
    ensures var part := Parts(text)[i];
            part != [] && !IsSpace(part[0]) && !IsSpace(part[|part| - 1])
  {
    PartsAreNonEmpty(text);
    var pieces := Cut(text);
    var piece := if i < |pieces| - 1 then pieces[i] else Last(pieces);
    var pre, post := StripIsMiddle(piece);
  }

  lemma PartsKeepText(text: string)
    ensures Visible(Parts(text)) == NonSpace(text)
  {
    var pieces := Cut(text);
    var last := Last(pieces);
    CutIsCut(text);
    VisibleOfConcat(pieces);
    VisibleOfStripped(Front(pieces));
    NonSpaceStrip(last);
    VisibleOfOne(Strip(last));
    VisibleConcat(StripAll(Front(pieces)), [Strip(last)]);
    if Strip(last) == [] {
      assert Parts(text) == StripAll(Front(pieces));
    }
  }

  lemma VisibleOfOne(s: string)
    ensures Visible([s]) == NonSpace(s)
  {
    assert Front([s]) == [];
  }

  // ---------------------------------------------------------------- joining short sentences

  /** How many sentences, at least `n`, are joined before the text is long enough. */
  function Reach(parts: seq<string>, n: nat): (r: nat)
    requires 1 <= n <= |parts|
    ensures n <= r <= |parts|
    decreases |parts| - n
  {
    if n < |parts| && |Join(parts[..n])| < MIN_CHARS then Reach(parts, n + 1) else n
  }

  function Groups(parts: seq<string>): seq<seq<string>> {
    if parts == [] then []
    else
      var n := Reach(parts, 1);
      [parts[..n]] + Groups(parts[n..])
  }

  function Sentences(text: string): seq<string> {
    JoinAll(Groups(Parts(text)))
  }

  lemma {:induction false} ReachIsFirst(parts: seq<string>, n: nat)
    requires 1 <= n <= |parts|
    ensures var r := Reach(parts, n);
            && (r < |parts| ==> |Join(parts[..r])| >= MIN_CHARS)
            && forall m :: n <= m < r ==> |Join(parts[..m])| < MIN_CHARS
    decreases |parts| - n
  {
    if n < |parts| && |Join(parts[..n])| < MIN_CHARS {
      ReachIsFirst(parts, n + 1);
    }
  }

  /** A group that stops as soon as it is long enough, unless it is the last. */
  ghost predicate Tight(g: seq<string>, isLast: bool) {
    && g != []
    && (!isLast ==> |Join(g)| >= MIN_CHARS)
    && forall m :: 1 <= m < |g| ==> |Join(g[..m])| < MIN_CHARS
  }

  /**
    The groups are consecutive and cover the sentences; all but the last reach twenty characters,
    and none is longer than it takes.
   */
  lemma {:induction false} GroupsAreTight(parts: seq<string>)
    ensures Concat(Groups(parts)) == parts
    ensures forall k :: 0 <= k < |Groups(parts)| ==> Tight(Groups(parts)[k], k == |Groups(parts)| - 1)
    decreases |parts|
  {
    if parts != [] {
      var n := Reach(parts, 1);
      var rest := Groups(parts[n..]);
      ReachIsFirst(parts, 1);
      GroupsAreTight(parts[n..]);
      ConcatCons(parts[..n], rest);
      assert forall m :: 1 <= m < n ==> parts[..n][..m] == parts[..m];
      assert rest == [] ==> n == |parts|;
      assert Tight(parts[..n], rest == []);
    }
  }

  /** Cutting, stripping and joining keep every visible character. */
  lemma SentencesKeepText(text: string)
    ensures Visible(Sentences(text)) == NonSpace(text)
  {
    PartsKeepText(text);
    GroupsAreTight(Parts(text));
    VisibleOfGroups(Groups(Parts(text)));
  }

  /** There are no empty sentences, and all but the last are long enough. */
  lemma SentencesAreLong(text: string)
    ensures forall i :: 0 <= i < |Sentences(text)| ==> Sentences(text)[i] != []
    ensures forall i :: 0 <= i < |Sentences(text)| - 1 ==> |Sentences(text)[i]| >= MIN_CHARS
  {
    var groups := Groups(Parts(text));
    PartsAreNonEmpty(text);
    GroupsAreTight(Parts(text));
    forall k | 0 <= k < |groups|
      ensures Join(groups[k]) != []
    {
      assert Tight(groups[k], k == |groups| - 1);
      InConcat(groups, k);
      JoinIsNonEmpty(groups[k]);
    }
  }

  lemma JoinIsNonEmpty(g: seq<string>)
    requires g != [] && forall x :: x in g ==> x != []
    ensures Join(g) != []
  {
    assert Last(g) in g;
  }

  lemma StripAllAppend(pieces: seq<string>, piece: string)
    ensures StripAll(pieces + [piece]) == StripAll(pieces) + [Strip(piece)]
  {}

  /** The two loops of split_text_into_sentences. */
  method SplitTextIntoSentences(text: string) returns (combined: seq<string>)
    ensures combined == Sentences(text)
  {
    var parts: seq<string> := [];
    var current := "";
    for k := 0 to |text|
      invariant parts == StripAll(Front(Cut(text[..k]))) && current == Last(Cut(text[..k]))
    {
      assert text[..k + 1] == text[..k] + [text[k]];
      CutNext(text[..k], text[k]);
      StripAllAppend(Front(Cut(text[..k])), current + [text[k]]);
      current := current + [text[k]];
      if (text[k] == ' ' || text[k] == '\n' || text[k] == '\t') && |current| > 1 {
        var previous := current[|current| - 2];
        if previous == '.' || previous == '!' || previous == '?' {
          if |current| > 3 && current[|current| - 3] != '.' && current[|current| - 3] != ' ' {
            parts := parts + [Strip(current)];
            current := "";
          }
        }
      }
    }
    assert text[..|text|] == text;
    if Strip(current) != "" {
      parts := parts + [Strip(current)];
    }
    assert parts == Parts(text);
    combined := JoinShort(parts);
  }

  lemma JoinNext(parts: seq<string>, n: nat)
    requires 1 <= n < |parts|
    ensures Join(parts[..n + 1]) == Join(parts[..n]) + " " + parts[n]
  {
    assert Front(parts[..n + 1]) == parts[..n];
  }

  lemma JoinAllCons(g: seq<string>, groups: seq<seq<string>>)
    ensures JoinAll([g] + groups) == [Join(g)] + JoinAll(groups)
  {}

  /** The inner loop, on the same index as the outer one: it stops at the last sentence joined to parts[start]. */
  method Absorb(parts: seq<string>, start: nat) returns (cur: string, i: nat)
    requires start < |parts|
    ensures start <= i < |parts| && i + 1 - start == Reach(parts[start..], 1)
    ensures cur == Join(parts[start..][..i + 1 - start])
  {
    ghost var rest := parts[start..];
    i := start;
    cur := parts[i];
    while i < |parts| - 1 && |cur| < MIN_CHARS
      invariant start <= i < |parts|
      invariant cur == Join(rest[..i + 1 - start])
      invariant Reach(rest, i + 1 - start) == Reach(rest, 1)
    {
      i := i + 1;
      JoinNext(rest, i - start);
      cur := cur + " " + parts[i];
    }
  }

  lemma GroupFrom(parts: seq<string>, i: nat, n: nat)
    requires i < |parts| && n == Reach(parts[i..], 1)
    ensures i + n <= |parts|
    ensures JoinAll(Groups(parts[i..])) == [Join(parts[i..][..n])] + JoinAll(Groups(parts[i + n..]))
  {
    var rest := parts[i..];
    assert rest[n..] == parts[i + n..];
    JoinAllCons(rest[..n], Groups(rest[n..]));
  }

  lemma JoinStep(done: seq<string>, parts: seq<string>, i: nat, n: nat)
    requires i < |parts| && n == Reach(parts[i..], 1)
    ensures i + n <= |parts|
    ensures done + [Join(parts[i..][..n])] + JoinAll(Groups(parts[i + n..])) == done + JoinAll(Groups(parts[i..]))
  {
    GroupFrom(parts, i, n);
    var rest := JoinAll(Groups(parts[i + n..]));
    assert done + ([Join(parts[i..][..n])] + rest) == done + [Join(parts[i..][..n])] + rest;
  }

  method JoinShort(parts: seq<string>) returns (combined: seq<string>)
    ensures combined == JoinAll(Groups(parts))
  {
    ghost var all := JoinAll(Groups(parts));
    assert parts[0..] == parts;
    combined := [];
    var i := 0;
    while i < |parts|
      invariant i <= |parts|
      invariant combined + JoinAll(Groups(parts[i..])) == all
    {
      var cur, last := Absorb(parts, i);
      JoinStep(combined, parts, i, last + 1 - i);
      combined := combined + [cur];
      i := last + 1;
    }
  }
}
