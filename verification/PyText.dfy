/** The Python string operations that the inference pipeline uses. */
module PyText {
  import opened Wrappers
  import Decimal

  /** str.isspace for one character. */
  predicate IsSpace(c: char) {
    || '\U{0009}' <= c <= '\U{000D}' || '\U{001C}' <= c <= '\U{0020}'
    || c == '\U{0085}' || c == '\U{00A0}' || c == '\U{1680}'
    || '\U{2000}' <= c <= '\U{200A}'
    || c == '\U{2028}' || c == '\U{2029}' || c == '\U{202F}' || c == '\U{205F}' || c == '\U{3000}'
  }

  function LStrip(s: string): string {
    if s != [] && IsSpace(s[0]) then LStrip(s[1..]) else s
  }

  function RStrip(s: string): string {
    if s != [] && IsSpace(s[|s| - 1]) then RStrip(s[..|s| - 1]) else s
  }

  function Strip(s: string): string {
    RStrip(LStrip(s))
  }

  /** The characters of a text that are not white space, in order. */
  function NonSpace(s: string): string {
    if s == [] then []
    else NonSpace(s[..|s| - 1]) + if IsSpace(s[|s| - 1]) then [] else [s[|s| - 1]]
  }

  lemma {:induction false} NonSpaceConcat(a: string, b: string)
    ensures NonSpace(a + b) == NonSpace(a) + NonSpace(b)
  {
    if b == [] {
      assert a + b == a;
    } else {
      var n := |b| - 1;
      NonSpaceConcat(a, b[..n]);
      assert (a + b)[..|a + b| - 1] == a + b[..n];
    }
  }

  lemma NonSpaceOfOne(c: char)
    ensures NonSpace([c]) == if IsSpace(c) then [] else [c]
  {
    assert [c][..0] == [];
  }

  lemma {:induction false} NonSpaceLStrip(s: string)
    ensures NonSpace(LStrip(s)) == NonSpace(s)
  {
    if s != [] && IsSpace(s[0]) {
      NonSpaceLStrip(s[1..]);
      NonSpaceCons(s[0], s[1..]);
      assert s == [s[0]] + s[1..];
    }
  }

  lemma NonSpaceCons(c: char, s: string)
    ensures NonSpace([c] + s) == (if IsSpace(c) then [] else [c]) + NonSpace(s)
  {
    NonSpaceConcat([c], s);
    NonSpaceOfOne(c);
  }

  lemma {:induction false} NonSpaceRStrip(s: string)
    ensures NonSpace(RStrip(s)) == NonSpace(s)
  {
    if s != [] && IsSpace(s[|s| - 1]) {
      NonSpaceRStrip(s[..|s| - 1]);
    }
  }

  lemma NonSpaceStrip(s: string)
    ensures NonSpace(Strip(s)) == NonSpace(s)
  {
    NonSpaceLStrip(s);
    NonSpaceRStrip(LStrip(s));
  }

  lemma {:induction false} VisibleIsKept(s: string, i: nat)
    requires i < |s| && !IsSpace(s[i])
    ensures NonSpace(s) != []
  {
    if i < |s| - 1 {
      VisibleIsKept(s[..|s| - 1], i);
    }
  }

  /** A text with a visible character strips to one that has it too. */
  lemma StripKeepsVisible(s: string, i: nat)
    requires i < |s| && !IsSpace(s[i])
    ensures Strip(s) != []
  {
    NonSpaceStrip(s);
    VisibleIsKept(s, i);
  }

  ghost predicate AllSpace(s: string) {
    forall i :: 0 <= i < |s| ==> IsSpace(s[i])
  }

  lemma {:induction false} LStripCuts(s: string) returns (pre: string)
    ensures AllSpace(pre) && s == pre + LStrip(s)
    ensures LStrip(s) != [] ==> !IsSpace(LStrip(s)[0])
  {
    if s != [] && IsSpace(s[0]) {
      var more := LStripCuts(s[1..]);
      pre := [s[0]] + more;
      assert s == [s[0]] + s[1..];
    } else {
      pre := [];
    }
  }

  lemma {:induction false} RStripCuts(s: string) returns (post: string)
    ensures AllSpace(post) && s == RStrip(s) + post
    ensures RStrip(s) != [] ==> !IsSpace(RStrip(s)[|RStrip(s)| - 1])
  {
    if s != [] && IsSpace(s[|s| - 1]) {
      var more := RStripCuts(s[..|s| - 1]);
      post := more + [s[|s| - 1]];
    } else {
      post := [];
    }
  }

  /** Stripping takes white space off both ends and nothing else, until there is none left. */
  lemma StripIsMiddle(s: string) returns (pre: string, post: string)
    ensures AllSpace(pre) && AllSpace(post) && s == pre + Strip(s) + post
    ensures Strip(s) != [] ==> !IsSpace(Strip(s)[0]) && !IsSpace(Strip(s)[|Strip(s)| - 1])
  {
    pre := LStripCuts(s);
    post := RStripCuts(LStrip(s));
    if Strip(s) != [] {
      assert Strip(s)[0] == LStrip(s)[0];
    }
  }

  /** White space after a text that ends visibly, and anything before it. */
  lemma {:induction false} RStripTail(s: string, post: string)
    requires s != [] && !IsSpace(s[|s| - 1]) && AllSpace(post)
    ensures RStrip(s + post) == s
  {
    if post == [] {
      assert s + post == s;
    } else {
      var front := post[..|post| - 1];
      assert (s + post)[..|s + post| - 1] == s + front;
      RStripTail(s, front);
    }
  }

  lemma {:induction false} LStripHead(pre: string, s: string) returns (kept: string)
    requires s != [] && !IsSpace(s[0])
    ensures LStrip(pre + s) == kept + s && |kept| <= |pre|
  {
    if pre == [] || !IsSpace(pre[0]) {
      kept := pre;
      assert pre == [] ==> pre + s == s;
    } else {
      assert (pre + s)[1..] == pre[1..] + s;
      kept := LStripHead(pre[1..], s);
    }
  }

  lemma StripAround(pre: string, s: string, post: string) returns (kept: string)
    requires s != [] && !IsSpace(s[0]) && !IsSpace(s[|s| - 1]) && AllSpace(post)
    ensures Strip(pre + s + post) == kept + s
  {
    assert pre + s + post == pre + (s + post);
    kept := LStripHead(pre, s + post);
    assert kept + (s + post) == kept + s + post;
    RStripTail(kept + s, post);
  }

  lemma StripOfTight(s: string)
    requires s != [] && !IsSpace(s[0]) && !IsSpace(s[|s| - 1])
    ensures Strip(s) == s
  {}

  /** s.rfind(p), absent instead of -1, for a pattern that is not empty. */
  function RFind(s: string, p: string): Option<nat>
    ensures var r := RFind(s, p); r.Some? ==> p <= s[r.value..] && r.value + |p| <= |s|
  {
    if |s| < |p| then None
    else if s[|s| - |p|..] == p then Some(|s| - |p|)
    else if |s| == |p| then None
    else
      var r := RFind(s[..|s| - 1], p);
      if r.Some? then
        assert s[r.value..][..|p|] == s[..|s| - 1][r.value..][..|p|];
        r
      else None
  }

  ghost predicate OccursAt(s: string, p: string, i: nat) {
    i + |p| <= |s| && s[i..i + |p|] == p
  }

  lemma OccursInFront(s: string, p: string, i: nat)
    requires OccursAt(s, p, i) && s != []
    ensures i + |p| < |s| ==> OccursAt(s[..|s| - 1], p, i)
    ensures i + |p| == |s| ==> s[|s| - |p|..] == p
  {
    if i + |p| < |s| {
      assert s[..|s| - 1][i..i + |p|] == s[i..i + |p|];
    } else {
      assert s[|s| - |p|..] == s[i..i + |p|];
    }
  }

  lemma {:induction false} NoneLater(s: string, p: string, i: nat)
    requires OccursAt(s, p, i)
    ensures RFind(s, p).Some? && i <= RFind(s, p).value
  {
    if |s| > |p| {
      OccursInFront(s, p, i);
      if s[|s| - |p|..] != p {
        NoneLater(s[..|s| - 1], p, i);
      }
    } else {
      assert s[|s| - |p|..] == s[i..i + |p|];
    }
  }

  /** What is found is the last occurrence, and nothing is found only where there is none. */
  lemma RFindIsLast(s: string, p: string)
    ensures RFind(s, p).Some? ==> OccursAt(s, p, RFind(s, p).value)
    ensures forall i: nat :: OccursAt(s, p, i) ==> RFind(s, p).Some? && i <= RFind(s, p).value
  {
    var r := RFind(s, p);
    if r.Some? {
      assert s[r.value..r.value + |p|] == s[r.value..][..|p|];
    }
    forall i: nat | OccursAt(s, p, i)
      ensures r.Some? && i <= r.value
    {
      NoneLater(s, p, i);
    }
  }

  // ---------------------------------------------------------------- int()

  /** A digit run with single underscores between digits. */
  function Digits(s: string): Option<nat> {
    if s == [] || !Decimal.IsDigit(s[|s| - 1]) then None
    else
      var d := Decimal.DigitValue(s[|s| - 1]);
      if |s| == 1 then Some(d)
      else
        var front := if s[|s| - 2] == '_' then Digits(s[..|s| - 2]) else Digits(s[..|s| - 1]);
        if front.Some? then Some(10 * front.value + d) else None
  }

  function Signed(negative: bool, digits: Option<nat>): Option<int> {
    if digits.None? then None
    else
      var n: int := digits.value;
      Some(if negative then -n else n)
  }

  /** int(s) in base ten, absent where Python raises ValueError. */
  function PyInt(s: string): Option<int> {
    var t := Strip(s);
    if t != [] && (t[0] == '+' || t[0] == '-') then Signed(t[0] == '-', Digits(t[1..]))
    else Signed(false, Digits(t))
  }

  lemma {:induction false} DigitsOfDecimal(s: string)
    requires s != [] && Decimal.AllDigits(s)
    ensures Digits(s) == Some(Decimal.Value(s))
  {
    if |s| > 1 {
      assert s[|s| - 2] != '_' by {
        assert Decimal.IsDigit(s[|s| - 2]);
      }
      DigitsOfDecimal(s[..|s| - 1]);
    } else {
      assert s[..0] == [];
    }
  }

  lemma PyIntOfPrint(n: nat)
    ensures PyInt(Decimal.Print(n)) == Some(n)
  {
    var s := Decimal.Print(n);
    StripOfTight(s);
    DigitsOfDecimal(s);
    Decimal.ValueOfPrint(n);
  }
}
