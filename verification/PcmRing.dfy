/**
  The playback worklet of the web client (web/src/audio/pcmPlayer.ts, PCMRingPlayer): a ring of
  samples that overwrites its oldest ones, refined to a bounded queue.
 */
module PcmRing {
  import opened Pcm16

  function Scaled(v: int): real {
    v as real / 32768.0
  }

  /** The samples of a message, scaled; an odd last byte is ignored. */
  function Decoded(pcm: Pcm): seq<real> {
    var samples := Unpack(pcm);
    seq(|samples|, i requires 0 <= i < |samples| => Scaled(samples[i]))
  }

  lemma DecodedAt(pcm: Pcm, i: nat)
    requires 2 * i + 1 < |pcm|
    ensures |Decoded(pcm)| == |pcm| / 2 && Decoded(pcm)[i] == Scaled(Sample(pcm[2 * i], pcm[2 * i + 1]))
  {}

  // ---------------------------------------------------------------- the bounded queue

  /** The newest samples that fit. */
  function Newest(q: seq<real>, capacity: nat): seq<real> {
    if |q| <= capacity then q else q[|q| - capacity..]
  }

  function Zeros(n: nat): seq<real> {
    seq(n, _ => 0.0)
  }

  /** `n` output samples: what is queued, then silence. */
  function Render(q: seq<real>, n: nat): seq<real> {
    if n <= |q| then q[..n] else q + Zeros(n - |q|)
  }

  function Rest(q: seq<real>, n: nat): seq<real> {
    if n <= |q| then q[n..] else []
  }

  // ---------------------------------------------------------------- the ring

  function Wrap(x: nat, capacity: nat): nat {
    if x < capacity then x else x - capacity
  }

  lemma WrapIsModulo(x: nat, capacity: nat)
    requires x < 2 * capacity
    ensures x % capacity == Wrap(x, capacity)
  {
    if x >= capacity {
      assert x % capacity == (x - capacity) % capacity by {
        assert x == capacity + (x - capacity);
        ModuloOfSum(x - capacity, capacity);
      }
    }
  }

  lemma ModuloOfSum(y: nat, n: nat)
    requires y < n
    ensures (n + y) % n == y
  {}

  /** `n` cells of a ring, from cell `r` on. */
  function View(cells: seq<real>, r: nat, n: nat): seq<real>
    requires r < |cells| && n <= |cells|
  {
    seq(n, i requires 0 <= i < n => cells[Wrap(r + i, |cells|)])
  }

  lemma ViewAt(cells: seq<real>, r: nat, n: nat, i: nat)
    requires r < |cells| && i < n <= |cells|
    ensures Wrap(r + i, |cells|) < |cells| && View(cells, r, n)[i] == cells[Wrap(r + i, |cells|)]
  {}

  lemma WrapNext(r: nat, i: nat, capacity: nat)
    requires r < capacity && i + 1 < capacity
    ensures Wrap(Wrap(r + 1, capacity) + i, capacity) == Wrap(r + (i + 1), capacity)
  {}

  /** Moving the read position past the oldest cell. */
  lemma ViewWithRead(cells: seq<real>, r: nat, n: nat)
    requires r < |cells| && 0 < n <= |cells|
    ensures Wrap(r + 1, |cells|) < |cells|
    ensures View(cells, r, n)[0] == cells[r]
    ensures View(cells, Wrap(r + 1, |cells|), n - 1) == View(cells, r, n)[1..]
  {
    ViewAt(cells, r, n, 0);
    var tail, after := View(cells, r, n)[1..], View(cells, Wrap(r + 1, |cells|), n - 1);
    forall i | 0 <= i < n - 1
      ensures after[i] == tail[i]
    {
      WrapNext(r, i, |cells|);
      ViewAt(cells, Wrap(r + 1, |cells|), n - 1, i);
      ViewAt(cells, r, n, i + 1);
    }
  }

  /** Writing the cell after the view: it is outside the view, unless the view is full. */
  lemma ViewWithWrite(cells: seq<real>, r: nat, n: nat, s: real)
    requires r < |cells| && n < |cells|
    ensures var w := Wrap(r + n, |cells|);
            w < |cells| && View(cells[w := s], r, n + 1) == View(cells, r, n) + [s]
  {
    var w := Wrap(r + n, |cells|);
    var after := View(cells[w := s], r, n + 1);
    ViewAt(cells[w := s], r, n + 1, n);
    forall i | 0 <= i < n
      ensures after[i] == View(cells, r, n)[i]
    {
      ViewAt(cells[w := s], r, n + 1, i);
      ViewAt(cells, r, n, i);
    }
  }

  lemma FullViewWithWrite(cells: seq<real>, r: nat, s: real)
    requires r < |cells|
    ensures Wrap(r + |cells|, |cells|) == r && Wrap(r + 1, |cells|) < |cells|
    ensures View(cells[r := s], Wrap(r + 1, |cells|), |cells|) == View(cells, r, |cells|)[1..] + [s]
  {
    ViewWithRead(cells, r, |cells|);
    var next, n := Wrap(r + 1, |cells|), |cells| - 1;
    assert Wrap(next + n, |cells|) == r;
    ViewWithWrite(cells, next, n, s);
    assert View(cells, next, n) == View(cells, r, |cells|)[1..];
  }

  class PCMRingPlayer {
    const ring: array<real>
    var w: nat
    var r: nat
    var available: nat
    var playing: bool

    ghost predicate Valid()
      reads this
    {
      && ring.Length > 0
      && r < ring.Length && available <= ring.Length
      && w == Wrap(r + available, ring.Length)
    }

    /** The unread samples, oldest first. */
    ghost function Contents(): (q: seq<real>)
      requires Valid()
      reads this, ring
    {
      View(ring[..], r, available)
    }

    constructor (capacity: nat)
      requires capacity > 0
      ensures Valid() && fresh(ring) && ring.Length == capacity
      ensures Contents() == [] && !playing
    {
      ring := new real[capacity](_ => 0.0);
      w, r, available, playing := 0, 0, 0, false;
    }

    method OnStart()
      requires Valid()
      modifies this`playing
      ensures Valid() && playing && Contents() == old(Contents())
    {
      playing := true;
    }

    method OnStop()
      requires Valid()
      modifies this
      ensures Valid() && !playing && Contents() == []
    {
      playing, available, r, w := false, 0, 0, 0;
    }

    /** One sample in: when the ring is full the oldest one goes. */
    method Push(s: real)
      requires Valid()
      modifies this`w, this`r, this`available, ring
      ensures Valid() && playing == old(playing)
      ensures Contents() == Newest(old(Contents()) + [s], ring.Length)
    {
      if available < ring.Length {
        ViewWithWrite(ring[..], r, available, s);
      } else {
        FullViewWithWrite(ring[..], r, s);
      }
      ghost var cells := ring[..];
      WrapIsModulo(w + 1, ring.Length);
      WrapIsModulo(r + 1, ring.Length);
      ring[w] := s;
      assert ring[..] == cells[w := s];
      w := (w + 1) % ring.Length;
      if available < ring.Length {
        available := available + 1;
      } else {
        r := (r + 1) % ring.Length;
      }
    }

    method OnData(pcm: Pcm)
      requires Valid()
      modifies this`w, this`r, this`available, ring
      ensures Valid() && playing == old(playing)
      ensures Contents() == Newest(old(Contents()) + Decoded(pcm), ring.Length)
    {
      ghost var before, samples := Contents(), Decoded(pcm);
      for i := 0 to |pcm| / 2
        invariant Valid() && playing == old(playing)
        invariant Contents() == Newest(before + samples[..i], ring.Length)
      {
        NewestNext(before, samples, i, ring.Length);
        DecodedAt(pcm, i);
        var s := Scaled(Sample(pcm[2 * i], pcm[2 * i + 1]));
        Push(s);
      }
      assert samples[..|samples|] == samples;
    }

    /** One sample out: the oldest one, or silence. */
    method Pop() returns (s: real)
      requires Valid()
      modifies this`r, this`available
      ensures Valid() && ring[..] == old(ring[..])
      ensures s == if old(Contents()) == [] then 0.0 else old(Contents())[0]
      ensures Contents() == Rest(old(Contents()), 1)
    {
      if available == 0 {
        return 0.0;
      }
      ViewWithRead(ring[..], r, available);
      WrapIsModulo(r + 1, ring.Length);
      s := ring[r];
      r := (r + 1) % ring.Length;
      available := available - 1;
    }

    /** One output block: silence until started, then the oldest samples, then silence again. */
    method Process(out: array<real>)
      requires Valid() && out != ring
      modifies this`r, this`available, out
      ensures Valid() && ring[..] == old(ring[..])
      ensures out[..] == Render(if playing then old(Contents()) else [], out.Length)
      ensures Contents() == Rest(old(Contents()), if playing then out.Length else 0)
    {
      ghost var before := Contents();
      if !playing {
        for i := 0 to out.Length
          invariant Valid() && Contents() == before && ring[..] == old(ring[..])
          invariant forall k :: 0 <= k < i ==> out[k] == 0.0
        {
          out[i] := 0.0;
        }
        return;
      }
      for i := 0 to out.Length
        invariant Valid() && Contents() == Rest(before, i) && ring[..] == old(ring[..])
        invariant out[..i] == Render(before, i)
      {
        var s := Pop();
        out[i] := s;
        RenderNext(before, i);
        assert out[..i + 1] == out[..i] + [out[i]];
      }
      assert out[..out.Length] == out[..];
    }
  }

  lemma RenderNext(q: seq<real>, i: nat)
    ensures Rest(q, i + 1) == Rest(Rest(q, i), 1)
    ensures Render(q, i + 1) == Render(q, i) + [if Rest(q, i) == [] then 0.0 else Rest(q, i)[0]]
  {}

  lemma NewestNext(q: seq<real>, samples: seq<real>, i: nat, capacity: nat)
    requires capacity > 0 && i < |samples|
    ensures Newest(Newest(q + samples[..i], capacity) + [samples[i]], capacity)
         == Newest(q + samples[..i + 1], capacity)
  {
    assert q + samples[..i + 1] == q + samples[..i] + [samples[i]];
  }

  // ---------------------------------------------------------------- runs between two stops

  datatype Command = Start | Data(pcm: Pcm) | Play(n: nat)

  datatype Player = Player(queue: seq<real>, playing: bool)

  function Do(p: Player, c: Command, capacity: nat): Player {
    match c
    case Start => p.(playing := true)
    case Data(pcm) => p.(queue := Newest(p.queue + Decoded(pcm), capacity))
    case Play(n) => p.(queue := Rest(p.queue, if p.playing then n else 0))
  }

  function After(run: seq<Command>, capacity: nat): Player {
    if run == [] then Player([], false)
    else Do(After(run[..|run| - 1], capacity), run[|run| - 1], capacity)
  }

  /** Everything sent to the player, in order. */
  function Input(run: seq<Command>): seq<real> {
    if run == [] then []
    else
      Input(run[..|run| - 1]) + if run[|run| - 1].Data? then Decoded(run[|run| - 1].pcm) else []
  }

  /** What a block plays besides silence. */
  function Taken(p: Player, c: Command): seq<real> {
    if c.Play? && p.playing then p.queue[..if c.n <= |p.queue| then c.n else |p.queue|] else []
  }

  function Played(run: seq<Command>, capacity: nat): seq<real> {
    if run == [] then []
    else Played(run[..|run| - 1], capacity) + Taken(After(run[..|run| - 1], capacity), run[|run| - 1])
  }

  /** A message that does not fit: the guard of the branch that moves the read position. */
  ghost predicate Overflows(p: Player, c: Command, capacity: nat) {
    c.Data? && |p.queue| + |Decoded(c.pcm)| > capacity
  }

  ghost predicate NeverOverflows(run: seq<Command>, capacity: nat) {
    forall k :: 0 <= k < |run| ==> !Overflows(After(run[..k], capacity), run[k], capacity)
  }

  ghost predicate IsSuffix(q: seq<real>, s: seq<real>) {
    |q| <= |s| && q == s[|s| - |q|..]
  }

  lemma SuffixOfSuffix(q: seq<real>, s: seq<real>, n: nat)
    requires IsSuffix(q, s) && n <= |q|
    ensures IsSuffix(q[n..], s)
  {}

  lemma SuffixAppend(q: seq<real>, s: seq<real>, more: seq<real>)
    requires IsSuffix(q, s)
    ensures IsSuffix(q + more, s + more)
  {}

  /** The queue holds the newest samples of the input, and never more than fit. */
  lemma {:induction false} QueueIsNewest(run: seq<Command>, capacity: nat)
    ensures |After(run, capacity).queue| <= capacity
    ensures IsSuffix(After(run, capacity).queue, Input(run))
  {
    if run != [] {
      var n := |run| - 1;
      var p := After(run[..n], capacity);
      QueueIsNewest(run[..n], capacity);
      match run[n] {
        case Data(pcm) =>
          SuffixAppend(p.queue, Input(run[..n]), Decoded(pcm));
          var q := p.queue + Decoded(pcm);
          SuffixOfSuffix(q, Input(run), if |q| <= capacity then 0 else |q| - capacity);
          assert q[0..] == q;
        case Play(k) =>
          assert p.queue[0..] == p.queue;
          SuffixOfSuffix(p.queue, Input(run), if !p.playing then 0 else if k <= |p.queue| then k else |p.queue|);
          assert p.queue[|p.queue|..] == [];
        case Start =>
      }
    }
  }

  /** Subsequence: `a` is `b` with some samples left out. */
  ghost predicate Within(a: seq<real>, b: seq<real>) {
    if a == [] then true
    else if b == [] then false
    else
      (a[|a| - 1] == b[|b| - 1] && Within(a[..|a| - 1], b[..|b| - 1])) || Within(a, b[..|b| - 1])
  }

  lemma {:induction false} WithinAppend(a: seq<real>, b: seq<real>, more: seq<real>)
    requires Within(a, b)
    ensures Within(a + more, b + more)
  {
    if more == [] {
      assert a + more == a && b + more == b;
    } else {
      var n := |more| - 1;
      WithinAppend(a, b, more[..n]);
      assert (a + more)[..|a + more| - 1] == a + more[..n];
      assert (b + more)[..|b + more| - 1] == b + more[..n];
    }
  }

  lemma {:induction false} WithinShorter(a: seq<real>, b: seq<real>)
    requires a != [] && Within(a, b)
    ensures Within(a[..|a| - 1], b)
    decreases |b|
  {
    if Within(a, b[..|b| - 1]) {
      WithinShorter(a, b[..|b| - 1]);
    }
    if |a| > 1 && a[|a| - 1] == b[|b| - 1] && Within(a[..|a| - 1], b[..|b| - 1]) {
      Longer(a[..|a| - 1], b[..|b| - 1], b[|b| - 1]);
      assert b == b[..|b| - 1] + [b[|b| - 1]];
    }
  }

  lemma Longer(a: seq<real>, b: seq<real>, x: real)
    requires Within(a, b)
    ensures Within(a, b + [x])
  {
    assert (b + [x])[..|b + [x]| - 1] == b;
  }

  /** Leaving out one more sample, anywhere. */
  lemma {:induction false} WithinDrop(a: seq<real>, x: real, rest: seq<real>, b: seq<real>)
    requires Within(a + [x] + rest, b)
    ensures Within(a + rest, b)
    decreases |b|
  {
    var whole := a + [x] + rest;
    var front := b[..|b| - 1];
    if rest == [] {
      WithinShorter(whole, b);
      assert whole[..|whole| - 1] == a + rest;
    } else {
      var n := |rest| - 1;
      assert whole[..|whole| - 1] == a + [x] + rest[..n];
      assert (a + rest)[..|a + rest| - 1] == a + rest[..n];
      if Within(whole, front) {
        WithinDrop(a, x, rest, front);
      } else {
        WithinDrop(a, x, rest[..n], front);
      }
    }
  }

  lemma {:induction false} WithinNewest(played: seq<real>, q: seq<real>, capacity: nat, b: seq<real>)
    requires Within(played + q, b)
    ensures Within(played + Newest(q, capacity), b)
    decreases |q|
  {
    if |q| > capacity {
      assert played + q == played + [q[0]] + q[1..];
      WithinDrop(played, q[0], q[1..], b);
      WithinNewest(played, q[1..], capacity, b);
      assert Newest(q[1..], capacity) == Newest(q, capacity);
    }
  }

  /** What has been played and what is queued, against the input; `clean` if nothing was left out. */
  ghost predicate Fifo(played: seq<real>, q: seq<real>, input: seq<real>, clean: bool) {
    && Within(played + q, input)
    && |played| + |q| <= |input|
    && (played + q == input <==> clean)
  }

  /** A message, with the samples that do not fit left out. */
  lemma DataIsFifo(played: seq<real>, q: seq<real>, input: seq<real>, clean: bool, more: seq<real>, capacity: nat)
    requires Fifo(played, q, input, clean)
    ensures Fifo(played, Newest(q + more, capacity), input + more, clean && |q| + |more| <= capacity)
  {
    WithinAppend(played + q, input, more);
    assert played + q + more == played + (q + more);
    WithinNewest(played, q + more, capacity, input + more);
    if |q| + |more| <= capacity {
      SameTail(played + q, input, more);
    }
  }

  lemma SameTail(a: seq<real>, b: seq<real>, more: seq<real>)
    ensures a + more == b + more <==> a == b
  {
    if a + more == b + more {
      assert |a| == |b|;
      assert a == (a + more)[..|a|] && b == (b + more)[..|b|];
    }
  }

  /** A block moves samples from the queue to what has been played. */
  lemma BlockIsFifo(played: seq<real>, q: seq<real>, input: seq<real>, clean: bool, n: nat)
    requires Fifo(played, q, input, clean) && n <= |q|
    ensures Fifo(played + q[..n], q[n..], input, clean)
  {
    assert played + q[..n] + q[n..] == played + q;
  }

  lemma CommandIsFifo(p: Player, c: Command, capacity: nat, played: seq<real>, input: seq<real>, clean: bool)
    requires Fifo(played, p.queue, input, clean)
    ensures Fifo(played + Taken(p, c), Do(p, c, capacity).queue,
                 input + (if c.Data? then Decoded(c.pcm) else []), clean && !Overflows(p, c, capacity))
  {
    assert played + [] == played && input + [] == input;
    match c
    case Data(pcm) => DataIsFifo(played, p.queue, input, clean, Decoded(pcm), capacity);
    case Play(n) =>
      if p.playing {
        BlockIsFifo(played, p.queue, input, clean, if n <= |p.queue| then n else |p.queue|);
      }
    case Start =>
  }

  /**
    First in, first out: what has been played, followed by what is queued, is the input with some
    samples left out - none of them if and only if no message has overflowed the ring.
   */
  lemma {:induction false} PlayOutIsFifo(run: seq<Command>, capacity: nat)
    ensures Fifo(Played(run, capacity), After(run, capacity).queue, Input(run), NeverOverflows(run, capacity))
  {
    if run != [] {
      var n := |run| - 1;
      PlayOutIsFifo(run[..n], capacity);
      OverflowsBefore(run, capacity);
      CommandIsFifo(After(run[..n], capacity), run[n], capacity, Played(run[..n], capacity), Input(run[..n]),
                    NeverOverflows(run[..n], capacity));
    }
  }

  lemma OverflowsBefore(run: seq<Command>, capacity: nat)
    requires run != []
    ensures var n := |run| - 1;
            var fits := NeverOverflows(run[..n], capacity) && !Overflows(After(run[..n], capacity), run[n], capacity);
            NeverOverflows(run, capacity) <==> fits
  {
    var n := |run| - 1;
    assert forall k :: 0 <= k < n ==> run[..n][..k] == run[..k] && run[..n][k] == run[k];
  }

  /** Without overflow the play-out is an exact prefix of the input. */
  lemma PlayOutIsPrefix(run: seq<Command>, capacity: nat)
    requires NeverOverflows(run, capacity)
    ensures Played(run, capacity) <= Input(run)
  {
    PlayOutIsFifo(run, capacity);
  }

  /** The samples of the ring are those of the message, as fractions of 32768. */
  lemma DecodedAreSamples(samples: seq<int>, i: nat)
    requires AllSamples(samples) && i < |samples|
    ensures |Decoded(Pack(samples))| == |samples|
    ensures Decoded(Pack(samples))[i] * 32768.0 == samples[i] as real
  {
    UnpackInvertsPack(samples);
  }

  /** A message fills the ring as far as it goes. */
  lemma DataFills(run: seq<Command>, pcm: Pcm, capacity: nat)
    ensures var n, m := |After(run, capacity).queue|, |pcm| / 2;
            |After(run + [Data(pcm)], capacity).queue| == if n + m <= capacity then n + m else capacity
  {
    assert (run + [Data(pcm)])[..|run|] == run;
  }

  /** A block of a started player: the oldest samples, as many as there are, and then silence. */
  lemma BlockIsFull(q: seq<real>, n: nat)
    ensures |Render(q, n)| == n
    ensures forall k :: 0 <= k < n ==> Render(q, n)[k] == if k < |q| then q[k] else 0.0
    ensures |Rest(q, n)| == if n <= |q| then |q| - n else 0
    ensures n <= |q| ==> Render(q, n) + Rest(q, n) == q
  {}

  lemma {:induction false} PlaysOnceStarted(run: seq<Command>, capacity: nat)
    ensures After(run, capacity).playing <==> Start in run
  {
    if run != [] {
      var n := |run| - 1;
      PlaysOnceStarted(run[..n], capacity);
      assert run == run[..n] + [run[n]];
    }
  }

  /**
    And nothing is held back: once started, a player that has not overflowed plays, in a block of
    `n` samples, the next `n` samples of its input, or as many as there are.
   */
  lemma PlayOutAdvances(run: seq<Command>, capacity: nat, n: nat)
    requires NeverOverflows(run, capacity) && Start in run
    ensures var done, all := |Played(run, capacity)|, |Input(run)|;
            var end := if done + n <= all then done + n else all;
            Played(run + [Play(n)], capacity) == Input(run)[..end]
  {
    PlayOutIsFifo(run, capacity);
    PlaysOnceStarted(run, capacity);
    assert (run + [Play(n)])[..|run|] == run;
    var q := After(run, capacity).queue;
    var taken := Taken(After(run, capacity), Play(n));
    assert Played(run + [Play(n)], capacity) == Played(run, capacity) + taken;
    assert Input(run) == Played(run, capacity) + q;
  }

  /** A player that has not been started plays nothing. */
  lemma SilentUntilStarted(run: seq<Command>, capacity: nat, n: nat)
    requires Start !in run
    ensures Played(run + [Play(n)], capacity) == Played(run, capacity)
  {
    PlaysOnceStarted(run, capacity);
    assert (run + [Play(n)])[..|run|] == run;
  }
}
