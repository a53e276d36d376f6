/** Properties of the formatter over many bytes and many chunks: the fold
    composes, the depth counter follows the brackets, and a stream of chunks
    is formatted as if it had arrived in one piece. */
module Stream {
  import opened Bytes
  import opened Json

  /** The chunks of a stream laid end to end. */
  function Concat(chunks: seq<seq<byte>>): (r: seq<byte>)
    decreases |chunks|
  {
    if |chunks| == 0 then [] else chunks[0] + Concat(chunks[1..])
  }

  /** Successive `Write` calls on one writer (the state does not depend on the sink's reply):
      the final state and every byte handed to the sink, in order. */
  function Feed(cs: ColorScheme, s: State, chunks: seq<seq<byte>>): (r: Emitted)
    requires s.level >= 0
    ensures r.state.level >= 0
    decreases |chunks|
  {
    if |chunks| == 0 then Emitted(s, [])
    else
      var c := Chunk(cs, s, chunks[0]);
      var rest := Feed(cs, c.state, chunks[1..]);
      Emitted(rest.state, c.out + rest.out)
  }

  /** Number of opening (`{`, `[`) and closing (`}`, `]`) bytes in `p`. */
  function Openers(p: seq<byte>): nat { multiset(p)[LBrace] + multiset(p)[LBracket] }
  function Closers(p: seq<byte>): nat { multiset(p)[RBrace] + multiset(p)[RBracket] }

  /** Folding over `p1 + p2` is folding over `p1` and then over `p2` from where it left off. */
  lemma {:induction false} RunAppend(cs: ColorScheme, s: State, p1: seq<byte>, p2: seq<byte>)
    requires s.level >= 0
    ensures Run(cs, s, p1 + p2)
         == Emitted(Run(cs, Run(cs, s, p1).state, p2).state,
                    Run(cs, s, p1).out + Run(cs, Run(cs, s, p1).state, p2).out)
    decreases |p2|
  {
    var e1 := Run(cs, s, p1);
    if |p2| == 0 {
      assert p1 + p2 == p1;
    } else {
      var init := p2[..|p2| - 1];
      var b := p2[|p2| - 1];
      RunAppend(cs, s, p1, init);
      assert (p1 + p2)[..|p1 + p2| - 1] == p1 + init;
      assert (p1 + p2)[|p1 + p2| - 1] == b;
      var e2 := Run(cs, e1.state, init);
      var t := Step(cs, e2.state, b);
      assert Run(cs, s, p1 + p2) == Emitted(t.state, (e1.out + e2.out) + t.out);
      assert Run(cs, e1.state, p2) == Emitted(t.state, e2.out + t.out);
    }
  }

  /** Appending one byte adds it to the bracket counts it belongs to. */
  lemma CountSnoc(init: seq<byte>, b: byte)
    ensures Openers(init + [b]) == Openers(init) + (if IsOpener(b) then 1 else 0)
    ensures Closers(init + [b]) == Closers(init) + (if IsCloser(b) then 1 else 0)
  {
  }

  /** The depth moves by at most one per bracket: it never exceeds the start
      plus the openers, and never drops below the start minus the closers. */
  lemma {:induction false} RunDepthBounds(cs: ColorScheme, s: State, p: seq<byte>)
    requires s.level >= 0
    ensures s.level - Closers(p) <= Run(cs, s, p).state.level <= s.level + Openers(p)
    decreases |p|
  {
    if |p| > 0 {
      var init := p[..|p| - 1];
      RunDepthBounds(cs, s, init);
      assert p == init + [p[|p| - 1]];
      CountSnoc(init, p[|p| - 1]);
    }
  }

  /** Without backslashes and closers, the depth is the start plus the openers. */
  lemma {:induction false} RunDepthExact(cs: ColorScheme, s: State, p: seq<byte>)
    requires s.level >= 0
    requires s.last != Backslash
    requires forall i | 0 <= i < |p| :: p[i] != Backslash && !IsCloser(p[i])
    ensures Run(cs, s, p).state.level == s.level + Openers(p)
    decreases |p|
  {
    if |p| > 0 {
      var init := p[..|p| - 1];
      var b := p[|p| - 1];
      assert p == init + [b];
      CountSnoc(init, b);
      RunDepthExact(cs, s, init);
      var e := Run(cs, s, init);
      if |init| > 0 {
        assert e.state.last == p[|init| - 1];
      }
      assert e.state.last != Backslash;
    }
  }

  /** An escaped quote inside a string does not close it: `\"` is copied as is,
      unless the byte before it was a colon, which colours the backslash. */
  lemma EscapedQuoteStaysInString(cs: ColorScheme, s: State)
    requires s.level >= 0 && s.last != Colon
    requires s.lastQuote != 0
    ensures Run(cs, s, [Backslash, s.lastQuote]).state == s.(last := s.lastQuote)
    ensures Run(cs, s, [Backslash, s.lastQuote]).out == [Backslash, s.lastQuote]
  {
  }

  /** In `\\"` inside a string the second backslash counts as escaped and so
      does the quote after it: the string stays open and all three bytes pass
      through uncoloured (unless the string's previous byte was a colon). */
  lemma EscapedBackslashKeepsStringOpen(cs: ColorScheme, s: State)
    requires s.level >= 0 && s.last != Backslash && s.last != Colon
    requires s.lastQuote == DoubleQuote
    ensures Run(cs, s, [Backslash, Backslash, DoubleQuote]).state.lastQuote == DoubleQuote
    ensures Run(cs, s, [Backslash, Backslash, DoubleQuote]).out == [Backslash, Backslash, DoubleQuote]
  {
    var p := [Backslash, Backslash, DoubleQuote];
    var t := s.(last := Backslash);
    assert Run(cs, s, [Backslash]) == Emitted(t, [Backslash]) by {
      assert [Backslash][..0] == [];
    }
    assert Run(cs, s, [Backslash, Backslash]) == Emitted(t, [Backslash, Backslash]) by {
      assert [Backslash, Backslash][..1] == [Backslash];
    }
    assert p[..2] == [Backslash, Backslash];
  }

  /** Two consecutive chunks give the same sink bytes and final state as their
      concatenation in one chunk, whenever the concatenation has no marker. */
  lemma {:induction false} ChunkCompose(cs: ColorScheme, s: State, p1: seq<byte>, p2: seq<byte>)
    requires s.level >= 0
    requires !Contains(p1 + p2, Marker)
    ensures Chunk(cs, s, p1 + p2)
         == Emitted(Chunk(cs, Chunk(cs, s, p1).state, p2).state,
                    Chunk(cs, s, p1).out + Chunk(cs, Chunk(cs, s, p1).state, p2).out)
  {
    ContainsInConcat(p1, p2, Marker);
    var c1 := Chunk(cs, s, p1);
    if |p1| == 0 {
      assert p1 + p2 == p2;
      assert c1 == Emitted(s, []);
    } else {
      var d := Decide(s, p1);
      assert (p1 + p2)[0] == p1[0];
      assert Decide(s, p1 + p2) == d;
      assert Decide(c1.state, p2) == c1.state;
      if !d.disabled {
        RunAppend(cs, d, p1, p2);
      }
    }
  }

  /** Chunk-boundary invariance: however a marker-free stream is cut into
      chunks, the writer emits what one write of the whole stream emits. */
  lemma {:induction false} FeedPartition(cs: ColorScheme, s: State, chunks: seq<seq<byte>>)
    requires s.level >= 0
    requires !Contains(Concat(chunks), Marker)
    ensures Feed(cs, s, chunks) == Chunk(cs, s, Concat(chunks))
    decreases |chunks|
  {
    if |chunks| == 0 {
      assert !Contains([], Marker);
    } else {
      var rest := Concat(chunks[1..]);
      ContainsInConcat(chunks[0], rest, Marker);
      ChunkCompose(cs, s, chunks[0], rest);
      FeedPartition(cs, Chunk(cs, s, chunks[0]).state, chunks[1..]);
    }
  }

  /** Once disabled, a writer forwards every later chunk verbatim and its state is frozen. */
  lemma {:induction false} DisabledForever(cs: ColorScheme, s: State, chunks: seq<seq<byte>>)
    requires s.level >= 0 && s.inited && s.disabled
    ensures Feed(cs, s, chunks) == Emitted(s, Concat(chunks))
    decreases |chunks|
  {
    if |chunks| > 0 {
      DisabledForever(cs, s, chunks[1..]);
    }
  }

  /** A fresh writer whose first non-empty chunk is not `{` or `[` forwards
      the whole stream verbatim; leading empty chunks do not matter. */
  lemma {:induction false} NonJsonStreamVerbatim(cs: ColorScheme, chunks: seq<seq<byte>>)
    requires |Concat(chunks)| > 0 && !IsOpener(Concat(chunks)[0])
    ensures Feed(cs, Initial, chunks) == Emitted(Initial.(inited := true, disabled := true), Concat(chunks))
    decreases |chunks|
  {
    if |chunks[0]| == 0 {
      assert Concat(chunks) == Concat(chunks[1..]);
      assert Chunk(cs, Initial, chunks[0]) == Emitted(Initial, []);
      NonJsonStreamVerbatim(cs, chunks[1..]);
    } else {
      var d := Initial.(inited := true, disabled := true);
      assert Concat(chunks)[0] == chunks[0][0];
      DisabledForever(cs, d, chunks[1..]);
    }
  }

  /** The enable/disable decision, once taken, is never revisited. */
  lemma {:induction false} DecisionIsFinal(cs: ColorScheme, s: State, chunks: seq<seq<byte>>)
    requires s.level >= 0 && s.inited
    ensures Feed(cs, s, chunks).state.inited
    ensures Feed(cs, s, chunks).state.disabled == s.disabled
    decreases |chunks|
  {
    if |chunks| > 0 {
      DecisionIsFinal(cs, Chunk(cs, s, chunks[0]).state, chunks[1..]);
    }
  }

  /** Once the decision is taken, a marker chunk is forwarded verbatim and
      leaves no trace: the rest of the stream is formatted as if it were absent. */
  lemma MarkerChunkTransparent(cs: ColorScheme, s: State, m: seq<byte>, chunks: seq<seq<byte>>)
    requires s.level >= 0 && s.inited
    requires Contains(m, Marker)
    ensures Chunk(cs, s, m) == Emitted(s, m)
    ensures Feed(cs, s, [m] + chunks) == Emitted(Feed(cs, s, chunks).state, m + Feed(cs, s, chunks).out)
  {
  }

  /** Across a whole stream every input byte survives in order, only colour
      bytes, newlines and spaces are added, and every other byte occurs exactly
      as often as in the input. */
  lemma {:induction false} FeedInsertsOnly(cs: ColorScheme, s: State, chunks: seq<seq<byte>>)
    requires s.level >= 0
    ensures InsertsOnly(Concat(chunks), Feed(cs, s, chunks).out, Palette(cs))
    ensures SameOutside(Concat(chunks), Feed(cs, s, chunks).out, Palette(cs))
    decreases |chunks|
  {
    if |chunks| == 0 {
      InsertsOnlyNothing([], Palette(cs));
    } else {
      var c := Chunk(cs, s, chunks[0]);
      var rest := Feed(cs, c.state, chunks[1..]);
      FeedInsertsOnly(cs, c.state, chunks[1..]);
      InsertsOnlyAppend(chunks[0], c.out, Concat(chunks[1..]), rest.out, Palette(cs));
      SameOutsideAppend(chunks[0], c.out, Concat(chunks[1..]), rest.out, Palette(cs));
    }
  }

  /** The marker condition of `ChunkCompose` is needed: a marker arriving in a
      later chunk is forwarded raw, while the same bytes in one chunk are not formatted at all. */
  lemma MarkerSplitDiffers()
    ensures Chunk(Plain, Initial, [LBrace] + Marker).out
         != Chunk(Plain, Initial, [LBrace]).out + Chunk(Plain, Chunk(Plain, Initial, [LBrace]).state, Marker).out
  {
  }

  /** A marker straddling a chunk boundary also breaks composition: `{Timing`
      then `Metrics` is formatted, while `{TimingMetrics` in one chunk is not. */
  lemma MarkerStraddleDiffers()
    ensures var p1 := [LBrace] + Marker[..6];
            var p2 := Marker[6..];
            var c1 := Chunk(Plain, Initial, p1);
            Chunk(Plain, Initial, p1 + p2).out != c1.out + Chunk(Plain, c1.state, p2).out
  {
    var head := Marker[..6];
    var p1 := [LBrace] + head;
    var p2 := Marker[6..];
    assert p1 + p2 == [LBrace] + Marker;
    ContainsInConcat([LBrace], Marker, Marker);
    assert OccursAt(Marker, Marker, 0);
    assert |Chunk(Plain, Initial, p1 + p2).out| == 14;
    var d := Initial.(inited := true);
    assert !Contains(p1, Marker) && !Contains(p2, Marker);
    var c1 := Chunk(Plain, Initial, p1);
    assert c1 == Run(Plain, d, p1);
    RunAppend(Plain, d, [LBrace], head);
    assert [LBrace][..0] == [];
    assert |Run(Plain, d, [LBrace]).out| == 6;
    InsertsOnlyMultiset(head, Run(Plain, Run(Plain, d, [LBrace]).state, head).out, Palette(Plain));
    InsertsOnlyMultiset(p2, Chunk(Plain, c1.state, p2).out, Palette(Plain));
    assert |c1.out| >= 12;
  }
}
