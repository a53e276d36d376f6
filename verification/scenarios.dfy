/** What a fresh writer emits for concrete streams with the empty colour
    scheme, the configuration of the repository's own tests. */
module Scenarios {
  import opened Bytes
  import opened Json
  import opened Stream

  /** One more byte is one more step. */
  lemma RunSnoc(cs: ColorScheme, s: State, p: seq<byte>, b: byte)
    requires s.level >= 0
    ensures Run(cs, s, p + [b])
         == Emitted(Step(cs, Run(cs, s, p).state, b).state, Run(cs, s, p).out + Step(cs, Run(cs, s, p).state, b).out)
  {
  }

  const KeyA: byte := 0x61
  const DigitOne: byte := 0x31

  /** The state after `{"a"` from a freshly enabled writer. */
  const AfterKey := Initial.(inited := true, last := DoubleQuote, level := 1)

  /** `{"a"`: the brace opens a level and the key is copied. */
  lemma KeyPart()
    ensures Run(Plain, Initial.(inited := true), [LBrace, DoubleQuote, KeyA, DoubleQuote])
         == Emitted(AfterKey, [LBrace, Newline] + Spaces(4) + [DoubleQuote, KeyA, DoubleQuote])
  {
    var s := Initial.(inited := true);
    var s1 := s.(last := LBrace, level := 1);
    var o1 := [LBrace, Newline] + Spaces(4);
    assert Run(Plain, s, [LBrace]) == Emitted(s1, o1) by {
      RunSnoc(Plain, s, [], LBrace);
    }
    var s2 := s1.(last := DoubleQuote, lastQuote := DoubleQuote);
    var o2 := o1 + [DoubleQuote];
    assert Run(Plain, s, [LBrace, DoubleQuote]) == Emitted(s2, o2) by {
      RunSnoc(Plain, s, [LBrace], DoubleQuote);
      assert [LBrace] + [DoubleQuote] == [LBrace, DoubleQuote];
    }
    var s3 := s2.(last := KeyA);
    var o3 := o2 + [KeyA];
    assert Run(Plain, s, [LBrace, DoubleQuote, KeyA]) == Emitted(s3, o3) by {
      RunSnoc(Plain, s, [LBrace, DoubleQuote], KeyA);
      assert [LBrace, DoubleQuote] + [KeyA] == [LBrace, DoubleQuote, KeyA];
    }
    RunSnoc(Plain, s, [LBrace, DoubleQuote, KeyA], DoubleQuote);
    assert [LBrace, DoubleQuote, KeyA] + [DoubleQuote] == [LBrace, DoubleQuote, KeyA, DoubleQuote];
  }

  /** `:1}`: a space after the colon, the number copied, the brace back at depth 0. */
  lemma ValuePart()
    ensures Run(Plain, AfterKey, [Colon, DigitOne, RBrace])
         == Emitted(AfterKey.(last := RBrace, level := 0, isValue := true), [Colon, Space, DigitOne, Newline, RBrace])
  {
    var s := AfterKey;
    var s1 := s.(last := Colon, isValue := true);
    assert Run(Plain, s, [Colon]) == Emitted(s1, [Colon, Space]) by {
      RunSnoc(Plain, s, [], Colon);
    }
    assert Run(Plain, s, [Colon, DigitOne]) == Emitted(s1.(last := DigitOne), [Colon, Space, DigitOne]) by {
      RunSnoc(Plain, s, [Colon], DigitOne);
      assert [Colon] + [DigitOne] == [Colon, DigitOne];
    }
    RunSnoc(Plain, s, [Colon, DigitOne], RBrace);
    assert [Colon, DigitOne] + [RBrace] == [Colon, DigitOne, RBrace];
    assert Spaces(0) == [];
  }

  /** The input and the expected output of `SmallObject`, byte by byte. */
  lemma SmallObjectBytes()
    ensures Ascii("{\"a\":1}") == [LBrace, DoubleQuote, KeyA, DoubleQuote] + [Colon, DigitOne, RBrace]
    ensures Ascii("{\n    \"a\": 1\n}")
         == [LBrace, Newline] + Spaces(4) + [DoubleQuote, KeyA, DoubleQuote] + [Colon, Space, DigitOne, Newline, RBrace]
  {
  }

  /** `{"a":1}` is laid out over three lines with one level of indentation. */
  lemma SmallObject()
    ensures Chunk(Plain, Initial, Ascii("{\"a\":1}")).out == Ascii("{\n    \"a\": 1\n}")
    ensures Chunk(Plain, Initial, Ascii("{\"a\":1}")).state.level == 0
  {
    var key := [LBrace, DoubleQuote, KeyA, DoubleQuote];
    var value := [Colon, DigitOne, RBrace];
    SmallObjectBytes();
    var p := key + value;
    assert !Contains(p, Marker) by {
      assert |p| < |Marker|;
    }
    var s := Initial.(inited := true);
    assert Chunk(Plain, Initial, p) == Run(Plain, s, p);
    KeyPart();
    ValuePart();
    RunAppend(Plain, s, key, value);
  }

  /** Text that does not start like an object or array is forwarded unchanged,
      and the writer stays disabled for whatever follows. */
  lemma PlainTextError(later: seq<byte>)
    ensures Chunk(Plain, Initial, Ascii("plain text error")).out == Ascii("plain text error")
    ensures Chunk(Plain, Initial, Ascii("plain text error")).state.disabled
    ensures Chunk(Plain, Chunk(Plain, Initial, Ascii("plain text error")).state, later).out == later
  {
  }

  /** A key split across two writes comes out as if it had been sent whole. */
  lemma SplitKey()
    ensures Feed(Plain, Initial, [Ascii("{\"a"), Ascii("b\":1}")]) == Chunk(Plain, Initial, Ascii("{\"ab\":1}"))
  {
    var chunks := [Ascii("{\"a"), Ascii("b\":1}")];
    assert Concat(chunks[1..]) == Ascii("b\":1}") + [];
    assert Concat(chunks) == Ascii("{\"ab\":1}");
    assert !Contains(Concat(chunks), Marker) by {
      assert |Concat(chunks)| < |Marker|;
    }
    FeedPartition(Plain, Initial, chunks);
  }

  /** `{` alone becomes six bytes: the brace, a newline and four spaces. */
  lemma OpenBraceBytes()
    ensures Chunk(Plain, Initial, [LBrace]).out == [LBrace, Newline] + Spaces(4)
  {
    assert !Contains([LBrace], Marker) by {
      assert |[LBrace]| < |Marker|;
    }
    RunSnoc(Plain, Initial.(inited := true), [], LBrace);
  }

  /** A failed sink write is reported with the sink's own count, which counts
      formatted bytes: for the one-byte chunk `{` it can reach 5, more than
      `len(p)`, outside the `0 <= n <= len(p)` range `io.Writer` asks for. */
  method FailedWriteOverreports() returns (reply: Reply)
    ensures reply == Reply(5, Failed(0))
    ensures reply.n > |[LBrace]|
  {
    var sink := (x: seq<byte>) => Reply(|x| - 1, Failed(0));
    OpenBraceBytes();
    var _, _, r := Write(Plain, Initial, [LBrace], sink);
    reply := r;
  }
}
