/** The streaming JSON pretty-printer and colouriser of formatter/json.go: a
    byte-by-byte transducer that indents and colours JSON-looking output
    without parsing it. The per-byte rule is the pure function `Step`; a chunk
    is `Step` folded over its bytes (`Run`) behind the first-chunk decision and
    the marker pass-through (`Chunk`); `Write` is the Go method itself, a loop
    over the chunk followed by one sink write. */
module Json {
  import opened Bytes

  /** The four colour sequences of a `ColorScheme`; each is opaque here and may
      be empty (the zero scheme emits no colour at all). */
  datatype ColorScheme = ColorScheme(field: seq<byte>, value: seq<byte>, literal: seq<byte>, default: seq<byte>)

  /** `ColorScheme{}`: no colours. */
  const Plain := ColorScheme([], [], [], [])

  /** The mutable fields of the Go `JSON` writer, as an immutable record. */
  datatype State = State(
    inited: bool,     // the first non-empty chunk has been seen
    disabled: bool,   // that chunk did not start with `{` or `[`: forward everything verbatim
    last: byte,       // the previously processed byte
    lastQuote: byte,  // the quote character of the open string, 0 when none is open
    isValue: bool,    // the next string or scalar is a value rather than a key
    level: int)       // nesting depth

  /** The zero value of the Go struct, the state of a fresh writer. */
  const Initial := State(false, false, 0, 0, false, 0)

  /** A state together with the bytes produced on the way to it. */
  datatype Emitted = Emitted(state: State, out: seq<byte>)

  /** The marker of curl's timing report; chunks containing it are never formatted. */
  const Marker: seq<byte> := Ascii("TimingMetrics")

  /** The one indentation unit, four spaces. */
  const Indent: seq<byte> := [Space, Space, Space, Space]

  predicate IsQuote(b: byte) { b == DoubleQuote || b == SingleQuote }
  predicate IsOpener(b: byte) { b == LBrace || b == LBracket }
  predicate IsCloser(b: byte) { b == RBrace || b == RBracket }
  predicate IsStructural(b: byte) { IsOpener(b) || IsCloser(b) || b == Colon || b == Comma }

  /** First letters of `null`, `true` and `false`. */
  predicate IsLiteralStart(b: byte) { b == LowerN || b == LowerT || b == LowerF }

  /** No string is open, or one is open and was opened by a quote character. */
  predicate QuoteOk(s: State) { s.lastQuote == 0 || IsQuote(s.lastQuote) }

  /** Every byte the formatter may insert: the colour bytes, newline and space. */
  function Palette(cs: ColorScheme): set<byte>
  {
    (set x | x in cs.field) + (set x | x in cs.value) + (set x | x in cs.literal)
      + (set x | x in cs.default) + {Newline, Space}
  }

  /** With the empty scheme the formatter inserts only newlines and spaces. */
  lemma PlainPalette()
    ensures Palette(Plain) == {Newline, Space}
  {
  }

  /** `bytes.Repeat(indent, level)`: `level` indentation units are `4 * level` spaces. */
  function Indentation(level: nat): (r: seq<byte>)
    ensures r == Spaces(4 * level)
  {
    assert Indent == Spaces(4);
    RepeatSpaces(4, level);
    Repeat(Indent, level)
  }

  /** The body of the loop in `(*JSON).Write` for one byte `b`. */
  function Step(cs: ColorScheme, s: State, b: byte): (r: Emitted)
    requires s.level >= 0
    // the byte is always remembered, the first-chunk decision never touched
    ensures r.state.last == b
    ensures r.state.inited == s.inited && r.state.disabled == s.disabled
    // a byte after a backslash is copied and nothing else changes
    ensures s.last == Backslash ==> r == Emitted(s.(last := b), [b])
    // the open quote changes only on an unescaped quote that opens (none open) or closes (same one)
    ensures (r.state.lastQuote != s.lastQuote) <==>
              (s.last != Backslash && IsQuote(b) && (s.lastQuote == 0 || s.lastQuote == b))
    ensures QuoteOk(s) ==> QuoteOk(r.state)
    ensures s.last != Backslash && IsQuote(b) && s.lastQuote == 0 ==>
              r.state.lastQuote == b && r.out == (if s.isValue then cs.value else cs.field) + [b]
    ensures s.last != Backslash && IsQuote(b) && s.lastQuote == b ==>
              r.state.lastQuote == 0 && r.out == [b] + cs.default
    ensures s.last != Backslash && IsQuote(b) && s.lastQuote != 0 && s.lastQuote != b ==>
              r == Emitted(s.(last := b), [b])
    // depth: +1 on an opener, -1 clamped at 0 on a closer, unchanged otherwise
    ensures r.state.level >= 0
    ensures s.last != Backslash && IsOpener(b) ==> r.state.level == s.level + 1
    ensures s.last != Backslash && IsCloser(b) ==> r.state.level == if s.level == 0 then 0 else s.level - 1
    ensures r.state.level != s.level ==> s.last != Backslash && (IsOpener(b) || IsCloser(b))
    // layout around structural bytes
    ensures s.last != Backslash && IsOpener(b) ==>
              r.out == cs.default + [b, Newline] + Spaces(4 * r.state.level)
    ensures s.last != Backslash && IsCloser(b) ==>
              r.out == [Newline] + Spaces(4 * r.state.level) + cs.default + [b]
    ensures s.last != Backslash && b == Comma ==>
              r.out == cs.default + [b, Newline] + Spaces(4 * s.level)
    ensures s.last != Backslash && b == Colon ==> r.out == cs.default + [b, Space]
    // key/value context: set by a colon, cleared by a comma or an opener
    ensures s.last != Backslash && b == Colon ==> r.state.isValue
    ensures s.last != Backslash && (b == Comma || IsOpener(b)) ==> !r.state.isValue
    ensures r.state.isValue != s.isValue ==> s.last != Backslash && (b == Colon || b == Comma || IsOpener(b))
    // scalar colouring: only the byte right after a colon gets a colour prefix
    ensures s.last != Backslash && !IsStructural(b) && !IsQuote(b) ==> r.state == s.(last := b)
    ensures s.last != Backslash && !IsStructural(b) && !IsQuote(b) && s.last != Colon ==> r.out == [b]
    ensures s.last == Colon && !IsStructural(b) && !IsQuote(b) ==>
              r.out == (if IsLiteralStart(b) then cs.literal else cs.value) + [b]
  {
    if s.last == Backslash then Emitted(s.(last := b), [b])
    else
      var e :=
        if IsQuote(b) then
          if s.lastQuote == 0 then
            Emitted(s.(lastQuote := b), (if s.isValue then cs.value else cs.field) + [b])
          else if s.lastQuote == b then
            Emitted(s.(lastQuote := 0), [b] + cs.default)
          else
            Emitted(s, [b])
        else if IsOpener(b) then
          Emitted(s.(isValue := false, level := s.level + 1),
                  cs.default + [b, Newline] + Indentation(s.level + 1))
        else if IsCloser(b) then
          var down := s.level - 1;
          var level := if down < 0 then 0 else down;
          Emitted(s.(level := level), [Newline] + Indentation(level) + cs.default + [b])
        else if b == Colon then
          Emitted(s.(isValue := true), cs.default + [b, Space])
        else if b == Comma then
          Emitted(s.(isValue := false), cs.default + [b, Newline] + Indentation(s.level))
        else if s.last == Colon then
          Emitted(s, (if IsLiteralStart(b) then cs.literal else cs.value) + [b])
        else
          Emitted(s, [b]);
      Emitted(e.state.(last := b), e.out)
  }

  /** `cs.default`, and each colour, consists of palette bytes. */
  lemma PaletteCovers(cs: ColorScheme)
    ensures AllIn(cs.field, Palette(cs)) && AllIn(cs.value, Palette(cs))
    ensures AllIn(cs.literal, Palette(cs)) && AllIn(cs.default, Palette(cs))
    ensures forall n: nat :: AllIn(Spaces(n), Palette(cs))
  {
  }

  /** A step copies its byte exactly once, between two runs of palette bytes. */
  lemma StepInsertsOnly(cs: ColorScheme, s: State, b: byte)
    requires s.level >= 0
    ensures Wraps(Step(cs, s, b).out, b, Palette(cs))
  {
    var E := Palette(cs);
    var out := Step(cs, s, b).out;
    PaletteCovers(cs);
    var pre: seq<byte>, post: seq<byte> := [], [];
    if s.last == Backslash || (IsQuote(b) && s.lastQuote != 0 && s.lastQuote != b) {
    } else if IsQuote(b) && s.lastQuote == 0 {
      pre := if s.isValue then cs.value else cs.field;
    } else if IsQuote(b) {
      post := cs.default;
    } else if IsOpener(b) {
      pre, post := cs.default, [Newline] + Spaces(4 * (s.level + 1));
    } else if IsCloser(b) {
      pre := [Newline] + Spaces(4 * Step(cs, s, b).state.level) + cs.default;
    } else if b == Colon {
      pre, post := cs.default, [Space];
    } else if b == Comma {
      pre, post := cs.default, [Newline] + Spaces(4 * s.level);
    } else if s.last == Colon {
      pre := if IsLiteralStart(b) then cs.literal else cs.value;
    }
    assert AllIn(pre, E) && AllIn(post, E);
    assert out == pre + [b] + post;
    WrapsOf(pre, b, post, E);
  }

  /** The loop of `(*JSON).Write`: `Step` folded over the chunk, outputs concatenated. */
  function Run(cs: ColorScheme, s: State, p: seq<byte>): (r: Emitted)
    requires s.level >= 0
    ensures |p| == 0 ==> r == Emitted(s, [])
    ensures |p| > 0 ==> r.state.last == p[|p| - 1]
    ensures r.state.inited == s.inited && r.state.disabled == s.disabled
    ensures r.state.level >= 0
    ensures QuoteOk(s) ==> QuoteOk(r.state)
    // every input byte survives in order and only palette bytes are added
    ensures InsertsOnly(p, r.out, Palette(cs))
    decreases |p|
  {
    if |p| == 0 then Emitted(s, [])
    else
      var init := p[..|p| - 1];
      var e := Run(cs, s, init);
      var t := Step(cs, e.state, p[|p| - 1]);
      assert InsertsOnly([p[|p| - 1]], t.out, Palette(cs)) by {
        StepInsertsOnly(cs, e.state, p[|p| - 1]);
        WrapsInsertsOnly(t.out, p[|p| - 1], Palette(cs));
      }
      InsertsOnlyAppend(init, e.out, [p[|p| - 1]], t.out, Palette(cs));
      assert init + [p[|p| - 1]] == p;
      Emitted(t.state, e.out + t.out)
  }

  /** Bytes outside the palette are neither added nor lost by a chunk's fold. */
  lemma {:induction false} RunCounts(cs: ColorScheme, s: State, p: seq<byte>)
    requires s.level >= 0
    ensures SameOutside(p, Run(cs, s, p).out, Palette(cs))
    decreases |p|
  {
    if |p| > 0 {
      var init := p[..|p| - 1];
      var e := Run(cs, s, init);
      var b := p[|p| - 1];
      var t := Step(cs, e.state, b);
      assert init + [b] == p;
      assert Run(cs, s, p).out == e.out + t.out;
      RunCounts(cs, s, init);
      assert SameOutside([b], t.out, Palette(cs)) by {
        StepInsertsOnly(cs, e.state, b);
        WrapsCounts(t.out, b, Palette(cs));
      }
      SameOutsideAppend(init, e.out, [b], t.out, Palette(cs));
    }
  }

  /** The first-chunk check: the first non-empty chunk decides, once, whether to format. */
  function Decide(s: State, p: seq<byte>): (r: State)
    ensures s.inited || |p| == 0 ==> r == s
    ensures !s.inited && |p| > 0 ==> r.inited && (r.disabled <==> !IsOpener(p[0]))
    ensures r == s.(inited := r.inited, disabled := r.disabled)
  {
    if !s.inited && |p| > 0 then s.(disabled := !IsOpener(p[0]), inited := true) else s
  }

  /** The bytes `(*JSON).Write` hands to the sink for chunk `p`, and the state it leaves. */
  function Chunk(cs: ColorScheme, s: State, p: seq<byte>): (r: Emitted)
    requires s.level >= 0
    ensures r.state.level >= 0
    ensures QuoteOk(s) ==> QuoteOk(r.state)
    // one-shot decision: an empty chunk does not take it, a later chunk does not revisit it
    ensures s.inited ==> r.state.inited && r.state.disabled == s.disabled
    ensures !s.inited && |p| == 0 ==> r.state.inited == false
    ensures !s.inited && |p| > 0 ==> r.state.inited && (r.state.disabled <==> !IsOpener(p[0]))
    // disabled: verbatim, and the state is frozen
    ensures s.inited && s.disabled ==> r == Emitted(s, p)
    ensures !s.inited && |p| > 0 && !IsOpener(p[0]) ==> r == Emitted(s.(inited := true, disabled := true), p)
    // the timing marker: verbatim, and the formatting state is untouched
    ensures Contains(p, Marker) ==>
              && r.out == p
              && r.state.last == s.last && r.state.lastQuote == s.lastQuote
              && r.state.isValue == s.isValue && r.state.level == s.level
    // whatever the mode, the chunk survives in order with only palette bytes added,
    // and bytes outside the palette are neither added nor lost
    ensures InsertsOnly(p, r.out, Palette(cs))
    ensures SameOutside(p, r.out, Palette(cs))
  {
    var d := Decide(s, p);
    if d.disabled || Contains(p, Marker) then
      InsertsOnlyRefl(p, Palette(cs));
      Emitted(d, p)
    else
      RunCounts(cs, d, p);
      Run(cs, d, p)
  }

  /** A Go `error`: nil, or some failure of the sink. */
  datatype Error = Nil | Failed(code: int)

  /** The `(n int, err error)` pair of an `io.Writer.Write` call. */
  datatype Reply = Reply(n: int, err: Error)

  /** The sink took all of `sent` without error. */
  predicate Accepted(r: Reply, sent: seq<byte>)
  {
    r.err == Nil && r.n == |sent|
  }

  /** `(*JSON).Write(p)`: the loop over `p`, one write of the result to `sink`,
      and the mapping of the sink's reply. The sink is any function from the
      bytes it is given to its reply; `sent` is what it was given. */
  method Write(cs: ColorScheme, j: State, p: seq<byte>, sink: seq<byte> -> Reply)
    returns (next: State, sent: seq<byte>, reply: Reply)
    requires j.level >= 0
    ensures Emitted(next, sent) == Chunk(cs, j, p)
    ensures next.disabled ==> sent == p
    // the whole chunk is reported when the sink takes everything; otherwise the sink's own reply
    ensures Accepted(sink(sent), sent) ==> reply == Reply(|p|, Nil)
    ensures !Accepted(sink(sent), sent) ==> reply == sink(sent)
  {
    var st := j;
    if !st.inited && |p| > 0 {
      st := st.(disabled := p[0] != LBrace && p[0] != LBracket, inited := true);
    }
    if st.disabled {
      return st, p, sink(p);
    }
    if Contains(p, Marker) {
      return st, p, sink(p);
    }
    ghost var start := st;
    var cp: seq<byte> := [];
    var i := 0;
    while i < |p|
      invariant 0 <= i <= |p|
      invariant start.level >= 0
      invariant Emitted(st, cp) == Run(cs, start, p[..i])
    {
      assert p[..i + 1][..i] == p[..i];
      var e := Step(cs, st, p[i]);
      st := e.state;
      cp := cp + e.out;
      i := i + 1;
    }
    assert p[..i] == p;
    next, sent := st, cp;
    var r := sink(cp);
    if r.err != Nil || r.n != |cp| {
      reply := r;
    } else {
      reply := Reply(|p|, Nil);
    }
  }
}
