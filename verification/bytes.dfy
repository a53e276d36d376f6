/** Byte-level vocabulary shared by the formatter model: the byte type, the
    ASCII values the formatter reacts to, and models of the two Go `bytes`
    package helpers it calls (`bytes.Repeat` and `bytes.Contains`). */
module Bytes {

  /** A Go `byte`. */
  newtype byte = x: int | 0 <= x < 256

  /** Every character of `s` is ASCII, so Go's `[]byte(s)` has one byte per character. */
  predicate IsAscii(s: string)
  {
    forall i | 0 <= i < |s| :: s[i] as int < 128
  }

  /** The bytes of a string literal written in Go source, e.g. `[]byte("TimingMetrics")`. */
  function Ascii(s: string): (r: seq<byte>)
    requires IsAscii(s)
    ensures |r| == |s|
    ensures forall i | 0 <= i < |s| :: r[i] as int == s[i] as int
  {
    seq(|s|, i requires 0 <= i < |s| => s[i] as int as byte)
  }

  const Newline: byte := 0x0A
  const Space: byte := 0x20
  const DoubleQuote: byte := 0x22
  const SingleQuote: byte := 0x27
  const Comma: byte := 0x2C
  const Colon: byte := 0x3A
  const LBracket: byte := 0x5B
  const Backslash: byte := 0x5C
  const RBracket: byte := 0x5D
  const LowerF: byte := 0x66
  const LowerN: byte := 0x6E
  const LowerT: byte := 0x74
  const LBrace: byte := 0x7B
  const RBrace: byte := 0x7D

  /** `n` spaces: the independent description of an indentation run. */
  function Spaces(n: nat): (r: seq<byte>)
  {
    seq(n, _ => Space)
  }

  /** Go's `bytes.Repeat(unit, count)`; a negative count panics in Go, hence the nat. */
  function Repeat(unit: seq<byte>, count: nat): (r: seq<byte>)
    ensures |r| == |unit| * count
    decreases count
  {
    if count == 0 then [] else unit + Repeat(unit, count - 1)
  }

  /** Repeating a run of `k` spaces `count` times gives `k * count` spaces. */
  lemma {:induction false} RepeatSpaces(k: nat, count: nat)
    ensures Repeat(Spaces(k), count) == Spaces(k * count)
    decreases count
  {
    if count > 0 {
      RepeatSpaces(k, count - 1);
      assert k * count == k + k * (count - 1);
      assert Spaces(k) + Spaces(k * (count - 1)) == Spaces(k * count);
    }
  }

  /** `m` occurs in `p` starting at index `i`. */
  predicate OccursAt(p: seq<byte>, m: seq<byte>, i: int)
  {
    0 <= i && i + |m| <= |p| && p[i..i + |m|] == m
  }

  /** Go's `bytes.Contains(p, m)`, by a left-to-right scan. */
  function Contains(p: seq<byte>, m: seq<byte>): (r: bool)
    ensures r <==> exists i :: OccursAt(p, m, i)
    decreases |p|
  {
    if |p| < |m| then false
    else if p[..|m|] == m then
      assert OccursAt(p, m, 0);
      true
    else
      ContainsShift(p, m);
      Contains(p[1..], m)
  }

  /** Occurrences in `p[1..]` are the occurrences in `p` past index 0. */
  lemma ContainsShift(p: seq<byte>, m: seq<byte>)
    requires |p| > 0
    requires !OccursAt(p, m, 0)
    ensures (exists i :: OccursAt(p[1..], m, i)) <==> (exists i :: OccursAt(p, m, i))
  {
    if i :| OccursAt(p[1..], m, i) {
      assert p[1..][i..i + |m|] == p[i + 1..i + 1 + |m|];
      assert OccursAt(p, m, i + 1);
    }
    if i :| OccursAt(p, m, i) {
      assert i != 0;
      assert p[1..][i - 1..i - 1 + |m|] == p[i..i + |m|];
      assert OccursAt(p[1..], m, i - 1);
    }
  }

  /** A byte string containing `m` still contains it once extended on either side. */
  lemma {:induction false} ContainsInConcat(a: seq<byte>, b: seq<byte>, m: seq<byte>)
    ensures Contains(a, m) ==> Contains(a + b, m)
    ensures Contains(b, m) ==> Contains(a + b, m)
  {
    if Contains(a, m) {
      var i :| OccursAt(a, m, i);
      assert (a + b)[i..i + |m|] == a[i..i + |m|];
      assert OccursAt(a + b, m, i);
    }
    if Contains(b, m) {
      var i :| OccursAt(b, m, i);
      assert (a + b)[|a| + i..|a| + i + |m|] == b[i..i + |m|];
      assert OccursAt(a + b, m, |a| + i);
    }
  }

  /** `o` is `p` with bytes drawn from `extra` inserted anywhere: `p` survives
      in `o` in order, and every other byte of `o` belongs to `extra`. */
  predicate InsertsOnly(p: seq<byte>, o: seq<byte>, extra: set<byte>)
    decreases |o|
  {
    if |o| == 0 then |p| == 0
    else
      || (|p| > 0 && o[0] == p[0] && InsertsOnly(p[1..], o[1..], extra))
      || (o[0] in extra && InsertsOnly(p, o[1..], extra))
  }

  /** Every byte of `q` is in `extra`. */
  predicate AllIn(q: seq<byte>, extra: set<byte>)
  {
    forall i | 0 <= i < |q| :: q[i] in extra
  }

  /** Inserting nothing is allowed. */
  lemma {:induction false} InsertsOnlyRefl(p: seq<byte>, extra: set<byte>)
    ensures InsertsOnly(p, p, extra)
    decreases |p|
  {
    if |p| > 0 {
      InsertsOnlyRefl(p[1..], extra);
    }
  }

  /** Prefixing inserted bytes keeps the relation. */
  lemma {:induction false} InsertsOnlyPrefix(q: seq<byte>, p: seq<byte>, o: seq<byte>, extra: set<byte>)
    requires AllIn(q, extra)
    requires InsertsOnly(p, o, extra)
    ensures InsertsOnly(p, q + o, extra)
    decreases |q|
  {
    if |q| == 0 {
      assert q + o == o;
    } else {
      InsertsOnlyPrefix(q[1..], p, o, extra);
      assert (q + o)[1..] == q[1..] + o;
      assert (q + o)[0] == q[0] && q[0] in extra;
    }
  }

  /** A run made only of inserted bytes carries no input. */
  lemma {:induction false} InsertsOnlyNothing(q: seq<byte>, extra: set<byte>)
    requires AllIn(q, extra)
    ensures InsertsOnly([], q, extra)
  {
    assert q == q + [];
    InsertsOnlyPrefix(q, [], [], extra);
  }

  /** The relation composes along concatenation. */
  lemma {:induction false} InsertsOnlyAppend(p1: seq<byte>, o1: seq<byte>, p2: seq<byte>, o2: seq<byte>, extra: set<byte>)
    requires InsertsOnly(p1, o1, extra)
    requires InsertsOnly(p2, o2, extra)
    ensures InsertsOnly(p1 + p2, o1 + o2, extra)
    decreases |o1|
  {
    if |o1| == 0 {
      assert p1 + p2 == p2;
      assert o1 + o2 == o2;
    } else {
      assert (o1 + o2)[0] == o1[0];
      assert (o1 + o2)[1..] == o1[1..] + o2;
      if |p1| > 0 && o1[0] == p1[0] && InsertsOnly(p1[1..], o1[1..], extra) {
        InsertsOnlyAppend(p1[1..], o1[1..], p2, o2, extra);
        assert (p1 + p2)[1..] == p1[1..] + p2;
      } else {
        InsertsOnlyAppend(p1, o1[1..], p2, o2, extra);
      }
    }
  }

  /** Inserting bytes never loses any: `o` holds at least as many of each byte as `p`. */
  lemma {:induction false} InsertsOnlyMultiset(p: seq<byte>, o: seq<byte>, extra: set<byte>)
    requires InsertsOnly(p, o, extra)
    ensures multiset(p) <= multiset(o)
    ensures |p| <= |o|
    decreases |o|
  {
    if |o| > 0 {
      assert o == [o[0]] + o[1..];
      if |p| > 0 && o[0] == p[0] && InsertsOnly(p[1..], o[1..], extra) {
        InsertsOnlyMultiset(p[1..], o[1..], extra);
        assert p == [p[0]] + p[1..];
      } else {
        InsertsOnlyMultiset(p, o[1..], extra);
      }
    }
  }

  /** `o` is `pre + [b] + post` with `pre` and `post` made of bytes from
      `extra`: `b` is copied once and everything around it is inserted. */
  predicate Wraps(o: seq<byte>, b: byte, extra: set<byte>)
  {
    exists k :: 0 <= k < |o| && o[k] == b && AllIn(o[..k], extra) && AllIn(o[k + 1..], extra)
  }

  /** Wrapping `b` in two runs of inserted bytes is a `Wraps`. */
  lemma WrapsOf(pre: seq<byte>, b: byte, post: seq<byte>, extra: set<byte>)
    requires AllIn(pre, extra) && AllIn(post, extra)
    ensures Wraps(pre + [b] + post, b, extra)
  {
    var o := pre + [b] + post;
    assert o[|pre|] == b && o[..|pre|] == pre && o[|pre| + 1..] == post;
  }

  /** Bytes outside `extra` occur in `o` exactly as often as in `p`. */
  predicate SameOutside(p: seq<byte>, o: seq<byte>, extra: set<byte>)
  {
    forall x | x !in extra :: multiset(o)[x] == multiset(p)[x]
  }

  /** A run of inserted bytes holds no byte outside `extra`. */
  lemma AllInAbsent(q: seq<byte>, extra: set<byte>, x: byte)
    requires AllIn(q, extra) && x !in extra
    ensures multiset(q)[x] == 0
  {
  }

  /** A wrapped byte is an insertion-only image of itself. */
  lemma WrapsInsertsOnly(o: seq<byte>, b: byte, extra: set<byte>)
    requires Wraps(o, b, extra)
    ensures InsertsOnly([b], o, extra)
  {
    var k :| 0 <= k < |o| && o[k] == b && AllIn(o[..k], extra) && AllIn(o[k + 1..], extra);
    var pre, post := o[..k], o[k + 1..];
    assert o == pre + ([b] + post);
    InsertsOnlyNothing(post, extra);
    assert ([b] + post)[1..] == post;
    assert InsertsOnly([b], [b] + post, extra);
    InsertsOnlyPrefix(pre, [b], [b] + post, extra);
  }

  /** A wrapped byte is the only byte of `o` outside `extra`. */
  lemma WrapsCounts(o: seq<byte>, b: byte, extra: set<byte>)
    requires Wraps(o, b, extra)
    ensures SameOutside([b], o, extra)
  {
    var k :| 0 <= k < |o| && o[k] == b && AllIn(o[..k], extra) && AllIn(o[k + 1..], extra);
    var pre, post := o[..k], o[k + 1..];
    assert o == pre + [b] + post;
    forall x | x !in extra
      ensures multiset(o)[x] == multiset([b])[x]
    {
      AllInAbsent(pre, extra, x);
      AllInAbsent(post, extra, x);
      assert multiset(o) == multiset(pre) + multiset([b]) + multiset(post);
    }
  }

  /** Exact counts outside `extra` add up along concatenation. */
  lemma SameOutsideAppend(p1: seq<byte>, o1: seq<byte>, p2: seq<byte>, o2: seq<byte>, extra: set<byte>)
    requires SameOutside(p1, o1, extra) && SameOutside(p2, o2, extra)
    ensures SameOutside(p1 + p2, o1 + o2, extra)
  {
    assert multiset(p1 + p2) == multiset(p1) + multiset(p2);
    assert multiset(o1 + o2) == multiset(o1) + multiset(o2);
  }
}
