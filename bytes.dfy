/** Go strings are immutable byte sequences; `strings.Split` with a one-byte
    separator is modelled here together with its inverse, joining. */
module Bytes {

  newtype byte = x: int | 0 <= x < 256

  /** A Go `string` or `[]byte`. */
  type Str = seq<byte>

  const Newline: byte := 0x0A
  const Plus: byte := 0x2B
  const Comma: byte := 0x2C
  const Minus: byte := 0x2D
  const Slash: byte := 0x2F

  /** The bytes of an ASCII literal. */
  function Ascii(s: string): (r: Str)
    ensures |r| == |s|
  {
    seq(|s|, i requires 0 <= i < |s| => (s[i] as int % 256) as byte)
  }

  /** The pieces joined back together, with `sep` between neighbours. */
  function Join(pieces: seq<Str>, sep: byte): Str
  {
    if |pieces| == 0 then []
    else if |pieces| == 1 then pieces[0]
    else pieces[0] + [sep] + Join(pieces[1..], sep)
  }

  /** `strings.Split(s, sep)` for a one-byte separator: the maximal runs of
      bytes between separators, so one more piece than there are separators
      (an empty `s` gives one empty piece). */
  function Split(s: Str, sep: byte): (r: seq<Str>)
    ensures |r| >= 1
    decreases |s|
  {
    if |s| == 0 then [[]]
    else
      var rest := Split(s[1..], sep);
      if s[0] == sep then [[]] + rest else Prepend(s[0], rest)
  }

  /** A byte put in front of the first piece. */
  function Prepend(c: byte, pieces: seq<Str>): (r: seq<Str>)
    requires |pieces| >= 1
    ensures |r| == |pieces|
  {
    [[c] + pieces[0]] + pieces[1..]
  }

  lemma PrependConcat(c: byte, xs: seq<Str>, ys: seq<Str>)
    requires |xs| >= 1
    ensures Prepend(c, xs + ys) == Prepend(c, xs) + ys
  {
    assert (xs + ys)[0] == xs[0];
    assert (xs + ys)[1..] == xs[1..] + ys;
  }

  /** No piece holds the separator. */
  lemma {:induction false} SplitPiecesLackSeparator(s: Str, sep: byte)
    ensures forall i :: 0 <= i < |Split(s, sep)| ==> sep !in Split(s, sep)[i]
    decreases |s|
  {
    if |s| > 0 {
      SplitPiecesLackSeparator(s[1..], sep);
      var rest := Split(s[1..], sep);
      if s[0] != sep {
        assert sep !in [s[0]] + rest[0];
        assert forall i :: 1 <= i < |rest| ==> rest[1..][i - 1] == rest[i];
      }
    }
  }

  /** Joining the pieces with the separator gives back what was split. */
  lemma {:induction false} JoinSplit(s: Str, sep: byte)
    ensures Join(Split(s, sep), sep) == s
    decreases |s|
  {
    if |s| > 0 {
      JoinSplit(s[1..], sep);
      var rest := Split(s[1..], sep);
      assert s == [s[0]] + s[1..];
      if s[0] != sep {
        var r := [[s[0]] + rest[0]] + rest[1..];
        assert r[1..] == rest[1..];
        if |rest| > 1 {
          assert Join(rest, sep) == rest[0] + [sep] + Join(rest[1..], sep);
        }
      }
    }
  }

  /** A piece without the separator splits into itself alone. */
  lemma {:induction false} SplitWithoutSeparator(s: Str, sep: byte)
    requires sep !in s
    ensures Split(s, sep) == [s]
    decreases |s|
  {
    if |s| > 0 {
      SplitWithoutSeparator(s[1..], sep);
      assert [s[0]] + s[1..] == s;
    }
  }

  /** One step of Split: how the first byte joins or ends the first piece. */
  lemma SplitCons(c: byte, t: Str, sep: byte)
    ensures Split([c] + t, sep) == if c == sep then [[]] + Split(t, sep) else Prepend(c, Split(t, sep))
  {
    assert ([c] + t)[0] == c && ([c] + t)[1..] == t;
  }

  /** Splitting distributes over a separator: the pieces of `a`, then those of `b`. */
  lemma {:induction false} SplitConcat(a: Str, b: Str, sep: byte)
    ensures Split(a + [sep] + b, sep) == Split(a, sep) + Split(b, sep)
    decreases |a|
  {
    if |a| == 0 {
      assert a + [sep] + b == [sep] + b;
      SplitCons(sep, b, sep);
    } else {
      SplitConcat(a[1..], b, sep);
      assert a == [a[0]] + a[1..];
      if a[0] == sep {
        SplitConcatAtSeparator(a[1..], b, sep);
      } else {
        SplitConcatAtByte(a[0], a[1..], b, sep);
      }
    }
  }

  /** The inductive step of SplitConcat when `a` starts with the separator. */
  lemma SplitConcatAtSeparator(tail: Str, b: Str, sep: byte)
    requires Split(tail + [sep] + b, sep) == Split(tail, sep) + Split(b, sep)
    ensures Split([sep] + tail + [sep] + b, sep) == Split([sep] + tail, sep) + Split(b, sep)
  {
    assert [sep] + tail + [sep] + b == [sep] + (tail + [sep] + b);
    SplitCons(sep, tail + [sep] + b, sep);
    SplitCons(sep, tail, sep);
    assert [[]] + (Split(tail, sep) + Split(b, sep)) == ([[]] + Split(tail, sep)) + Split(b, sep);
  }

  /** The inductive step of SplitConcat when `a` starts with any other byte. */
  lemma SplitConcatAtByte(c: byte, tail: Str, b: Str, sep: byte)
    requires c != sep
    requires Split(tail + [sep] + b, sep) == Split(tail, sep) + Split(b, sep)
    ensures Split([c] + tail + [sep] + b, sep) == Split([c] + tail, sep) + Split(b, sep)
  {
    assert [c] + tail + [sep] + b == [c] + (tail + [sep] + b);
    SplitCons(c, tail + [sep] + b, sep);
    SplitCons(c, tail, sep);
    PrependConcat(c, Split(tail, sep), Split(b, sep));
  }

  /** Split undoes Join when no piece holds the separator. */
  lemma {:induction false} SplitJoin(pieces: seq<Str>, sep: byte)
    requires |pieces| >= 1
    requires forall i :: 0 <= i < |pieces| ==> sep !in pieces[i]
    ensures Split(Join(pieces, sep), sep) == pieces
    decreases |pieces|
  {
    if |pieces| == 1 {
      SplitWithoutSeparator(pieces[0], sep);
    } else {
      SplitConcat(pieces[0], Join(pieces[1..], sep), sep);
      SplitWithoutSeparator(pieces[0], sep);
      SplitJoin(pieces[1..], sep);
      assert [pieces[0]] + pieces[1..] == pieces;
    }
  }
}
