/**
 * The output of a `BinaryWriter`, one token per `Write` call, and readers that take the tokens
 * back. Strings are written as their UTF-8 bytes; the encoding itself is not modelled, so a
 * string's bytes are one token that carries the string.
 */
module Tokens {
  import opened Wrappers
  import opened Collada

  datatype Token =
    | Chars(s: string)     // Write(char[]): each char UTF-8 encoded
    | Int32(value: int)    // Write(int): four bytes, little-endian
    | Single(bits: Float)  // Write(float): the four bytes of the binary32 pattern
    | Byte(b: bv8)         // Write(byte)
    | Utf8(s: string)      // Write(Encoding.UTF8.GetBytes(s))

  /** WriteNtString: the string's bytes, then a NUL byte. */
  function NtString(s: string): seq<Token> {
    [Utf8(s), Byte(0)]
  }

  /** The number of bytes UTF-8 takes for one Unicode scalar value. */
  function Utf8Width(c: char): nat {
    if c as int < 0x80 then 1 else if c as int < 0x800 then 2 else if c as int < 0x10000 then 3 else 4
  }

  /** The number of bytes UTF-8 takes for a string. */
  function Utf8Length(s: string): nat {
    if s == [] then 0 else Utf8Length(s[..|s| - 1]) + Utf8Width(s[|s| - 1])
  }

  /** Write(float): one float. */
  function SingleTokens(x: Float): seq<Token> {
    [Single(x)]
  }

  /** A vector written as its x, y and z. */
  function VectorTokens(v: Vector3): seq<Token> {
    [Single(v.x), Single(v.y), Single(v.z)]
  }

  /** The bytes a token occupies in the file. */
  function Width(t: Token): nat {
    match t
    case Chars(s) => Utf8Length(s)
    case Int32(_) => 4
    case Single(_) => 4
    case Byte(_) => 1
    case Utf8(s) => Utf8Length(s)
  }

  /** The bytes a token sequence occupies. */
  function Size(ts: seq<Token>): nat {
    if ts == [] then 0 else Size(ts[..|ts| - 1]) + Width(ts[|ts| - 1])
  }

  /** The tokens of a `foreach` loop that writes `enc(x)` for every `x` in order. */
  function Repeat<T>(xs: seq<T>, enc: T -> seq<Token>): seq<Token> {
    if xs == [] then [] else Repeat(xs[..|xs| - 1], enc) + enc(xs[|xs| - 1])
  }

  /** Read `n` values one after the other with `dec`; the rest of the stream is returned. */
  function ReadRepeat<T>(ts: seq<Token>, n: nat, dec: seq<Token> -> Option<(T, seq<Token>)>)
    : (r: Option<(seq<T>, seq<Token>)>)
    ensures r.Some? ==> |r.value.0| == n
  {
    if n == 0 then Some(([], ts))
    else match ReadRepeat(ts, n - 1, dec)
      case None => None
      case Some((xs, rest)) =>
        match dec(rest)
        case None => None
        case Some((x, rest')) => Some((xs + [x], rest'))
  }

  function ReadInt(ts: seq<Token>): Option<(int, seq<Token>)> {
    if ts != [] && ts[0].Int32? then Some((ts[0].value, ts[1..])) else None
  }

  function ReadSingle(ts: seq<Token>): Option<(Float, seq<Token>)> {
    if ts != [] && ts[0].Single? then Some((ts[0].bits, ts[1..])) else None
  }

  function ReadByte(ts: seq<Token>): Option<(bv8, seq<Token>)> {
    if ts != [] && ts[0].Byte? then Some((ts[0].b, ts[1..])) else None
  }

  function ReadVector(ts: seq<Token>): Option<(Vector3, seq<Token>)> {
    if |ts| >= 3 && ts[0].Single? && ts[1].Single? && ts[2].Single? then
      Some((Vector3(ts[0].bits, ts[1].bits, ts[2].bits), ts[3..]))
    else None
  }

  /** A string's bytes up to the NUL that ends them. */
  function ReadNtString(ts: seq<Token>): Option<(string, seq<Token>)> {
    if |ts| >= 2 && ts[0].Utf8? && ts[1] == Byte(0) then Some((ts[0].s, ts[2..])) else None
  }

  // ---------------------------------------------------------------------------------------------
  // Properties

  /** The size of tokens written one after the other adds up. */
  lemma {:induction false} SizeAppend(ts: seq<Token>, us: seq<Token>)
    ensures Size(ts + us) == Size(ts) + Size(us)
    decreases |us|
  {
    if us != [] {
      var front := us[..|us| - 1];
      SizeAppend(ts, front);
      assert (ts + us)[..|ts + us| - 1] == ts + front;
    } else {
      assert ts + us == ts;
    }
  }

  /** A loop that writes `w` bytes per value writes `w` bytes times the number of values. */
  lemma {:induction false} RepeatSize<T>(xs: seq<T>, enc: T -> seq<Token>, w: nat)
    requires forall k :: 0 <= k < |xs| ==> Size(enc(xs[k])) == w
    ensures Size(Repeat(xs, enc)) == |xs| * w
  {
    if xs != [] {
      var front := xs[..|xs| - 1];
      assert forall k :: 0 <= k < |front| ==> front[k] == xs[k];
      RepeatSize(front, enc, w);
      SizeAppend(Repeat(front, enc), enc(xs[|xs| - 1]));
      assert Repeat(xs, enc) == Repeat(front, enc) + enc(xs[|xs| - 1]);
      MulSucc(|front|, w);
    }
  }

  lemma MulSucc(a: nat, w: nat)
    ensures (a + 1) * w == a * w + w
  {
  }

  /**
   * Values written by a loop are read back in order by a loop reading as many, each as what
   * the reader makes of it.
   */
  lemma {:induction false} RepeatReads<T, U>(xs: seq<T>, ys: seq<U>, enc: T -> seq<Token>,
                                             dec: seq<Token> -> Option<(U, seq<Token>)>, rest: seq<Token>)
    requires |xs| == |ys|
    requires forall k, r :: 0 <= k < |xs| ==> dec(enc(xs[k]) + r) == Some((ys[k], r))
    ensures ReadRepeat(Repeat(xs, enc) + rest, |xs|, dec) == Some((ys, rest))
  {
    if xs != [] {
      var front, yfront := xs[..|xs| - 1], ys[..|ys| - 1];
      var x := xs[|xs| - 1];
      assert forall k :: 0 <= k < |front| ==> front[k] == xs[k] && yfront[k] == ys[k];
      assert Repeat(xs, enc) + rest == Repeat(front, enc) + (enc(x) + rest);
      RepeatReads(front, yfront, enc, dec, enc(x) + rest);
      assert dec(enc(x) + rest) == Some((ys[|ys| - 1], rest));
      assert yfront + [ys[|ys| - 1]] == ys;
    } else {
      assert Repeat(xs, enc) + rest == rest;
    }
  }

  /** Values written by a loop are read back as themselves by a loop reading as many. */
  lemma RepeatRoundTrip<T>(xs: seq<T>, enc: T -> seq<Token>,
                           dec: seq<Token> -> Option<(T, seq<Token>)>, rest: seq<Token>)
    requires forall k, r :: 0 <= k < |xs| ==> dec(enc(xs[k]) + r) == Some((xs[k], r))
    ensures ReadRepeat(Repeat(xs, enc) + rest, |xs|, dec) == Some((xs, rest))
  {
    RepeatReads(xs, xs, enc, dec, rest);
  }

  lemma NtStringRoundTrip(s: string, rest: seq<Token>)
    ensures ReadNtString(NtString(s) + rest) == Some((s, rest))
  {
    assert (NtString(s) + rest)[2..] == rest;
  }

  /** Floats written one by one are read back one by one. */
  lemma SinglesRoundTrip(xs: seq<Float>, rest: seq<Token>)
    ensures ReadRepeat(Repeat(xs, SingleTokens) + rest, |xs|, ReadSingle) == Some((xs, rest))
  {
    forall k, r | 0 <= k < |xs|
      ensures ReadSingle(SingleTokens(xs[k]) + r) == Some((xs[k], r))
    {
      assert (SingleTokens(xs[k]) + r)[1..] == r;
    }
    RepeatRoundTrip(xs, SingleTokens, ReadSingle, rest);
  }

  /** Vectors written as x, y and z are read back as themselves. */
  lemma VectorsRoundTrip(vs: seq<Vector3>, rest: seq<Token>)
    ensures ReadRepeat(Repeat(vs, VectorTokens) + rest, |vs|, ReadVector) == Some((vs, rest))
  {
    forall k, r | 0 <= k < |vs|
      ensures ReadVector(VectorTokens(vs[k]) + r) == Some((vs[k], r))
    {
      assert (VectorTokens(vs[k]) + r)[3..] == r;
    }
    RepeatRoundTrip(vs, VectorTokens, ReadVector, rest);
  }

  /** Floats take four bytes each. */
  lemma {:induction false} SinglesSize(ts: seq<Token>)
    requires forall k :: 0 <= k < |ts| ==> ts[k].Single?
    ensures Size(ts) == 4 * |ts|
  {
    if ts != [] {
      SinglesSize(ts[..|ts| - 1]);
    }
  }

  /** Three tokens take the bytes of each. */
  lemma SizeOfThree(a: Token, b: Token, c: Token)
    ensures Size([a, b, c]) == Width(a) + Width(b) + Width(c)
  {
    assert [a][..0] == [];
    assert Size([a]) == Width(a);
    assert [a, b][..1] == [a];
    assert Size([a, b]) == Width(a) + Width(b);
    assert [a, b, c][..2] == [a, b];
  }

  /** Appending is associative: what is written after a prefix may be grouped either way. */
  lemma AppendAssoc<T>(xs: seq<T>, ys: seq<T>, zs: seq<T>)
    ensures xs + ys + zs == xs + (ys + zs)
  {
    forall i | 0 <= i < |xs| + |ys| + |zs|
      ensures (xs + ys + zs)[i] == (xs + (ys + zs))[i]
    {
    }
  }

  /** A slice of the second of two joined sequences. */
  lemma SliceOfSecond<T>(xs: seq<T>, ys: seq<T>, start: nat, n: nat)
    requires start + n <= |ys|
    ensures (xs + ys)[|xs| + start..|xs| + start + n] == ys[start..start + n]
  {
  }

  /** A slice of the first of two joined sequences. */
  lemma SliceOfFirst<T>(xs: seq<T>, ys: seq<T>, start: nat, n: nat)
    requires start + n <= |xs|
    ensures (xs + ys)[start..start + n] == xs[start..start + n]
  {
  }

  /** A loop over two lists one after the other writes what the two loops write. */
  lemma {:induction false} RepeatAppend<T>(xs: seq<T>, ys: seq<T>, enc: T -> seq<Token>)
    ensures Repeat(xs + ys, enc) == Repeat(xs, enc) + Repeat(ys, enc)
    decreases |ys|
  {
    if ys == [] {
      assert xs + ys == xs;
    } else {
      RepeatAppend(xs, ys[..|ys| - 1], enc);
      assert (xs + ys)[..|xs + ys| - 1] == xs + ys[..|ys| - 1];
    }
  }

  /** A read loop that failed after `m` values fails when asked for more. */
  lemma {:induction false} ReadRepeatFailsOnward<T>(ts: seq<Token>, m: nat, n: nat,
                                                   dec: seq<Token> -> Option<(T, seq<Token>)>)
    requires m <= n && ReadRepeat(ts, m, dec).None?
    ensures ReadRepeat(ts, n, dec).None?
    decreases n
  {
    if n > m {
      ReadRepeatFailsOnward(ts, m, n - 1, dec);
    }
  }

  /** The tokens of a loop around its value `k`. */
  lemma RepeatSplit<T>(xs: seq<T>, enc: T -> seq<Token>, rest: seq<Token>, k: nat)
    requires k < |xs|
    ensures Repeat(xs, enc) + rest == Repeat(xs[..k], enc) + (enc(xs[k]) + (Repeat(xs[k + 1..], enc) + rest))
  {
    var front, back := xs[..k], xs[k + 1..];
    SplitAt(xs, k);
    RepeatAppend(front, [xs[k]] + back, enc);
    RepeatCons(xs[k], back, enc);
  }

  lemma SplitAt<T>(xs: seq<T>, k: nat)
    requires k < |xs|
    ensures xs == xs[..k] + ([xs[k]] + xs[k + 1..])
  {
    assert xs[k..] == [xs[k]] + xs[k + 1..];
    assert xs == xs[..k] + xs[k..];
  }

  lemma RepeatCons<T>(x: T, ys: seq<T>, enc: T -> seq<Token>)
    ensures Repeat([x] + ys, enc) == enc(x) + Repeat(ys, enc)
  {
    RepeatAppend([x], ys, enc);
    assert Repeat([x], enc) == Repeat([], enc) + enc(x);
  }

  /** A value the reader cannot take back makes the read loop over all values fail. */
  lemma RepeatReadFails<T>(xs: seq<T>, enc: T -> seq<Token>, dec: seq<Token> -> Option<(T, seq<Token>)>,
                           rest: seq<Token>, k: nat)
    requires k < |xs|
    requires forall j, r :: 0 <= j < k ==> dec(enc(xs[j]) + r) == Some((xs[j], r))
    requires forall r :: dec(enc(xs[k]) + r).None?
    ensures ReadRepeat(Repeat(xs, enc) + rest, |xs|, dec).None?
  {
    var front := xs[..k];
    var after := Repeat(xs[k + 1..], enc) + rest;
    RepeatSplit(xs, enc, rest, k);
    var ts := Repeat(xs, enc) + rest;
    assert forall j :: 0 <= j < |front| ==> front[j] == xs[j];
    RepeatRoundTrip(front, enc, dec, enc(xs[k]) + after);
    assert ReadRepeat(ts, k + 1, dec).None?;
    ReadRepeatFailsOnward(ts, k + 1, |xs|, dec);
  }

  /** How a run of a converter ends: an exit code and the file it wrote, or an exception. */
  datatype Outcome = Exit(code: int, file: Option<seq<Token>>) | Crash

  /** The `BinaryWriter` the writers write to: the tokens written so far. */
  class BinaryWriter {
    var written: seq<Token>

    constructor ()
      ensures written == []
    {
      written := [];
    }

    method Write(t: Token)
      modifies this
      ensures written == old(written) + [t]
    {
      written := written + [t];
    }

    /** WriteNtString. */
    method WriteNtString(s: string)
      modifies this
      ensures written == old(written) + NtString(s)
    {
      Write(Utf8(s));
      Write(Byte(0));
    }
  }
}
