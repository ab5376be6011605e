/** Base64 (section 4 of RFC 4648) as the repository encodes and decodes it. */
module Base64 {
  import opened Common

  const PAD: Byte := 61 // '='

  /** The alphabet: A-Z, a-z, 0-9, '+', '/'. */
  function Table(n: Byte): Byte
    requires n < 64
  {
    if n < 26 then 65 + n else if n < 52 then 71 + n else if n < 62 then n - 4 else if n == 62 then 43 else 47
  }

  /** What initReverseTable stores: 64 for the padding and 255 for anything else outside the alphabet. */
  function Reverse(c: Byte): Byte {
    if 65 <= c <= 90 then c - 65
    else if 97 <= c <= 122 then c - 71
    else if 48 <= c <= 57 then c + 4
    else if c == 43 then 62
    else if c == 47 then 63
    else if c == PAD then 64
    else 255
  }

  lemma ReverseTable(n: Byte)
    requires n < 64
    ensures Reverse(Table(n)) == n && Table(n) < 128 && !Skipped(Table(n)) && Table(n) != PAD
  {
  }

  /** Eight consecutive entries of the table, as characters. */
  function Eight(n: Byte): string
    requires n <= 56
  {
    [Table(n) as char, Table(n + 1) as char, Table(n + 2) as char, Table(n + 3) as char,
     Table(n + 4) as char, Table(n + 5) as char, Table(n + 6) as char, Table(n + 7) as char]
  }

  /** The table holds the alphabet, character by character. */
  lemma TableIsAlphabet()
    ensures Eight(0) == "ABCDEFGH" && Eight(8) == "IJKLMNOP" && Eight(16) == "QRSTUVWX" && Eight(24) == "YZabcdef"
    ensures Eight(32) == "ghijklmn" && Eight(40) == "opqrstuv" && Eight(48) == "wxyz0123" && Eight(56) == "456789+/"
  {
  }

  /** strchr(skip_chars, c) for the default "\r\n": it also finds the terminating zero. */
  predicate Skipped(c: Byte) { c == 13 || c == 10 || c == 0 }

  // ---- encoding ----

  function N0(i0: Byte): Byte { (i0 >> 2) & 0x3f }
  function N1(i0: Byte, i1: Byte): Byte { ((i0 & 3) << 4) | ((i1 >> 4) & 0xf) }
  function N2(i1: Byte, i2: Byte): Byte { ((i1 & 0xf) << 2) | ((i2 >> 6) & 3) }
  function N3(i2: Byte): Byte { i2 & 0x3f }

  lemma SixBits(i0: Byte, i1: Byte, i2: Byte)
    ensures N0(i0) < 64 && N1(i0, i1) < 64 && N2(i1, i2) < 64 && N3(i2) < 64
  {
  }

  /** Four characters for up to three bytes. */
  function Block(x: Bytes): (b: Bytes)
    requires 1 <= |x| <= 3
    ensures |b| == 4
  {
    var i1, i2 := if |x| > 1 then x[1] else 0, if |x| > 2 then x[2] else 0;
    SixBits(x[0], i1, i2);
    [Table(N0(x[0])), Table(N1(x[0], i1)),
     if |x| > 1 then Table(N2(i1, i2)) else PAD, if |x| > 2 then Table(N3(i2)) else PAD]
  }

  function Encoded(x: Bytes): Bytes {
    if x == [] then [] else if |x| <= 3 then Block(x) else Block(x[..3]) + Encoded(x[3..])
  }

  function Rest(x: Bytes, i: nat): Bytes { if 3 * i < |x| then x[3 * i..] else [] }

  function Chunk(x: Bytes, i: nat): Bytes
    requires 3 * i < |x|
  {
    if 3 * i + 3 <= |x| then x[3 * i..3 * i + 3] else x[3 * i..]
  }

  lemma EncodedStep(x: Bytes, i: nat)
    requires 3 * i < |x|
    ensures Encoded(Rest(x, i)) == Block(Chunk(x, i)) + Encoded(Rest(x, i + 1))
  {
    hide Block;
    var rest := Rest(x, i);
    if |rest| <= 3 {
      assert rest == Chunk(x, i);
    } else {
      assert rest[..3] == Chunk(x, i) && rest[3..] == Rest(x, i + 1);
    }
  }

  method Encode(input: Bytes) returns (r: Bytes)
    ensures r == Encoded(input)
  {
    hide Block, Encoded;
    var blockCount := (|input| + 2) / 3;
    var outp := new Byte[blockCount * 4];
    assert Rest(input, 0) == input;
    for i := 0 to blockCount
      invariant outp[..4 * i] + Encoded(Rest(input, i)) == Encoded(input)
    {
      ghost var before := outp[..4 * i];
      EncodedStep(input, i);
      EncodeBlock(Chunk(input, i), outp, 4 * i);
      assert outp[..4 * i + 4] == before + Block(Chunk(input, i));
      Regrouped(before, Block(Chunk(input, i)), Encoded(Rest(input, i + 1)));
    }
    EncodedNothing();
    r := outp[..];
  }

  lemma Regrouped(a: Bytes, b: Bytes, c: Bytes)
    ensures (a + b) + c == a + (b + c)
  {
  }

  lemma EncodedNothing()
    ensures Encoded([]) == []
  {
  }

  /** One turn of the encoding loop. */
  method EncodeBlock(x: Bytes, outp: array<Byte>, at: nat)
    requires 1 <= |x| <= 3 && at + 4 <= outp.Length
    modifies outp
    ensures outp[..at] == old(outp[..at]) && outp[at..at + 4] == Block(x)
  {
    var i0 := x[0];
    var i1 := if |x| > 1 then x[1] else 0;
    var i2 := if |x| > 2 then x[2] else 0;
    SixBits(i0, i1, i2);
    var n0, n1, n2, n3 := N0(i0), N1(i0, i1), N2(i1, i2), N3(i2);
    outp[at] := Table(n0);
    outp[at + 1] := Table(n1);
    outp[at + 2] := if |x| > 1 then Table(n2) else PAD;
    outp[at + 3] := if |x| > 2 then Table(n3) else PAD;
  }

  // ---- the bits of an encoding ----

  function ByteBits(b: Byte): seq<bool> {
    [b & 128 != 0, b & 64 != 0, b & 32 != 0, b & 16 != 0, b & 8 != 0, b & 4 != 0, b & 2 != 0, b & 1 != 0]
  }

  function SextetBits(b: Byte): seq<bool> {
    [b & 32 != 0, b & 16 != 0, b & 8 != 0, b & 4 != 0, b & 2 != 0, b & 1 != 0]
  }

  /** The bits of some bytes, the highest of each first. */
  function InputBits(x: Bytes): seq<bool> {
    if x == [] then [] else ByteBits(x[0]) + InputBits(x[1..])
  }

  /** Six bits for every character but the padding: its place in the alphabet. */
  function OutputBits(e: Bytes): seq<bool> {
    if e == [] then [] else (if e[0] == PAD then [] else SextetBits(Reverse(e[0]))) + OutputBits(e[1..])
  }

  /** Fills up to a whole number of six-bit groups. */
  function Filling(n: nat): seq<bool> {
    if n % 3 == 0 then [] else if n % 3 == 1 then [false, false, false, false] else [false, false]
  }

  lemma First(i0: Byte)
    ensures SextetBits(N0(i0)) == ByteBits(i0)[..6]
  {
    var n := N0(i0);
    assert (n & 32 != 0) == (i0 & 128 != 0) && (n & 16 != 0) == (i0 & 64 != 0) && (n & 8 != 0) == (i0 & 32 != 0);
    assert (n & 4 != 0) == (i0 & 16 != 0) && (n & 2 != 0) == (i0 & 8 != 0) && (n & 1 != 0) == (i0 & 4 != 0);
  }

  lemma SplitBits(b: Byte)
    ensures ByteBits(b)[6..] == [b & 2 != 0, b & 1 != 0]
    ensures ByteBits(b)[4..] == [b & 8 != 0, b & 4 != 0, b & 2 != 0, b & 1 != 0]
    ensures ByteBits(b)[..4] == [b & 128 != 0, b & 64 != 0, b & 32 != 0, b & 16 != 0]
    ensures ByteBits(b)[..2] == [b & 128 != 0, b & 64 != 0]
  {
  }

  lemma TwoAndFour(a: bool, b: bool, c: bool, d: bool, e: bool, f: bool)
    ensures [a, b] + [c, d, e, f] == [a, b, c, d, e, f]
  {
  }

  lemma FourAndTwo(a: bool, b: bool, c: bool, d: bool, e: bool, f: bool)
    ensures [a, b, c, d] + [e, f] == [a, b, c, d, e, f]
  {
  }

  lemma SecondBits(i0: Byte, i1: Byte, n: Byte)
    requires n == N1(i0, i1)
    ensures (n & 32 != 0) == (i0 & 2 != 0) && (n & 16 != 0) == (i0 & 1 != 0) && (n & 8 != 0) == (i1 & 128 != 0)
    ensures (n & 4 != 0) == (i1 & 64 != 0) && (n & 2 != 0) == (i1 & 32 != 0) && (n & 1 != 0) == (i1 & 16 != 0)
  {
  }

  lemma Second(i0: Byte, i1: Byte)
    ensures SextetBits(N1(i0, i1)) == ByteBits(i0)[6..] + ByteBits(i1)[..4]
  {
    SecondBits(i0, i1, N1(i0, i1));
    hide N1;
    SplitBits(i0);
    SplitBits(i1);
    hide ByteBits;
    TwoAndFour(i0 & 2 != 0, i0 & 1 != 0, i1 & 128 != 0, i1 & 64 != 0, i1 & 32 != 0, i1 & 16 != 0);
  }

  lemma ThirdBits(i1: Byte, i2: Byte, n: Byte)
    requires n == N2(i1, i2)
    ensures (n & 32 != 0) == (i1 & 8 != 0) && (n & 16 != 0) == (i1 & 4 != 0) && (n & 8 != 0) == (i1 & 2 != 0)
    ensures (n & 4 != 0) == (i1 & 1 != 0) && (n & 2 != 0) == (i2 & 128 != 0) && (n & 1 != 0) == (i2 & 64 != 0)
  {
  }

  lemma Third(i1: Byte, i2: Byte)
    ensures SextetBits(N2(i1, i2)) == ByteBits(i1)[4..] + ByteBits(i2)[..2]
  {
    ThirdBits(i1, i2, N2(i1, i2));
    hide N2;
    SplitBits(i1);
    SplitBits(i2);
    hide ByteBits;
    FourAndTwo(i1 & 8 != 0, i1 & 4 != 0, i1 & 2 != 0, i1 & 1 != 0, i2 & 128 != 0, i2 & 64 != 0);
  }

  lemma Fourth(i2: Byte)
    ensures SextetBits(N3(i2)) == ByteBits(i2)[2..]
  {
    var n := N3(i2);
    assert (n & 32 != 0) == (i2 & 32 != 0) && (n & 16 != 0) == (i2 & 16 != 0) && (n & 8 != 0) == (i2 & 8 != 0);
    assert (n & 4 != 0) == (i2 & 4 != 0) && (n & 2 != 0) == (i2 & 2 != 0) && (n & 1 != 0) == (i2 & 1 != 0);
  }

  lemma {:induction false} OutputConcat(a: Bytes, b: Bytes)
    ensures OutputBits(a + b) == OutputBits(a) + OutputBits(b)
  {
    hide Reverse, SextetBits;
    if a == [] {
      assert a + b == b;
    } else {
      assert (a + b)[1..] == a[1..] + b;
      OutputConcat(a[1..], b);
    }
  }

  lemma {:induction false} InputConcat(a: Bytes, b: Bytes)
    ensures InputBits(a + b) == InputBits(a) + InputBits(b)
  {
    hide ByteBits;
    if a == [] {
      assert a + b == b;
    } else {
      assert (a + b)[1..] == a[1..] + b;
      InputConcat(a[1..], b);
    }
  }

  lemma OutputOne(c: Byte)
    ensures OutputBits([c]) == if c == PAD then [] else SextetBits(Reverse(c))
  {
    hide Reverse, SextetBits;
    assert [c][1..] == [];
  }

  lemma InputOne(b: Byte)
    ensures InputBits([b]) == ByteBits(b)
  {
    hide ByteBits;
    assert [b][1..] == [];
  }

  lemma ZeroBits()
    ensures |ByteBits(0)| == 8 && ByteBits(0)[..4] == Filling(1) && ByteBits(0)[..2] == Filling(2)
  {
  }

  lemma OutputOfFour(b: Bytes)
    requires |b| == 4
    ensures OutputBits(b) == OutputBits([b[0]]) + (OutputBits([b[1]]) + (OutputBits([b[2]]) + OutputBits([b[3]])))
  {
    assert b == [b[0]] + ([b[1]] + ([b[2]] + [b[3]]));
    OutputConcat([b[2]], [b[3]]);
    OutputConcat([b[1]], [b[2]] + [b[3]]);
    OutputConcat([b[0]], [b[1]] + ([b[2]] + [b[3]]));
  }

  lemma InputOf(x: Bytes)
    requires 1 <= |x| <= 3
    ensures InputBits(x) == ByteBits(x[0]) + (if |x| > 1 then ByteBits(x[1]) else [])
                            + if |x| > 2 then ByteBits(x[2]) else []
  {
    hide ByteBits;
    InputOne(x[0]);
    if |x| == 1 {
      assert x == [x[0]];
    } else {
      InputOne(x[1]);
      InputConcat([x[0]], [x[1]]);
      if |x| == 2 {
        assert x == [x[0]] + [x[1]];
      } else {
        InputOne(x[2]);
        InputConcat([x[0]] + [x[1]], [x[2]]);
        assert x == [x[0]] + [x[1]] + [x[2]];
      }
    }
  }

  // ---- decoding ----

  /** `Undefined` stands for a read outside the input or the reverse table. */
  datatype Outcome = Decoded(bytes: Bytes) | InvalidCharacter | InvalidPadding | UnexpectedEnd | Undefined

  datatype Symbol = Got(value: Byte, rest: Bytes) | Failed(error: Outcome)

  /** The next character that is not skipped; running out of input while skipping is an error, and
      starting past the end reads out of bounds. */
  function NextSymbol(s: Bytes): (r: Symbol)
    ensures r.Got? ==> |r.rest| < |s|
    ensures r.Failed? ==> !r.error.Decoded?
  {
    if s == [] || s[0] >= 128 then Failed(Undefined)
    else if Reverse(s[0]) != 255 then Got(Reverse(s[0]), s[1..])
    else if !Skipped(s[0]) then Failed(InvalidCharacter)
    else if |s| == 1 then Failed(UnexpectedEnd)
    else NextSymbol(s[1..])
  }

  function Out(i0: Byte, i1: Byte, i2: Byte, i3: Byte): Bytes {
    [(i0 << 2) | ((i1 >> 4) & 3)]
    + (if i2 != 64 then [((i1 & 0xf) << 4) | ((i2 >> 2) & 0xf)] else [])
    + (if i2 != 64 && i3 != 64 then [((i2 & 3) << 6) | i3] else [])
  }

  datatype Group = Four(out: Bytes, rest: Bytes) | Bad(error: Outcome)

  /** The rest of a group of four characters, given the values read so far: no padding before the
      third, and nothing but padding after it. */
  function GroupFrom(i: Bytes, s: Bytes): (g: Group)
    requires |i| <= 4
    ensures g.Four? && |i| < 4 ==> |g.rest| < |s|
    ensures g.Bad? ==> !g.error.Decoded?
    decreases 4 - |i|
  {
    if |i| == 4 then Four(Out(i[0], i[1], i[2], i[3]), s)
    else
      var r := NextSymbol(s);
      if r.Failed? then Bad(r.error)
      else if (r.value == 64 && |i| < 2) || (|i| == 3 && i[2] == 64 && r.value != 64) then Bad(InvalidPadding)
      else GroupFrom(i + [r.value], r.rest)
  }

  function NextGroup(s: Bytes): (g: Group)
    ensures g.Four? ==> |g.rest| < |s|
    ensures g.Bad? ==> !g.error.Decoded?
  {
    GroupFrom([], s)
  }

  function Prepend(x: Bytes, o: Outcome): Outcome {
    if o.Decoded? then Decoded(x + o.bytes) else o
  }

  function DecodedFrom(s: Bytes): Outcome
    decreases |s|
  {
    if s == [] then Decoded([])
    else
      var g := NextGroup(s);
      if g.Bad? then g.error else Prepend(g.out, DecodedFrom(g.rest))
  }

  // ---- decoding inverts encoding ----

  /** `s` is `e` with skipped characters inserted before some of its characters, followed by `tail`. */
  ghost predicate Spaced(e: Bytes, s: Bytes, tail: Bytes)
    decreases |s|
  {
    if e == [] then s == tail
    else s != [] && (if Skipped(s[0]) then Spaced(e, s[1..], tail) else s[0] == e[0] && Spaced(e[1..], s[1..], tail))
  }

  lemma {:induction false} SpacedSymbol(e: Bytes, s: Bytes, tail: Bytes)
    requires Spaced(e, s, tail) && e != [] && e[0] < 128 && !Skipped(e[0]) && Reverse(e[0]) != 255
    ensures var r := NextSymbol(s); r.Got? && r.value == Reverse(e[0]) && Spaced(e[1..], r.rest, tail)
    decreases |s|
  {
    if Skipped(s[0]) {
      SpacedSymbol(e, s[1..], tail);
    }
  }

  /** The values that the four characters of a block stand for. */
  lemma BlockValues(x: Bytes)
    requires 1 <= |x| <= 3
    ensures forall k :: 0 <= k < 4 ==> Block(x)[k] < 128 && !Skipped(Block(x)[k]) && Reverse(Block(x)[k]) != 255
    ensures Reverse(Block(x)[0]) != 64 && Reverse(Block(x)[1]) != 64
    ensures Reverse(Block(x)[2]) == 64 ==> Reverse(Block(x)[3]) == 64
    ensures Out(Reverse(Block(x)[0]), Reverse(Block(x)[1]), Reverse(Block(x)[2]), Reverse(Block(x)[3])) == x
  {
    BlockSymbols(x);
    BlockOut(x);
  }

  lemma BlockSymbols(x: Bytes)
    requires 1 <= |x| <= 3
    ensures forall k :: 0 <= k < 4 ==> Block(x)[k] < 128 && !Skipped(Block(x)[k]) && Reverse(Block(x)[k]) != 255
  {
    BlockTable(x);
    PadValue();
    hide Table, Reverse, Skipped, N0, N1, N2, N3;
  }

  lemma BlockOut(x: Bytes)
    requires 1 <= |x| <= 3
    ensures Reverse(Block(x)[0]) != 64 && Reverse(Block(x)[1]) != 64
    ensures Reverse(Block(x)[2]) == 64 ==> Reverse(Block(x)[3]) == 64
    ensures Out(Reverse(Block(x)[0]), Reverse(Block(x)[1]), Reverse(Block(x)[2]), Reverse(Block(x)[3])) == x
  {
    BlockRead(x);
    OutOf(x);
    hide Block, Reverse, Out, N0, N1, N2, N3;
  }

  /** The third and fourth values of a block. */
  function V2(x: Bytes): Byte
    requires 1 <= |x| <= 3
  {
    if |x| > 1 then N2(x[1], if |x| > 2 then x[2] else 0) else 64
  }

  function V3(x: Bytes): Byte
    requires 1 <= |x| <= 3
  {
    if |x| > 2 then N3(x[2]) else 64
  }

  lemma BlockRead(x: Bytes)
    requires 1 <= |x| <= 3
    ensures N0(x[0]) < 64 && N1(x[0], if |x| > 1 then x[1] else 0) < 64 && (|x| > 1 ==> V2(x) < 64)
            && (|x| > 2 ==> V3(x) < 64)
    ensures Reverse(Block(x)[0]) == N0(x[0]) && Reverse(Block(x)[1]) == N1(x[0], if |x| > 1 then x[1] else 0)
    ensures Reverse(Block(x)[2]) == V2(x) && Reverse(Block(x)[3]) == V3(x)
  {
    BlockTable(x);
    PadValue();
    hide Table, Reverse, Skipped, N0, N1, N2, N3;
  }

  lemma OutOf(x: Bytes)
    requires 1 <= |x| <= 3
    ensures Out(N0(x[0]), N1(x[0], if |x| > 1 then x[1] else 0), V2(x), V3(x)) == x
  {
    hide Out, N0, N1, N2, N3;
    if |x| == 1 {
      OutOne(x[0]);
      assert x == [x[0]];
    } else if |x| == 2 {
      OutTwo(x[0], x[1]);
      assert x == [x[0], x[1]];
    } else {
      OutThree(x[0], x[1], x[2]);
      assert x == [x[0], x[1], x[2]];
    }
  }

  lemma OutOne(i0: Byte)
    ensures Out(N0(i0), N1(i0, 0), 64, 64) == [i0]
  {
    Joined(i0, 0, 0);
    hide N0, N1;
  }

  lemma OutTwo(i0: Byte, i1: Byte)
    ensures Out(N0(i0), N1(i0, i1), N2(i1, 0), 64) == [i0, i1]
  {
    Joined(i0, i1, 0);
    SixBits(i0, i1, 0);
    hide N0, N1, N2;
  }

  lemma OutThree(i0: Byte, i1: Byte, i2: Byte)
    ensures Out(N0(i0), N1(i0, i1), N2(i1, i2), N3(i2)) == [i0, i1, i2]
  {
    Joined(i0, i1, i2);
    SixBits(i0, i1, i2);
    hide N0, N1, N2, N3;
  }

  /** The alphabet's characters for the four parts of a block are read back as those parts. */
  lemma BlockTable(x: Bytes)
    requires 1 <= |x| <= 3
    ensures var i0, i1, i2 := x[0], if |x| > 1 then x[1] else 0, if |x| > 2 then x[2] else 0;
            N0(i0) < 64 && N1(i0, i1) < 64 && N2(i1, i2) < 64 && N3(i2) < 64
            && ReadBack(N0(i0)) && ReadBack(N1(i0, i1)) && ReadBack(N2(i1, i2)) && ReadBack(N3(i2))
  {
    var i0, i1, i2 := x[0], if |x| > 1 then x[1] else 0, if |x| > 2 then x[2] else 0;
    SixBits(i0, i1, i2);
    ReverseTable(N0(i0));
    ReverseTable(N1(i0, i1));
    ReverseTable(N2(i1, i2));
    ReverseTable(N3(i2));
    hide Table, Reverse, Skipped, N0, N1, N2, N3;
  }

  predicate ReadBack(n: Byte)
    requires n < 64
  {
    Reverse(Table(n)) == n && Table(n) < 128 && !Skipped(Table(n))
  }

  lemma PadValue()
    ensures Reverse(PAD) == 64 && PAD < 128 && !Skipped(PAD)
  {
  }

  lemma Joined(i0: Byte, i1: Byte, i2: Byte)
    ensures (N0(i0) << 2) | ((N1(i0, i1) >> 4) & 3) == i0
    ensures ((N1(i0, i1) & 0xf) << 4) | ((N2(i1, i2) >> 2) & 0xf) == i1
    ensures ((N2(i1, i2) & 3) << 6) | N3(i2) == i2
  {
  }

  lemma BlockBits(x: Bytes)
    requires 1 <= |x| <= 3
    ensures OutputBits(Block(x)) == InputBits(x) + Filling(|x|)
  {
    hide *;
    var i1, i2 := if |x| > 1 then x[1] else 0, if |x| > 2 then x[2] else 0;
    BlockSextets(x, i1, i2);
    InputOf(x);
    ZeroBits();
    ByteLength(x[0]);
    ByteLength(i1);
    ByteLength(i2);
    Sliced(ByteBits(x[0]), ByteBits(i1), ByteBits(i2), |x|);
  }

  lemma ByteLength(b: Byte)
    ensures |ByteBits(b)| == 8
  {
  }

  lemma BlockSextets(x: Bytes, i1: Byte, i2: Byte)
    requires 1 <= |x| <= 3 && i1 == (if |x| > 1 then x[1] else 0) && i2 == if |x| > 2 then x[2] else 0
    ensures |ByteBits(x[0])| == |ByteBits(i1)| == |ByteBits(i2)| == 8
    ensures OutputBits(Block(x)) == Grouped(ByteBits(x[0]), ByteBits(i1), ByteBits(i2), |x|)
  {
    BlockRead(x);
    BlockPads(x);
    hide Block, Table, Reverse, N0, N1, N2, N3, SextetBits, OutputBits;
    OutputOfFour(Block(x));
    OutputOne(Block(x)[0]);
    OutputOne(Block(x)[1]);
    OutputOne(Block(x)[2]);
    OutputOne(Block(x)[3]);
    ByteLength(x[0]);
    ByteLength(i1);
    ByteLength(i2);
    hide ByteBits;
    First(x[0]);
    Second(x[0], i1);
    Third(i1, i2);
    Fourth(i2);
  }

  /** The bits of up to three bytes, regrouped by six. */
  function Grouped(a: seq<bool>, b: seq<bool>, c: seq<bool>, n: nat): seq<bool>
    requires |a| == |b| == |c| == 8
  {
    a[..6] + ((a[6..] + b[..4]) + ((if n > 1 then b[4..] + c[..2] else []) + if n > 2 then c[2..] else []))
  }

  /** Which characters of a block are padding. */
  lemma BlockPads(x: Bytes)
    requires 1 <= |x| <= 3
    ensures Block(x)[0] != PAD && Block(x)[1] != PAD
    ensures (Block(x)[2] == PAD <==> |x| == 1) && (Block(x)[3] == PAD <==> |x| < 3)
  {
    BlockRead(x);
    PadValue();
    hide Reverse, Table, N0, N1, N2, N3;
  }

  lemma Sliced(a: seq<bool>, b: seq<bool>, c: seq<bool>, n: nat)
    requires |a| == |b| == |c| == 8 && 1 <= n <= 3
    requires (n == 1 ==> b[..4] == Filling(1)) && (n == 2 ==> c[..2] == Filling(2))
    ensures Grouped(a, b, c, n) == a + (if n > 1 then b else []) + (if n > 2 then c else []) + Filling(n)
  {
  }

  /** The six bits of each character, in order, are the bits of the input, with zeroes up to the next multiple of
      six; the padding makes the length a multiple of four. */
  lemma {:induction false} EncodedBits(x: Bytes)
    ensures OutputBits(Encoded(x)) == InputBits(x) + Filling(|x|)
    ensures |Encoded(x)| == (|x| + 2) / 3 * 4
    decreases |x|
  {
    hide Block, OutputBits, InputBits;
    if x == [] {
      NoBits();
    } else if |x| <= 3 {
      BlockBits(x);
    } else {
      BlockBits(x[..3]);
      EncodedBits(x[3..]);
      OutputConcat(Block(x[..3]), Encoded(x[3..]));
      InputConcat(x[..3], x[3..]);
      assert x[..3] + x[3..] == x;
      hide *;
      FillingRest(|x|);
      assert |Encoded(x)| == 4 + (|x| - 3 + 2) / 3 * 4;
      Associates(InputBits(x[..3]), InputBits(x[3..]), Filling(|x|));
    }
  }

  lemma NoBits()
    ensures OutputBits([]) == [] && InputBits([]) == []
  {
  }

  lemma FillingRest(n: nat)
    requires n > 3
    ensures Filling(3) == [] && Filling(n) == Filling(n - 3)
  {
  }

  lemma Associates(a: seq<bool>, b: seq<bool>, c: seq<bool>)
    ensures (a + []) + (b + c) == (a + b) + c
  {
  }

  /** One more character of a group. */
  lemma SpacedStep(i: Bytes, c: Byte, e: Bytes, s: Bytes, tail: Bytes) returns (rest: Bytes)
    requires |i| < 4 && Spaced([c] + e, s, tail) && c < 128 && !Skipped(c) && Reverse(c) != 255
    requires Reverse(c) == 64 ==> |i| >= 2
    requires |i| == 3 && i[2] == 64 ==> Reverse(c) == 64
    ensures GroupFrom(i, s) == GroupFrom(i + [Reverse(c)], rest) && Spaced(e, rest, tail)
  {
    hide Reverse, Skipped, Spaced, NextSymbol, Out;
    assert ([c] + e)[0] == c && ([c] + e)[1..] == e;
    SpacedSymbol([c] + e, s, tail);
    rest := NextSymbol(s).rest;
  }

  lemma SpacedBlock(x: Bytes, e: Bytes, s: Bytes, tail: Bytes)
    requires 1 <= |x| <= 3 && Spaced(Block(x) + e, s, tail)
    ensures var g := NextGroup(s); g.Four? && g.out == x && Spaced(e, g.rest, tail)
  {
    hide Block, Out, Reverse, Skipped, Spaced, NextSymbol, GroupFrom;
    BlockValues(x);
    FourThen(Block(x), e);
    var c0, c1, c2, c3 := Block(x)[0], Block(x)[1], Block(x)[2], Block(x)[3];
    var v0, v1, v2, v3 := Reverse(c0), Reverse(c1), Reverse(c2), Reverse(c3);
    var s1 := SpacedStep([], c0, [c1] + ([c2] + ([c3] + e)), s, tail);
    var s2 := SpacedStep([v0], c1, [c2] + ([c3] + e), s1, tail);
    var s3 := SpacedStep([v0, v1], c2, [c3] + e, s2, tail);
    var s4 := SpacedStep([v0, v1, v2], c3, e, s3, tail);
    ListsOf(v0, v1, v2);
    GroupDone(v0, v1, v2, v3, s4);
  }

  lemma FourThen(b: Bytes, e: Bytes)
    requires |b| == 4
    ensures b + e == [b[0]] + ([b[1]] + ([b[2]] + ([b[3]] + e)))
  {
  }

  lemma ListsOf(v0: Byte, v1: Byte, v2: Byte)
    ensures [] + [v0] == [v0] && [v0] + [v1] == [v0, v1] && [v0, v1] + [v2] == [v0, v1, v2]
  {
  }

  lemma GroupDone(v0: Byte, v1: Byte, v2: Byte, v3: Byte, s: Bytes)
    ensures GroupFrom([v0, v1, v2] + [v3], s) == Four(Out(v0, v1, v2, v3), s)
  {
  }

  /** Decoding an encoding with line breaks before any of its characters yields the encoded bytes,
      followed by whatever the rest decodes to. */
  lemma {:induction false} DecodesSpaced(x: Bytes, s: Bytes, tail: Bytes)
    requires Spaced(Encoded(x), s, tail)
    ensures DecodedFrom(s) == Prepend(x, DecodedFrom(tail))
    decreases |x|
  {
    hide Block, Encoded, NextGroup, Spaced;
    if x == [] {
      EncodedNothing();
      SpacedNothing(s, tail);
      assert DecodedFrom(tail).Decoded? ==> [] + DecodedFrom(tail).bytes == DecodedFrom(tail).bytes;
    } else {
      var k := if |x| <= 3 then |x| else 3;
      FirstBlock(x, k);
      SpacedBlock(x[..k], Encoded(x[k..]), s, tail);
      var g := NextGroup(s);
      DecodesSpaced(x[k..], g.rest, tail);
      assert DecodedFrom(s) == Prepend(x[..k], DecodedFrom(g.rest));
      if DecodedFrom(tail).Decoded? {
        assert x[..k] + (x[k..] + DecodedFrom(tail).bytes) == x + DecodedFrom(tail).bytes;
      }
    }
  }

  lemma FirstBlock(x: Bytes, k: nat)
    requires x != [] && k == if |x| <= 3 then |x| else 3
    ensures Encoded(x) == Block(x[..k]) + Encoded(x[k..])
  {
    hide Block;
    if |x| <= 3 { assert x[..k] == x && x[k..] == []; }
  }

  lemma SpacedNothing(s: Bytes, tail: Bytes)
    ensures Spaced([], s, tail) <==> s == tail
  {
  }

  lemma {:induction false} SpacedSelf(e: Bytes, tail: Bytes)
    requires forall i :: 0 <= i < |e| ==> !Skipped(e[i])
    ensures Spaced(e, e + tail, tail)
  {
    if e == [] {
      assert e + tail == tail;
    } else {
      assert (e + tail)[1..] == e[1..] + tail;
      SpacedSelf(e[1..], tail);
    }
  }

  lemma {:induction false} EncodedNotSkipped(x: Bytes)
    ensures forall i :: 0 <= i < |Encoded(x)| ==> !Skipped(Encoded(x)[i])
    decreases |x|
  {
    if x == [] {
    } else {
      var k := if |x| <= 3 then |x| else 3;
      BlockValues(x[..k]);
      hide Block;
      if |x| <= 3 {
        assert x[..k] == x;
      } else {
        EncodedNotSkipped(x[3..]);
      }
    }
  }

  /** decode(encode(x)) == x, and decode(encode(x) + encode(y)) == x + y. */
  lemma RoundTrip(x: Bytes, y: Bytes)
    ensures DecodedFrom(Encoded(x)) == Decoded(x)
    ensures DecodedFrom(Encoded(x) + Encoded(y)) == Decoded(x + y)
  {
    hide Encoded;
    EncodedNotSkipped(x);
    EncodedNotSkipped(y);
    SpacedSelf(Encoded(x), []);
    DecodesSpaced(x, Encoded(x) + [], []);
    assert Encoded(x) + [] == Encoded(x) && x + [] == x;
    SpacedSelf(Encoded(y), []);
    DecodesSpaced(y, Encoded(y) + [], []);
    assert Encoded(y) + [] == Encoded(y) && y + [] == y;
    SpacedSelf(Encoded(x), Encoded(y));
    DecodesSpaced(x, Encoded(x) + Encoded(y), Encoded(y));
  }

  /** Line breaks may stand before any character, but not at the end: then decoding fails, always with
      the same error. */
  lemma TrailingBreaks(x: Bytes, s: Bytes, tail: Bytes)
    requires Spaced(Encoded(x), s, tail) && forall i :: 0 <= i < |tail| ==> Skipped(tail[i])
    ensures DecodedFrom(s) == if tail == [] then Decoded(x) else UnexpectedEnd
  {
    hide Encoded, Spaced;
    DecodesSpaced(x, s, tail);
    if tail == [] {
      assert x + [] == x;
    } else {
      OnlyBreaks(tail);
    }
  }

  lemma {:induction false} OnlyBreaks(s: Bytes)
    requires s != [] && forall i :: 0 <= i < |s| ==> Skipped(s[i])
    ensures NextSymbol(s) == Failed(UnexpectedEnd)
  {
    assert Skipped(s[0]);
    if |s| > 1 {
      OnlyBreaks(s[1..]);
    }
  }

  // ---- exactly which inputs decode ----

  /** The characters that are not skipped. */
  function Kept(s: Bytes): Bytes {
    if s == [] then [] else (if Skipped(s[0]) then [] else [s[0]]) + Kept(s[1..])
  }

  predicate Readable(c: Byte) { Skipped(c) || (c < 128 && Reverse(c) != 255) }

  ghost predicate AllReadable(s: Bytes) { forall i :: 0 <= i < |s| ==> Readable(s[i]) }

  /** Groups of four: no padding before the third character, nothing but padding after it. */
  predicate InGroups(k: Bytes) {
    k == [] || (|k| >= 4 && k[0] != PAD && k[1] != PAD && (k[2] == PAD ==> k[3] == PAD) && InGroups(k[4..]))
  }

  /** The input has only characters that may occur, in groups of four, and does not end in a skipped one. */
  ghost predicate Decodable(s: Bytes) {
    AllReadable(s) && InGroups(Kept(s)) && (s == [] || !Skipped(s[|s| - 1]))
  }

  /** Reading one character keeps apart what is read and what is left. */
  lemma {:induction false} SymbolReads(s: Bytes)
    ensures var r := NextSymbol(s);
            if r.Got? then
              Kept(s) != [] && r.value == Reverse(Kept(s)[0]) != 255 && Kept(s)[1..] == Kept(r.rest)
              && (AllReadable(s) <==> AllReadable(r.rest)) && s != [] && !Skipped(Kept(s)[0])
              && (r.rest == [] ==> !Skipped(s[|s| - 1])) && (r.rest != [] ==> s[|s| - 1] == r.rest[|r.rest| - 1])
            else !AllReadable(s) || Kept(s) == []
  {
    if s == [] {
    } else {
      SkippedHasNoValue(s[0]);
      FirstKept(s);
      hide Reverse, Skipped, Kept, AllReadable, Readable;
      if Skipped(s[0]) && |s| > 1 { SymbolReads(s[1..]); }
    }
  }

  lemma FirstKept(s: Bytes)
    requires s != []
    ensures Kept(s) == if Skipped(s[0]) then Kept(s[1..]) else [s[0]] + Kept(s[1..])
    ensures AllReadable(s) <==> (Skipped(s[0]) || (s[0] < 128 && Reverse(s[0]) != 255)) && AllReadable(s[1..])
    ensures |s| == 1 ==> Kept(s[1..]) == []
  {
    hide Reverse, Skipped;
    assert s == [s[0]] + s[1..];
  }

  lemma SkippedHasNoValue(c: Byte)
    ensures Skipped(c) ==> c < 128 && Reverse(c) == 255
  {
  }

  function Values(k: Bytes): (v: Bytes)
    ensures |v| == |k| && forall i :: 0 <= i < |k| ==> v[i] == Reverse(k[i])
  {
    seq(|k|, i requires 0 <= i < |k| => Reverse(k[i]))
  }

  /** The values `i` so far and the characters `k` make a group. */
  predicate Completes(i: Bytes, k: Bytes)
    requires |i| + |k| == 4
  {
    var v := i + Values(k);
    v[0] != 64 && v[1] != 64 && (v[2] == 64 ==> v[3] == 64)
  }

  /** The end of `s` is the end of `rest`, or not skipped. */
  ghost predicate SameEnd(s: Bytes, rest: Bytes) {
    s != [] && (rest == [] ==> !Skipped(s[|s| - 1])) && (rest != [] ==> s[|s| - 1] == rest[|rest| - 1])
  }

  /** What was read of `s`: a group is there exactly if there are enough characters and they make one. */
  ghost predicate ReadsAs(i: Bytes, s: Bytes, g: Group)
    requires |i| <= 4
  {
    var n := 4 - |i|;
    if g.Four? then
      |Kept(s)| >= n && Completes(i, Kept(s)[..n]) && Kept(s)[n..] == Kept(g.rest)
      && (AllReadable(s) <==> AllReadable(g.rest))
    else !AllReadable(s) || |Kept(s)| < n || !Completes(i, Kept(s)[..n])
  }

  /** One character was read before the rest of the group. */
  lemma ReadsOneMore(i: Bytes, s: Bytes, value: Byte, rest: Bytes, g: Group)
    requires |i| < 4 && Kept(s) != [] && value == Reverse(Kept(s)[0]) && Kept(s)[1..] == Kept(rest)
    requires (AllReadable(s) <==> AllReadable(rest)) && ReadsAs(i + [value], rest, g)
    ensures ReadsAs(i, s, g)
  {
    hide Kept, AllReadable, Completes, Reverse;
    if |Kept(s)| >= 4 - |i| { Regrouping(i, Kept(s), 4 - |i|); }
  }

  lemma ReadsNothing(i: Bytes, s: Bytes)
    requires |i| == 4 && i[0] != 64 && i[1] != 64 && (i[2] == 64 ==> i[3] == 64)
    ensures ReadsAs(i, s, GroupFrom(i, s))
  {
    hide Kept, AllReadable, Reverse, Out;
    assert i + Values(Kept(s)[..0]) == i;
  }

  lemma {:induction false} GroupReads(i: Bytes, s: Bytes)
    requires |i| < 4 && (|i| > 0 ==> i[0] != 64) && (|i| > 1 ==> i[1] != 64)
    ensures ReadsAs(i, s, GroupFrom(i, s))
    ensures GroupFrom(i, s).Four? ==> SameEnd(s, GroupFrom(i, s).rest)
    decreases 4 - |i|
  {
    SymbolReads(s);
    var r := NextSymbol(s);
    hide NextSymbol, Kept, AllReadable, Reverse, Skipped, Completes, Out;
    if r.Got? {
      var j, n := i + [r.value], 4 - |i|;
      if (r.value == 64 && |i| < 2) || (|i| == 3 && i[2] == 64 && r.value != 64) {
        if |Kept(s)| >= n { PaddedBadly(i, Kept(s), n); }
      } else {
        hide ReadsAs;
        if |j| == 4 { ReadsNothing(j, r.rest); } else { GroupReads(j, r.rest); }
        ReadsOneMore(i, s, r.value, r.rest, GroupFrom(i, s));
      }
    }
  }

  /** Padding in the first two places, or anything else after padding, completes nothing. */
  lemma PaddedBadly(i: Bytes, k: Bytes, n: nat)
    requires |i| + n == 4 && 0 < n <= |k|
    ensures (Reverse(k[0]) == 64 && |i| < 2) || (|i| == 3 && i[2] == 64 && Reverse(k[0]) != 64) ==>
              !Completes(i, k[..n])
  {
    hide Reverse;
    assert (i + Values(k[..n]))[|i|] == Reverse(k[0]);
  }

  /** The next character may be seen as the last value so far. */
  lemma Regrouping(i: Bytes, k: Bytes, n: nat)
    requires |i| + n == 4 && 0 < n <= |k|
    ensures Completes(i, k[..n]) <==> Completes(i + [Reverse(k[0])], k[1..][..n - 1])
    ensures k[n..] == k[1..][n - 1..]
  {
    hide Reverse;
    assert i + Values(k[..n]) == (i + [Reverse(k[0])]) + Values(k[1..][..n - 1]);
  }

  lemma {:induction false} KeptLast(s: Bytes)
    requires s != [] && !Skipped(s[|s| - 1])
    ensures Kept(s) != []
  {
    if |s| > 1 { KeptLast(s[1..]); }
  }

  lemma GroupOfFour(k: Bytes)
    requires |k| >= 4
    ensures Completes([], k[..4]) <==> k[0] != PAD && k[1] != PAD && (k[2] == PAD ==> k[3] == PAD)
  {
    PadOnly(k[0]);
    PadOnly(k[1]);
    PadOnly(k[2]);
    PadOnly(k[3]);
    hide Reverse;
    assert [] + Values(k[..4]) == Values(k[..4]);
  }

  /** An input decodes exactly if it consists of the alphabet, the padding and skipped characters, the first two in
      groups of four with padding in the last two places only, and does not end in a skipped character. */
  lemma {:induction false} DecodesIff(s: Bytes)
    ensures DecodedFrom(s).Decoded? <==> Decodable(s)
    decreases |s|
  {
    if s == [] {
    } else {
      GroupReads([], s);
      var g, k := NextGroup(s), Kept(s);
      if |k| >= 4 { GroupOfFour(k); }
      if !Skipped(s[|s| - 1]) { KeptLast(s); }
      hide GroupFrom, Kept, AllReadable, Completes, Reverse, Skipped;
      if g.Four? {
        DecodesIff(g.rest);
      }
    }
  }

  // ---- the decoding loops ----

  /** The reverse table is an array indexed by characters. */
  type ReverseTableType = Byte -> Byte

  ghost predicate IsReverseTable(t: ReverseTableType) {
    forall c: Byte :: t(c) == Reverse(c)
  }

  function Stored(t: ReverseTableType, at: Byte, value: Byte): ReverseTableType {
    (c: Byte) => if c == at then value else t(c)
  }

  /** initReverseTable: 255 everywhere, then the alphabet, then the padding. */
  method InitReverseTable() returns (t: ReverseTableType)
    ensures IsReverseTable(t)
  {
    t := (c: Byte) => 255;
    var i: Byte := 0;
    while i < 64
      invariant i <= 64
      invariant forall c: Byte :: t(c) == if Reverse(c) < i then Reverse(c) else 255
    {
      forall c: Byte ensures Stored(t, Table(i), i)(c) == if Reverse(c) < i + 1 then Reverse(c) else 255 {
        TableReverse(i, c);
        NextBound(Reverse(c), i);
      }
      t := Stored(t, Table(i), i);
      i := i + 1;
    }
    forall c: Byte ensures Stored(t, PAD, 64)(c) == Reverse(c) { PadOnly(c); }
    t := Stored(t, PAD, 64);
  }

  lemma NextBound(a: Byte, i: Byte)
    requires i < 64
    ensures a < i + 1 <==> a < i || a == i
  {
  }

  lemma PadOnly(c: Byte)
    ensures c == PAD <==> Reverse(c) == 64
    ensures Reverse(c) <= 64 || Reverse(c) == 255
  {
  }

  lemma TableReverse(n: Byte, c: Byte)
    requires n < 64
    ensures Table(n) == c <==> Reverse(c) == n
  {
  }

  datatype ReadResult = Value(value: Byte, next: nat) | ReadError(error: Outcome)

  ghost function SymbolOf(input: Bytes, r: ReadResult): Symbol {
    if r.ReadError? then Failed(r.error) else Got(r.value, if r.next <= |input| then input[r.next..] else [])
  }

  /** The inner loop: skips characters until one has a value. */
  method ReadSymbol(input: Bytes, start: nat, t: ReverseTableType) returns (r: ReadResult)
    requires start <= |input| && IsReverseTable(t)
    ensures SymbolOf(input, r) == NextSymbol(input[start..])
    ensures r.Value? ==> start < r.next <= |input|
  {
    hide Reverse, Skipped;
    var p := start;
    while true
      invariant start <= p <= |input| && NextSymbol(input[p..]) == NextSymbol(input[start..])
      decreases |input| - p
    {
      if p == |input| || input[p] >= 128 {
        return ReadError(Undefined);
      }
      assert input[p..][0] == input[p] && input[p..][1..] == input[p + 1..];
      if t(input[p]) != 255 {
        return Value(t(input[p]), p + 1);
      }
      if !Skipped(input[p]) {
        return ReadError(InvalidCharacter);
      }
      p := p + 1;
      if p == |input| {
        return ReadError(UnexpectedEnd);
      }
    }
  }

  method Decode(input: Bytes) returns (r: Outcome)
    ensures r == DecodedFrom(input)
  {
    hide GroupFrom, Reverse, Out, NextSymbol;
    var t := InitReverseTable();
    var output: Bytes, p := [], 0;
    assert input[0..] == input;
    PrependNothing(DecodedFrom(input));
    while p < |input|
      invariant p <= |input| && Prepend(output, DecodedFrom(input[p..])) == DecodedFrom(input)
    {
      var g, next := ReadGroup(input, p, t);
      if g.Bad? {
        return g.error;
      }
      PrependTwice(output, g.out, DecodedFrom(input[next..]));
      output := output + g.out;
      p := next;
    }
    assert output + [] == output;
    return Decoded(output);
  }

  lemma PrependNothing(o: Outcome)
    ensures Prepend([], o) == o
  {
    if o.Decoded? { assert [] + o.bytes == o.bytes; }
  }

  lemma PrependTwice(x: Bytes, y: Bytes, o: Outcome)
    ensures Prepend(x, Prepend(y, o)) == Prepend(x + y, o)
  {
    if o.Decoded? { assert x + (y + o.bytes) == (x + y) + o.bytes; }
  }

  /** The four turns that fill one group. */
  method ReadGroup(input: Bytes, start: nat, t: ReverseTableType) returns (g: Group, p: nat)
    requires start < |input| && IsReverseTable(t)
    ensures g == NextGroup(input[start..])
    ensures g.Four? ==> start < p <= |input| && g.rest == input[p..]
  {
    hide Reverse, Out, NextSymbol;
    var i: Bytes := [];
    p := start;
    while |i| < 4
      invariant |i| <= 4 && start <= p <= |input| && (|i| > 0 ==> start < p)
      invariant GroupFrom(i, input[p..]) == GroupFrom([], input[start..])
      decreases 4 - |i|
    {
      var n := |i|;
      var s := ReadSymbol(input, p, t);
      if s.ReadError? {
        return Bad(s.error), p;
      }
      if (s.value == 64 && n < 2) || (n == 3 && i[n - 1] == 64 && s.value != 64) {
        return Bad(InvalidPadding), p;
      }
      i := i + [s.value];
      p := s.next;
    }
    g := Four(Out(i[0], i[1], i[2], i[3]), input[p..]);
  }
}
