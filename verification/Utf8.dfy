/** UTF-8 (section 3 of RFC 3629) and UTF8Util. */
module Utf8 {
  import opened Common

  /** A Unicode scalar value. */
  type CodePoint = c: bv32 | c < 0xD800 || 0xE000 <= c < 0x11_0000

  function Tail(c: bv32): Byte { (0x80 | (c & 0x3F)) as bv8 }
  function Lead2(c: bv32): Byte requires c < 0x800 { (0xC0 | (c >> 6)) as bv8 }
  function Lead3(c: bv32): Byte requires c < 0x1_0000 { (0xE0 | (c >> 12)) as bv8 }
  function Lead4(c: bv32): Byte requires c < 0x11_0000 { (0xF0 | (c >> 18)) as bv8 }

  function Encode(c: CodePoint): Bytes {
    if c < 0x80 then [c as bv8]
    else if c < 0x800 then [Lead2(c), Tail(c)]
    else if c < 0x1_0000 then [Lead3(c), Tail(c >> 6), Tail(c)]
    else [Lead4(c), Tail(c >> 12), Tail(c >> 6), Tail(c)]
  }

  predicate IsContinuation(b: Byte) { b & 0xC0 == 0x80 }

  /** getCharByteSize: it knows sequences of up to three bytes. */
  function CharByteSize(b: Byte): (n: nat)
    ensures 1 <= n <= 3
  {
    if b & 0xF0 == 0xE0 then 3 else if b & 0xE0 == 0xC0 then 2 else 1
  }

  /** A character is a lead byte and continuation bytes. */
  ghost predicate IsChar(b: Bytes) {
    b != [] && !IsContinuation(b[0]) && forall i :: 0 < i < |b| ==> IsContinuation(b[i])
  }

  lemma EncodeShape(c: CodePoint)
    ensures IsChar(Encode(c)) && |Encode(c)| <= 4
    ensures CharByteSize(Encode(c)[0]) == if c < 0x1_0000 then |Encode(c)| else 1
    ensures c >= 0x1_0000 ==> |Encode(c)| == 4 && forall i :: 1 <= i < 4 ==> CharByteSize(Encode(c)[i]) == 1
  {
  }

  function EncodeAll(cs: seq<CodePoint>): Bytes {
    if cs == [] then [] else Encode(cs[0]) + EncodeAll(cs[1..])
  }

  /** The byte offset of the `k`th code point. */
  function Offset(cs: seq<CodePoint>, k: nat): nat
    requires k <= |cs|
  {
    |EncodeAll(cs[..k])|
  }

  lemma {:induction false} EncodeConcat(a: seq<CodePoint>, b: seq<CodePoint>)
    ensures EncodeAll(a + b) == EncodeAll(a) + EncodeAll(b)
  {
    if a == [] {
      assert a + b == b;
    } else {
      calc {
        EncodeAll(a + b);
        { assert (a + b)[0] == a[0] && (a + b)[1..] == a[1..] + b; }
        Encode(a[0]) + EncodeAll(a[1..] + b);
        { EncodeConcat(a[1..], b); }
        Encode(a[0]) + (EncodeAll(a[1..]) + EncodeAll(b));
        (Encode(a[0]) + EncodeAll(a[1..])) + EncodeAll(b);
      }
    }
  }

  /** Cutting the bytes at an offset cuts the text there. */
  lemma CutAt(cs: seq<CodePoint>, k: nat)
    requires k <= |cs|
    ensures var b, o := EncodeAll(cs), Offset(cs, k);
            o <= |b| && b[..o] == EncodeAll(cs[..k]) && b[o..] == EncodeAll(cs[k..])
  {
    EncodeConcat(cs[..k], cs[k..]);
    assert cs[..k] + cs[k..] == cs;
  }

  lemma EncodeOne(c: CodePoint)
    ensures EncodeAll([c]) == Encode(c)
  {
    assert [c][1..] == [];
  }

  /** The bytes between two neighbouring offsets are one character. */
  lemma CharAt(cs: seq<CodePoint>, k: nat)
    requires k < |cs|
    ensures var b, o, o' := EncodeAll(cs), Offset(cs, k), Offset(cs, k + 1);
            o <= o' <= |b| && b[o..o'] == Encode(cs[k]) && IsChar(b[o..o'])
  {
    hide Encode, IsChar;
    CutAt(cs, k + 1);
    CutAt(cs[..k + 1], k);
    assert cs[..k + 1][..k] == cs[..k] && cs[..k + 1][k..] == [cs[k]];
    EncodeOne(cs[k]);
    EncodeShape(cs[k]);
    assert EncodeAll(cs)[..Offset(cs, k + 1)][Offset(cs, k)..] == EncodeAll(cs)[Offset(cs, k)..Offset(cs, k + 1)];
  }

  /** The number of bytes that the lead byte announces. */
  function LeadSize(b: Byte): nat {
    if b < 0x80 then 1 else if b < 0xE0 then 2 else if b < 0xF0 then 3 else 4
  }

  lemma EncodeSize(c: CodePoint)
    ensures Encode(c) != [] && LeadSize(Encode(c)[0]) == |Encode(c)|
  {
  }

  lemma EncodePrefixFree(c: CodePoint, d: CodePoint, x: Bytes, y: Bytes)
    requires Encode(c) + x == Encode(d) + y
    ensures c == d && x == y
  {
    EncodeSize(c);
    EncodeSize(d);
    assert (Encode(c) + x)[0] == Encode(c)[0] && (Encode(d) + y)[0] == Encode(d)[0];
    var n := |Encode(c)|;
    assert Encode(c) == (Encode(c) + x)[..n] && Encode(d) == (Encode(d) + y)[..n];
    DecodeEncoded(c);
    DecodeEncoded(d);
    assert x == (Encode(c) + x)[n..] && y == (Encode(d) + y)[n..];
  }

  function Join2(a: Byte, b: Byte): bv32 { ((a & 0x1F) as bv32 << 6) | (b & 0x3F) as bv32 }
  function Join3(a: Byte, b: Byte, c: Byte): bv32 {
    ((a & 0x0F) as bv32 << 12) | ((b & 0x3F) as bv32 << 6) | (c & 0x3F) as bv32
  }
  function Join4(a: Byte, b: Byte, c: Byte, d: Byte): bv32 {
    ((a & 0x07) as bv32 << 18) | ((b & 0x3F) as bv32 << 12) | ((c & 0x3F) as bv32 << 6) | (d & 0x3F) as bv32
  }

  /** The scalar value that a character encodes. */
  function DecodeOne(b: Bytes): bv32
    requires 1 <= |b| <= 4
  {
    if |b| == 1 then b[0] as bv32
    else if |b| == 2 then Join2(b[0], b[1])
    else if |b| == 3 then Join3(b[0], b[1], b[2])
    else Join4(b[0], b[1], b[2], b[3])
  }

  lemma JoinSplit(c: bv32)
    ensures c < 0x800 ==> Join2(Lead2(c), Tail(c)) == c
    ensures c < 0x1_0000 ==> Join3(Lead3(c), Tail(c >> 6), Tail(c)) == c
    ensures c < 0x11_0000 ==> Join4(Lead4(c), Tail(c >> 12), Tail(c >> 6), Tail(c)) == c
  {
  }

  lemma DecodeEncoded(c: CodePoint)
    ensures 1 <= |Encode(c)| <= 4 && DecodeOne(Encode(c)) == c
  {
    hide Tail, Lead2, Lead3, Lead4, Join2, Join3, Join4;
    JoinSplit(c);
  }

  /** The bytes determine the text. */
  lemma {:induction false} EncodeInjective(a: seq<CodePoint>, b: seq<CodePoint>)
    requires EncodeAll(a) == EncodeAll(b)
    ensures a == b
  {
    if a == [] {
    } else {
      EncodeSize(a[0]);
    }
    if b == [] {
    } else {
      EncodeSize(b[0]);
    }
    if a != [] && b != [] {
      EncodePrefixFree(a[0], b[0], EncodeAll(a[1..]), EncodeAll(b[1..]));
      EncodeInjective(a[1..], b[1..]);
    }
  }

  // ---- UTF8Util::getLength ----

  /** What the counting loop finds in `b`. */
  function Counted(b: Bytes): nat
    decreases |b|
  {
    if b == [] then 0
    else
      var n := CharByteSize(b[0]);
      1 + Counted(if n < |b| then b[n..] else [])
  }

  method GetLength(b: Bytes) returns (ret: nat)
    ensures ret == Counted(b)
  {
    ret := 0;
    var i := 0;
    while i < |b|
      invariant ret + Counted(if i < |b| then b[i..] else []) == Counted(b)
    {
      var n := CharByteSize(b[i]);
      assert i + n < |b| ==> b[i..][n..] == b[i + n..];
      i := i + n;
      ret := ret + 1;
    }
  }

  /** How many code points lie beyond the Basic Multilingual Plane. */
  function Astral(cs: seq<CodePoint>): nat {
    if cs == [] then 0 else (if cs[0] >= 0x1_0000 then 1 else 0) + Astral(cs[1..])
  }

  ghost predicate AllBmp(cs: seq<CodePoint>) {
    forall i :: 0 <= i < |cs| ==> cs[i] < 0x1_0000
  }

  lemma CountedSkip(x: Byte, rest: Bytes)
    requires CharByteSize(x) == 1
    ensures Counted([x] + rest) == 1 + Counted(rest)
  {
    assert ([x] + rest)[1..] == rest;
  }

  lemma CountedOne(c: CodePoint, rest: Bytes)
    ensures Counted(Encode(c) + rest) == Counted(rest) + if c < 0x1_0000 then 1 else 4
  {
    EncodeShape(c);
    var e := Encode(c);
    hide Encode, CharByteSize;
    if c < 0x1_0000 {
      assert (e + rest)[|e|..] == rest;
    } else {
      calc {
        Counted(e + rest);
        { assert e + rest == [e[0]] + ([e[1]] + ([e[2]] + ([e[3]] + rest))); }
        Counted([e[0]] + ([e[1]] + ([e[2]] + ([e[3]] + rest))));
        { CountedSkip(e[0], [e[1]] + ([e[2]] + ([e[3]] + rest))); CountedSkip(e[1], [e[2]] + ([e[3]] + rest)); }
        2 + Counted([e[2]] + ([e[3]] + rest));
        { CountedSkip(e[2], [e[3]] + rest); CountedSkip(e[3], rest); }
        4 + Counted(rest);
      }
    }
  }

  /** getLength counts code points, and a four-byte one as four. */
  lemma {:induction false} CountedText(cs: seq<CodePoint>)
    ensures Counted(EncodeAll(cs)) == |cs| + 3 * Astral(cs)
  {
    if cs == [] {
    } else {
      CountedOne(cs[0], EncodeAll(cs[1..]));
      CountedText(cs[1..]);
    }
  }

  /** So it is the number of code points exactly if none of them takes four bytes. */
  lemma {:induction false} LengthIffBmp(cs: seq<CodePoint>)
    ensures Counted(EncodeAll(cs)) == |cs| <==> AllBmp(cs)
  {
    CountedText(cs);
    AstralIffBmp(cs);
  }

  lemma {:induction false} AstralIffBmp(cs: seq<CodePoint>)
    ensures Astral(cs) == 0 <==> AllBmp(cs)
  {
    if cs == [] {
    } else {
      AstralIffBmp(cs[1..]);
      assert cs == [cs[0]] + cs[1..];
    }
  }
}
