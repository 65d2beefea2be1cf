/**
 Standard Base64 (RFC 4648, section 4) as Go's base64.StdEncoding reads and writes it: decoding skips
 CR and LF anywhere and does not look at the unused bits before the padding.
 */
module Base64 {
  import opened Failures

  type Byte = x: int | 0 <= x < 256

  type Index = x: int | 0 <= x < 64

  const CR: Byte := 13
  const LF: Byte := 10
  const PAD: Byte := 61

  function Symbol(i: Index): (c: Byte)
    ensures c != CR && c != LF && c != PAD
  {
    if i < 26 then 65 + i
    else if i < 52 then 71 + i
    else if i < 62 then i - 4
    else if i == 62 then 43
    else 47
  }

  function Value(c: Byte): Option<Index> {
    if 65 <= c <= 90 then Some(c - 65)
    else if 97 <= c <= 122 then Some(c - 71)
    else if 48 <= c <= 57 then Some(c + 4)
    else if c == 43 then Some(62)
    else if c == 47 then Some(63)
    else None
  }

  // Three bytes x, y, z hold the same 24 bits as four symbols a, b, c, d.

  function A(x: Byte): Index { x / 4 }

  function B(x: Byte, y: Byte): Index { x % 4 * 16 + y / 16 }

  function C(y: Byte, z: Byte): Index { y % 16 * 4 + z / 64 }

  function D(z: Byte): Index { z % 64 }

  function X(a: Index, b: Index): Byte { a * 4 + b / 16 }

  function Y(b: Index, c: Index): Byte { b % 16 * 16 + c / 4 }

  function Z(c: Index, d: Index): Byte { c % 4 * 64 + d }

  lemma SameBits(x: Byte, y: Byte, z: Byte)
    ensures X(A(x), B(x, y)) == x
    ensures Y(B(x, y), C(y, z)) == y
    ensures Z(C(y, z), D(z)) == z
  {
  }

  function Encode(data: seq<Byte>): seq<Byte> {
    if |data| == 0 then
      []
    else if |data| == 1 then
      [Symbol(A(data[0])), Symbol(B(data[0], 0)), PAD, PAD]
    else if |data| == 2 then
      [Symbol(A(data[0])), Symbol(B(data[0], data[1])), Symbol(C(data[1], 0)), PAD]
    else
      [Symbol(A(data[0])), Symbol(B(data[0], data[1])), Symbol(C(data[1], data[2])), Symbol(D(data[2]))]
      + Encode(data[3..])
  }

  predicate NoNewlines(s: seq<Byte>) {
    forall i :: 0 <= i < |s| ==> s[i] != CR && s[i] != LF
  }

  function WithoutNewlines(s: seq<Byte>): seq<Byte> {
    if s == [] then []
    else if s[0] == CR || s[0] == LF then WithoutNewlines(s[1..])
    else [s[0]] + WithoutNewlines(s[1..])
  }

  /** Groups of four symbols; only the last may end in one or two padding characters. */
  function DecodeGroups(s: seq<Byte>): Option<seq<Byte>> {
    if s == [] then
      Some([])
    else if |s| < 4 then
      None
    else
      match (Value(s[0]), Value(s[1]), Value(s[2]), Value(s[3]))
      case (Some(a), Some(b), Some(c), Some(d)) =>
        (match DecodeGroups(s[4..])
         case Some(rest) => Some([X(a, b), Y(b, c), Z(c, d)] + rest)
         case None => None)
      case (Some(a), Some(b), Some(c), None) =>
        if s[3] == PAD && |s| == 4 then Some([X(a, b), Y(b, c)]) else None
      case (Some(a), Some(b), None, None) =>
        if s[2] == PAD && s[3] == PAD && |s| == 4 then Some([X(a, b)]) else None
      case _ => None
  }

  function Decode(s: seq<Byte>): Option<seq<Byte>> {
    DecodeGroups(WithoutNewlines(s))
  }

  /** base64.StdEncoding.EncodedLen. */
  function EncodedLen(n: nat): nat {
    (n + 2) / 3 * 4
  }

  lemma SymbolsAreRead(i: Index)
    ensures Value(Symbol(i)) == Some(i)
    ensures Symbol(i) != CR && Symbol(i) != LF && Symbol(i) != PAD
  {
  }

  lemma {:induction false} EncodeShape(data: seq<Byte>)
    ensures |Encode(data)| == EncodedLen(|data|)
    ensures NoNewlines(Encode(data))
    decreases |data|
  {
    if |data| >= 3 {
      EncodeShape(data[3..]);
    }
  }

  lemma {:induction false} NothingToSkip(s: seq<Byte>)
    requires NoNewlines(s)
    ensures WithoutNewlines(s) == s
  {
    if s != [] {
      NothingToSkip(s[1..]);
    }
  }

  lemma GroupIsRead(a: Index, b: Index, c: Index, d: Index, tail: seq<Byte>)
    requires DecodeGroups(tail).Some?
    ensures DecodeGroups([Symbol(a), Symbol(b), Symbol(c), Symbol(d)] + tail)
         == Some([X(a, b), Y(b, c), Z(c, d)] + DecodeGroups(tail).value)
  {
    SymbolsAreRead(a);
    SymbolsAreRead(b);
    SymbolsAreRead(c);
    SymbolsAreRead(d);
    assert ([Symbol(a), Symbol(b), Symbol(c), Symbol(d)] + tail)[4..] == tail;
  }

  lemma PaddedGroupIsRead(a: Index, b: Index, c: Index, text: seq<Byte>)
    ensures text == [Symbol(a), Symbol(b), PAD, PAD] ==> DecodeGroups(text) == Some([X(a, b)])
    ensures text == [Symbol(a), Symbol(b), Symbol(c), PAD] ==> DecodeGroups(text) == Some([X(a, b), Y(b, c)])
  {
    SymbolsAreRead(a);
    SymbolsAreRead(b);
    SymbolsAreRead(c);
    assert Value(PAD) == None;
  }

  lemma EncodeShort(x: Byte, y: Byte)
    ensures Encode([x]) == [Symbol(A(x)), Symbol(B(x, 0)), PAD, PAD]
    ensures Encode([x, y]) == [Symbol(A(x)), Symbol(B(x, y)), Symbol(C(y, 0)), PAD]
  {
  }

  lemma OneByteRoundTrip(x: Byte, b: Index, text: seq<Byte>)
    requires b == B(x, 0)
    requires text == [Symbol(A(x)), Symbol(b), PAD, PAD]
    ensures DecodeGroups(text) == Some([x])
  {
    assert X(A(x), b) == x;
    PaddedGroupIsRead(A(x), b, b, text);
  }

  lemma TwoByteRoundTrip(x: Byte, y: Byte, text: seq<Byte>)
    requires text == [Symbol(A(x)), Symbol(B(x, y)), Symbol(C(y, 0)), PAD]
    ensures DecodeGroups(text) == Some([x, y])
  {
    SameBits(x, y, 0);
    PaddedGroupIsRead(A(x), B(x, y), C(y, 0), text);
  }

  lemma FullGroupRoundTrip(text: seq<Byte>, x: Byte, y: Byte, z: Byte, a: Index, b: Index, c: Index, d: Index,
                           rest: seq<Byte>)
    requires X(a, b) == x && Y(b, c) == y && Z(c, d) == z
    requires text == [Symbol(a), Symbol(b), Symbol(c), Symbol(d)] + Encode(rest)
    requires DecodeGroups(Encode(rest)) == Some(rest)
    ensures DecodeGroups(text) == Some([x, y, z] + rest)
  {
    GroupIsRead(a, b, c, d, Encode(rest));
  }

  lemma ShortRoundTrip(data: seq<Byte>)
    requires |data| < 3
    ensures DecodeGroups(Encode(data)) == Some(data)
  {
    if |data| == 1 {
      assert data == [data[0]];
      EncodeShort(data[0], 0);
      OneByteRoundTrip(data[0], B(data[0], 0), Encode(data));
    } else if |data| == 2 {
      assert data == [data[0], data[1]];
      EncodeShort(data[0], data[1]);
      TwoByteRoundTrip(data[0], data[1], Encode(data));
    }
  }

  lemma {:induction false} GroupsRoundTrip(data: seq<Byte>)
    ensures DecodeGroups(Encode(data)) == Some(data)
    decreases |data|
  {
    if |data| < 3 {
      ShortRoundTrip(data);
    } else {
      var x, y, z, rest := data[0], data[1], data[2], data[3..];
      GroupsRoundTrip(rest);
      SameBits(x, y, z);
      FullGroupRoundTrip(Encode(data), x, y, z, A(x), B(x, y), C(y, z), D(z), rest);
      assert data == [x, y, z] + rest;
    }
  }

  /** Decoding undoes encoding for every sequence of bytes. */
  lemma RoundTrip(data: seq<Byte>)
    ensures Decode(Encode(data)) == Some(data)
  {
    EncodeShape(data);
    NothingToSkip(Encode(data));
    GroupsRoundTrip(data);
  }

  // ---- The converse ----

  /** The last symbol before the padding has bits that belong to no byte. */
  predicate LooseBits(t: seq<Byte>) {
    var n := |t|;
    n >= 4 && t[n - 1] == PAD &&
    match Value(if t[n - 2] == PAD then t[n - 3] else t[n - 2])
    case None => false
    case Some(i) => i % (if t[n - 2] == PAD then 16 else 4) != 0
  }

  lemma ValuesAreSpelled(c: Byte)
    requires Value(c).Some?
    ensures Symbol(Value(c).value) == c && c != PAD
  {
  }

  lemma SameSymbols(a: Index, b: Index, c: Index, d: Index)
    ensures A(X(a, b)) == a && B(X(a, b), Y(b, c)) == b && C(Y(b, c), Z(c, d)) == c && D(Z(c, d)) == d
    ensures B(X(a, b), 0) == b <==> b % 16 == 0
    ensures C(Y(b, c), 0) == c <==> c % 4 == 0
  {
  }

  lemma OneByteIsSpelledBack(t: seq<Byte>, x: Byte, a: Index, b: Index, b': Index)
    requires t == [Symbol(a), Symbol(b), PAD, PAD]
    requires A(x) == a && B(x, 0) == b' && (b' == b <==> b % 16 == 0)
    ensures Encode([x]) == t <==> !LooseBits(t)
  {
    SymbolsAreRead(b);
    SymbolsDiffer(b, b');
    EncodeShort(x, 0);
    assert Encode([x])[1] == Symbol(b');
  }

  lemma TwoBytesAreSpelledBack(t: seq<Byte>, x: Byte, y: Byte, a: Index, b: Index, c: Index, c': Index)
    requires t == [Symbol(a), Symbol(b), Symbol(c), PAD]
    requires A(x) == a && B(x, y) == b && C(y, 0) == c' && (c' == c <==> c % 4 == 0)
    ensures Encode([x, y]) == t <==> !LooseBits(t)
  {
    SymbolsAreRead(c);
    SymbolsDiffer(c, c');
    EncodeShort(x, y);
    assert Encode([x, y])[2] == Symbol(c');
  }

  lemma PaddedGroupShape(t: seq<Byte>)
    requires |t| == 4 && t[3] == PAD && DecodeGroups(t).Some?
    ensures Value(t[0]).Some? && Value(t[1]).Some? && (t[2] != PAD ==> Value(t[2]).Some?)
    ensures var a, b := Value(t[0]).value, Value(t[1]).value;
      DecodeGroups(t).value == if t[2] == PAD then [X(a, b)] else [X(a, b), Y(b, Value(t[2]).value)]
  {
  }

  lemma PaddedGroupIsSpelledBack(t: seq<Byte>, bytes: seq<Byte>)
    requires |t| == 4 && t[3] == PAD && DecodeGroups(t) == Some(bytes)
    ensures Encode(bytes) == t <==> !LooseBits(t)
  {
    PaddedGroupShape(t);
    ValuesAreSpelled(t[0]);
    ValuesAreSpelled(t[1]);
    var a, b, x := Value(t[0]).value, Value(t[1]).value, bytes[0];
    if t[2] == PAD {
      assert A(x) == a && (B(x, 0) == b <==> b % 16 == 0) by {
        SameSymbols(a, b, 0, 0);
      }
      OneByteIsSpelledBack(t, x, a, b, B(x, 0));
    } else {
      ValuesAreSpelled(t[2]);
      var c, y := Value(t[2]).value, bytes[1];
      assert A(x) == a && B(x, y) == b && (C(y, 0) == c <==> c % 4 == 0) by {
        SameSymbols(a, b, c, 0);
      }
      TwoBytesAreSpelledBack(t, x, y, a, b, c, C(y, 0));
    }
  }

  lemma SymbolsDiffer(i: Index, j: Index)
    ensures Symbol(i) == Symbol(j) <==> i == j
  {
    SymbolsAreRead(i);
    SymbolsAreRead(j);
  }

  lemma FullGroupIsSpelledBack(t: seq<Byte>)
    requires |t| >= 4 && t[3] != PAD && DecodeGroups(t).Some?
    ensures DecodeGroups(t[4..]).Some? && |DecodeGroups(t).value| >= 3
    ensures Encode(DecodeGroups(t).value) == t[..4] + Encode(DecodeGroups(t[4..]).value)
  {
    ValuesAreSpelled(t[0]);
    ValuesAreSpelled(t[1]);
    ValuesAreSpelled(t[2]);
    ValuesAreSpelled(t[3]);
    var a, b, c, d := Value(t[0]).value, Value(t[1]).value, Value(t[2]).value, Value(t[3]).value;
    SameSymbols(a, b, c, d);
    var bytes := DecodeGroups(t).value;
    assert bytes[3..] == DecodeGroups(t[4..]).value;
    assert t[..4] == [t[0], t[1], t[2], t[3]];
  }

  lemma LooseBitsAreLast(t: seq<Byte>)
    requires |t| >= 8
    ensures LooseBits(t) == LooseBits(t[4..])
  {
  }

  lemma {:induction false} GroupsAreSpelledBack(t: seq<Byte>)
    requires DecodeGroups(t).Some?
    ensures Encode(DecodeGroups(t).value) == t <==> !LooseBits(t)
    decreases |t|
  {
    if t == [] {
    } else if t[3] == PAD {
      PaddedGroupIsSpelledBack(t, DecodeGroups(t).value);
    } else {
      FullGroupIsSpelledBack(t);
      GroupsAreSpelledBack(t[4..]);
      assert t == t[..4] + t[4..];
      if |t| >= 8 {
        LooseBitsAreLast(t);
      }
    }
  }

  /** Encoding undoes decoding exactly for the texts without line breaks and without loose bits. */
  lemma EncodingUndoesDecodingIff(t: seq<Byte>)
    requires Decode(t).Some?
    ensures Encode(Decode(t).value) == t <==> NoNewlines(t) && !LooseBits(t)
  {
    EncodeShape(Decode(t).value);
    if NoNewlines(t) {
      NothingToSkip(t);
      GroupsAreSpelledBack(t);
    }
  }

  /** Both conditions are needed. QR== and Q, LF, Q== both decode to the byte whose encoding is QQ==: one has
      loose bits before the padding, the other a line feed inside. */
  lemma DecodingIsNotInjective()
    ensures Encode([65]) == [81, 81, PAD, PAD]
    ensures Decode([81, 82, PAD, PAD]) == Some([65])
    ensures Decode([81, LF, 81, PAD, PAD]) == Some([65])
  {
    assert Value(81) == Some(16) && Value(82) == Some(17) && Value(PAD) == None;
    NothingToSkip([81, 82, PAD, PAD]);
    NothingToSkip([81, PAD, PAD]);
    assert WithoutNewlines([81, LF, 81, PAD, PAD]) == [81, 81, PAD, PAD] by {
      assert [81, LF, 81, PAD, PAD][1..] == [LF, 81, PAD, PAD];
      assert [LF, 81, PAD, PAD][1..] == [81, PAD, PAD];
      assert WithoutNewlines([LF, 81, PAD, PAD]) == [81, PAD, PAD];
    }
  }
}
