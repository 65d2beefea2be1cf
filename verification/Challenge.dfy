/**
 The check of an NTLM type-2 message before a library reads it (internal/remote/challenge.go;
 [MS-NLMP] sections 2.2.1.2 and 2.2.2.1).
 */
module Challenge {
  import opened Base64

  type Bytes = seq<Byte>

  function Uint16(b: Bytes, at: nat): nat
    requires at + 2 <= |b|
  {
    (b[at] as int) + 256 * (b[at + 1] as int)
  }

  function Uint32(b: Bytes, at: nat): nat
    requires at + 4 <= |b|
  {
    Uint16(b, at) + 65536 * Uint16(b, at + 2)
  }

  lemma LeastFirst(a: Byte, rest: nat)
    ensures (a + 256 * rest) % 256 == a && (a + 256 * rest) / 256 == rest
  {
  }

  /** Numbers are read with their least octet first. */
  lemma NumbersAreLittleEndian(b: Bytes, at: nat)
    requires at + 4 <= |b|
    ensures var n := Uint32(b, at);
      && n % 256 == b[at] && n / 256 % 256 == b[at + 1] && n / 256 / 256 % 256 == b[at + 2]
      && n / 256 / 256 / 256 == b[at + 3]
  {
    var d: nat := b[at + 3];
    LeastFirst(b[at + 2], d);
    LeastFirst(b[at + 1], b[at + 2] + 256 * d);
    LeastFirst(b[at], b[at + 1] + 256 * (b[at + 2] + 256 * d));
  }

  /** Whether a flag word has the bit of this value. */
  predicate Has(flags: nat, bit: nat)
    requires bit > 0
  {
    flags / bit % 2 == 1
  }

  const ANONYMOUS := 0x800
  const SIGN := 0x10
  const SEAL := 0x20
  const EXTENDED_SECURITY := 0x80000
  const TARGET_INFO := 0x800000
  const VERSION := 0x2000000
  const KEY_128 := 0x20000000

  // ---- AV_PAIR lists ----

  datatype AvPair = AvPair(id: nat, value: Bytes)

  /** The widths that the library relies on: strings of 16-bit units, and three fixed fields. */
  predicate WidthAllowed(id: nat, n: nat) {
    && (id in {1, 2, 3, 4, 5, 9} ==> n % 2 == 0)
    && (id == 6 ==> n == 4)
    && (id == 7 ==> n == 8)
    && (id == 10 ==> n == 16)
  }

  predicate GoodPair(p: AvPair) {
    0 < p.id < 65536 && |p.value| < 65536 && WidthAllowed(p.id, |p.value|)
  }

  /** Good pairs whose ids are unique and none of these. */
  predicate GoodPairs(pairs: seq<AvPair>, seen: set<nat>) {
    pairs != [] ==> GoodPair(pairs[0]) && pairs[0].id !in seen && GoodPairs(pairs[1..], seen + {pairs[0].id})
  }

  function Le16(n: nat): Bytes
    requires n < 65536
  {
    [n % 256, n / 256]
  }

  function PairBytes(p: AvPair): Bytes
    requires GoodPair(p)
  {
    Le16(p.id) + Le16(|p.value|) + p.value
  }

  const TERMINATOR: Bytes := [0, 0, 0, 0]

  /** A list with its empty terminator. */
  function ListBytes(pairs: seq<AvPair>, seen: set<nat>): Bytes
    requires GoodPairs(pairs, seen)
  {
    if pairs == [] then TERMINATOR else PairBytes(pairs[0]) + ListBytes(pairs[1..], seen + {pairs[0].id})
  }

  ghost predicate IsList(data: Bytes, seen: set<nat>) {
    exists pairs :: GoodPairs(pairs, seen) && ListBytes(pairs, seen) == data
  }

  // ---- Walking a list ----

  /** The loop of validateChallenge. */
  predicate Walks(data: Bytes, seen: set<nat>)
    decreases |data|
  {
    |data| >= 4 &&
    var id, n, rest := Uint16(data, 0), Uint16(data, 2), data[4..];
    n <= |rest| && id !in seen &&
    if id == 0 then n == 0 && rest == [] else WidthAllowed(id, n) && Walks(rest[n..], seen + {id})
  }

  lemma Le16IsRead(n: nat)
    requires n < 65536
    ensures (Le16(n)[0] as int) + 256 * (Le16(n)[1] as int) == n
  {
  }

  lemma Le16IsUnique(a: Byte, b: Byte)
    ensures Le16((a as int) + 256 * (b as int)) == [a, b]
  {
  }

  lemma PairIsRead(p: AvPair, tail: Bytes)
    requires GoodPair(p)
    ensures var data := PairBytes(p) + tail;
      && |data| >= 4 && Uint16(data, 0) == p.id
      && Uint16(data, 2) == |p.value| <= |data[4..]| && data[4..][|p.value|..] == tail
  {
    var data := PairBytes(p) + tail;
    Le16IsRead(p.id);
    Le16IsRead(|p.value|);
    assert data[..2] == Le16(p.id) && data[2..4] == Le16(|p.value|);
    assert data[0] == data[..2][0] && data[1] == data[..2][1] && data[2] == data[2..4][0] && data[3] == data[2..4][1];
    assert data[4..] == p.value + tail;
  }

  lemma {:induction false} ListsAreWalked(pairs: seq<AvPair>, seen: set<nat>)
    requires GoodPairs(pairs, seen) && 0 !in seen
    ensures Walks(ListBytes(pairs, seen), seen)
  {
    if pairs != [] {
      var rest := ListBytes(pairs[1..], seen + {pairs[0].id});
      PairIsRead(pairs[0], rest);
      ListsAreWalked(pairs[1..], seen + {pairs[0].id});
    }
  }

  lemma PairIsSpelled(data: Bytes, n: nat)
    requires 4 + n <= |data| && n == Uint16(data, 2)
    requires Uint16(data, 0) > 0 && WidthAllowed(Uint16(data, 0), n)
    ensures var p := AvPair(Uint16(data, 0), data[4..4 + n]); GoodPair(p) && PairBytes(p) + data[4..][n..] == data
  {
    Le16IsUnique(data[0], data[1]);
    Le16IsUnique(data[2], data[3]);
    assert data[4..][n..] == data[4 + n..];
  }

  lemma {:induction false} WalkedIsList(data: Bytes, seen: set<nat>) returns (pairs: seq<AvPair>)
    requires Walks(data, seen)
    ensures GoodPairs(pairs, seen) && ListBytes(pairs, seen) == data
    decreases |data|
  {
    var id, n := Uint16(data, 0), Uint16(data, 2);
    if id == 0 {
      pairs := [];
      assert data[0] == 0 && data[1] == 0 && data[2] == 0 && data[3] == 0;
    } else {
      var rest := WalkedIsList(data[4..][n..], seen + {id});
      PairIsSpelled(data, n);
      pairs := [AvPair(id, data[4..4 + n])] + rest;
      assert pairs[1..] == rest;
    }
  }

  /** The walker accepts exactly the lists of good pairs with unique ids whose empty terminator ends the
      field. */
  lemma WalksIff(data: Bytes)
    ensures Walks(data, {}) <==> IsList(data, {})
  {
    if Walks(data, {}) {
      var pairs := WalkedIsList(data, {});
    }
    if IsList(data, {}) {
      var pairs :| GoodPairs(pairs, {}) && ListBytes(pairs, {}) == data;
      ListsAreWalked(pairs, {});
    }
  }

  /** The loop itself, which reslices its data. */
  method WalkPairs(field: Bytes) returns (ok: bool)
    ensures ok <==> Walks(field, {})
  {
    var data, seen: set<nat> := field, {};
    while |data| >= 4
      invariant Walks(field, {}) <==> Walks(data, seen)
      decreases |data|
    {
      var id, n := Uint16(data, 0), Uint16(data, 2);
      var rest := data[4..];
      if n > |rest| || id in seen {
        return false;
      }
      if id == 0 {
        return n == 0 && |rest| == 0;
      }
      match id {
        case 1 | 2 | 3 | 4 | 5 | 9 =>
          if n % 2 != 0 {
            return false;
          }
        case 6 =>
          if n != 4 {
            return false;
          }
        case 7 =>
          if n != 8 {
            return false;
          }
        case 10 =>
          if n != 16 {
            return false;
          }
        case _ =>
      }
      data, seen := rest[n..], seen + {id};
    }
    return false;
  }

  // ---- The whole message ----

  const SIGNATURE: Bytes := [78, 84, 76, 77, 83, 83, 80, 0]

  /** The field with its length and offset at this place lies behind the fixed header, or is empty. */
  predicate FieldInside(b: Bytes, at: nat)
    requires at + 8 <= |b|
  {
    Uint16(b, at) > 0 ==> Uint32(b, at + 4) >= 48 && Uint32(b, at + 4) + Uint16(b, at) <= |b|
  }

  /** The header and flag checks. */
  predicate GoodHeader(b: Bytes, sealed: bool) {
    && 48 <= |b| <= 65535 && b[..8] == SIGNATURE && Uint32(b, 8) == 2
    && var flags := Uint32(b, 20);
    && !Has(flags, ANONYMOUS)
    && (sealed ==> Has(flags, KEY_128) && Has(flags, SIGN) && Has(flags, SEAL) && Has(flags, EXTENDED_SECURITY))
    && (Has(flags, VERSION) ==> |b| >= 56)
    && FieldInside(b, 12) && FieldInside(b, 40)
  }

  /** The loop over the offsets of the two fields. */
  method CheckFields(b: Bytes) returns (ok: bool)
    requires |b| >= 48
    ensures ok <==> FieldInside(b, 12) && FieldInside(b, 40)
  {
    var offsets := [12, 40];
    for i := 0 to 2
      invariant i >= 1 ==> FieldInside(b, 12)
      invariant i >= 2 ==> FieldInside(b, 40)
    {
      var size, start := Uint16(b, offsets[i]), Uint32(b, offsets[i] + 4);
      if size > 0 && (start < 48 || start + size > |b|) {
        return false;
      }
    }
    return true;
  }

  /** validateChallenge up to the question of target information. */
  method CheckHeader(b: Bytes, sealed: bool) returns (ok: bool)
    ensures ok <==> GoodHeader(b, sealed)
  {
    if |b| < 48 || |b| > 65535 || b[..8] != SIGNATURE || Uint32(b, 8) != 2 {
      return false;
    }
    var flags := Uint32(b, 20);
    if Has(flags, ANONYMOUS) {
      return false;
    }
    if sealed && !(Has(flags, KEY_128) && Has(flags, SIGN) && Has(flags, SEAL) && Has(flags, EXTENDED_SECURITY)) {
      return false;
    }
    if Has(flags, VERSION) && |b| < 56 {
      return false;
    }
    ok := CheckFields(b);
  }

  /** validateChallenge never leaves the message and, with target information flagged, accepts exactly the
      messages that pass the header checks and carry such a list. */
  method ValidateChallenge(b: Bytes, sealed: bool) returns (ok: bool)
    ensures ok <==> GoodHeader(b, sealed) && (Has(Uint32(b, 20), TARGET_INFO) ==>
      Uint16(b, 40) > 0 && IsList(b[Uint32(b, 44)..Uint32(b, 44) + Uint16(b, 40)], {}))
  {
    var header := CheckHeader(b, sealed);
    if !header {
      return false;
    }
    if !Has(Uint32(b, 20), TARGET_INFO) {
      return true;
    }
    var size, start := Uint16(b, 40), Uint32(b, 44);
    if size == 0 {
      return false;
    }
    var data := b[start..start + size];
    WalksIff(data);
    ok := WalkPairs(data);
  }
}
