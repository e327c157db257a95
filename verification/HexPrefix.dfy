/** Trie key encodings: key bytes, hex nibbles with an optional terminator, and the compact form. */
module HexPrefix {
  import opened Bytes

  const TERMINATOR: byte := 16

  predicate AllNibbles(k: Bytes) {
    forall i :: 0 <= i < |k| ==> k[i] < 16
  }

  /** An odd number of nibbles. */
  predicate Odd(k: Bytes) {
    |k| % 2 == 1
  }

  predicate HasTerm(s: Bytes) {
    |s| > 0 && s[|s| - 1] == TERMINATOR
  }

  /** A full key: nibbles, then the terminator. */
  predicate ValidKey(k: Bytes) {
    HasTerm(k) && AllNibbles(k[..|k| - 1])
  }

  /** What a short node may carry: nibbles, perhaps with the terminator. */
  predicate HexKey(k: Bytes) {
    AllNibbles(k) || ValidKey(k)
  }

  function WithoutTerm(k: Bytes): Bytes {
    if HasTerm(k) then k[..|k| - 1] else k
  }

  // ---- key bytes and nibbles ----

  function Nibbles(b: Bytes): (r: Bytes)
    ensures |r| == 2 * |b| && AllNibbles(r)
  {
    if b == [] then [] else [b[0] / 16, b[0] % 16] + Nibbles(b[1..])
  }

  function Pack(ns: Bytes): (r: Bytes)
    requires !Odd(ns) && AllNibbles(ns)
    ensures |r| == |ns| / 2
  {
    if ns == [] then [] else [16 * ns[0] + ns[1]] + Pack(ns[2..])
  }

  function KeybytesToHex(b: Bytes): (r: Bytes)
    ensures |r| == 2 * |b| + 1 && ValidKey(r)
  {
    Nibbles(b) + [TERMINATOR]
  }

  function HexToKeybytes(hex: Bytes): Bytes
    requires HexKey(hex) && !Odd(WithoutTerm(hex))
  {
    Pack(WithoutTerm(hex))
  }

  lemma {:induction false} NibblesAt(b: Bytes, i: nat)
    requires i < |b|
    ensures Nibbles(b)[2 * i] == b[i] / 16 && Nibbles(b)[2 * i + 1] == b[i] % 16
  {
    if i > 0 {
      NibblesAt(b[1..], i - 1);
    }
  }

  lemma {:induction false} PackAt(ns: Bytes, i: nat)
    requires !Odd(ns) && AllNibbles(ns) && 2 * i < |ns|
    ensures Pack(ns)[i] == 16 * ns[2 * i] + ns[2 * i + 1]
  {
    if i > 0 {
      PackAt(ns[2..], i - 1);
    }
  }

  lemma {:induction false} PackNibbles(b: Bytes)
    ensures Pack(Nibbles(b)) == b
  {
    if b != [] {
      PackNibbles(b[1..]);
      assert Nibbles(b)[2..] == Nibbles(b[1..]);
    }
  }

  lemma {:induction false} NibblesPack(ns: Bytes)
    requires !Odd(ns) && AllNibbles(ns)
    ensures Nibbles(Pack(ns)) == ns
  {
    if ns != [] {
      NibblesPack(ns[2..]);
      assert Pack(ns)[1..] == Pack(ns[2..]);
    }
  }

  /** Key bytes survive the trip through nibbles, so different keys have different paths. */
  lemma {:induction false} KeybytesRoundTrip(b: Bytes)
    ensures HexToKeybytes(KeybytesToHex(b)) == b
  {
    PackNibbles(b);
    assert WithoutTerm(KeybytesToHex(b)) == Nibbles(b);
  }

  lemma {:induction false} KeybytesInjective(a: Bytes, b: Bytes)
    requires KeybytesToHex(a) == KeybytesToHex(b)
    ensures a == b
  {
    KeybytesRoundTrip(a);
    KeybytesRoundTrip(b);
  }

  /** No full key is a proper prefix of another. */
  lemma {:induction false} ValidKeysPrefixFree(a: Bytes, b: Bytes)
    requires ValidKey(a) && ValidKey(b) && a <= b
    ensures a == b
  {
    assert forall i :: 0 <= i < |b| - 1 ==> b[i] == b[..|b| - 1][i];
    assert b[|a| - 1] == a[|a| - 1];
  }

  // ---- the compact form ----

  /** The flag nibble: bit 1 for the terminator, bit 0 for an odd number of nibbles. */
  function Flag(odd: bool, term: bool): (f: byte)
    ensures f <= 48
  {
    (if term then 32 else 0) + (if odd then 16 else 0)
  }

  lemma {:induction false} FlagSays(odd: bool, term: bool)
    ensures var f := Flag(odd, term); f % 16 == 0 && (f / 16 % 2 == 1) == odd && (f >= 32) == term
  {
  }

  function HexToCompact(hex: Bytes): (r: Bytes)
    requires HexKey(hex)
    ensures |r| >= 1
  {
    var body := WithoutTerm(hex);
    if Odd(body) then [Flag(true, HasTerm(hex)) + body[0]] + Pack(body[1..])
    else [Flag(false, HasTerm(hex))] + Pack(body)
  }

  function CompactToHex(compact: Bytes): Bytes
    requires |compact| >= 1
  {
    var base := Nibbles(compact);
    var full := if base[0] >= 2 then base + [TERMINATOR] else base;
    full[2 - base[0] % 2..]
  }

  predicate OddFlag(b: byte) {
    b / 16 % 2 == 1
  }

  /** The hex key that a flag nibble, its low nibble and the packed tail stand for. */
  function Unpacked(odd: bool, term: bool, low: byte, tail: Bytes): Bytes {
    (if odd then [low] else []) + tail + (if term then [TERMINATOR] else [])
  }

  lemma {:induction false} CompactToHexParts(c: Bytes)
    requires |c| >= 1
    ensures CompactToHex(c) == Unpacked(OddFlag(c[0]), c[0] >= 32, c[0] % 16, Nibbles(c[1..]))
  {
    var tail := Nibbles(c[1..]);
    var base := Nibbles(c);
    assert base == [c[0] / 16, c[0] % 16] + tail;
    Unflagged(base, c[0] / 16, c[0] % 16, tail);
  }

  lemma {:induction false} Unflagged(base: Bytes, flag: byte, low: byte, tail: Bytes)
    requires base == [flag, low] + tail
    ensures var full := if flag >= 2 then base + [TERMINATOR] else base;
            full[2 - flag % 2..] == Unpacked(flag % 2 == 1, flag >= 2, low, tail)
  {
    if flag % 2 == 1 {
      assert base[1..] == [low] + tail && (base + [TERMINATOR])[1..] == base[1..] + [TERMINATOR];
    } else {
      assert base[2..] == tail && (base + [TERMINATOR])[2..] == base[2..] + [TERMINATOR];
    }
  }

  lemma {:induction false} UnpackedParts(odd: bool, term: bool, low: byte, tail: Bytes)
    requires low < 16 && AllNibbles(tail)
    ensures var hex := Unpacked(odd, term, low, tail);
            HexKey(hex) && HasTerm(hex) == term && WithoutTerm(hex) == (if odd then [low] else []) + tail
  {
    var body := (if odd then [low] else []) + tail;
    assert AllNibbles(body);
    var hex := Unpacked(odd, term, low, tail);
    if term {
      assert hex[..|hex| - 1] == body;
    } else {
      assert hex == body;
    }
  }

  lemma {:induction false} FlagBits(f: nat, low: nat)
    requires f % 16 == 0 && low < 16
    ensures (f + low) / 16 == f / 16 && (f + low) % 16 == low && (f + low >= 32 <==> f >= 32)
  {
  }

  /** The flag byte and the tail, taken apart again. */
  lemma {:induction false} CompactParts(odd: bool, term: bool, low: byte, tail: Bytes)
    requires low < 16 && !Odd(tail) && AllNibbles(tail)
    ensures CompactToHex([Flag(odd, term) + low] + Pack(tail)) == Unpacked(odd, term, low, tail)
  {
    hide CompactToHex, Pack, Nibbles, Unpacked, Odd;
    var flag := Flag(odd, term) + low;
    var c := [flag] + Pack(tail);
    FlagSays(odd, term);
    FlagBits(Flag(odd, term), low);
    NibblesPack(tail);
    assert c[1..] == Pack(tail);
    CompactToHexParts(c);
    assert c[0] == flag;
  }

  lemma {:induction false} OddOrNot(low: byte, tail: Bytes)
    ensures Odd([low] + tail) <==> !Odd(tail)
    ensures [] + tail == tail
  {
  }

  /** The compact form by its parts. */
  lemma {:induction false} HexToCompactParts(hex: Bytes, odd: bool, low: byte, tail: Bytes)
    requires HexKey(hex) && low < 16 && !Odd(tail) && AllNibbles(tail)
    requires WithoutTerm(hex) == (if odd then [low] else []) + tail && (!odd ==> low == 0)
    ensures HexToCompact(hex) == [Flag(odd, HasTerm(hex)) + low] + Pack(tail)
  {
    hide Pack, Odd, AllNibbles, Flag;
    var body := WithoutTerm(hex);
    OddOrNot(low, tail);
    if odd {
      assert body[0] == low && body[1..] == tail;
    } else {
      assert body == tail;
    }
  }

  /** Nibbles are a pair-wise tail, after one more if they are odd. */
  lemma {:induction false} SplitNibbles(body: Bytes) returns (low: byte, tail: Bytes)
    requires AllNibbles(body)
    ensures low < 16 && !Odd(tail) && AllNibbles(tail) && (!Odd(body) ==> low == 0)
    ensures body == (if Odd(body) then [low] else []) + tail
  {
    if Odd(body) {
      low, tail := body[0], body[1..];
    } else {
      low, tail := 0, body;
    }
  }

  /** The compact form loses nothing. */
  lemma {:induction false} CompactRoundTrip(hex: Bytes)
    requires HexKey(hex)
    ensures CompactToHex(HexToCompact(hex)) == hex
  {
    var body := WithoutTerm(hex);
    assert AllNibbles(body);
    TermRestored(hex);
    hide CompactToHex, HexToCompact, Pack, Nibbles, Flag, AllNibbles, HexKey, HasTerm, WithoutTerm, Odd;
    var low, tail := SplitNibbles(body);
    HexToCompactParts(hex, Odd(body), low, tail);
    CompactParts(Odd(body), HasTerm(hex), low, tail);
  }

  lemma {:induction false} TermRestored(hex: Bytes)
    ensures hex == WithoutTerm(hex) + if HasTerm(hex) then [TERMINATOR] else []
  {
  }

  /** A compact key whose flag nibble and padding are what the encoder would have written. */
  predicate CanonicalCompact(c: Bytes) {
    && |c| >= 1
    && c[0] < 64
    && (!OddFlag(c[0]) ==> c[0] % 16 == 0)
  }

  /** Decoding a compact key and encoding it again is the identity on canonical keys, and only there. */
  lemma {:induction false} CompactReencodes(c: Bytes)
    requires |c| >= 1
    ensures HexKey(CompactToHex(c))
    ensures HexToCompact(CompactToHex(c)) == c <==> CanonicalCompact(c)
  {
    var odd, term, low := OddFlag(c[0]), c[0] >= 32, c[0] % 16;
    assert CanonicalCompact(c) == CanonicalCompact([c[0]]);
    CanonicalFlag(c[0]);
    hide OddFlag, Flag, CanonicalCompact, CompactToHex, HexToCompact, Unpacked, HexKey;
    CompactToHexParts(c);
    CompactOfUnpacked(odd, term, low, c[1..]);
    SameFlag(c, Flag(odd, term) + if odd then low else 0);
  }

  lemma {:induction false} SameFlag(c: Bytes, b: byte)
    requires |c| >= 1
    ensures [b] + c[1..] == c <==> b == c[0]
  {
    assert c == [c[0]] + c[1..];
    assert ([b] + c[1..])[0] == b;
  }

  lemma {:induction false} CanonicalFlag(b: byte)
    ensures var odd, term := OddFlag(b), b >= 32;
            Flag(odd, term) + (if odd then b % 16 else 0) == b <==> CanonicalCompact([b])
  {
  }

  lemma {:induction false} CompactOfUnpacked(odd: bool, term: bool, low: byte, tail: Bytes)
    requires low < 16
    ensures var hex := Unpacked(odd, term, low, Nibbles(tail));
            HexKey(hex) && HexToCompact(hex) == [Flag(odd, term) + if odd then low else 0] + tail
  {
    var ns := Nibbles(tail);
    assert !Odd(ns);
    hide Pack, Nibbles, Unpacked, Odd, HexToCompact, Flag;
    UnpackedParts(odd, term, low, ns);
    PackNibbles(tail);
    HexToCompactParts(Unpacked(odd, term, low, ns), odd, if odd then low else 0, ns);
  }

  // ---- the loops of the source ----

  /** Length of the common prefix of two keys, one byte at a time. */
  function PrefixLen(a: Bytes, b: Bytes): (n: nat)
    ensures n <= |a| && n <= |b| && a[..n] == b[..n]
    ensures n < |a| && n < |b| ==> a[n] != b[n]
  {
    if a == [] || b == [] || a[0] != b[0] then 0
    else
      var n := PrefixLen(a[1..], b[1..]);
      assert a[..n + 1] == [a[0]] + a[1..][..n];
      assert b[..n + 1] == [b[0]] + b[1..][..n];
      n + 1
  }

  lemma {:induction false} PrefixLenUnique(a: Bytes, b: Bytes, n: nat)
    requires n <= |a| && n <= |b| && a[..n] == b[..n]
    requires n < |a| && n < |b| ==> a[n] != b[n]
    ensures n == PrefixLen(a, b)
  {
    var m := PrefixLen(a, b);
    assert forall i :: 0 <= i < n ==> a[..n][i] == a[i] && b[..n][i] == b[i];
    assert forall i :: 0 <= i < m ==> a[..m][i] == a[i] && b[..m][i] == b[i];
  }

  method ComputePrefixLen(a: Bytes, b: Bytes) returns (i: nat)
    ensures i == PrefixLen(a, b)
  {
    i := 0;
    var length := if |b| < |a| then |b| else |a|;
    while i < length
      invariant i <= length && a[..i] == b[..i]
    {
      if a[i] != b[i] {
        break;
      }
      i := i + 1;
    }
    PrefixLenUnique(a, b, i);
  }

  method ComputeKeybytesToHex(str: Bytes) returns (nibbles: array<byte>)
    ensures nibbles[..] == KeybytesToHex(str)
  {
    var l := 2 * |str| + 1;
    nibbles := new byte[l](_ => 0);
    var i := 0;
    while i < |str|
      invariant 0 <= i <= |str| && nibbles.Length == l
      invariant forall k :: 0 <= k < 2 * i ==> nibbles[k] == Nibbles(str)[k]
    {
      NibblesAt(str, i);
      nibbles[2 * i] := str[i] / 16;
      nibbles[2 * i + 1] := str[i] % 16;
      i := i + 1;
    }
    nibbles[l - 1] := TERMINATOR;
  }

  /** Packs nibbles two to a byte into the array, from position `at` on. */
  method DecodeNibbles(nibbles: Bytes, bytes: array<byte>, at: nat)
    requires !Odd(nibbles) && AllNibbles(nibbles)
    requires at + |nibbles| / 2 <= bytes.Length
    modifies bytes
    ensures bytes[at..at + |nibbles| / 2] == Pack(nibbles)
    ensures bytes[..at] == old(bytes[..at])
  {
    var bi, ni := 0, 0;
    while ni < |nibbles|
      invariant 0 <= ni <= |nibbles| && ni == 2 * bi
      invariant forall k :: 0 <= k < bi ==> bytes[at + k] == Pack(nibbles)[k]
      invariant bytes[..at] == old(bytes[..at])
    {
      PackAt(nibbles, bi);
      bytes[at + bi] := 16 * nibbles[ni] + nibbles[ni + 1];
      bi, ni := bi + 1, ni + 2;
    }
  }

  method ComputeHexToCompact(key: Bytes) returns (buf: array<byte>)
    requires HexKey(key)
    ensures buf[..] == HexToCompact(key)
  {
    hide Pack, Odd;
    var hex := key;
    var terminator := 0;
    if HasTerm(hex) {
      terminator := 1;
      hex := hex[..|hex| - 1];
    }
    HalfTheNibbles(hex);
    buf := new byte[|hex| / 2 + 1](_ => 0);
    var flag := terminator * 32;
    if Odd(hex) {
      flag := flag + 16 + hex[0];
      hex := hex[1..];
    }
    DecodeNibbles(hex, buf, 1);
    buf[0] := flag;
    assert buf[..] == [flag] + buf[1..1 + |hex| / 2];
  }

  lemma {:induction false} HalfTheNibbles(body: Bytes)
    ensures |body| / 2 == (if Odd(body) then |body| - 1 else |body|) / 2
    ensures Odd(body) ==> body != [] && !Odd(body[1..])
  {
  }
}
