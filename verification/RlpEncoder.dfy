/** The two-pass RLP encoder: string data and list headers are collected apart, sizes patched in
    when a list ends, and the pieces interleaved on output. */
module RlpEncoder {
  import opened Bytes
  import opened RlpSpec

  /** Where a list header goes in the string data, and the size it announces. */
  datatype Head = Head(offset: nat, size: int)

  // ---- specification of the first pass ----

  function Data(v: Value): Bytes
    decreases v, 0
  {
    match v
    case Str(b) => EncodeString(b)
    case List(items) => DataAll(items)
  }

  function DataAll(vs: seq<Value>): Bytes
    decreases vs, 1
  {
    if vs == [] then [] else Data(vs[0]) + DataAll(vs[1..])
  }

  function Heads(v: Value, at: nat): seq<Head>
    decreases v, 0
  {
    match v
    case Str(_) => []
    case List(items) => [Head(at, |EncodeAll(items)|)] + HeadsAll(items, at)
  }

  function HeadsAll(vs: seq<Value>, at: nat): seq<Head>
    decreases vs, 1
  {
    if vs == [] then [] else Heads(vs[0], at) + HeadsAll(vs[1..], at + |Data(vs[0])|)
  }

  function HeadBytes(v: Value): nat
    decreases v, 0
  {
    match v
    case Str(_) => 0
    case List(items) => |ListHead(|EncodeAll(items)|)| + HeadBytesAll(items)
  }

  function HeadBytesAll(vs: seq<Value>): nat
    decreases vs, 1
  {
    if vs == [] then 0 else HeadBytes(vs[0]) + HeadBytesAll(vs[1..])
  }

  lemma {:induction false} SizeOfEncoding(v: Value)
    ensures |Encode(v)| == |Data(v)| + HeadBytes(v)
    decreases v, 0
  {
    if v.List? {
      SizeOfEncodings(v.items);
    }
  }

  lemma {:induction false} SizeOfEncodings(vs: seq<Value>)
    ensures |EncodeAll(vs)| == |DataAll(vs)| + HeadBytesAll(vs)
    decreases vs, 1
  {
    if vs != [] {
      SizeOfEncoding(vs[0]);
      SizeOfEncodings(vs[1..]);
    }
  }

  lemma {:induction false} DataAppend(vs: seq<Value>, v: Value)
    ensures DataAll(vs + [v]) == DataAll(vs) + Data(v)
    decreases vs
  {
    if vs == [] {
      assert vs + [v] == [v];
    } else {
      DataAppend(vs[1..], v);
      assert (vs + [v])[1..] == vs[1..] + [v];
    }
  }

  lemma {:induction false} HeadsFirst(vs: seq<Value>, at: nat)
    requires vs != []
    ensures HeadsAll(vs, at) == Heads(vs[0], at) + HeadsAll(vs[1..], at + |Data(vs[0])|)
    ensures |DataAll(vs)| == |Data(vs[0])| + |DataAll(vs[1..])|
  {
  }

  lemma {:induction false} NoItems(at: nat)
    ensures DataAll([]) == [] && HeadsAll([], at) == [] && HeadBytesAll([]) == 0 && EncodeAll([]) == []
  {
  }

  lemma {:induction false} HeadsAppend(vs: seq<Value>, v: Value, at: nat)
    ensures HeadsAll(vs + [v], at) == HeadsAll(vs, at) + Heads(v, at + |DataAll(vs)|)
    decreases vs
  {
    hide Heads, HeadsAll, Data, DataAll;
    HeadsFirst(vs + [v], at);
    if vs == [] {
      assert (vs + [v])[0] == v && (vs + [v])[1..] == [];
      NoItems(at + |Data(v)|);
      NoItems(at);
    } else {
      HeadsFirst(vs, at);
      assert (vs + [v])[1..] == vs[1..] + [v] && (vs + [v])[0] == vs[0];
      var next := at + |Data(vs[0])|;
      HeadsAppend(vs[1..], v, next);
      AssociateHeads(Heads(vs[0], at), HeadsAll(vs[1..], next), Heads(v, next + |DataAll(vs[1..])|));
    }
  }

  lemma {:induction false} HeadBytesAppend(vs: seq<Value>, v: Value)
    ensures HeadBytesAll(vs + [v]) == HeadBytesAll(vs) + HeadBytes(v)
    decreases vs
  {
    if vs == [] {
      assert vs + [v] == [v];
    } else {
      HeadBytesAppend(vs[1..], v);
      assert (vs + [v])[1..] == vs[1..] + [v];
    }
  }

  // ---- specification of the second pass ----

  /** Header positions ascend from `at` and stay inside n bytes of string data. */
  predicate Ascending(heads: seq<Head>, at: nat, n: nat)
    decreases |heads|
  {
    if heads == [] then at <= n
    else at <= heads[0].offset <= n && heads[0].size >= 0 && Ascending(heads[1..], heads[0].offset, n)
  }

  /** String data from position `at` on, with the headers put in place. */
  function Interleave(str: Bytes, at: nat, heads: seq<Head>): Bytes
    requires Ascending(heads, at, |str|)
    decreases |heads|
  {
    if heads == [] then str[at..]
    else str[at..heads[0].offset] + ListHead(heads[0].size) + Interleave(str, heads[0].offset, heads[1..])
  }

  function TotalHeadSize(heads: seq<Head>): int
    requires forall i :: 0 <= i < |heads| ==> heads[i].size >= 0
  {
    if heads == [] then 0 else |ListHead(heads[0].size)| + TotalHeadSize(heads[1..])
  }

  lemma {:induction false} AscendingSizes(heads: seq<Head>, at: nat, n: nat)
    requires Ascending(heads, at, n)
    ensures forall i :: 0 <= i < |heads| ==> heads[i].size >= 0
    ensures at <= n
    decreases |heads|
  {
    if heads != [] {
      AscendingSizes(heads[1..], heads[0].offset, n);
    }
  }

  lemma {:induction false} InterleaveLength(str: Bytes, at: nat, heads: seq<Head>)
    requires Ascending(heads, at, |str|)
    requires forall i :: 0 <= i < |heads| ==> heads[i].size >= 0
    ensures at <= |str|
    ensures |Interleave(str, at, heads)| == |str| - at + TotalHeadSize(heads)
    decreases |heads|
  {
    if heads != [] {
      InterleaveLength(str, heads[0].offset, heads[1..]);
    }
  }

  lemma {:induction false} InterleaveStep(str: Bytes, at: nat, heads: seq<Head>, i: nat)
    requires i < |heads| && Ascending(heads[i..], at, |str|)
    ensures at <= heads[i].offset <= |str| && heads[i].size >= 0
    ensures Ascending(heads[i + 1..], heads[i].offset, |str|)
    ensures Interleave(str, at, heads[i..]) ==
            str[at..heads[i].offset] + ListHead(heads[i].size) + Interleave(str, heads[i].offset, heads[i + 1..])
  {
    assert heads[i..][1..] == heads[i + 1..];
  }

  /** Plain data in front of the next header is emitted as it is. */
  lemma {:induction false} InterleaveSkip(str: Bytes, at: nat, n: nat, heads: seq<Head>)
    requires Ascending(heads, at + n, |str|)
    ensures at + n <= |str| && Ascending(heads, at, |str|)
    ensures Interleave(str, at, heads) == str[at..at + n] + Interleave(str, at + n, heads)
  {
    hide ListHead;
    AscendingSizes(heads, at + n, |str|);
    if heads == [] {
      assert str[at..] == str[at..at + n] + str[at + n..];
    } else {
      var o := heads[0].offset;
      assert str[at..o] == str[at..at + n] + str[at + n..o];
      Concat3(str[at..at + n], str[at + n..o], ListHead(heads[0].size), Interleave(str, o, heads[1..]));
    }
  }

  lemma {:induction false} Concat3(a: Bytes, b: Bytes, c: Bytes, d: Bytes)
    ensures (a + b) + c + d == a + (b + c + d)
  {
  }

  /** One value inside a larger buffer: its data and headers interleave to its encoding. */
  lemma {:induction false} InterleaveValue(v: Value, str: Bytes, at: nat, more: seq<Head>)
    requires at + |Data(v)| <= |str| && str[at..at + |Data(v)|] == Data(v)
    requires Ascending(more, at + |Data(v)|, |str|)
    ensures Ascending(Heads(v, at) + more, at, |str|)
    ensures Interleave(str, at, Heads(v, at) + more) == Encode(v) + Interleave(str, at + |Data(v)|, more)
    decreases v, 0
  {
    match v
    case Str(b) =>
      assert Heads(v, at) + more == more;
      hide Interleave, Ascending, Heads;
      InterleaveSkip(str, at, |Data(v)|, more);
    case List(items) =>
      var inner, h := HeadsAll(items, at) + more, Head(at, |EncodeAll(items)|);
      assert Heads(v, at) + more == [h] + inner;
      assert Data(v) == DataAll(items) && Encode(v) == ListHead(|EncodeAll(items)|) + EncodeAll(items);
      hide Interleave, Ascending, Heads, HeadsAll, Data, DataAll, Encode, EncodeAll, ListHead;
      InterleaveValues(items, str, at, more);
      InterleaveHead(h, str, inner);
      Associate(ListHead(h.size), EncodeAll(items), Interleave(str, at + |DataAll(items)|, more));
  }

  lemma {:induction false} Associate(a: Bytes, b: Bytes, c: Bytes)
    ensures a + (b + c) == a + b + c
  {
  }

  /** A header at the current position comes first. */
  lemma {:induction false} InterleaveHead(h: Head, str: Bytes, heads: seq<Head>)
    requires h.size >= 0 && Ascending(heads, h.offset, |str|)
    ensures Ascending([h] + heads, h.offset, |str|)
    ensures Interleave(str, h.offset, [h] + heads) == ListHead(h.size) + Interleave(str, h.offset, heads)
  {
    AscendingSizes(heads, h.offset, |str|);
    assert ([h] + heads)[1..] == heads;
    assert str[h.offset..h.offset] == [];
  }

  lemma {:induction false} InterleaveValues(vs: seq<Value>, str: Bytes, at: nat, more: seq<Head>)
    requires at + |DataAll(vs)| <= |str| && str[at..at + |DataAll(vs)|] == DataAll(vs)
    requires Ascending(more, at + |DataAll(vs)|, |str|)
    ensures Ascending(HeadsAll(vs, at) + more, at, |str|)
    ensures Interleave(str, at, HeadsAll(vs, at) + more) == EncodeAll(vs) + Interleave(str, at + |DataAll(vs)|, more)
    decreases vs, 1
  {
    hide Interleave, Ascending, Heads, HeadsAll, Data, DataAll, Encode, EncodeAll;
    if vs == [] {
      NoItems(at);
      assert HeadsAll(vs, at) + more == more;
    } else {
      var d := |Data(vs[0])|;
      var rest := HeadsAll(vs[1..], at + d) + more;
      ItemsFirst(vs, at);
      SliceParts(str, at, Data(vs[0]), DataAll(vs[1..]));
      InterleaveValues(vs[1..], str, at + d, more);
      InterleaveValue(vs[0], str, at, rest);
      Associate(Encode(vs[0]), EncodeAll(vs[1..]), Interleave(str, at + |DataAll(vs)|, more));
      AssociateHeads(Heads(vs[0], at), HeadsAll(vs[1..], at + d), more);
    }
  }

  lemma {:induction false} AssociateHeads(a: seq<Head>, b: seq<Head>, c: seq<Head>)
    ensures a + (b + c) == a + b + c
  {
  }

  lemma {:induction false} ItemsFirst(vs: seq<Value>, at: nat)
    requires vs != []
    ensures DataAll(vs) == Data(vs[0]) + DataAll(vs[1..]) && EncodeAll(vs) == Encode(vs[0]) + EncodeAll(vs[1..])
    ensures HeadsAll(vs, at) == Heads(vs[0], at) + HeadsAll(vs[1..], at + |Data(vs[0])|)
  {
  }

  lemma {:induction false} SliceParts(str: Bytes, at: nat, x: Bytes, y: Bytes)
    requires at + |x + y| <= |str| && str[at..at + |x + y|] == x + y
    ensures str[at..at + |x|] == x && str[at + |x|..at + |x| + |y|] == y
  {
    var all := str[at..at + |x + y|];
    assert str[at..at + |x|] == all[..|x|];
    assert str[at + |x|..at + |x| + |y|] == all[|x|..];
  }

  /** Two passes over any value give its recursive encoding. */
  lemma {:induction false} TwoPassesEncode(v: Value)
    ensures Ascending(Heads(v, 0), 0, |Data(v)|)
    ensures Interleave(Data(v), 0, Heads(v, 0)) == Encode(v)
  {
    var str := Data(v);
    assert str[0..0 + |str|] == str;
    InterleaveValue(v, str, 0, []);
    assert Heads(v, 0) + [] == Heads(v, 0);
    assert str[|str|..] == [];
  }

  // ---- integers ----

  /** i cut into exactly n bytes, most significant first. */
  function Digits(i: nat, n: nat): Bytes {
    if n == 0 then [] else Digits(i / 256, n - 1) + [i % 256]
  }

  lemma {:induction false} DigitsAreBigEndian(i: nat)
    ensures Digits(i, |BigEndian(i)|) == BigEndian(i)
  {
    if i < 256 {
      assert Digits(i, 1) == Digits(i / 256, 0) + [i % 256];
    } else {
      DigitsAreBigEndian(i / 256);
    }
  }

  function Byte(i: nat, shift: nat): byte
    requires shift > 0
  {
    i / shift % 256
  }

  /** The byte switch of the source, one literal shift per byte. */
  function Shifted(i: nat, n: nat): (r: Bytes)
    requires 1 <= n <= 8
    ensures |r| == n
  {
    var b0, b1, b2, b3 := i % 256, Byte(i, 0x100), Byte(i, 0x1_0000), Byte(i, 0x100_0000);
    var b4, b5 := Byte(i, 0x1_0000_0000), Byte(i, 0x100_0000_0000);
    var b6, b7 := Byte(i, 0x1_0000_0000_0000), Byte(i, 0x100_0000_0000_0000);
    [b7, b6, b5, b4, b3, b2, b1, b0][8 - n..]
  }

  lemma {:induction false} ShiftSteps(i: nat)
    ensures i / 0x100 / 0x100 == i / 0x1_0000
    ensures i / 0x100 / 0x1_0000 == i / 0x100_0000
    ensures i / 0x100 / 0x100_0000 == i / 0x1_0000_0000
    ensures i / 0x100 / 0x1_0000_0000 == i / 0x100_0000_0000
    ensures i / 0x100 / 0x100_0000_0000 == i / 0x1_0000_0000_0000
    ensures i / 0x100 / 0x1_0000_0000_0000 == i / 0x100_0000_0000_0000
  {
  }

  lemma {:induction false} ShiftedIsDigits(i: nat, n: nat)
    requires 1 <= n <= 8
    ensures Shifted(i, n) == Digits(i, n)
    decreases n
  {
    if n == 1 {
      assert Digits(i, 1) == Digits(i / 256, 0) + [i % 256];
    } else {
      ShiftedIsDigits(i / 256, n - 1);
      ShiftSteps(i);
      assert Shifted(i, n) == Shifted(i / 256, n - 1) + [i % 256];
    }
  }

  lemma {:induction false} IntBytes(i: nat)
    requires i < MAX_UINT64
    ensures var n := |BigEndian(i)|;
            && n <= 8
            && BigEndian(i) == Shifted(i, n)
            && (n == 1 <==> i < 0x100) && (n <= 2 <==> i < 0x1_0000) && (n <= 3 <==> i < 0x100_0000)
            && (n <= 4 <==> i < 0x1_0000_0000) && (n <= 5 <==> i < 0x100_0000_0000)
            && (n <= 6 <==> i < 0x1_0000_0000_0000) && (n <= 7 <==> i < 0x100_0000_0000_0000)
  {
    Pow256Eight();
    assert Pow256(1) == 0x100 && Pow256(2) == 0x1_0000 && Pow256(3) == 0x100_0000;
    assert Pow256(4) == 0x1_0000_0000 && Pow256(5) == 0x100_0000_0000;
    assert Pow256(6) == 0x1_0000_0000_0000 && Pow256(7) == 0x100_0000_0000_0000;
    forall k | 1 <= k <= 8
      ensures |BigEndian(i)| <= k <==> i < Pow256(k)
    {
      BigEndianLength(i, k);
    }
    DigitsAreBigEndian(i);
    ShiftedIsDigits(i, |BigEndian(i)|);
  }

  method IntSize(n: nat) returns (size: nat)
    ensures size == |BigEndian(n)|
  {
    size := 1;
    var i: nat := n / 256;
    while i != 0
      invariant |BigEndian(n)| == if i == 0 then size else size + |BigEndian(i)|
      decreases i
    {
      i := i / 256;
      size := size + 1;
    }
  }

  /** Writes i big-endian at b[at..], in place; nothing else in b changes. */
  method PutInt(b: array<byte>, at: nat, i: nat) returns (size: nat)
    requires i < MAX_UINT64
    requires at + |BigEndian(i)| <= b.Length
    modifies b
    ensures size == |BigEndian(i)|
    ensures b[at..at + size] == BigEndian(i)
    ensures b[..at] == old(b[..at]) && b[at + size..] == old(b[at + size..])
  {
    hide Shifted, BigEndian;
    IntBytes(i);
    if i < 0x100 {
      size := 1;
    } else if i < 0x1_0000 {
      size := 2;
    } else if i < 0x100_0000 {
      size := 3;
    } else if i < 0x1_0000_0000 {
      size := 4;
    } else if i < 0x100_0000_0000 {
      size := 5;
    } else if i < 0x1_0000_0000_0000 {
      size := 6;
    } else if i < 0x100_0000_0000_0000 {
      size := 7;
    } else {
      size := 8;
    }
    PutBytes(b, at, Shifted(i, size));
  }

  /** Writes some bytes at their place. */
  method PutBytes(b: array<byte>, at: nat, bytes: Bytes)
    requires at + |bytes| <= b.Length
    modifies b
    ensures b[at..at + |bytes|] == bytes
    ensures b[..at] == old(b[..at]) && b[at + |bytes|..] == old(b[at + |bytes|..])
  {
    forall k | 0 <= k < |bytes| {
      b[at + k] := bytes[k];
    }
  }

  /** Writes a header at b[at..] in place and says how long it is. */
  method PutHead(b: array<byte>, at: nat, small: byte, large: byte, n: nat) returns (len: nat)
    requires n < MAX_UINT64
    requires at + |RlpSpec.Head(small, large, n)| <= b.Length
    modifies b
    ensures len == |RlpSpec.Head(small, large, n)|
    ensures b[at..at + len] == RlpSpec.Head(small, large, n)
    ensures b[..at] == old(b[..at]) && b[at + len..] == old(b[at + len..])
  {
    hide BigEndian;
    if n < 56 {
      b[at] := (small + n) % 256;
      len := 1;
    } else {
      len := PutLongHead(b, at, large, n);
    }
  }

  /** A tag that tells how many bytes the size takes, and the size. */
  method PutLongHead(b: array<byte>, at: nat, large: byte, n: nat) returns (len: nat)
    requires n < MAX_UINT64 && at + 1 + |BigEndian(n)| <= b.Length
    modifies b
    ensures len == 1 + |BigEndian(n)| && b[at..at + len] == [(large + |BigEndian(n)|) % 256] + BigEndian(n)
    ensures b[..at] == old(b[..at]) && b[at + len..] == old(b[at + len..])
  {
    hide BigEndian;
    ghost var was := b[..];
    var sizesize := PutInt(b, at + 1, n);
    ghost var mid := b[..];
    var tag: byte := (large + sizesize) % 256;
    b[at] := tag;
    len := sizesize + 1;
    HeadWritten(was, mid, at, BigEndian(n), tag);
    assert b[..] == mid[at := tag];
  }

  /** A byte in front of bytes that have been written. */
  lemma {:induction false} HeadWritten(s: Bytes, mid: Bytes, at: nat, be: Bytes, x: byte)
    requires |s| == |mid| && at + 1 + |be| <= |s| && mid[at + 1..at + 1 + |be|] == be
    requires mid[..at + 1] == s[..at + 1] && mid[at + 1 + |be|..] == s[at + 1 + |be|..]
    ensures var r := mid[at := x];
            r[at..at + 1 + |be|] == [x] + be && r[..at] == s[..at] && r[at + 1 + |be|..] == s[at + 1 + |be|..]
  {
    var r := mid[at := x];
    assert r[at + 1..at + 1 + |be|] == be;
    assert r[..at] == mid[..at + 1][..at];
  }

  lemma {:induction false} ItemFits(items: seq<Value>, i: nat)
    requires i < |items|
    ensures |Encode(items[i])| <= |EncodeAll(items)|
  {
    EncodeAllAppend(items[..i], items[i..]);
    assert items == items[..i] + items[i..];
  }

  // ---- the encoder ----

  class EncBuf {
    var str: Bytes
    var lheads: seq<Head>
    var lhsize: int

    constructor ()
      ensures str == [] && lheads == [] && lhsize == 0
    {
      str, lheads, lhsize := [], [], 0;
    }

    function Size(): int
      reads this
    {
      |str| + lhsize
    }

    /** The encoder may write out: headers ascend and their sizes are accounted for. */
    ghost predicate Complete()
      reads this
    {
      && Ascending(lheads, 0, |str|)
      && (forall i :: 0 <= i < |lheads| ==> 0 <= lheads[i].size < MAX_UINT64)
      && lhsize == TotalHeadSize(lheads)
    }

    method WriteStringHeader(size: nat)
      requires size < MAX_UINT64
      modifies this`str
      ensures str == old(str) + StringHead(size)
    {
      if size < 56 {
        str := str + [0x80 + size];
      } else {
        var sizebuf := new byte[9];
        IntBytes(size);
        var n := PutHead(sizebuf, 0, 0x80, 0xB7, size);
        str := str + sizebuf[..n];
        assert sizebuf[..n] == sizebuf[0..n];
      }
    }

    method WriteString(b: Bytes)
      requires |b| < MAX_UINT64
      modifies this`str
      ensures str == old(str) + EncodeString(b)
    {
      if |b| == 1 && b[0] <= 0x7F {
        str := str + [b[0]];
      } else {
        WriteStringHeader(|b|);
        str := str + b;
      }
    }

    /** Starts a list: its header remembers the header bytes written so far. */
    method StartList() returns (lh: nat)
      modifies this`lheads
      ensures lh == |old(lheads)| && lheads == old(lheads) + [Head(|str|, lhsize)]
    {
      lh := |lheads|;
      lheads := lheads + [Head(|str|, lhsize)];
    }

    /** Ends a list: the size is what was written since, including inner headers. */
    method EndList(lh: nat)
      requires lh < |lheads|
      requires 0 <= Size() - lheads[lh].offset - lheads[lh].size
      modifies this`lheads, this`lhsize
      ensures var size := old(Size()) - old(lheads)[lh].offset - old(lheads)[lh].size;
              && lheads == old(lheads)[lh := Head(old(lheads)[lh].offset, size)]
              && lhsize == old(lhsize) + |ListHead(size)|
    {
      var size := Size() - lheads[lh].offset - lheads[lh].size;
      lheads := lheads[lh := lheads[lh].(size := size)];
      if size < 56 {
        lhsize := lhsize + 1;
      } else {
        var n := IntSize(size);
        lhsize := lhsize + 1 + n;
      }
    }

    /** The first pass appends exactly the data, headers and header bytes of the value. */
    method WriteValue(v: Value)
      requires |Encode(v)| < MAX_UINT64
      modifies this
      ensures str == old(str) + Data(v)
      ensures lheads == old(lheads) + Heads(v, |old(str)|)
      ensures lhsize == old(lhsize) + HeadBytes(v)
      decreases v
    {
      match v {
        case Str(b) =>
          WriteString(b);
        case List(items) =>
          var lh := StartList();
          WriteItems(items);
          SizeOfEncodings(items);
          EndList(lh);
      }
    }

    method WriteItems(items: seq<Value>)
      requires |EncodeAll(items)| < MAX_UINT64
      modifies this
      ensures str == old(str) + DataAll(items)
      ensures lheads == old(lheads) + HeadsAll(items, |old(str)|)
      ensures lhsize == old(lhsize) + HeadBytesAll(items)
      decreases items
    {
      hide Data, DataAll, Heads, HeadsAll, HeadBytes, HeadBytesAll, Encode, EncodeAll;
      ghost var s0, h0, n0 := str, lheads, lhsize;
      assert items[..0] == [];
      NoItems(|s0|);
      var i := 0;
      while i < |items|
        invariant 0 <= i <= |items|
        invariant str == s0 + DataAll(items[..i])
        invariant lheads == h0 + HeadsAll(items[..i], |s0|)
        invariant lhsize == n0 + HeadBytesAll(items[..i])
      {
        ItemFits(items, i);
        WriteValue(items[i]);
        ghost var done := items[..i];
        assert items[..i + 1] == done + [items[i]];
        DataAppend(done, items[i]);
        HeadsAppend(done, items[i], |s0|);
        HeadBytesAppend(done, items[i]);
        Associate(s0, DataAll(done), Data(items[i]));
        AssociateHeads(h0, HeadsAll(done, |s0|), Heads(items[i], |s0 + DataAll(done)|));
        i := i + 1;
      }
      assert items[..i] == items;
    }

    /** Copies the data in front of a header, then the header. */
    method WriteHead(out: array<byte>, pos: nat, strpos: nat, head: Head) returns (next: nat)
      requires strpos <= head.offset <= |str| && 0 <= head.size < MAX_UINT64
      requires pos + (head.offset - strpos) + |ListHead(head.size)| <= out.Length
      modifies out
      ensures next == pos + (head.offset - strpos) + |ListHead(head.size)|
      ensures out[..next] == old(out[..pos]) + str[strpos..head.offset] + ListHead(head.size)
    {
      var n := head.offset - strpos;
      forall k | 0 <= k < n {
        out[pos + k] := str[strpos + k];
      }
      assert out[..pos + n] == old(out[..pos]) + str[strpos..head.offset];
      var len := PutHead(out, pos + n, 0xC0, 0xF7, head.size);
      next := pos + n + len;
      assert out[..next] == out[..pos + n] + out[pos + n..next];
    }

    /** The second pass into one freshly allocated array, every write in bounds. */
    method ToBytes() returns (out: array<byte>)
      requires Complete()
      ensures fresh(out) && out[..] == Interleave(str, 0, lheads)
    {
      InterleaveLength(str, 0, lheads);
      out := new byte[Size()](_ => 0);
      ghost var whole := Interleave(str, 0, lheads);
      var strpos, pos, i := 0, 0, 0;
      assert lheads[0..] == lheads && out[..0] == [];
      while i < |lheads|
        invariant 0 <= i <= |lheads| && 0 <= strpos <= |str| && 0 <= pos <= out.Length
        invariant Ascending(lheads[i..], strpos, |str|)
        invariant out[..pos] + Interleave(str, strpos, lheads[i..]) == whole
      {
        var head := lheads[i];
        InterleaveStep(str, strpos, lheads, i);
        ghost var tail := Interleave(str, head.offset, lheads[i + 1..]);
        Concat4(out[..pos], str[strpos..head.offset], ListHead(head.size), tail);
        assert |whole| == pos + (head.offset - strpos) + |ListHead(head.size)| + |tail|;
        pos := WriteHead(out, pos, strpos, head);
        strpos := head.offset;
        i := i + 1;
      }
      assert Interleave(str, strpos, lheads[i..]) == str[strpos..];
      CopyTail(out, pos, strpos);
    }

    method CopyTail(out: array<byte>, pos: nat, strpos: nat)
      requires strpos <= |str| && pos + (|str| - strpos) == out.Length
      modifies out
      ensures out[..] == old(out[..pos]) + str[strpos..]
    {
      forall k | 0 <= k < |str| - strpos {
        out[pos + k] := str[strpos + k];
      }
    }

    /** The second pass into a writer that takes at most `room` bytes before it fails. */
    method ToWriter(room: nat) returns (w: Bytes, ok: bool)
      requires Complete()
      ensures ok <==> |Interleave(str, 0, lheads)| <= room
      ensures ok ==> w == Interleave(str, 0, lheads)
      ensures !ok ==> w == Interleave(str, 0, lheads)[..room]
    {
      w, ok := [], true;
      ghost var whole := Interleave(str, 0, lheads);
      var strpos, i := 0, 0;
      assert lheads[0..] == lheads;
      while i < |lheads|
        invariant 0 <= i <= |lheads| && 0 <= strpos <= |str|
        invariant Ascending(lheads[i..], strpos, |str|)
        invariant |w| <= room && ok
        invariant w + Interleave(str, strpos, lheads[i..]) == whole
      {
        var head := lheads[i];
        InterleaveStep(str, strpos, lheads, i);
        ghost var tail := Interleave(str, head.offset, lheads[i + 1..]);
        Concat4(w, str[strpos..head.offset], ListHead(head.size), tail);
        assert whole == w + str[strpos..head.offset] + (ListHead(head.size) + tail);
        ghost var w0 := w;
        if head.offset - strpos > 0 {
          w, ok := Put(w, str[strpos..head.offset], room, ListHead(head.size) + tail);
          if !ok {
            return;
          }
        }
        assert w == w0 + str[strpos..head.offset];
        w, ok := Put(w, ListHead(head.size), room, tail);
        if !ok {
          return;
        }
        strpos := head.offset;
        i := i + 1;
      }
      assert Interleave(str, strpos, lheads[i..]) == str[strpos..];
      if strpos < |str| {
        w, ok := Put(w, str[strpos..], room, []);
      }
    }
  }

  /** One write to a writer with limited room; `later` is what would follow. */
  method Put(w: Bytes, p: Bytes, room: nat, ghost later: Bytes) returns (w': Bytes, ok: bool)
    requires |w| <= room
    ensures ok <==> |w| + |p| <= room
    ensures ok ==> w' == w + p && w' + later == w + p + later
    ensures !ok ==> |w + p + later| > room && w' == (w + p + later)[..room]
  {
    if |w| + |p| <= room {
      return w + p, true;
    }
    assert (w + p + later)[..room] == w + p[..room - |w|];
    return w + p[..room - |w|], false;
  }

  lemma {:induction false} HeadsAreComplete(v: Value, at: nat)
    requires |Encode(v)| < MAX_UINT64
    ensures forall i :: 0 <= i < |Heads(v, at)| ==> 0 <= Heads(v, at)[i].size < MAX_UINT64
    ensures TotalHeadSize(Heads(v, at)) == HeadBytes(v)
    decreases v, 0
  {
    if v.List? {
      HeadsAllAreComplete(v.items, at);
      assert Heads(v, at)[1..] == HeadsAll(v.items, at);
    }
  }

  lemma {:induction false} HeadsAllAreComplete(vs: seq<Value>, at: nat)
    requires |EncodeAll(vs)| < MAX_UINT64
    ensures forall i :: 0 <= i < |HeadsAll(vs, at)| ==> 0 <= HeadsAll(vs, at)[i].size < MAX_UINT64
    ensures TotalHeadSize(HeadsAll(vs, at)) == HeadBytesAll(vs)
    decreases vs, 1
  {
    hide Data, Heads, HeadsAll, HeadBytes, HeadBytesAll, TotalHeadSize, Encode, EncodeAll, ListHead;
    if vs == [] {
      NoItems(at);
      NoHeads();
    } else {
      PartsFirst(vs, at);
      var first, rest := Heads(vs[0], at), HeadsAll(vs[1..], at + |Data(vs[0])|);
      HeadsAreComplete(vs[0], at);
      HeadsAllAreComplete(vs[1..], at + |Data(vs[0])|);
      SizesJoin(first, rest);
      TotalHeadSizeAppend(first, rest);
    }
  }

  lemma {:induction false} NoHeads()
    ensures TotalHeadSize([]) == 0
  {
  }

  lemma {:induction false} PartsFirst(vs: seq<Value>, at: nat)
    requires vs != []
    ensures HeadsAll(vs, at) == Heads(vs[0], at) + HeadsAll(vs[1..], at + |Data(vs[0])|)
    ensures HeadBytesAll(vs) == HeadBytes(vs[0]) + HeadBytesAll(vs[1..])
    ensures |EncodeAll(vs)| == |Encode(vs[0])| + |EncodeAll(vs[1..])|
  {
  }

  lemma {:induction false} SizesJoin(a: seq<Head>, b: seq<Head>)
    requires forall i :: 0 <= i < |a| ==> 0 <= a[i].size < MAX_UINT64
    requires forall i :: 0 <= i < |b| ==> 0 <= b[i].size < MAX_UINT64
    ensures forall i :: 0 <= i < |a + b| ==> 0 <= (a + b)[i].size < MAX_UINT64
  {
  }

  lemma {:induction false} TotalHeadSizeAppend(a: seq<Head>, b: seq<Head>)
    requires forall i :: 0 <= i < |a| ==> a[i].size >= 0
    requires forall i :: 0 <= i < |b| ==> b[i].size >= 0
    ensures TotalHeadSize(a + b) == TotalHeadSize(a) + TotalHeadSize(b)
  {
    if a == [] {
      assert a + b == b;
    } else {
      TotalHeadSizeAppend(a[1..], b);
      assert (a + b)[1..] == a[1..] + b;
    }
  }

  method EncodeToBytes(v: Value) returns (out: array<byte>)
    requires Fits(v)
    ensures out[..] == Encode(v)
  {
    var eb := new EncBuf();
    eb.WriteValue(v);
    TwoPassesEncode(v);
    HeadsAreComplete(v, 0);
    assert eb.str == Data(v) && eb.lheads == Heads(v, 0);
    out := eb.ToBytes();
  }

  method EncodeToWriter(v: Value, room: nat) returns (w: Bytes, ok: bool)
    requires Fits(v)
    ensures ok <==> |Encode(v)| <= room
    ensures w == if ok then Encode(v) else Encode(v)[..room]
  {
    var eb := new EncBuf();
    eb.WriteValue(v);
    TwoPassesEncode(v);
    HeadsAreComplete(v, 0);
    assert eb.str == Data(v) && eb.lheads == Heads(v, 0);
    w, ok := eb.ToWriter(room);
  }

  // ---- the reader ----

  lemma {:induction false} TakeDrop(x: Bytes, y: Bytes)
    ensures (x + y)[..|x|] == x && (x + y)[|x|..] == y
  {
  }

  /** What comes next: string data up to the next header, the header, or the rest of the data. */
  lemma {:induction false} NextPiece(str: Bytes, at: nat, heads: seq<Head>, i: nat)
    requires i <= |heads| && at <= |str| && Ascending(heads[i..], at, |str|)
    ensures i < |heads| ==> at <= heads[i].offset <= |str| && heads[i].size >= 0
    ensures i < |heads| && at < heads[i].offset ==>
              && Ascending(heads[i..], heads[i].offset, |str|)
              && Interleave(str, at, heads[i..]) ==
                 str[at..heads[i].offset] + Interleave(str, heads[i].offset, heads[i..])
    ensures i < |heads| && at == heads[i].offset ==>
              && Ascending(heads[i + 1..], at, |str|) && ListHead(heads[i].size) != []
              && Interleave(str, at, heads[i..]) == ListHead(heads[i].size) + Interleave(str, at, heads[i + 1..])
    ensures i == |heads| ==>
              && Ascending([], |str|, |str|) && heads[i..] == []
              && Interleave(str, at, []) == str[at..] && Interleave(str, |str|, []) == []
  {
    hide Interleave, Ascending, ListHead;
    NoMorePieces(str, at);
    if i < |heads| {
      InterleaveStep(str, at, heads, i);
      if at < heads[i].offset {
        DataFirst(str, at, heads[i..]);
      } else {
        assert str[at..at] == [];
        HeadIsSomething(heads[i].size);
      }
    }
  }

  lemma {:induction false} NoMorePieces(str: Bytes, at: nat)
    requires at <= |str|
    ensures Ascending([], at, |str|) && Ascending([], |str|, |str|)
    ensures Interleave(str, at, []) == str[at..] && Interleave(str, |str|, []) == []
  {
  }

  lemma {:induction false} HeadIsSomething(size: nat)
    ensures ListHead(size) != []
  {
  }

  lemma {:induction false} DataFirst(str: Bytes, at: nat, heads: seq<Head>)
    requires heads != [] && Ascending(heads, at, |str|) && at < heads[0].offset
    ensures Ascending(heads, heads[0].offset, |str|)
    ensures Interleave(str, at, heads) == str[at..heads[0].offset] + Interleave(str, heads[0].offset, heads)
  {
    hide Interleave;
    InterleaveSkip(str, at, heads[0].offset - at, heads);
  }

  /** Hands the encoding out in pieces of whatever size the caller asks for. */
  class EncReader {
    var str: Bytes
    var lheads: seq<Head>
    var released: bool
    var lhpos: nat
    var strpos: nat
    var piece: Bytes

    ghost predicate Valid()
      reads this
    {
      && lhpos <= |lheads| && strpos <= |str|
      && Ascending(lheads[lhpos..], strpos, |str|)
      && (released ==> piece == [] && lhpos == |lheads| && strpos == |str|)
    }

    /** What the reader still has to deliver. */
    ghost function Remaining(): Bytes
      requires Valid()
      reads this
    {
      piece + Interleave(str, strpos, lheads[lhpos..])
    }

    constructor (v: Value)
      requires Fits(v)
      ensures Valid() && Remaining() == Encode(v)
    {
      var eb := new EncBuf();
      eb.WriteValue(v);
      TwoPassesEncode(v);
      str, lheads, released, lhpos, strpos, piece := eb.str, eb.lheads, false, 0, 0, [];
      new;
      assert str == Data(v) && lheads[0..] == Heads(v, 0);
    }

    /** Loads the next piece; nothing is left exactly when none was found. */
    method Next()
      requires Valid()
      modifies this`piece, this`lhpos, this`strpos
      ensures Valid() && Remaining() == old(Remaining())
      ensures piece == [] <==> Remaining() == []
      ensures piece == [] ==> lhpos == |lheads| && strpos == |str|
      ensures (|lheads| - lhpos) + (|str| - strpos) <= old((|lheads| - lhpos) + (|str| - strpos))
      ensures old(piece) == [] && piece != [] ==>
                (|lheads| - lhpos) + (|str| - strpos) < old((|lheads| - lhpos) + (|str| - strpos))
    {
      hide Interleave, Ascending, ListHead;
      NextPiece(str, strpos, lheads, lhpos);
      if piece != [] || released {
      } else if lhpos < |lheads| {
        var head := lheads[lhpos];
        if head.offset - strpos > 0 {
          piece := str[strpos..head.offset];
          strpos := head.offset;
        } else {
          lhpos := lhpos + 1;
          piece := ListHead(head.size);
        }
      } else if strpos < |str| {
        piece := str[strpos..];
        strpos := |str|;
      }
    }

    /** Fills b with the next bytes; end of input is reported once everything has been handed out. */
    method Read(b: array<byte>) returns (n: nat, eof: bool)
      requires Valid()
      modifies this, b
      ensures Valid() && str == old(str) && lheads == old(lheads)
      ensures n == if b.Length <= |old(Remaining())| then b.Length else |old(Remaining())|
      ensures b[..n] == old(Remaining())[..n]
      ensures Remaining() == old(Remaining())[n..]
      ensures eof <==> |old(Remaining())| <= b.Length
      ensures b[n..] == old(b[n..])
    {
      hide Interleave, Ascending;
      n := 0;
      assert b[..0] + Remaining() == Remaining();
      while true
        invariant Valid() && n <= b.Length && str == old(str) && lheads == old(lheads)
        invariant b[..n] + Remaining() == old(Remaining())
        invariant b[n..] == old(b[n..])
        decreases (|lheads| - lhpos) + (|str| - strpos), |piece|
      {
        Next();
        if piece == [] {
          released := true;
          TakeDrop(b[..n], Remaining());
          return n, true;
        }
        var nn := Deliver(b, n);
        n := n + nn;
        if piece != [] {
          TakeDrop(b[..n], Remaining());
          return n, false;
        }
      }
    }

    /** Copies as much of the current piece as fits behind the n bytes already delivered. */
    method Deliver(b: array<byte>, n: nat) returns (nn: nat)
      requires Valid() && piece != [] && n <= b.Length
      modifies this`piece, b
      ensures Valid() && n + nn <= b.Length
      ensures b[..n + nn] + Remaining() == old(b[..n] + Remaining())
      ensures b[n + nn..] == old(b[n + nn..])
      ensures piece != [] ==> n + nn == b.Length
    {
      nn := if |piece| <= b.Length - n then |piece| else b.Length - n;
      forall k | 0 <= k < nn {
        b[n + k] := piece[k];
      }
      assert b[..n + nn] == old(b[..n]) + piece[..nn];
      assert piece == piece[..nn] + piece[nn..];
      piece := piece[nn..];
    }
  }
}
