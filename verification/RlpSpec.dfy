/** Recursive Length Prefix: the encoding as a recursive function, and its decoder on slices. */
module RlpSpec {
  import opened Bytes

  /** What an untyped RLP value can be: a byte string or a list. */
  datatype Value = Str(bytes: Bytes) | List(items: seq<Value>)

  /** The header of a value with the given payload size. Byte additions wrap, as in the source. */
  function Head(small: byte, large: byte, size: nat): (h: Bytes)
    ensures |h| >= 1
  {
    if size < 56 then [(small + size) % 256]
    else [(large + |BigEndian(size)|) % 256] + BigEndian(size)
  }

  function StringHead(size: nat): (h: Bytes)
    ensures |h| >= 1
  {
    Head(0x80, 0xB7, size)
  }

  function ListHead(size: nat): (h: Bytes)
    ensures |h| >= 1
  {
    Head(0xC0, 0xF7, size)
  }

  function EncodeString(b: Bytes): (r: Bytes)
    ensures |r| >= 1
  {
    if |b| == 1 && b[0] <= 0x7F then b else StringHead(|b|) + b
  }

  function Encode(v: Value): (r: Bytes)
    ensures |r| >= 1
    decreases v, 0
  {
    match v
    case Str(b) => EncodeString(b)
    case List(items) => ListHead(|EncodeAll(items)|) + EncodeAll(items)
  }

  function EncodeAll(vs: seq<Value>): Bytes
    decreases vs, 1
  {
    if vs == [] then [] else Encode(vs[0]) + EncodeAll(vs[1..])
  }

  const MAX_UINT64: nat := 0x1_0000_0000_0000_0000

  /** Sizes are uint64 in the source; a value fits when its whole encoding has a uint64 length. */
  predicate Fits(v: Value) {
    |Encode(v)| < MAX_UINT64
  }

  lemma {:induction false} Pow256Eight()
    ensures Pow256(8) == MAX_UINT64
  {
    assert Pow256(2) == 0x1_0000;
    assert Pow256(4) == 0x1_0000_0000;
    assert Pow256(6) == 0x1_0000_0000_0000;
  }

  lemma {:induction false} EncodeAllAppend(xs: seq<Value>, ys: seq<Value>)
    ensures EncodeAll(xs + ys) == EncodeAll(xs) + EncodeAll(ys)
  {
    hide Encode;
    if xs == [] {
      assert xs + ys == ys;
    } else {
      EncodeAllAppend(xs[1..], ys);
      assert (xs + ys)[1..] == xs[1..] + ys;
    }
  }

  // ---- slices (raw.go) ----

  datatype Kind = KByte | KString | KList

  datatype Error =
    | UnexpectedEOF | ErrCanonSize | ErrCanonInt | ErrValueTooLarge | ErrElemTooLarge | ErrMoreThanOneValue
    | ErrExpectedString | ErrExpectedList | ErrNotInList | ErrNotAtEOL | ErrUintOverflow | EOF | EOL

  datatype Result<+T> = Ok(value: T) | Err(error: Error)

  datatype Header = Header(kind: Kind, tagsize: nat, contentsize: nat)

  function ReadSize(b: Bytes, slen: nat): (r: Result<nat>)
    requires slen >= 1
  {
    if slen > |b| then Err(UnexpectedEOF)
    else
      var s := FromBigEndian(b[..slen]);
      if s < 56 || b[0] == 0 then Err(ErrCanonSize) else Ok(s)
  }

  function ReadKind(buf: Bytes): (r: Result<Header>)
    ensures r.Ok? ==> 1 <= r.value.tagsize + r.value.contentsize <= |buf|
    ensures r.Ok? && r.value.kind.KList? ==> r.value.tagsize >= 1
  {
    if |buf| == 0 then Err(UnexpectedEOF)
    else
      var b := buf[0];
      if b < 0x80 then Ok(Header(KByte, 0, 1))
      else if b < 0xB8 then
        if b == 0x81 && |buf| > 1 && buf[1] < 128 then Err(ErrCanonSize)
        else Checked(buf, KString, 1, b - 0x80)
      else if b < 0xC0 then
        match ReadSize(buf[1..], b - 0xB7)
        case Err(e) => Err(e)
        case Ok(size) => Checked(buf, KString, b - 0xB7 + 1, size)
      else if b < 0xF8 then Checked(buf, KList, 1, b - 0xC0)
      else
        match ReadSize(buf[1..], b - 0xF7)
        case Err(e) => Err(e)
        case Ok(size) => Checked(buf, KList, b - 0xF7 + 1, size)
  }

  /** Rejects values larger than the input slice. */
  function Checked(buf: Bytes, k: Kind, tagsize: nat, contentsize: nat): (r: Result<Header>)
    ensures r.Ok? <==> tagsize + contentsize <= |buf|
    ensures r.Ok? ==> r.value == Header(k, tagsize, contentsize)
  {
    if tagsize + contentsize > |buf| then Err(ErrValueTooLarge) else Ok(Header(k, tagsize, contentsize))
  }

  datatype SplitResult = SplitResult(kind: Kind, content: Bytes, rest: Bytes)

  function Split(b: Bytes): (r: Result<SplitResult>)
    ensures r.Ok? ==> |r.value.rest| < |b|
  {
    match ReadKind(b)
    case Err(e) => Err(e)
    case Ok(Header(k, ts, cs)) => Ok(SplitResult(k, b[ts..ts + cs], b[ts + cs..]))
  }

  function SplitString(b: Bytes): (r: Result<SplitResult>)
    ensures r.Ok? ==> r.value.kind != KList
  {
    match Split(b)
    case Err(e) => Err(e)
    case Ok(s) => if s.kind == KList then Err(ErrExpectedString) else Ok(s)
  }

  function SplitList(b: Bytes): (r: Result<SplitResult>)
    ensures r.Ok? ==> r.value.kind == KList
  {
    match Split(b)
    case Err(e) => Err(e)
    case Ok(s) => if s.kind != KList then Err(ErrExpectedList) else Ok(s)
  }

  /** How many values a slice holds, by recursion on the slice. */
  function Count(b: Bytes): (r: Result<nat>)
    decreases |b|
  {
    if b == [] then Ok(0)
    else
      match ReadKind(b)
      case Err(e) => Err(e)
      case Ok(h) =>
        match Count(b[h.tagsize + h.contentsize..])
        case Err(e) => Err(e)
        case Ok(n) => Ok(n + 1)
  }

  method CountValues(b: Bytes) returns (r: Result<nat>)
    ensures r == Count(b)
  {
    var i := 0;
    var rest := b;
    while |rest| > 0
      invariant Count(b) == (match Count(rest) case Err(e) => Err(e) case Ok(n) => Ok(i + n))
      decreases |rest|
    {
      var k := ReadKind(rest);
      match k {
        case Err(e) => return Err(e);
        case Ok(h) => rest := rest[h.tagsize + h.contentsize..];
      }
      i := i + 1;
    }
    return Ok(i);
  }

  // ---- the decoder of whole values on slices ----

  /** Decodes the first value of b; also says how many bytes it took. */
  function Decode(b: Bytes): (r: Option<(Value, nat)>)
    ensures r.Some? ==> 1 <= r.value.1 <= |b|
    decreases |b|, 0
  {
    match ReadKind(b)
    case Err(_) => None
    case Ok(Header(k, ts, cs)) =>
      var content := b[ts..ts + cs];
      if k != KList then Some((Str(content), ts + cs))
      else
        match DecodeAll(content)
        case None => None
        case Some(vs) => Some((List(vs), ts + cs))
  }

  function DecodeAll(b: Bytes): (r: Option<seq<Value>>)
    decreases |b|, 1
  {
    if b == [] then Some([])
    else
      match Decode(b)
      case None => None
      case Some((v, n)) =>
        match DecodeAll(b[n..])
        case None => None
        case Some(vs) => Some([v] + vs)
  }

  function HeadOf(k: Kind, size: nat): (h: Bytes)
    ensures |h| >= 1
  {
    if k == KList then ListHead(size) else StringHead(size)
  }

  lemma {:induction false} ReadSizeOfBigEndian(size: nat, b: Bytes)
    requires 56 <= size < MAX_UINT64 && BigEndian(size) <= b
    ensures |BigEndian(size)| <= 8 && ReadSize(b, |BigEndian(size)|) == Ok(size)
  {
    Pow256Eight();
    BigEndianLength(size, 8);
    BigEndianValue(size);
    assert b[..|BigEndian(size)|] == BigEndian(size);
  }

  lemma {:induction false} ReadSizeCanonical(b: Bytes, slen: nat)
    requires 1 <= slen && ReadSize(b, slen).Ok?
    ensures var size := ReadSize(b, slen).value;
            slen <= |b| && size >= 56 && BigEndian(size) == b[..slen]
  {
    BigEndianCanonical(b[..slen]);
  }

  lemma {:induction false} LongHeadIsRead(k: Kind, size: nat, b: Bytes)
    requires k != KByte && 56 <= size < MAX_UINT64
    requires |HeadOf(k, size)| <= |b| && b[..|HeadOf(k, size)|] == HeadOf(k, size)
    ensures ReadKind(b) == Checked(b, k, |HeadOf(k, size)|, size)
  {
    var be := BigEndian(size);
    var h := HeadOf(k, size);
    Pow256Eight();
    BigEndianLength(size, 8);
    assert b[0] == b[..|h|][0] == (if k == KList then 0xF7 else 0xB7) + |be|;
    assert b[1..][..|be|] == b[..|h|][1..] == be;
    ReadSizeOfBigEndian(size, b[1..]);
  }

  /** Reading back a header written for a payload of the given size. */
  lemma {:induction false} HeadIsRead(k: Kind, size: nat, b: Bytes)
    requires k != KByte && size < MAX_UINT64
    requires |HeadOf(k, size)| <= |b| && b[..|HeadOf(k, size)|] == HeadOf(k, size)
    requires k == KString && size == 1 ==> |b| > 1 && b[1] >= 128
    ensures ReadKind(b) == Checked(b, k, |HeadOf(k, size)|, size)
  {
    if size >= 56 {
      LongHeadIsRead(k, size, b);
    } else {
      assert b[0] == b[..1][0];
    }
  }

  lemma {:induction false} LongHeadIsCanonical(b: Bytes, k: Kind, slen: nat)
    requires 1 <= slen <= 8 && |b| >= 1
    requires b[0] == (if k == KList then 0xF7 else 0xB7) + slen
    requires ReadSize(b[1..], slen).Ok?
    ensures var size := ReadSize(b[1..], slen).value;
            size >= 56 && slen + 1 <= |b| && b[..slen + 1] == HeadOf(k, size)
  {
    ReadSizeCanonical(b[1..], slen);
    assert b[..slen + 1] == [b[0]] + b[1..][..slen];
  }

  lemma {:induction false} ReadTagIsCanonical(b: Bytes)
    requires ReadKind(b).Ok? && ReadKind(b).value.kind != KByte
    ensures var h := ReadKind(b).value;
            b[..h.tagsize] == HeadOf(h.kind, h.contentsize)
  {
    if b[0] >= 0xF8 {
      LongHeadIsCanonical(b, KList, b[0] - 0xF7);
    } else if 0xB8 <= b[0] < 0xC0 {
      LongHeadIsCanonical(b, KString, b[0] - 0xB7);
    } else {
      assert b[..1] == [b[0]];
    }
  }

  /** What the first byte and a string of one byte say of an accepted header. */
  lemma {:induction false} ReadHeadOfOne(b: Bytes)
    requires ReadKind(b).Ok?
    ensures var h := ReadKind(b).value;
            && (h.kind == KByte ==> h.tagsize == 0 && h.contentsize == 1 && b[0] < 128)
            && (h.kind == KString && h.contentsize == 1 ==> h.tagsize == 1 && b[1] >= 128)
  {
  }

  /** Whatever header is accepted is the one header the encoder writes for that payload. */
  lemma {:induction false} ReadHeadIsCanonical(b: Bytes)
    requires ReadKind(b).Ok?
    ensures var h := ReadKind(b).value;
            var content := b[h.tagsize..h.tagsize + h.contentsize];
            b[..h.tagsize + h.contentsize] ==
              if h.kind == KList then ListHead(|content|) + content else EncodeString(content)
  {
    hide ReadKind;
    var h := ReadKind(b).value;
    var content := b[h.tagsize..h.tagsize + h.contentsize];
    assert b[..h.tagsize + h.contentsize] == b[..h.tagsize] + content;
    ReadHeadOfOne(b);
    if h.kind == KByte {
      assert content == [b[0]];
    } else {
      ReadTagIsCanonical(b);
    }
  }

  /** Soundness: accepted bytes are exactly the encoding of the value returned. */
  lemma {:induction false} DecodeSound(b: Bytes)
    ensures Decode(b).Some? ==> var (v, n) := Decode(b).value; Encode(v) == b[..n]
    decreases |b|, 0
  {
    if Decode(b).Some? {
      ReadHeadIsCanonical(b);
      var h := ReadKind(b).value;
      if h.kind == KList {
        DecodeAllSound(b[h.tagsize..h.tagsize + h.contentsize]);
      }
    }
  }

  lemma {:induction false} DecodeAllSound(b: Bytes)
    ensures DecodeAll(b).Some? ==> EncodeAll(DecodeAll(b).value) == b
    decreases |b|, 1
  {
    if b != [] && DecodeAll(b).Some? {
      DecodeSound(b);
      var (v, n) := Decode(b).value;
      DecodeAllSound(b[n..]);
      var vs := DecodeAll(b[n..]).value;
      assert ([v] + vs)[1..] == vs;
      assert b == b[..n] + b[n..];
    }
  }

  /** A header followed by its payload is split where it was joined. */
  lemma {:induction false} HeadAndPayload(k: Kind, p: Bytes, b: Bytes)
    requires k != KByte && |p| < MAX_UINT64
    requires HeadOf(k, |p|) + p <= b
    requires k == KString && |p| == 1 ==> p[0] >= 128
    ensures var ts := |HeadOf(k, |p|)|;
            ts + |p| <= |b| && ReadKind(b) == Ok(Header(k, ts, |p|)) && b[ts..ts + |p|] == p
  {
    var h := HeadOf(k, |p|);
    var n := |h| + |p|;
    assert b[..n] == h + p;
    assert b[..|h|] == b[..n][..|h|] == h;
    assert b[|h|..n] == b[..n][|h|..] == p;
    HeadIsRead(k, |p|, b);
  }

  /** Completeness: the encoding of any value that fits is accepted, with that value. */
  lemma {:induction false} DecodeComplete(v: Value, b: Bytes)
    requires Fits(v) && Encode(v) <= b
    ensures Decode(b) == Some((v, |Encode(v)|))
    decreases v, 0
  {
    match v
    case Str(s) =>
      DecodeString(s, b);
    case List(items) =>
      DecodeAllComplete(items);
      DecodeList(items, b);
  }

  lemma {:induction false} DecodeList(items: seq<Value>, b: Bytes)
    requires Fits(List(items)) && Encode(List(items)) <= b && DecodeAll(EncodeAll(items)) == Some(items)
    ensures Decode(b) == Some((List(items), |Encode(List(items))|))
  {
    hide ReadKind, EncodeAll, DecodeAll;
    HeadAndPayload(KList, EncodeAll(items), b);
  }

  lemma {:induction false} DecodeString(s: Bytes, b: Bytes)
    requires Fits(Str(s)) && Encode(Str(s)) <= b
    ensures Decode(b) == Some((Str(s), |Encode(Str(s))|))
  {
    hide DecodeAll, EncodeAll;
    if |s| == 1 && s[0] <= 0x7F {
      assert b[0..1] == s;
    } else {
      HeadAndPayload(KString, s, b);
    }
  }

  lemma {:induction false} DecodeAllComplete(vs: seq<Value>)
    requires |EncodeAll(vs)| < MAX_UINT64
    ensures DecodeAll(EncodeAll(vs)) == Some(vs)
    decreases vs, 1
  {
    if vs != [] {
      var b := EncodeAll(vs);
      var n := |Encode(vs[0])|;
      DecodeComplete(vs[0], b);
      assert b[n..] == EncodeAll(vs[1..]);
      DecodeAllComplete(vs[1..]);
      assert vs == [vs[0]] + vs[1..];
    }
  }

  /** Encoding is prefix-free, so concatenated encodings split in one way only. */
  lemma {:induction false} EncodePrefixFree(v: Value, w: Value, b: Bytes)
    requires Fits(v) && Fits(w) && Encode(v) <= b && Encode(w) <= b
    ensures v == w
  {
    DecodeComplete(v, b);
    DecodeComplete(w, b);
  }

  /** Splitting an encoded list and counting its content gives back the payload and the length. */
  lemma {:induction false} SplitOfEncoding(v: Value, rest: Bytes)
    requires Fits(v)
    ensures Split(Encode(v) + rest).Ok?
    ensures var s := Split(Encode(v) + rest).value;
            && s.rest == rest
            && (s.kind == KList <==> v.List?)
            && s.content == (if v.List? then EncodeAll(v.items) else v.bytes)
            && (v.List? ==> Count(s.content) == Ok(|v.items|))
  {
    var b := Encode(v) + rest;
    DecodeComplete(v, b);
    var h := ReadKind(b).value;
    assert b[|Encode(v)|..] == rest;
    if v.List? {
      HeadAndPayload(KList, EncodeAll(v.items), b);
      CountOfEncodings(v.items);
    }
  }

  lemma {:induction false} CountOfEncodings(vs: seq<Value>)
    requires |EncodeAll(vs)| < MAX_UINT64
    ensures Count(EncodeAll(vs)) == Ok(|vs|)
  {
    if vs != [] {
      var b := EncodeAll(vs);
      DecodeComplete(vs[0], b);
      assert b[|Encode(vs[0])|..] == EncodeAll(vs[1..]);
      CountOfEncodings(vs[1..]);
    }
  }
}
