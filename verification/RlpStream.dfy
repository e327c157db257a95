/** The streaming RLP decoder: a cursor over the input with a stack of open lists. */
module RlpStream {
  import opened Bytes
  import opened RlpSpec

  datatype ListPos = ListPos(pos: nat, size: nat)

  /** Where the stream stands: the input position and the lists that are open there. */
  datatype Cursor = Cursor(at: nat, stack: seq<ListPos>)

  function Advanced(c: Cursor, n: nat): Cursor {
    if c.stack == [] then Cursor(c.at + n, [])
    else
      var last := |c.stack| - 1;
      Cursor(c.at + n, c.stack[last := ListPos(c.stack[last].pos + n, c.stack[last].size)])
  }

  lemma {:induction false} AdvancedInside(at: nat, outer: seq<ListPos>, n: nat)
    ensures Advanced(Cursor(at, outer + [ListPos(0, n)]), n) == Cursor(at + n, outer + [ListPos(n, n)])
  {
  }

  /** The cursor lies in the input, and so does what is left of its innermost list. */
  predicate InInput(input: Bytes, c: Cursor) {
    && c.at <= |input|
    && (c.stack != [] ==>
          var tos := c.stack[|c.stack| - 1];
          tos.pos <= tos.size && tos.size - tos.pos <= |input| - c.at)
  }

  /** What may be read: the rest of the innermost list, or of the input. */
  function Window(input: Bytes, c: Cursor): Bytes
    requires InInput(input, c)
  {
    if c.stack == [] then input[c.at..]
    else var tos := c.stack[|c.stack| - 1]; input[c.at..c.at + (tos.size - tos.pos)]
  }

  lemma {:induction false} WindowAdvanced(input: Bytes, c: Cursor, n: nat)
    requires InInput(input, c) && n <= |Window(input, c)|
    ensures InInput(input, Advanced(c, n)) && Window(input, Advanced(c, n)) == Window(input, c)[n..]
  {
  }

  /** An unchecked header: how many bytes it takes, and the size it announces. */
  datatype Tag = Tag(kind: Kind, width: nat, size: nat)

  function TagAt(w: Bytes): (r: Option<Tag>)
    ensures r.Some? ==> 1 <= r.value.width <= |w|
  {
    if |w| == 0 then None
    else
      var b := w[0];
      if b < 0x80 then Some(Tag(KByte, 1, 0))
      else if b < 0xB8 then Some(Tag(KString, 1, b - 0x80))
      else if b < 0xC0 then LongTag(w, KString, b - 0xB7)
      else if b < 0xF8 then Some(Tag(KList, 1, b - 0xC0))
      else LongTag(w, KList, b - 0xF7)
  }

  function LongTag(w: Bytes, k: Kind, n: nat): (r: Option<Tag>)
    requires |w| >= 1 && n >= 1
    ensures r.Some? ==> 1 <= r.value.width <= |w|
  {
    match ReadSize(w[1..], n)
    case Err(_) => None
    case Ok(size) => Some(Tag(k, 1 + n, size))
  }

  /** The value announced at the front of the window lies inside the window. */
  predicate TagFits(w: Bytes) {
    TagAt(w).Some? && TagAt(w).value.width + TagAt(w).value.size <= |w|
  }

  /** A one-byte string below 128, which should have been a plain byte. */
  predicate SingleByteString(w: Bytes) {
    |w| > 1 && w[0] == 0x81 && w[1] < 128
  }

  /** The stream accepts the headers the slice reader accepts, and single-byte strings
      (those are refused when their content is read). */
  lemma {:induction false} TagsAgree(w: Bytes)
    ensures TagFits(w) <==> ReadKind(w).Ok? || SingleByteString(w)
    ensures ReadKind(w).Ok? ==>
              var t, h := TagAt(w).value, ReadKind(w).value;
              && t.kind == h.kind
              && if h.kind == KByte then t.width == 1 && t.size == 0 && h.tagsize == 0 && h.contentsize == 1
                 else t.width == h.tagsize && t.size == h.contentsize
  {
  }

  /** What the slice splitter makes of a window, told from its tag. */
  lemma {:induction false} TagSplits(w: Bytes)
    ensures !TagFits(w) || SingleByteString(w) ==> Split(w).Err?
    ensures TagFits(w) && !SingleByteString(w) ==>
              var t := TagAt(w).value;
              Split(w) == Ok(if t.kind == KByte then SplitResult(KByte, [w[0]], w[1..])
                             else SplitResult(t.kind, w[t.width..t.width + t.size], w[t.width + t.size..]))
  {
    TagsAgree(w);
    if TagFits(w) && TagAt(w).value.kind == KByte {
      assert w[0..1] == [w[0]];
    }
  }

  /** How a single-byte string shows: one byte of content, below 128. */
  lemma {:induction false} SingleByteTag(w: Bytes)
    requires TagFits(w) && TagAt(w).value.kind == KString
    ensures var t := TagAt(w).value; SingleByteString(w) <==> t.size == 1 && w[t.width] < 128
  {
  }

  /** A list in front is split off exactly if its tag fits. */
  lemma {:induction false} ListSplits(w: Bytes)
    ensures SplitList(w).Ok? <==> TagFits(w) && TagAt(w).value.kind == KList
    ensures SplitList(w).Ok? ==>
              var t, content := TagAt(w).value, SplitList(w).value.content;
              && t.width + t.size <= |w| && content == w[t.width..][..t.size] && |content| == t.size < |w|
              && w == w[..t.width] + content + SplitList(w).value.rest
  {
    TagsAgree(w);
    TagSplits(w);
  }

  lemma {:induction false} TagOfListDecodes(w: Bytes)
    requires TagFits(w) && TagAt(w).value.kind == KList
    ensures var t := TagAt(w).value;
            && SplitList(w).Ok? && SplitList(w).value.content == w[t.width..t.width + t.size]
            && Decode(w) == (match DecodeAll(w[t.width..t.width + t.size])
                             case None => None
                             case Some(vs) => Some((List(vs), t.width + t.size)))
  {
    TagsAgree(w);
  }

  function Prepend(vs: seq<Value>, more: Option<seq<Value>>): Option<seq<Value>> {
    match more
    case None => None
    case Some(ws) => Some(vs + ws)
  }

  lemma {:induction false} DecodeAllStep(vs: seq<Value>, w: Bytes)
    requires w != []
    ensures Decode(w).None? ==> Prepend(vs, DecodeAll(w)) == None
    ensures Decode(w).Some? ==>
              var (v, m) := Decode(w).value;
              Prepend(vs, DecodeAll(w)) == Prepend(vs + [v], DecodeAll(w[m..]))
  {
    if Decode(w).Some? {
      var (v, m) := Decode(w).value;
      var more := DecodeAll(w[m..]);
      assert more.Some? ==> vs + ([v] + more.value) == vs + [v] + more.value;
    }
  }

  class Stream {
    const input: Bytes
    var at: nat
    var remaining: nat
    var kind: Option<Kind>
    var size: nat
    var byteval: byte
    var kinderr: Option<Error>
    var stack: seq<ListPos>

    ghost predicate Valid()
      reads this
    {
      at + remaining == |input| && InInput(input, Where())
    }

    ghost function Where(): Cursor
      reads this
    {
      Cursor(at, stack)
    }

    ghost function Ahead(): Bytes
      requires Valid()
      reads this
    {
      Window(input, Where())
    }

    constructor (b: Bytes)
      ensures input == b && Valid() && Where() == Cursor(0, []) && kind == None && Ahead() == b
    {
      input := b;
      at, remaining, kind, size, byteval, kinderr, stack := 0, |b|, None, 0, 0, None, [];
    }

    method WillRead(n: nat) returns (e: Option<Error>)
      requires Valid()
      modifies this`kind, this`stack, this`remaining
      ensures e == None <==> n <= |old(Ahead())|
      ensures e == None ==> kind == None && Cursor(at + n, stack) == Advanced(old(Where()), n)
      ensures e == None ==> remaining == old(remaining) - n
      ensures e != None ==> e.value == if old(stack) == [] then ErrValueTooLarge else ErrElemTooLarge
      ensures |stack| == |old(stack)|
    {
      kind := None;
      if |stack| > 0 {
        var tos := stack[|stack| - 1];
        if n > tos.size - tos.pos {
          return Some(ErrElemTooLarge);
        }
        stack := stack[|stack| - 1 := ListPos(tos.pos + n, tos.size)];
      }
      if n > remaining {
        return Some(ErrValueTooLarge);
      }
      remaining := remaining - n;
      return None;
    }

    /** The stream has taken n bytes of the window w it had in front of it at cursor c. */
    ghost predicate Took(c: Cursor, w: Bytes, n: nat)
      reads this
    {
      n <= |w| && Valid() && Where() == Advanced(c, n) && Ahead() == w[n..]
    }

    lemma {:induction false} TookMore(c: Cursor, w: Bytes, m: nat, c': Cursor, w': Bytes, n: nat)
      requires m <= |w| && c' == Advanced(c, m) && w' == w[m..] && Took(c', w', n)
      ensures Took(c, w, m + n)
    {
      assert w[m..][n..] == w[m + n..];
    }

    method ReadFull(n: nat) returns (r: Result<Bytes>)
      requires Valid()
      modifies this`kind, this`stack, this`remaining, this`at
      ensures |stack| == |old(stack)|
      ensures r.Ok? <==> n <= |old(Ahead())|
      ensures r.Ok? ==> kind == None && Took(old(Where()), old(Ahead()), n) && r.value == old(Ahead())[..n]
      ensures r.Err? ==> r.error != EOL
    {
      var e := WillRead(n);
      if e.Some? {
        return Err(e.value);
      }
      r := Ok(input[at..at + n]);
      at := at + n;
    }

    method ReadByte() returns (r: Result<byte>)
      requires Valid()
      modifies this`kind, this`stack, this`remaining, this`at
      ensures |stack| == |old(stack)|
      ensures r.Ok? <==> |old(Ahead())| >= 1
      ensures r.Ok? ==> kind == None && Took(old(Where()), old(Ahead()), 1) && r.value == old(Ahead())[0]
      ensures r.Err? ==> r.error != EOL
    {
      var b := ReadFull(1);
      return if b.Err? then Err(b.error) else Ok(b.value[0]);
    }

    /** A number of n bytes, without a leading zero when n > 1. */
    method ReadUint(n: nat) returns (r: Result<nat>)
      requires Valid() && n <= 8
      modifies this`kind, this`stack, this`remaining, this`at
      ensures |stack| == |old(stack)|
      ensures r.Ok? <==> n <= |old(Ahead())| && (n <= 1 || old(Ahead())[0] != 0)
      ensures r.Ok? ==>
                && kind == None && Took(old(Where()), old(Ahead()), n)
                && r.value == FromBigEndian(old(Ahead())[..n])
      ensures r.Err? ==> r.error != EOL
    {
      if n == 0 {
        kind := None;
        return Ok(0);
      }
      var b := ReadFull(n);
      if b.Err? {
        return Err(b.error);
      }
      if n > 1 && b.value[0] == 0 {
        return Err(ErrCanonSize);
      }
      return Ok(FromBigEndian(b.value));
    }

    /** The rest of a long header; sizes that should have been short are refused. */
    method ReadLongTag(k: Kind, n: nat, ghost c: Cursor, ghost w: Bytes) returns (r: Result<(Kind, nat)>)
      requires Took(c, w, 1) && 1 <= n <= 8
      modifies this`kind, this`stack, this`remaining, this`at
      ensures |stack| == |old(stack)|
      ensures r.Ok? <==> LongTag(w, k, n).Some?
      ensures r.Ok? ==> var t := LongTag(w, k, n).value; Took(c, w, t.width) && r.value == (k, t.size)
      ensures r.Err? ==> r.error != EOL
    {
      ghost var c', w' := Where(), Ahead();
      var u := ReadUint(n);
      if n == 1 && |w'| >= 1 && w'[0] == 0 {
        assert w'[..1] == [0] && [0][..0] == [];
      }
      if u.Err? {
        return Err(u.error);
      }
      if u.value < 56 {
        return Err(ErrCanonSize);
      }
      TookMore(c, w, 1, c', w', n);
      return Ok((k, u.value));
    }

    /** Reads the header; the size it announces is checked by the caller. */
    method ReadHeader() returns (r: Result<(Kind, nat)>)
      requires Valid()
      modifies this`kind, this`stack, this`remaining, this`at, this`byteval
      ensures |stack| == |old(stack)|
      ensures r.Ok? <==> TagAt(old(Ahead())).Some?
      ensures r.Ok? ==>
                var t := TagAt(old(Ahead())).value;
                && Took(old(Where()), old(Ahead()), t.width) && r.value == (t.kind, t.size)
                && (t.kind == KByte ==> byteval == old(Ahead())[0])
      ensures r.Err? ==> r.error != EOL
    {
      ghost var c, w := Where(), Ahead();
      var rb := ReadByte();
      if rb.Err? {
        return Err(if rb.error == ErrValueTooLarge && |stack| == 0 then EOF else rb.error);
      }
      var b := rb.value;
      byteval := 0;
      if b < 0x80 {
        byteval := b;
        r := Ok((KByte, 0));
      } else if b < 0xB8 {
        r := Ok((KString, b - 0x80));
      } else if b < 0xC0 {
        r := ReadLongTag(KString, b - 0xB7, c, w);
      } else if b < 0xF8 {
        r := Ok((KList, b - 0xC0));
      } else {
        r := ReadLongTag(KList, b - 0xF7, c, w);
      }
    }

    /** The header at w has been read and remembered, and the stream stands behind it. */
    ghost predicate Primed(c: Cursor, w: Bytes)
      reads this
    {
      && TagFits(w) && kinderr == None
      && var t := TagAt(w).value;
      && kind == Some(t.kind) && size == t.size && Took(c, w, t.width)
      && (t.kind == KByte ==> byteval == w[0])
    }

    /** Reads a header, checks its size against the window and remembers it, errors included. */
    method Prime() returns (e: Option<Error>)
      requires Valid() && kind == None && (stack != [] ==> Ahead() != [])
      modifies this
      ensures |stack| == |old(stack)| && e == kinderr && kind.Some?
      ensures e == None <==> TagFits(old(Ahead()))
      ensures e == None ==> Primed(old(Where()), old(Ahead()))
      ensures e != Some(EOL)
    {
      kinderr := None;
      var h := ReadHeader();
      if h.Err? {
        kind, size, kinderr := Some(KByte), 0, Some(h.error);
        return kinderr;
      }
      kind, size := Some(h.value.0), h.value.1;
      if |stack| == 0 {
        if size > remaining {
          kinderr := Some(ErrValueTooLarge);
        }
      } else {
        var tos := stack[|stack| - 1];
        if size > tos.size - tos.pos {
          kinderr := Some(ErrElemTooLarge);
        }
      }
      return kinderr;
    }

    lemma {:induction false} PrimedInside(c: Cursor, w: Bytes)
      requires Primed(c, w)
      ensures Valid() && TagFits(w) && kind != None && InInput(input, Where())
      ensures var n := TagAt(w).value.width;
              && n <= |w| && Where() == Advanced(c, n) && Where().at == c.at + n
              && Ahead() == Window(input, Where()) == w[n..]
    {
    }

    /** Ready for the value in the window w at cursor c: its header unread, or read and remembered. */
    ghost predicate Before(c: Cursor, w: Bytes)
      reads this
    {
      if kind == None then Valid() && c == Where() && w == Ahead() else Primed(c, w)
    }

    /** The kind and size of the next value: read on the first call, remembered on the next. */
    method NextKind(ghost c: Cursor, ghost w: Bytes) returns (r: Result<(Kind, nat)>)
      requires Before(c, w)
      modifies this
      ensures |stack| == |old(stack)|
      ensures r == Err(EOL) <==> old(kind) == None && old(stack) != [] && w == []
      ensures r == Err(EOL) ==> kind == None && Before(c, w)
      ensures r.Ok? <==> TagFits(w)
      ensures r.Ok? ==> Primed(c, w) && r.value == (TagAt(w).value.kind, TagAt(w).value.size)
    {
      if kind == None {
        if |stack| > 0 && stack[|stack| - 1].pos == stack[|stack| - 1].size {
          kinderr := None;
          return Err(EOL);
        }
        var e := Prime();
      }
      return if kinderr.Some? then Err(kinderr.value) else Ok((kind.value, size));
    }

    /** Reads a string; one byte below 128 in a string header is refused here. */
    method ReadBytes(ghost c: Cursor, ghost w: Bytes) returns (r: Result<Bytes>)
      requires Before(c, w)
      modifies this
      ensures r == Err(EOL) <==> old(kind) == None && old(stack) != [] && w == []
      ensures r.Ok? <==> SplitString(w).Ok?
      ensures r.Ok? ==> r.value == SplitString(w).value.content && kind == None
      ensures r.Ok? ==> Took(c, w, |w| - |SplitString(w).value.rest|)
    {
      var k := NextKind(c, w);
      TagSplits(w);
      if k.Err? {
        return Err(k.error);
      }
      match k.value.0 {
        case KByte =>
          kind := None;
          return Ok([byteval]);
        case KString =>
          r := ReadContent(c, w);
        case KList =>
          return Err(ErrExpectedString);
      }
    }

    method ReadContent(ghost c: Cursor, ghost w: Bytes) returns (r: Result<Bytes>)
      requires Primed(c, w) && kind == Some(KString)
      modifies this
      ensures r.Err? ==> r.error != EOL
      ensures r.Ok? <==> !SingleByteString(w)
      ensures r.Ok? ==>
                var t := TagAt(w).value;
                kind == None && Took(c, w, t.width + t.size) && r.value == w[t.width..t.width + t.size]
    {
      SingleByteTag(w);
      hide TagAt, SingleByteString;
      ghost var c', w', t := Where(), Ahead(), TagAt(w).value;
      var n := size;
      r := ReadFull(n);
      TookMore(c, w, t.width, c', w', t.size);
      assert w'[..t.size] == w[t.width..t.width + t.size];
      if n == 1 && r.value[0] < 128 {
        return Err(ErrCanonSize);
      }
    }

    /** Opens a list: from here on only its content is visible. */
    method OpenList(ghost c: Cursor, ghost w: Bytes) returns (r: Result<nat>)
      requires Before(c, w)
      modifies this
      ensures r.Ok? <==> SplitList(w).Ok?
      ensures r.Ok? ==>
                var content := SplitList(w).value.content;
                var t := TagAt(w).value;
                && Valid() && kind == None && r.value == |content| == t.size && |content| < |w|
                && Where() == Cursor(c.at + t.width, Advanced(c, t.width).stack + [ListPos(0, t.size)])
                && Ahead() == content
                && w == w[..t.width] + content + SplitList(w).value.rest
    {
      ListSplits(w);
      hide TagAt, ReadKind, SplitList, SingleByteString;
      var k := NextKind(c, w);
      if k.Err? {
        return Err(k.error);
      }
      if k.value.0 != KList {
        return Err(ErrExpectedList);
      }
      ghost var t := TagAt(w).value;
      stack := stack + [ListPos(0, k.value.1)];
      kind := None;
      size := 0;
      assert Ahead() == w[t.width..][..t.size];
      return Ok(k.value.1);
    }

    /** Closes a list that has been read to its end. */
    method CloseList() returns (e: Option<Error>)
      requires Valid() && (|stack| >= 2 ==> stack[|stack| - 2].pos + stack[|stack| - 1].size <= stack[|stack| - 2].size)
      modifies this`stack, this`kind, this`size
      ensures e == None <==> old(stack) != [] && old(stack)[|old(stack)| - 1].pos == old(stack)[|old(stack)| - 1].size
      ensures e == None ==>
                var last := |old(stack)| - 1;
                && kind == None
                && Where() == Cursor(at, Advanced(Cursor(0, old(stack)[..last]), old(stack)[last].size).stack)
    {
      if |stack| == 0 {
        return Some(ErrNotInList);
      }
      var tos := stack[|stack| - 1];
      if tos.pos != tos.size {
        return Some(ErrNotAtEOL);
      }
      stack := stack[..|stack| - 1];
      if |stack| > 0 {
        var up := stack[|stack| - 1];
        stack := stack[|stack| - 1 := ListPos(up.pos + tos.size, up.size)];
      }
      kind := None;
      size := 0;
      return None;
    }

    /** Decodes one untyped value: exactly the values the slice decoder accepts. */
    method DecodeInterface(ghost c: Cursor, ghost w: Bytes) returns (r: Result<Value>)
      requires Valid() && kind == None && c == Where() && w == Ahead()
      modifies this
      ensures r == Err(EOL) <==> old(stack) != [] && w == []
      ensures r == Err(EOL) ==> Where() == c && Valid() && kind == None && Ahead() == w
      ensures r.Ok? <==> Decode(w).Some?
      ensures r.Ok? ==> r.value == Decode(w).value.0 && kind == None && Took(c, w, Decode(w).value.1)
      decreases |w|, 1
    {
      var k := NextKind(c, w);
      TagsAgree(w);
      if k.Err? {
        return Err(k.error);
      }
      if k.value.0 == KList {
        r := DecodeListSlice(c, w);
      } else {
        var b := ReadBytes(c, w);
        r := if b.Err? then Err(b.error) else Ok(Str(b.value));
      }
    }

    method DecodeListSlice(ghost c: Cursor, ghost w: Bytes) returns (r: Result<Value>)
      requires Primed(c, w) && TagAt(w).value.kind == KList
      modifies this
      ensures r.Err? ==> r.error != EOL
      ensures r.Ok? <==> Decode(w).Some?
      ensures r.Ok? ==> r.value == Decode(w).value.0 && kind == None && Took(c, w, Decode(w).value.1)
      decreases |w|, 0
    {
      hide TagAt, TagFits, SplitList, Decode, DecodeAll, Advanced, Window, InInput, Took, Valid, Primed;
      PrimedInside(c, w);
      TagOfListDecodes(w);
      ghost var t, outer, behind := TagAt(w).value, Where(), Ahead();
      var size := OpenList(c, w);
      var vs := DecodeContent(size.value, outer, Ahead());
      if vs.Err? {
        return Err(vs.error);
      }
      var e := FinishList(outer, behind, t.size);
      TookMore(c, w, t.width, outer, behind, t.size);
      return Ok(List(vs.value));
    }

    /** Decodes the elements of a list just opened, if it has any. */
    method DecodeContent(size: nat, ghost outer: Cursor, ghost w: Bytes) returns (r: Result<seq<Value>>)
      requires Valid() && kind == None && w == Ahead() && size == |w|
      requires Where() == Cursor(outer.at, outer.stack + [ListPos(0, size)])
      modifies this
      ensures r.Err? ==> r.error != EOL
      ensures r.Ok? <==> DecodeAll(w).Some?
      ensures r.Ok? ==>
                && r.value == DecodeAll(w).value && Valid()
                && Where() == Cursor(outer.at + size, outer.stack + [ListPos(size, size)])
      decreases |w|, 4
    {
      if size == 0 {
        return Ok([]);
      }
      AdvancedInside(outer.at, outer.stack, size);
      hide DecodeAll, Advanced, Window, InInput;
      r := DecodeSliceElems(Where(), w);
    }

    /** Closing a list leaves the outer stream behind the list's content. */
    method FinishList(ghost outer: Cursor, ghost behind: Bytes, ghost n: nat) returns (e: Option<Error>)
      requires InInput(input, outer) && behind == Window(input, outer) && n <= |behind|
      requires Valid() && Where() == Cursor(outer.at + n, outer.stack + [ListPos(n, n)])
      modifies this`stack, this`kind, this`size
      ensures e == None && kind == None && Took(outer, behind, n)
    {
      assert stack[..|stack| - 1] == outer.stack;
      e := CloseList();
      WindowAdvanced(input, outer, n);
    }

    /** Decodes elements until the list ends. */
    method DecodeSliceElems(ghost c: Cursor, ghost w: Bytes) returns (r: Result<seq<Value>>)
      requires Valid() && kind == None && c == Where() && w == Ahead() && stack != []
      modifies this
      ensures r.Err? ==> r.error != EOL
      ensures r.Ok? <==> DecodeAll(w).Some?
      ensures r.Ok? ==> r.value == DecodeAll(w).value && kind == None && Took(c, w, |w|)
      decreases |w|, 3
    {
      var vs: seq<Value> := [];
      ghost var n := 0;
      assert w[0..] == w;
      assert DecodeAll(w).Some? ==> vs + DecodeAll(w).value == DecodeAll(w).value;
      while true
        invariant kind == None && Took(c, w, n) && stack != []
        invariant DecodeAll(w) == Prepend(vs, DecodeAll(w[n..]))
        decreases |w| - n
      {
        var v;
        v, n := DecodeElement(c, w, n, vs);
        if v == Err(EOL) {
          return Ok(vs);
        }
        if v.Err? {
          return Err(v.error);
        }
        vs := vs + [v.value];
      }
    }

    /** One element of a list of which n bytes and the elements vs have been read. */
    method DecodeElement(ghost c: Cursor, ghost w: Bytes, ghost n: nat, ghost vs: seq<Value>)
      returns (r: Result<Value>, ghost n': nat)
      requires kind == None && Took(c, w, n) && stack != []
      modifies this
      ensures r == Err(EOL) <==> n == |w|
      ensures r == Err(EOL) ==> kind == None && n' == n && Took(c, w, n')
      ensures r.Err? && r != Err(EOL) ==> Prepend(vs, DecodeAll(w[n..])) == None
      ensures r.Ok? ==> n < n' && kind == None && Took(c, w, n') && stack != []
      ensures r.Ok? ==> Prepend(vs, DecodeAll(w[n..])) == Prepend(vs + [r.value], DecodeAll(w[n'..]))
      decreases |w| - n, 2
    {
      ghost var c', w' := Where(), Ahead();
      r := DecodeInterface(c', w');
      n' := n;
      if w' != [] {
        DecodeAllStep(vs, w');
      }
      if r.Ok? {
        ghost var m := Decode(w').value.1;
        TookMore(c, w, n, c', w', m);
        assert w'[m..] == w[n + m..];
        n' := n + m;
      }
    }
  }

  /** Accepts exactly the bytes that are one encoded value, and returns that value. */
  method DecodeBytes(b: Bytes) returns (r: Result<Value>)
    ensures r.Ok? <==> Decode(b).Some? && Decode(b).value.1 == |b|
    ensures r.Ok? ==> r.value == Decode(b).value.0
  {
    var s := new Stream(b);
    r := s.DecodeInterface(s.Where(), s.Ahead());
    if r.Ok? && s.at < |b| {
      return Err(ErrMoreThanOneValue);
    }
  }

  /** Bytes DecodeBytes takes are the encoding of the value it returns, and of no other. */
  lemma {:induction false} AcceptedBytesAreEncodings(b: Bytes, v: Value)
    requires |b| < MAX_UINT64
    ensures Decode(b) == Some((v, |b|)) <==> Encode(v) == b
  {
    DecodeSound(b);
    assert b[..|b|] == b;
    if Encode(v) == b {
      DecodeComplete(v, b);
    }
  }
}
