/** Frame headers of section 3.1.1.1 of RFC 8878, and reading the content size from them. */
module Zstd {
  import opened Common

  const MAGIC := 0xFD2F_B528

  function Pow256(k: nat): nat {
    if k == 0 then 1 else 256 * Pow256(k - 1)
  }

  /** Little-endian bytes of `n`, and back. */
  function WriteLE(n: nat, k: nat): (b: Bytes)
    ensures |b| == k
  {
    if k == 0 then [] else [(n % 256) as byte] + WriteLE(n / 256, k - 1)
  }

  function ReadLE(b: Bytes): nat {
    if b == [] then 0 else b[0] as nat + 256 * ReadLE(b[1..])
  }

  lemma {:induction false} ReadUndoesWrite(n: nat, k: nat)
    requires n < Pow256(k)
    ensures ReadLE(WriteLE(n, k)) == n
  {
    if k > 0 {
      assert n / 256 < Pow256(k - 1);
      ReadUndoesWrite(n / 256, k - 1);
      assert WriteLE(n, k)[1..] == WriteLE(n / 256, k - 1);
    }
  }

  lemma {:induction false} WriteUndoesRead(b: Bytes)
    ensures WriteLE(ReadLE(b), |b|) == b && ReadLE(b) < Pow256(|b|)
  {
    if b != [] {
      WriteUndoesRead(b[1..]);
      assert ReadLE(b) % 256 == b[0] as nat && ReadLE(b) / 256 == ReadLE(b[1..]);
    }
  }

  // ---- the parser --------------------------------------------------------

  /** Sizes by a two-bit flag. */
  function FieldSize(flag: nat): nat {
    if flag == 0 then 0 else if flag == 1 then 2 else if flag == 2 then 4 else 8
  }

  function DictSize(flag: nat): nat {
    if flag == 0 then 0 else if flag == 1 then 1 else if flag == 2 then 2 else 4
  }

  /** Read the declared size; none when it is absent, cut off, or too large for a JavaScript number. */
  function FrameContentSize(data: Bytes): Option<nat> {
    if |data| < 5 || ReadLE(data[..4]) != MAGIC then None
    else
      var descriptor := data[4] as nat;
      var fcsFieldSize := FieldSize(descriptor / 64);
      var singleSegment := (descriptor / 32) % 2 == 1;
      var offset := 5 + (if singleSegment then 0 else 1) + DictSize(descriptor % 4);
      if fcsFieldSize == 0 then
        if !singleSegment || offset >= |data| then None else Some(data[offset] as nat)
      else if offset + fcsFieldSize > |data| then None
      else if fcsFieldSize == 2 then Some(ReadLE(data[offset..offset + 2]) + 256)
      else if fcsFieldSize == 4 then Some(ReadLE(data[offset..offset + 4]))
      else
        var wide := ReadLE(data[offset..offset + 8]);
        if wide > MAX_SAFE_INTEGER then None else Some(wide)
  }

  // ---- the standard ------------------------------------------------------

  /** A frame header, field by field; `middle` is the unused, the reserved and the checksum bit. */
  datatype Header = Header(
    fcsFlag: nat,
    singleSegment: bool,
    middle: nat,
    dictFlag: nat,
    window: byte,
    dictId: Bytes,
    content: nat)

  /** How long the content size field is; with flag zero it depends on the single-segment bit. */
  function ContentFieldSize(h: Header): nat {
    if h.fcsFlag == 0 then (if h.singleSegment then 1 else 0) else FieldSize(h.fcsFlag)
  }

  /** What the field holds: 256 less than the size when it has two bytes. */
  function ContentField(h: Header): int {
    if h.fcsFlag == 1 then h.content - 256 else h.content
  }

  predicate WellFormed(h: Header) {
    && h.fcsFlag < 4 && h.middle < 8 && h.dictFlag < 4
    && |h.dictId| == DictSize(h.dictFlag)
    && (ContentFieldSize(h) > 0 ==> 0 <= ContentField(h) < Pow256(ContentFieldSize(h)))
  }

  function Descriptor(h: Header): nat {
    64 * h.fcsFlag + (if h.singleSegment then 32 else 0) + 4 * h.middle + h.dictFlag
  }

  /** Everything before the content size field. */
  function Front(h: Header): Bytes
    requires WellFormed(h)
  {
    [0x28, 0xB5, 0x2F, 0xFD, Descriptor(h) as byte] + (if h.singleSegment then [] else [h.window]) + h.dictId
  }

  function Written(h: Header): Bytes
    requires WellFormed(h)
  {
    if ContentFieldSize(h) == 0 then Front(h) else Front(h) + WriteLE(ContentField(h), ContentFieldSize(h))
  }

  /** The declared size, when the header has one that fits. */
  function Declared(h: Header): Option<nat> {
    if ContentFieldSize(h) > 0 && h.content <= MAX_SAFE_INTEGER then Some(h.content) else None
  }

  // ---- they agree --------------------------------------------------------

  lemma MagicBytes()
    ensures ReadLE([0x28, 0xB5, 0x2F, 0xFD]) == MAGIC && WriteLE(MAGIC, 4) == [0x28, 0xB5, 0x2F, 0xFD]
  {
    var m: Bytes := [0x28, 0xB5, 0x2F, 0xFD];
    assert m[1..] == [0xB5, 0x2F, 0xFD] && m[1..][1..] == [0x2F, 0xFD] && m[1..][1..][1..] == [0xFD];
    assert ReadLE(m[1..][1..][1..]) == 0xFD;
    assert ReadLE(m[1..][1..]) == 0xFD2F;
    assert ReadLE(m[1..]) == 0xFD2F_B5;
    WriteUndoesRead(m);
  }

  lemma DescriptorFields(h: Header)
    requires WellFormed(h)
    ensures Descriptor(h) < 256 && Descriptor(h) / 64 == h.fcsFlag && Descriptor(h) % 4 == h.dictFlag
    ensures (Descriptor(h) / 32) % 2 == if h.singleSegment then 1 else 0
  {
  }

  lemma PowersOf256()
    ensures Pow256(1) == 256 && Pow256(2) == 0x1_0000 && Pow256(4) == 0x1_0000_0000
    ensures Pow256(8) == 0x1_0000_0000_0000_0000
  {
    assert Pow256(3) == 256 * Pow256(2) && Pow256(5) == 256 * Pow256(4);
    assert Pow256(6) == 256 * Pow256(5) && Pow256(7) == 256 * Pow256(6);
  }

  /** The magic number, the descriptor and the sizes of the window and of the dictionary id. */
  lemma FrontIsParsed(h: Header, data: Bytes)
    requires WellFormed(h) && Front(h) <= data
    ensures |data| >= 5 && ReadLE(data[..4]) == MAGIC
    ensures Descriptor(h) < 256 && data[4] == Descriptor(h) as byte && ContentOffset(data) == |Front(h)|
  {
    MagicBytes();
    DescriptorFields(h);
    assert data[..4] == Front(h)[..4] == [0x28, 0xB5, 0x2F, 0xFD];
    assert data[4] == Front(h)[4];
  }

  lemma ContentIsParsed(h: Header, data: Bytes)
    requires WellFormed(h) && ContentFieldSize(h) > 0 && Written(h) <= data
    ensures var offset, k := |Front(h)|, ContentFieldSize(h);
            && offset + k <= |data| && ReadLE(data[offset..offset + k]) == ContentField(h)
            && (k == 1 ==> data[offset] as nat == ContentField(h))
  {
    var offset, k := |Front(h)|, ContentFieldSize(h);
    var field := data[offset..offset + k];
    ReadUndoesWrite(ContentField(h), k);
    assert field == Written(h)[offset..] == WriteLE(ContentField(h), k);
    if k == 1 {
      assert field == [data[offset]] && field[1..] == [];
    }
  }

  /** Any header the standard allows, whatever follows it, is read as its declared size. */
  lemma ParsingReadsWhatIsWritten(h: Header, rest: Bytes)
    requires WellFormed(h)
    ensures FrameContentSize(Written(h) + rest) == Declared(h)
  {
    var data := Written(h) + rest;
    assert Front(h) <= Written(h) <= data;
    FrontIsParsed(h, data);
    DescriptorFields(h);
    if ContentFieldSize(h) > 0 {
      ContentIsParsed(h, data);
    }
  }

  /** A header that is cut off anywhere declares nothing. */
  lemma TruncatedHeaderDeclaresNothing(h: Header, data: Bytes)
    requires WellFormed(h) && ContentFieldSize(h) > 0 && data < Written(h)
    ensures FrameContentSize(data) == None
  {
    DescriptorFields(h);
    if |data| >= 5 {
      assert data[4] == Written(h)[4];
    }
  }

  lemma FieldsMakeTheDescriptor(d: nat)
    requires d < 256
    ensures 64 * (d / 64) + 32 * ((d / 32) % 2) + 4 * ((d / 4) % 8) + d % 4 == d && d / 64 < 4
  {
  }

  /** The header whose fields stand in `data`, up to and without the content size field. */
  function FieldsOf(data: Bytes, content: nat): Header
    requires |data| >= 6 && |data| >= ContentOffset(data)
  {
    var d := data[4] as nat;
    var single := (d / 32) % 2 == 1;
    Header(d / 64, single, (d / 4) % 8, d % 4, if single then 0 else data[5],
           data[(if single then 5 else 6)..ContentOffset(data)], content)
  }

  function ContentOffset(data: Bytes): nat
    requires |data| >= 5
  {
    5 + (if (data[4] as nat / 32) % 2 == 1 then 0 else 1) + DictSize(data[4] as nat % 4)
  }

  lemma FrontIsThere(data: Bytes, content: nat)
    requires |data| >= 6 && |data| >= ContentOffset(data) && ReadLE(data[..4]) == MAGIC
    requires WellFormed(FieldsOf(data, content))
    ensures Front(FieldsOf(data, content)) == data[..ContentOffset(data)]
  {
    MagicBytes();
    WriteUndoesRead(data[..4]);
    FieldsMakeTheDescriptor(data[4] as nat);
    var h := FieldsOf(data, content);
    assert Descriptor(h) == data[4] as nat;
    assert data[..4] == [0x28, 0xB5, 0x2F, 0xFD];
    assert data[..5] == data[..4] + [data[4]];
    if !h.singleSegment {
      assert data[..6] == data[..5] + [data[5]];
    }
  }

  lemma ContentIsThere(data: Bytes)
    requires FrameContentSize(data).Some?
    ensures |data| >= 6 && |data| >= ContentOffset(data)
    ensures var h := FieldsOf(data, FrameContentSize(data).value);
            var k := ContentFieldSize(h);
            && WellFormed(h) && k > 0 && ContentOffset(data) + k <= |data|
            && data[ContentOffset(data)..ContentOffset(data) + k] == WriteLE(ContentField(h), k)
  {
    PowersOf256();
    FieldsMakeTheDescriptor(data[4] as nat);
    var h := FieldsOf(data, FrameContentSize(data).value);
    var offset, k := ContentOffset(data), ContentFieldSize(h);
    var field := data[offset..offset + k];
    WriteUndoesRead(field);
    if k == 1 {
      assert field == [data[offset]] && field[1..] == [];
    }
  }

  /** The header a frame starts with. */
  lemma HeaderOf(data: Bytes) returns (h: Header, rest: Bytes)
    requires FrameContentSize(data).Some?
    ensures WellFormed(h) && data == Written(h) + rest && Declared(h) == FrameContentSize(data)
  {
    ContentIsThere(data);
    h := FieldsOf(data, FrameContentSize(data).value);
    FrontIsThere(data, FrameContentSize(data).value);
    var offset, end := ContentOffset(data), ContentOffset(data) + ContentFieldSize(h);
    rest := data[end..];
    assert data == data[..offset] + data[offset..end] + rest;
  }

  /** So a size is returned exactly for the frames whose header, as the standard defines it, declares it. */
  lemma SizeIsReadExactly(data: Bytes, n: nat)
    ensures FrameContentSize(data) == Some(n)
       <==> exists h, rest: Bytes :: WellFormed(h) && data == Written(h) + rest && Declared(h) == Some(n)
  {
    if FrameContentSize(data) == Some(n) {
      var h, rest := HeaderOf(data);
    }
    forall h, rest: Bytes | WellFormed(h) && data == Written(h) + rest && Declared(h) == Some(n)
      ensures FrameContentSize(data) == Some(n)
    {
      ParsingReadsWhatIsWritten(h, rest);
    }
  }
}
