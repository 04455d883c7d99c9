/** One record of the local journal: how it is laid out, how replay checks it,
    and what a write cut short by a crash looks like to that check. */
module Journal {
  import opened Bytes
  import opened Crc32c

  const HEADER_MAGIC: nat := 0x676F4C0A
  const FOOTER_MAGIC: nat := 0x2E435243
  const HEADER_SIZE: nat := 45
  const FOOTER_SIZE: nat := 8

  const LOGTYPE_DATA: nat := 1
  const LOGTYPE_INODE: nat := 2
  const LOGTYPE_JOURNAL_MARKER: nat := 16
  const LOGTYPE_JOURNAL_CHECKPOINT: nat := 17

  /** The character that record types are counted from. */
  const TYPE_BASE: nat := 48

  /** A log item as the writer sees it: its type, owner and identifier, and the
      three sections it serializes to. */
  datatype Item = Item(kind: nat, inum: nat, id: Bytes, data1: Bytes, data2: Bytes, data3: Bytes) {

    function Payload(): (s: Bytes) {
      data1 + data2 + data3
    }

    /** The total length of the record. */
    function Size(): (n: nat)
      ensures n >= HEADER_SIZE + FOOTER_SIZE
    {
      HEADER_SIZE + |data1| + |data2| + |data3| + FOOTER_SIZE
    }

    /** The fields fit where the header puts them. */
    predicate Fits() {
      && kind + TYPE_BASE < 0x100
      && inum < U64_LIMIT
      && |id| == 16
      && Size() < U32_LIMIT
    }
  }

  function Header(item: Item, offset: nat): (h: Bytes)
    requires item.Fits()
    ensures |h| == HEADER_SIZE
  {
    Le32(HEADER_MAGIC) + [(item.kind + TYPE_BASE) as Byte] + Le32(offset)
    + Le32(|item.data1|) + Le32(|item.data2|) + Le32(|item.data3|)
    + Le64(item.inum) + item.id
  }

  /** Everything the checksum covers. */
  function Covered(item: Item, offset: nat): (s: Bytes)
    requires item.Fits()
    ensures |s| == item.Size() - 4
  {
    Header(item, offset) + item.Payload() + Le32(FOOTER_MAGIC)
  }

  /** A complete record as it lies at `offset` of a journal file. */
  function Record(item: Item, offset: nat): (r: Bytes)
    requires item.Fits()
    ensures |r| == item.Size()
  {
    Covered(item, offset) + Finalize(Crc(SEED, Covered(item, offset)))
  }

  // ------------------------------------------------ reading a record

  function Word32(buf: Bytes, at: nat): (v: nat)
    requires at + 4 <= |buf|
  {
    Decode(buf[at..at + 4])
  }

  /** The payload length a header announces; the three sizes are added as
      32-bit numbers. */
  function PayloadSize(buf: Bytes, offset: nat): (n: nat)
    requires offset + HEADER_SIZE <= |buf|
    ensures n < U32_LIMIT
  {
    (Word32(buf, offset + 9) + Word32(buf, offset + 13) + Word32(buf, offset + 17)) % U32_LIMIT
  }

  predicate HeaderValid(buf: Bytes, offset: nat) {
    && offset + HEADER_SIZE + FOOTER_SIZE <= |buf|
    && Word32(buf, offset) == HEADER_MAGIC
    && Word32(buf, offset + 5) == offset
  }

  predicate FooterValid(buf: Bytes, offset: nat, size: nat) {
    && offset + HEADER_SIZE + size + FOOTER_SIZE <= |buf|
    && Word32(buf, offset + HEADER_SIZE + size) == FOOTER_MAGIC
  }

  /** The checksum routine takes a 32-bit length. */
  predicate ChecksumValid(buf: Bytes, offset: nat, size: nat)
    requires offset + HEADER_SIZE + size + FOOTER_SIZE <= |buf|
  {
    var length := (HEADER_SIZE + FOOTER_SIZE + size) % U32_LIMIT;
    Crc(SEED, buf[offset..offset + length]) == VALIDATOR
  }

  /** The test replay applies before it believes that a record starts here. */
  predicate Validate(buf: Bytes, offset: nat) {
    && HeaderValid(buf, offset)
    && FooterValid(buf, offset, PayloadSize(buf, offset))
    && ChecksumValid(buf, offset, PayloadSize(buf, offset))
  }

  /** What replay takes out of a record. */
  datatype Entry = Entry(offset: nat, kind: int, inum: nat, id: Bytes,
                         size1: nat, size2: nat, size3: nat, payload: Bytes)

  function EntryAt(buf: Bytes, offset: nat): (e: Entry)
    requires offset + HEADER_SIZE <= |buf|
    requires offset + HEADER_SIZE + PayloadSize(buf, offset) <= |buf|
  {
    var start := offset + HEADER_SIZE;
    Entry(offset,
          buf[offset + 4] as int - TYPE_BASE,
          Decode(buf[offset + 21..offset + 29]),
          buf[offset + 29..offset + 45],
          Word32(buf, offset + 9), Word32(buf, offset + 13), Word32(buf, offset + 17),
          buf[start..start + PayloadSize(buf, offset)])
  }

  /** The entry a record for `item` should be read back as. */
  function EntryOf(item: Item, offset: nat): (e: Entry) {
    Entry(offset, item.kind, item.inum, item.id,
          |item.data1|, |item.data2|, |item.data3|, item.Payload())
  }

  /** Reading loses nothing: an entry determines its item. */
  lemma EntryDeterminesItem(a: Item, b: Item, offset: nat)
    requires EntryOf(a, offset) == EntryOf(b, offset)
    ensures a == b
  {
    assert a.data1 == a.Payload()[..|a.data1|] && b.data1 == b.Payload()[..|b.data1|];
    assert a.data2 == a.Payload()[|a.data1|..][..|a.data2|];
    assert b.data2 == b.Payload()[|b.data1|..][..|b.data2|];
    assert a.data3 == a.Payload()[|a.data1| + |a.data2|..];
    assert b.data3 == b.Payload()[|b.data1| + |b.data2|..];
  }

  // ------------------------------------------------ header fields

  /** Where each field lies in a header. */
  lemma HeaderFields(item: Item, offset: nat)
    requires item.Fits()
    ensures Header(item, offset)[0..4] == Le32(HEADER_MAGIC)
    ensures Header(item, offset)[4] == (item.kind + TYPE_BASE) as Byte
    ensures Header(item, offset)[5..9] == Le32(offset)
    ensures Header(item, offset)[9..13] == Le32(|item.data1|)
    ensures Header(item, offset)[13..17] == Le32(|item.data2|)
    ensures Header(item, offset)[17..21] == Le32(|item.data3|)
    ensures Header(item, offset)[21..29] == Le64(item.inum)
    ensures Header(item, offset)[29..45] == item.id
  {
    hide Encode, Le32, Le64;
  }

  /** A file that holds the header of `item` at `offset`. */
  predicate HoldsHeader(buf: Bytes, offset: nat, item: Item)
    requires item.Fits()
  {
    offset + HEADER_SIZE <= |buf| && buf[offset..offset + HEADER_SIZE] == Header(item, offset)
  }

  lemma SubSlice(buf: Bytes, offset: nat, n: nat, i: nat, j: nat)
    requires i <= j <= n && offset + n <= |buf|
    ensures buf[offset + i..offset + j] == buf[offset..offset + n][i..j]
  {
    var whole := buf[offset..offset + n];
    assert forall k :: 0 <= k < n ==> whole[k] == buf[offset + k];
  }

  lemma ReadHeader(buf: Bytes, offset: nat, item: Item)
    requires item.Fits() && offset < U32_LIMIT && HoldsHeader(buf, offset, item)
    ensures Word32(buf, offset) == HEADER_MAGIC && Word32(buf, offset + 5) == offset
    ensures Word32(buf, offset + 9) == |item.data1|
    ensures Word32(buf, offset + 13) == |item.data2|
    ensures Word32(buf, offset + 17) == |item.data3|
  {
    hide Header, Decode, Le32;
    HeaderFields(item, offset);
    SubSlice(buf, offset, HEADER_SIZE, 0, 4);
    SubSlice(buf, offset, HEADER_SIZE, 5, 9);
    SubSlice(buf, offset, HEADER_SIZE, 9, 13);
    SubSlice(buf, offset, HEADER_SIZE, 13, 17);
    SubSlice(buf, offset, HEADER_SIZE, 17, 21);
    RoundTrip32(HEADER_MAGIC);
    RoundTrip32(offset);
    RoundTrip32(|item.data1|);
    RoundTrip32(|item.data2|);
    RoundTrip32(|item.data3|);
  }

  lemma ReadSize(buf: Bytes, offset: nat, item: Item)
    requires item.Fits() && offset < U32_LIMIT && HoldsHeader(buf, offset, item)
    ensures PayloadSize(buf, offset) == |item.Payload()|
    ensures HEADER_SIZE + FOOTER_SIZE + PayloadSize(buf, offset) == item.Size()
  {
    hide HoldsHeader, Word32;
    ReadHeader(buf, offset, item);
    NoWrap(|item.data1| + |item.data2| + |item.data3|);
    assert |item.Payload()| == |item.data1| + |item.data2| + |item.data3|;
  }

  lemma NoWrap(n: nat)
    requires n < U32_LIMIT
    ensures n % U32_LIMIT == n
  {
  }

  lemma ReadOwner(buf: Bytes, offset: nat, item: Item)
    requires item.Fits() && HoldsHeader(buf, offset, item)
    ensures buf[offset + 4] as int - TYPE_BASE == item.kind
    ensures Decode(buf[offset + 21..offset + 29]) == item.inum
    ensures buf[offset + 29..offset + 45] == item.id
  {
    hide Header, Decode, Le64;
    HeaderFields(item, offset);
    SubSlice(buf, offset, HEADER_SIZE, 21, 29);
    SubSlice(buf, offset, HEADER_SIZE, 29, 45);
    RoundTrip64(item.inum);
    assert buf[offset + 4] == buf[offset..offset + HEADER_SIZE][4];
  }

  // ------------------------------------------------ complete records

  predicate Holds(buf: Bytes, offset: nat, item: Item)
    requires item.Fits()
  {
    offset + item.Size() <= |buf| && buf[offset..offset + item.Size()] == Record(item, offset)
  }

  lemma RecordParts(item: Item, offset: nat)
    requires item.Fits()
    ensures Record(item, offset)[..HEADER_SIZE] == Header(item, offset)
    ensures Record(item, offset)[HEADER_SIZE..HEADER_SIZE + |item.Payload()|] == item.Payload()
    ensures Record(item, offset)[item.Size() - 8..item.Size() - 4] == Le32(FOOTER_MAGIC)
    ensures Record(item, offset)[..item.Size() - 4] == Covered(item, offset)
    ensures Record(item, offset)[item.Size() - 4..] == Finalize(Crc(SEED, Covered(item, offset)))
  {
    hide Header, Crc, Finalize, Le32;
    var c := Covered(item, offset);
    assert Record(item, offset)[..item.Size() - 4] == c;
    assert c[..HEADER_SIZE] == Header(item, offset);
    assert c[HEADER_SIZE..HEADER_SIZE + |item.Payload()|] == item.Payload();
    assert c[item.Size() - 8..item.Size() - 4] == Le32(FOOTER_MAGIC);
  }

  lemma HeldHeader(buf: Bytes, offset: nat, item: Item)
    requires item.Fits() && Holds(buf, offset, item)
    ensures HoldsHeader(buf, offset, item)
    ensures buf[offset + HEADER_SIZE..offset + HEADER_SIZE + |item.Payload()|] == item.Payload()
    ensures buf[offset + item.Size() - 8..offset + item.Size() - 4] == Le32(FOOTER_MAGIC)
  {
    hide Record, Header, Le32;
    RecordParts(item, offset);
    var n := item.Size();
    SubSlice(buf, offset, n, 0, HEADER_SIZE);
    SubSlice(buf, offset, n, HEADER_SIZE, HEADER_SIZE + |item.Payload()|);
    SubSlice(buf, offset, n, n - 8, n - 4);
  }

  /** With the header and footer magic in place, only the true checksum is
      accepted. */
  lemma ChecksumDecides(buf: Bytes, offset: nat, item: Item)
    requires item.Fits() && offset + item.Size() <= |buf|
    requires buf[offset..offset + item.Size() - 4] == Covered(item, offset)
    ensures ChecksumValid(buf, offset, item.Size() - HEADER_SIZE - FOOTER_SIZE) <==> Holds(buf, offset, item)
  {
    hide Covered, Crc, Finalize;
    var n := item.Size();
    var covered := Covered(item, offset);
    var crc := buf[offset + n - 4..offset + n];
    assert buf[offset..offset + n] == covered + crc;
    CrcComposes(SEED, covered, crc);
    ResidueIffFinalized(Crc(SEED, covered), crc);
    assert (covered + crc)[n - 4..] == crc;
    assert Record(item, offset)[n - 4..] == Finalize(Crc(SEED, covered));
  }

  lemma CompleteFooterAccepted(buf: Bytes, offset: nat, item: Item)
    requires item.Fits() && Holds(buf, offset, item)
    ensures FooterValid(buf, offset, |item.Payload()|)
  {
    HeldHeader(buf, offset, item);
    hide Holds, HoldsHeader, Record, Decode, Le32;
    RoundTrip32(FOOTER_MAGIC);
    assert item.Size() == HEADER_SIZE + |item.Payload()| + FOOTER_SIZE;
  }

  lemma CompleteChecksumAccepted(buf: Bytes, offset: nat, item: Item)
    requires item.Fits() && Holds(buf, offset, item)
    ensures ChecksumValid(buf, offset, |item.Payload()|)
  {
    hide Covered, Record, ChecksumValid, Header, Crc, Finalize, Le32;
    var n := item.Size();
    assert n == HEADER_SIZE + |item.Payload()| + FOOTER_SIZE;
    CoveredHeld(buf, offset, item);
    ChecksumDecides(buf, offset, item);
  }

  lemma CoveredHeld(buf: Bytes, offset: nat, item: Item)
    requires item.Fits() && Holds(buf, offset, item)
    ensures offset + item.Size() <= |buf| && buf[offset..offset + item.Size() - 4] == Covered(item, offset)
  {
    RecordParts(item, offset);
    hide Record, Covered;
    SubSlice(buf, offset, item.Size(), 0, item.Size() - 4);
  }

  /** A record written in full is accepted and read back as it was written. */
  lemma CompleteRecordAccepted(buf: Bytes, offset: nat, item: Item)
    requires item.Fits() && offset < U32_LIMIT && Holds(buf, offset, item)
    ensures Validate(buf, offset)
    ensures EntryAt(buf, offset) == EntryOf(item, offset)
  {
    HeldHeader(buf, offset, item);
    ReadHeader(buf, offset, item);
    ReadSize(buf, offset, item);
    ReadOwner(buf, offset, item);
    CompleteFooterAccepted(buf, offset, item);
    CompleteChecksumAccepted(buf, offset, item);
    hide Record, HoldsHeader, Holds, Word32, PayloadSize, FooterValid, ChecksumValid, Le32, Decode;
  }

  // ------------------------------------------------ records cut short

  /** The file after a write of `item` at the end of `before` stopped after
      `t` bytes; what follows is the zero fill of a preallocated file, if any. */
  function Torn(before: Bytes, item: Item, t: nat, fill: nat): (disk: Bytes)
    requires item.Fits() && t <= item.Size()
    ensures |disk| == |before| + t + fill
  {
    before + Record(item, |before|)[..t] + Zeros(fill)
  }

  lemma TornBytes(before: Bytes, item: Item, t: nat, fill: nat)
    requires item.Fits() && t <= item.Size()
    ensures forall k :: 0 <= k < t ==> Torn(before, item, t, fill)[|before| + k] == Record(item, |before|)[k]
    ensures forall k :: |before| + t <= k < |before| + t + fill ==> Torn(before, item, t, fill)[k] == 0
  {
    hide Record;
  }

  /** Neither magic number ends in a zero byte. */
  lemma MagicTails()
    ensures Le32(HEADER_MAGIC)[3] != 0 && Le32(FOOTER_MAGIC)[3] != 0
  {
    assert Encode(HEADER_MAGIC, 4)[1..] == Encode(0x676F4C, 3);
    assert Encode(0x676F4C, 3)[1..] == Encode(0x676F, 2);
    assert Encode(0x676F, 2)[1..] == Encode(0x67, 1);
    assert Encode(FOOTER_MAGIC, 4)[1..] == Encode(0x2E4352, 3);
    assert Encode(0x2E4352, 3)[1..] == Encode(0x2E43, 2);
    assert Encode(0x2E43, 2)[1..] == Encode(0x2E, 1);
  }

  lemma WordBytes(buf: Bytes, at: nat, v: nat)
    requires at + 4 <= |buf| && Word32(buf, at) == v
    ensures buf[at..at + 4] == Le32(v)
  {
    hide Decode, Le32;
    Decode32(buf[at..at + 4]);
  }

  /** A footer cannot be found where the file is still zero. */
  lemma NoFooterInFill(buf: Bytes, offset: nat, size: nat)
    requires FooterValid(buf, offset, size)
    ensures buf[offset + HEADER_SIZE + size + 3] != 0
  {
    hide Decode, Le32;
    WordBytes(buf, offset + HEADER_SIZE + size, FOOTER_MAGIC);
    MagicTails();
    assert buf[offset + HEADER_SIZE + size..offset + HEADER_SIZE + size + 4][3] == Le32(FOOTER_MAGIC)[3];
  }

  /** A tear inside the header is rejected: the footer would lie in the fill. */
  lemma TornHeaderRejected(before: Bytes, item: Item, t: nat, fill: nat)
    requires item.Fits() && t <= HEADER_SIZE
    ensures !Validate(Torn(before, item, t, fill), |before|)
  {
    hide Record, Word32, ChecksumValid;
    var disk := Torn(before, item, t, fill);
    TornBytes(before, item, t, fill);
    if Validate(disk, |before|) {
      NoFooterInFill(disk, |before|, PayloadSize(disk, |before|));
      assert false;
    }
  }

  lemma TornKeepsHeader(before: Bytes, item: Item, t: nat, fill: nat)
    requires item.Fits() && HEADER_SIZE <= t <= item.Size()
    ensures HoldsHeader(Torn(before, item, t, fill), |before|, item)
  {
    RecordParts(item, |before|);
    TornBytes(before, item, t, fill);
    hide Record, Header;
    var disk := Torn(before, item, t, fill);
    assert disk[|before|..|before| + HEADER_SIZE] == Record(item, |before|)[..HEADER_SIZE];
  }

  /** A tear between the header and the end of the footer magic. */
  lemma TornBodyRejected(before: Bytes, item: Item, t: nat, fill: nat)
    requires item.Fits() && |before| < U32_LIMIT && HEADER_SIZE <= t < item.Size() - 4
    ensures !Validate(Torn(before, item, t, fill), |before|)
  {
    var disk := Torn(before, item, t, fill);
    TornBytes(before, item, t, fill);
    TornKeepsHeader(before, item, t, fill);
    ReadSize(disk, |before|, item);
    hide Record, Word32, ChecksumValid, PayloadSize;
    if Validate(disk, |before|) {
      NoFooterInFill(disk, |before|, PayloadSize(disk, |before|));
      assert false;
    }
  }

  lemma TornKeepsCovered(before: Bytes, item: Item, t: nat, fill: nat)
    requires item.Fits() && item.Size() - 4 <= t <= item.Size()
    ensures item.Size() - 4 <= |Torn(before, item, t, fill)| - |before|
    ensures Torn(before, item, t, fill)[|before|..|before| + item.Size() - 4] == Covered(item, |before|)
  {
    RecordParts(item, |before|);
    TornBytes(before, item, t, fill);
    hide Record, Covered;
    var disk := Torn(before, item, t, fill);
    assert disk[|before|..|before| + item.Size() - 4] == Record(item, |before|)[..item.Size() - 4];
  }

  /** Once everything the checksum covers is in place, acceptance and
      completeness are the same thing. */
  lemma CoveredThenExact(buf: Bytes, offset: nat, item: Item)
    requires item.Fits() && offset < U32_LIMIT && HoldsHeader(buf, offset, item)
    requires offset + item.Size() - 4 <= |buf|
    requires buf[offset..offset + item.Size() - 4] == Covered(item, offset)
    ensures Validate(buf, offset) <==> Holds(buf, offset, item)
  {
    hide HoldsHeader, Covered, Record, ChecksumValid, PayloadSize, HeaderValid, Word32;
    if Holds(buf, offset, item) {
      CompleteRecordAccepted(buf, offset, item);
    }
    if Validate(buf, offset) {
      ReadSize(buf, offset, item);
      ChecksumDecides(buf, offset, item);
    }
  }

  /** A tear inside the checksum itself. */
  lemma TornChecksumDecided(before: Bytes, item: Item, t: nat, fill: nat)
    requires item.Fits() && |before| < U32_LIMIT && item.Size() - 4 <= t <= item.Size()
    ensures Validate(Torn(before, item, t, fill), |before|) <==> Holds(Torn(before, item, t, fill), |before|, item)
  {
    hide Validate, Holds, HoldsHeader, Covered, Torn;
    TornKeepsHeader(before, item, t, fill);
    TornKeepsCovered(before, item, t, fill);
    CoveredThenExact(Torn(before, item, t, fill), |before|, item);
  }

  /** Torn-tail exactness: wherever the write stopped, and whatever zero fill
      follows it, the record is accepted exactly when all of it is on disk. */
  lemma TornTailExact(before: Bytes, item: Item, t: nat, fill: nat)
    requires item.Fits() && |before| < U32_LIMIT && t <= item.Size()
    ensures Validate(Torn(before, item, t, fill), |before|) <==> Holds(Torn(before, item, t, fill), |before|, item)
  {
    var disk := Torn(before, item, t, fill);
    if t < item.Size() - 4 {
      if Holds(disk, |before|, item) {
        CompleteRecordAccepted(disk, |before|, item);
      }
      if t <= HEADER_SIZE {
        TornHeaderRejected(before, item, t, fill);
      } else {
        TornBodyRejected(before, item, t, fill);
      }
    } else {
      TornChecksumDecided(before, item, t, fill);
    }
  }

  // ------------------------------------------------ accepted means written

  /** The header's sizes add up without wrapping, and its type is one the writer
      could have stored. */
  predicate Plausible(buf: Bytes, offset: nat)
    requires offset + HEADER_SIZE <= |buf|
  {
    && Word32(buf, offset + 9) + Word32(buf, offset + 13) + Word32(buf, offset + 17)
       + HEADER_SIZE + FOOTER_SIZE < U32_LIMIT
    && buf[offset + 4] as nat >= TYPE_BASE
  }

  /** The item a plausible header and the bytes behind it spell. */
  function ItemAt(buf: Bytes, offset: nat): (item: Item)
    requires offset + HEADER_SIZE <= |buf| && Plausible(buf, offset)
    requires offset + HEADER_SIZE + PayloadSize(buf, offset) <= |buf|
    ensures item.Size() == HEADER_SIZE + FOOTER_SIZE + PayloadSize(buf, offset)
    ensures item.Fits()
  {
    hide Decode;
    var d1 := offset + HEADER_SIZE;
    var d2 := d1 + Word32(buf, offset + 9);
    var d3 := d2 + Word32(buf, offset + 13);
    var end := d3 + Word32(buf, offset + 17);
    NoWrap(Word32(buf, offset + 9) + Word32(buf, offset + 13) + Word32(buf, offset + 17));
    Decode64(buf[offset + 21..offset + 29]);
    Item(buf[offset + 4] as nat - TYPE_BASE, Decode(buf[offset + 21..offset + 29]), buf[offset + 29..offset + 45],
         buf[d1..d2], buf[d2..d3], buf[d3..end])
  }

  lemma HeaderAt(buf: Bytes, offset: nat)
    requires offset + HEADER_SIZE <= |buf| && Plausible(buf, offset)
    requires offset + HEADER_SIZE + PayloadSize(buf, offset) <= |buf|
    requires Word32(buf, offset) == HEADER_MAGIC && Word32(buf, offset + 5) == offset
    ensures HoldsHeader(buf, offset, ItemAt(buf, offset))
  {
    var item := ItemAt(buf, offset);
    assert (item.kind + TYPE_BASE) as Byte == buf[offset + 4];
    assert |item.data1| == Word32(buf, offset + 9) && |item.data2| == Word32(buf, offset + 13)
        && |item.data3| == Word32(buf, offset + 17);
    assert item.id == buf[offset + 29..offset + 45] && item.inum == Decode(buf[offset + 21..offset + 29]);
    hide Decode, Le32, Le64, ItemAt, PayloadSize;
    WordBytes(buf, offset, HEADER_MAGIC);
    WordBytes(buf, offset + 5, offset);
    WordBytes(buf, offset + 9, |item.data1|);
    WordBytes(buf, offset + 13, |item.data2|);
    WordBytes(buf, offset + 17, |item.data3|);
    Decode64(buf[offset + 21..offset + 29]);
    HeaderFromFields(buf, offset, item);
  }

  lemma HeaderFromFields(buf: Bytes, offset: nat, item: Item)
    requires item.Fits() && offset + HEADER_SIZE <= |buf|
    requires buf[offset..offset + 4] == Le32(HEADER_MAGIC)
    requires buf[offset + 4] == (item.kind + TYPE_BASE) as Byte
    requires buf[offset + 5..offset + 9] == Le32(offset)
    requires buf[offset + 9..offset + 13] == Le32(|item.data1|)
    requires buf[offset + 13..offset + 17] == Le32(|item.data2|)
    requires buf[offset + 17..offset + 21] == Le32(|item.data3|)
    requires buf[offset + 21..offset + 29] == Le64(item.inum)
    requires buf[offset + 29..offset + 45] == item.id
    ensures HoldsHeader(buf, offset, item)
  {
    HeaderFields(item, offset);
    hide Encode, Le32, Le64, Header;
    var h := buf[offset..offset + HEADER_SIZE];
    SubSlice(buf, offset, HEADER_SIZE, 0, 4);
    SubSlice(buf, offset, HEADER_SIZE, 5, 9);
    SubSlice(buf, offset, HEADER_SIZE, 9, 13);
    SubSlice(buf, offset, HEADER_SIZE, 13, 17);
    SubSlice(buf, offset, HEADER_SIZE, 17, 21);
    SubSlice(buf, offset, HEADER_SIZE, 21, 29);
    SubSlice(buf, offset, HEADER_SIZE, 29, 45);
    assert h[4] == buf[offset + 4];
    FieldsDetermine(h, Header(item, offset));
  }

  lemma FieldsDetermine(g: Bytes, h: Bytes)
    requires |g| == |h| == HEADER_SIZE
    requires g[0..4] == h[0..4] && g[4] == h[4] && g[5..9] == h[5..9] && g[9..13] == h[9..13]
    requires g[13..17] == h[13..17] && g[17..21] == h[17..21] && g[21..29] == h[21..29] && g[29..45] == h[29..45]
    ensures g == h
  {
    assert g[0..9] == g[0..4] + [g[4]] + g[5..9] && h[0..9] == h[0..4] + [h[4]] + h[5..9];
    assert g[9..21] == g[9..13] + g[13..17] + g[17..21] && h[9..21] == h[9..13] + h[13..17] + h[17..21];
    assert g[21..45] == g[21..29] + g[29..45] && h[21..45] == h[21..29] + h[29..45];
    assert g == g[0..9] + g[9..21] + g[21..45] && h == h[0..9] + h[9..21] + h[21..45];
  }

  /** The check is exact on any bytes at all: it accepts a plausible header
      exactly when a complete record of some item lies there. */
  lemma AcceptedIffWritten(buf: Bytes, offset: nat)
    requires offset < U32_LIMIT
    ensures (exists item: Item :: item.Fits() && Holds(buf, offset, item))
       <==> Validate(buf, offset) && Plausible(buf, offset)
  {
    hide Decode, Le32, ItemAt, Record, ChecksumValid, Word32, PayloadSize, Holds;
    if item: Item :| item.Fits() && Holds(buf, offset, item) {
      CompleteRecordAccepted(buf, offset, item);
      HeldHeader(buf, offset, item);
      ReadHeader(buf, offset, item);
      ReadOwner(buf, offset, item);
    } else if Validate(buf, offset) && Plausible(buf, offset) {
      var item := ItemAt(buf, offset);
      HeaderAt(buf, offset);
      AcceptedCovered(buf, offset);
      CoveredThenExact(buf, offset, item);
    }
  }

  lemma ItemAtPayload(buf: Bytes, offset: nat)
    requires offset + HEADER_SIZE <= |buf| && Plausible(buf, offset)
    requires offset + HEADER_SIZE + PayloadSize(buf, offset) <= |buf|
    ensures ItemAt(buf, offset).Payload()
         == buf[offset + HEADER_SIZE..offset + HEADER_SIZE + PayloadSize(buf, offset)]
  {
    var item := ItemAt(buf, offset);
    var d1 := offset + HEADER_SIZE;
    var d2 := d1 + |item.data1|;
    var d3 := d2 + |item.data2|;
    NoWrap(|item.data1| + |item.data2| + |item.data3|);
    hide Decode, Word32;
    assert buf[d1..d3] == buf[d1..d2] + buf[d2..d3];
  }

  lemma AcceptedCovered(buf: Bytes, offset: nat)
    requires Validate(buf, offset) && Plausible(buf, offset)
    requires HoldsHeader(buf, offset, ItemAt(buf, offset))
    ensures var item := ItemAt(buf, offset);
      offset + item.Size() <= |buf|
      && buf[offset..offset + item.Size() - 4] == Covered(item, offset)
  {
    hide ItemAt, Decode, Le32, Header, ChecksumValid, PayloadSize, HeaderValid;
    AcceptedHeaderInBounds(buf, offset);
    var item := ItemAt(buf, offset);
    var d1 := offset + HEADER_SIZE;
    var end := d1 + PayloadSize(buf, offset);
    ItemAtPayload(buf, offset);
    WordBytes(buf, end, FOOTER_MAGIC);
    assert buf[offset..end + 4] == buf[offset..d1] + buf[d1..end] + buf[end..end + 4];
  }

  lemma AcceptedHeaderInBounds(buf: Bytes, offset: nat)
    requires HeaderValid(buf, offset)
    ensures offset + HEADER_SIZE + FOOTER_SIZE <= |buf|
  {
  }
}
