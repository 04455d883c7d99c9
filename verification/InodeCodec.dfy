/** Inodes as bytes: a fixed header, then a file's size, a directory's entries
    or a symbolic link's target; a file's blocks travel as links. */
module InodeCodec {
  import opened Bytes
  import opened Options
  import F = BlockFile
  import D = Directory

  const INODE_MAGIC: nat := 0xa683_2100_943d_71e6
  const HEADER_SIZE: nat := 76
  const REGULAR: nat := 1
  const DIRECTORY: nat := 2
  const SYMLINK: nat := 5

  /** A block of a file: a hole, an item by its id, or data not logged yet. */
  datatype Block = Zero | Ref(item: Option<Bytes>) | Dirty

  datatype Contents =
    | Regular(size: nat, blocks: seq<Block>)
    | Dir(entries: seq<D.Dirent>)
    | Symlink(target: Bytes)

  datatype Inode = Inode(
    mode: nat, uid: nat, gid: nat, nlink: nat, inum: nat, changeCount: nat,
    atime: int, ctime: int, mtime: int, ntime: int,
    contents: Contents
  )

  /** A stored inode: its payload, and the items its blocks are in. */
  datatype Stored = Stored(data: Bytes, links: seq<Option<Bytes>>)

  // ------------------------------------------------ widths

  predicate NulFree(s: Bytes) {
    forall k :: 0 <= k < |s| ==> s[k] != 0
  }

  predicate EntryFits(d: D.Dirent) {
    0 < d.cookie < U32_LIMIT && d.inum < U64_LIMIT && NulFree(d.name)
  }

  predicate TimeFits(t: int) {
    -0x8000_0000_0000_0000 <= t < 0x8000_0000_0000_0000
  }

  predicate ContentsFit(c: Contents) {
    match c
    case Regular(size, blocks) =>
      size + F.BLOCK_SIZE <= U64_LIMIT && |blocks| == F.BlockCount(size)
    case Dir(entries) => forall k :: 0 <= k < |entries| ==> EntryFits(entries[k])
    case Symlink(target) => NulFree(target)
  }

  predicate Fits(i: Inode) {
    && i.mode < U32_LIMIT && i.uid < U32_LIMIT && i.gid < U32_LIMIT && i.nlink < U32_LIMIT
    && i.inum < U64_LIMIT && i.changeCount < U64_LIMIT
    && TimeFits(i.atime) && TimeFits(i.ctime) && TimeFits(i.mtime) && TimeFits(i.ntime)
    && ContentsFit(i.contents)
  }

  // ------------------------------------------------ signed times

  function FromSigned(t: int): (v: nat)
    requires TimeFits(t)
    ensures v < U64_LIMIT
  {
    if t >= 0 then t else t + U64_LIMIT
  }

  function ToSigned(v: nat): (t: int) {
    if v < 0x8000_0000_0000_0000 then v else v - U64_LIMIT
  }

  // ------------------------------------------------ strings

  /** The bytes up to the first NUL. */
  function CString(s: Bytes): (r: Option<Bytes>)
    ensures r.Some? ==> |r.value| < |s|
  {
    if s == [] then None
    else if s[0] == 0 then Some([])
    else
      var rest := CString(s[1..]);
      if rest.None? then None else Some([s[0]] + rest.value)
  }

  lemma {:induction false} CStringRead(s: Bytes, rest: Bytes)
    requires NulFree(s)
    ensures CString(s + [0] + rest) == Some(s)
  {
    var t := s + [0] + rest;
    if s != [] {
      CStringRead(s[1..], rest);
      assert t[1..] == s[1..] + [0] + rest;
      assert t[0] == s[0] && [s[0]] + s[1..] == s;
    } else {
      assert t[0] == 0;
    }
  }

  // ------------------------------------------------ directory entries

  function EntryBytes(d: D.Dirent): (s: Bytes)
    ensures |s| == 13 + |d.name|
  {
    Le32(d.cookie) + Le64(d.inum) + d.name + [0]
  }

  function EntriesBytes(ds: seq<D.Dirent>): (s: Bytes) {
    if ds == [] then Le32(0) else EntryBytes(ds[0]) + EntriesBytes(ds[1..])
  }

  lemma EntriesFirst(ds: seq<D.Dirent>, i: nat, out: Bytes)
    requires i < |ds|
    ensures out + EntriesBytes(ds[i..])
      == (out + Le32(ds[i].cookie) + Le64(ds[i].inum) + ds[i].name + [0]) + EntriesBytes(ds[i + 1..])
  {
    hide Le32, Le64;
    var d, rest := ds[i], EntriesBytes(ds[i + 1..]);
    assert ds[i..][1..] == ds[i + 1..];
    assert EntriesBytes(ds[i..]) == EntryBytes(d) + rest;
    hide EntriesBytes;
  }

  /** The loop that writes a directory out. */
  method SerializeEntries(ds: seq<D.Dirent>) returns (out: Bytes)
    ensures out == EntriesBytes(ds)
  {
    out := [];
    var i := 0;
    assert ds[0..] == ds && [] + EntriesBytes(ds) == EntriesBytes(ds);
    assert EntriesBytes(ds[|ds|..]) == Le32(0);
    hide Le32, Le64, EntriesBytes;
    while i < |ds|
      invariant i <= |ds| && out + EntriesBytes(ds[i..]) == EntriesBytes(ds)
    {
      var d := ds[i];
      EntriesFirst(ds, i, out);
      out := out + Le32(d.cookie) + Le64(d.inum) + d.name + [0];
      i := i + 1;
    }
    out := out + Le32(0);
  }

  /** Reading entries up to the zero cookie; None where the program would read
      past the end. */
  function ReadEntries(s: Bytes): (r: Option<seq<D.Dirent>>)
    decreases |s|
  {
    if |s| < 4 then None
    else if Decode(s[..4]) == 0 then Some([])
    else if |s| < 12 then None
    else
      var name := CString(s[12..]);
      if name.None? then None
      else
        var rest := ReadEntries(s[13 + |name.value|..]);
        if rest.None? then None
        else Some([D.Dirent(name.value, Decode(s[..4]), Decode(s[4..12]))] + rest.value)
  }

  /** The loop over stored entries. */
  method DeserializeEntries(data: Bytes) returns (entries: Option<seq<D.Dirent>>)
    ensures entries == ReadEntries(data)
  {
    hide Decode, CString;
    var s := data;
    var found: seq<D.Dirent> := [];
    Unchanged(ReadEntries(data));
    while |s| >= 4 && Decode(s[..4]) != 0
      invariant ReadEntries(data) == Prepend(found, ReadEntries(s))
      decreases |s|
    {
      if |s| < 12 {
        return None;
      }
      var name := CString(s[12..]);
      if name.None? {
        return None;
      }
      var d := D.Dirent(name.value, Decode(s[..4]), Decode(s[4..12]));
      var rest := s[13 + |name.value|..];
      assert ReadEntries(s) == Prepend([d], ReadEntries(rest));
      PrependTwice(found, [d], ReadEntries(rest));
      found := found + [d];
      s := rest;
    }
    if |s| < 4 {
      return None;
    }
    assert found + [] == found;
    entries := Some(found);
  }

  function Prepend(found: seq<D.Dirent>, rest: Option<seq<D.Dirent>>): (r: Option<seq<D.Dirent>>) {
    if rest.None? then None else Some(found + rest.value)
  }

  lemma Unchanged(rest: Option<seq<D.Dirent>>)
    ensures Prepend([], rest) == rest
  {
    if rest.Some? {
      assert [] + rest.value == rest.value;
    }
  }

  lemma PrependTwice(a: seq<D.Dirent>, b: seq<D.Dirent>, rest: Option<seq<D.Dirent>>)
    ensures Prepend(a, Prepend(b, rest)) == Prepend(a + b, rest)
  {
    if rest.Some? {
      assert a + (b + rest.value) == (a + b) + rest.value;
    }
  }

  lemma EntryRead(d: D.Dirent, rest: Bytes)
    requires EntryFits(d)
    ensures var s := EntryBytes(d) + rest;
      && Decode(s[..4]) == d.cookie && Decode(s[4..12]) == d.inum
      && CString(s[12..]) == Some(d.name) && s[13 + |d.name|..] == rest
  {
    hide Le32, Le64, Decode, CString;
    RoundTrip32(d.cookie);
    RoundTrip64(d.inum);
    var s := EntryBytes(d) + rest;
    assert s[..4] == Le32(d.cookie) && s[4..12] == Le64(d.inum);
    assert s[12..] == d.name + [0] + rest;
    CStringRead(d.name, rest);
  }

  lemma {:induction false} EntriesRead(ds: seq<D.Dirent>, rest: Bytes)
    requires forall k :: 0 <= k < |ds| ==> EntryFits(ds[k])
    ensures ReadEntries(EntriesBytes(ds) + rest) == Some(ds)
  {
    hide Le32, Decode, CString, EntryBytes;
    if ds == [] {
      RoundTrip32(0);
      assert (Le32(0) + rest)[..4] == Le32(0);
    } else {
      var more := EntriesBytes(ds[1..]) + rest;
      EntriesRead(ds[1..], rest);
      EntryRead(ds[0], more);
      assert EntriesBytes(ds) + rest == EntryBytes(ds[0]) + more;
      assert [ds[0]] + ds[1..] == ds;
    }
  }

  // ------------------------------------------------ the whole inode

  function KindOf(c: Contents): (kind: nat) {
    match c
    case Regular(_, _) => REGULAR
    case Dir(_) => DIRECTORY
    case Symlink(_) => SYMLINK
  }

  function Words(i: Inode): (s: Bytes)
    ensures |s| == 20
  {
    Le32(KindOf(i.contents)) + Le32(i.mode) + Le32(i.uid) + Le32(i.gid) + Le32(i.nlink)
  }

  function Longs(i: Inode): (s: Bytes)
    requires Fits(i)
    ensures |s| == 48
  {
    Le64(i.inum) + Le64(i.changeCount)
    + Le64(FromSigned(i.atime)) + Le64(FromSigned(i.ctime)) + Le64(FromSigned(i.mtime)) + Le64(FromSigned(i.ntime))
  }

  function Header(i: Inode): (s: Bytes)
    requires Fits(i)
    ensures |s| == HEADER_SIZE
  {
    Le64(INODE_MAGIC) + Words(i) + Longs(i)
  }

  function Payload(c: Contents): (s: Bytes) {
    match c
    case Regular(size, _) => Le64(size)
    case Dir(entries) => EntriesBytes(entries)
    case Symlink(target) => target + [0]
  }

  /** A block's link: its item, or none for anything but a clean block. */
  function LinkOf(b: Block): (l: Option<Bytes>) {
    if b.Ref? then b.item else None
  }

  function LinksOf(c: Contents): (ls: seq<Option<Bytes>>) {
    if c.Regular? then seq(|c.blocks|, k requires 0 <= k < |c.blocks| => LinkOf(c.blocks[k])) else []
  }

  function Serialize(i: Inode): (r: Stored)
    requires Fits(i)
  {
    Stored(Header(i) + Payload(i.contents), LinksOf(i.contents))
  }

  function ReadContents(kind: nat, s: Bytes, links: seq<Option<Bytes>>): (r: Option<Contents>) {
    if kind == REGULAR then
      if |s| < 8 || |links| != F.BlockCount(Decode(s[..8])) then None
      else Some(Regular(Decode(s[..8]), seq(|links|, k requires 0 <= k < |links| => Ref(links[k]))))
    else if kind == DIRECTORY then
      var entries := ReadEntries(s);
      if entries.None? then None else Some(Dir(entries.value))
    else if kind == SYMLINK then
      var target := CString(s);
      if target.None? then None else Some(Symlink(target.value))
    else None
  }

  /** Loading an inode; None where it is refused, where the program stops on a
      failed check, and where it would read past the end. */
  function Deserialize(inum: nat, item: Stored): (r: Option<Inode>) {
    var s := item.data;
    if |s| < HEADER_SIZE || Decode(s[..8]) != INODE_MAGIC || Decode(s[28..36]) != inum then None
    else
      var contents := ReadContents(Decode(s[8..12]), s[HEADER_SIZE..], item.links);
      if contents.None? then None
      else
        Some(Inode(Decode(s[12..16]), Decode(s[16..20]), Decode(s[20..24]), Decode(s[24..28]),
                   Decode(s[28..36]), Decode(s[36..44]),
                   ToSigned(Decode(s[44..52])), ToSigned(Decode(s[52..60])),
                   ToSigned(Decode(s[60..68])), ToSigned(Decode(s[68..76])), contents.value))
  }

  lemma WordsRead(i: Inode)
    requires Fits(i)
    ensures var w := Words(i);
      && Decode(w[..4]) == KindOf(i.contents) && Decode(w[4..8]) == i.mode && Decode(w[8..12]) == i.uid
      && Decode(w[12..16]) == i.gid && Decode(w[16..20]) == i.nlink
  {
    hide Le32, Decode, ContentsFit;
    RoundTrip32(KindOf(i.contents));
    RoundTrip32(i.mode);
    RoundTrip32(i.uid);
    RoundTrip32(i.gid);
    RoundTrip32(i.nlink);
    var w := Words(i);
    assert w[..4] == Le32(KindOf(i.contents)) && w[4..8] == Le32(i.mode) && w[8..12] == Le32(i.uid);
    assert w[12..16] == Le32(i.gid) && w[16..20] == Le32(i.nlink);
  }

  lemma TimeRead(t: int)
    requires TimeFits(t)
    ensures ToSigned(Decode(Le64(FromSigned(t)))) == t
  {
    hide Decode, Le64;
    RoundTrip64(FromSigned(t));
  }

  lemma LongsRead(i: Inode)
    requires Fits(i)
    ensures var w := Longs(i);
      && Decode(w[..8]) == i.inum && Decode(w[8..16]) == i.changeCount
      && ToSigned(Decode(w[16..24])) == i.atime && ToSigned(Decode(w[24..32])) == i.ctime
      && ToSigned(Decode(w[32..40])) == i.mtime && ToSigned(Decode(w[40..48])) == i.ntime
  {
    hide Le64, Decode, ContentsFit, ToSigned, FromSigned;
    RoundTrip64(i.inum);
    RoundTrip64(i.changeCount);
    TimeRead(i.atime);
    TimeRead(i.ctime);
    TimeRead(i.mtime);
    TimeRead(i.ntime);
    var w := Longs(i);
    assert w[..8] == Le64(i.inum) && w[8..16] == Le64(i.changeCount);
    assert w[16..24] == Le64(FromSigned(i.atime)) && w[24..32] == Le64(FromSigned(i.ctime));
    assert w[32..40] == Le64(FromSigned(i.mtime)) && w[40..48] == Le64(FromSigned(i.ntime));
  }

  /** A slice of a part of a sequence. */
  lemma Part(a: Bytes, b: Bytes, c: Bytes, i: nat, j: nat)
    requires i <= j <= |b|
    ensures (a + b + c)[|a| + i..|a| + j] == b[i..j]
  {
  }

  lemma HeaderWords(m: Bytes, w: Bytes, rest: Bytes)
    requires |m| == 8 && |w| == 20
    ensures var s := m + w + rest;
      && s[..8] == m && s[8..12] == w[..4] && s[12..16] == w[4..8] && s[16..20] == w[8..12]
      && s[20..24] == w[12..16] && s[24..28] == w[16..20]
  {
    Part(m, w, rest, 0, 4);
    Part(m, w, rest, 4, 8);
    Part(m, w, rest, 8, 12);
    Part(m, w, rest, 12, 16);
    Part(m, w, rest, 16, 20);
  }

  lemma HeaderLongs(m: Bytes, l: Bytes, rest: Bytes)
    requires |m| == 28 && |l| == 48
    ensures var s := m + l + rest;
      && s[28..36] == l[..8] && s[36..44] == l[8..16] && s[44..52] == l[16..24] && s[52..60] == l[24..32]
      && s[60..68] == l[32..40] && s[68..76] == l[40..48] && s[76..] == rest
  {
    Part(m, l, rest, 0, 8);
    Part(m, l, rest, 8, 16);
    Part(m, l, rest, 16, 24);
    Part(m, l, rest, 24, 32);
    Part(m, l, rest, 32, 40);
    Part(m, l, rest, 40, 48);
  }

  /** No block of a file is a hole or still dirty. */
  predicate Whole(c: Contents) {
    c.Regular? ==> forall k :: 0 <= k < |c.blocks| ==> c.blocks[k].Ref?
  }

  /** The same contents with a null reference for every block that is not
      clean: what loading makes of holes. */
  function Referenced(c: Contents): (r: Contents) {
    if c.Regular? then
      Regular(c.size, seq(|c.blocks|, k requires 0 <= k < |c.blocks| => Ref(LinkOf(c.blocks[k]))))
    else c
  }

  lemma ContentsRead(c: Contents)
    requires ContentsFit(c)
    ensures ReadContents(KindOf(c), Payload(c), LinksOf(c)) == Some(Referenced(c))
  {
    hide Decode, Le64, CString, ReadEntries, EntriesBytes;
    match c
    case Regular(size, blocks) =>
      RoundTrip64(size);
      assert Le64(size)[..8] == Le64(size);
      var read := ReadContents(REGULAR, Le64(size), LinksOf(c));
      assert read.Some? && read.value.blocks == Referenced(c).blocks;
    case Dir(entries) =>
      EntriesRead(entries, []);
      assert EntriesBytes(entries) + [] == EntriesBytes(entries);
    case Symlink(target) =>
      CStringRead(target, []);
      assert target + [0] + [] == target + [0];
  }

  lemma ReferencedSame(c: Contents)
    requires ContentsFit(c)
    ensures Referenced(c) == c <==> Whole(c)
  {
    if c.Regular? {
      var r := Referenced(c).blocks;
      if Whole(c) {
        assert r == c.blocks;
      } else {
        var k :| 0 <= k < |c.blocks| && !c.blocks[k].Ref?;
        assert r[k] != c.blocks[k];
      }
    }
  }

  /** An inode loads as it was stored exactly when it has no holes: a hole goes
      out as a null link and comes back as a reference to nothing. */
  lemma InodeRoundTrip(i: Inode)
    requires Fits(i)
    ensures Deserialize(i.inum, Serialize(i)) == Some(i.(contents := Referenced(i.contents)))
    ensures Deserialize(i.inum, Serialize(i)) == Some(i) <==> Whole(i.contents)
  {
    hide Le64, Decode, Words, Longs, ContentsFit, ReadContents, Payload, LinksOf, ToSigned, FromSigned, Referenced;
    WordsRead(i);
    LongsRead(i);
    RoundTrip64(INODE_MAGIC);
    var m, w, l, p := Le64(INODE_MAGIC), Words(i), Longs(i), Payload(i.contents);
    var s := Serialize(i).data;
    assert s == m + w + (l + p) && s == (m + w) + l + p;
    HeaderWords(m, w, l + p);
    HeaderLongs(m + w, l, p);
    ContentsRead(i.contents);
    ReferencedSame(i.contents);
  }

  /** An inode is refused under any other number. */
  lemma OtherInumRefused(i: Inode, inum: nat)
    requires Fits(i) && inum != i.inum
    ensures Deserialize(inum, Serialize(i)) == None
  {
    hide Le64, Decode, Words, Longs, ContentsFit, ReadContents, Payload, LinksOf, ToSigned, FromSigned;
    LongsRead(i);
    var m, w, l, p := Le64(INODE_MAGIC), Words(i), Longs(i), Payload(i.contents);
    assert Serialize(i).data == (m + w) + l + p;
    HeaderLongs(m + w, l, p);
  }
}
