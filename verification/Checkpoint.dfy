/** The checkpoint record: writing the inode map out as one section per range
    under a header, and rebuilding the map, the newest cleaner sequence number
    seen and the next free inode number from it. */
module Checkpoint {
  import opened Bytes
  import opened Options
  import opened InodeMap

  const CHECKPOINT_MAGIC: nat := 0x7ad7_dafb_42a4_98b4
  const CLOUD_DIR_CLEANER: nat := 1
  const ROOT_INUM: nat := 1
  const INT_LIMIT: int := 0x8000_0000

  datatype Record = Record(data: Bytes, sections: seq<Section>)

  // ------------------------------------------------ what is written

  function Header(latest: int): (s: Bytes)
    ensures |s| == if latest >= 0 then 20 else 12
  {
    if latest >= 0 then
      Le64(CHECKPOINT_MAGIC) + Le32(1) + Le32(CLOUD_DIR_CLEANER) + Le32(latest)
    else
      Le64(CHECKPOINT_MAGIC) + Le32(0)
  }

  function Windows(rs: seq<Range>): (s: Bytes)
    ensures |s| == 16 * |rs|
  {
    if rs == [] then [] else Windows(rs[..|rs| - 1]) + Le64(rs[|rs| - 1].start) + Le64(rs[|rs| - 1].end)
  }

  function Sections(rs: seq<Range>): (ss: seq<Section>)
    ensures |ss| == |rs|
  {
    if rs == [] then [] else Sections(rs[..|rs| - 1]) + [SectionOf(rs[|rs| - 1].entries)]
  }

  function RecordOf(rs: seq<Range>, latest: int): (c: Record) {
    Record(Header(latest) + Windows(rs), Sections(rs))
  }

  /** Every range up to `n` carries its serialized form; the rest is as it was. */
  ghost predicate Refreshed(rs: seq<Range>, was: seq<Range>, n: nat) {
    && |rs| == |was| && n <= |rs|
    && (forall k :: 0 <= k < n ==> rs[k] == was[k].(serialized := Some(SectionOf(was[k].entries))))
    && (forall k :: n <= k < |rs| ==> rs[k] == was[k])
  }

  lemma {:induction false} SameMap(rs: seq<Range>, was: seq<Range>)
    requires |rs| == |was| && forall k :: 0 <= k < |rs| ==> rs[k].entries == was[k].entries
    ensures MapOf(rs) == MapOf(was)
  {
    if rs != [] {
      SameMap(rs[..|rs| - 1], was[..|was| - 1]);
    }
  }

  lemma RefreshedOk(rs: seq<Range>, was: seq<Range>, n: nat)
    requires RangesOk(was) && Refreshed(rs, was, n)
    ensures RangesOk(rs) && MapOf(rs) == MapOf(was)
  {
    SameMap(rs, was);
    hide MapOf, SectionOf;
    assert RangeKeys(rs) == RangeKeys(was);
    forall k | 0 <= k < |rs|
      ensures RangeOk(rs[k])
    {
      assert RangeOk(was[k]);
    }
  }

  /** Write the map out: nothing if every range is already in the cloud,
      otherwise the record of the map as it stands. */
  method Serialize(table: InodeTable, latest: int) returns (record: Option<Record>)
    requires table.Valid()
    modifies table
    ensures table.Valid() && table.Map() == old(table.Map())
    ensures Refreshed(table.ranges, old(table.ranges), |table.ranges|)
    ensures record.None? <==> AllCurrent(old(table.ranges), |old(table.ranges)|)
    ensures record.Some? ==> record.value == RecordOf(table.ranges, latest)
  {
    hide MapOf, SectionOf, Header, RangesOk, Refreshed, Windows, Sections, AllCurrent, Le64, EntriesMap;
    ghost var was := table.ranges;
    var updated := false;
    var buf := Header(latest);
    var links: seq<Section> := [];
    var i := 0;
    NothingWritten(was);
    while i < |table.ranges|
      invariant i <= |table.ranges| == |was| && Refreshed(table.ranges, was, i)
      invariant RangesOk(was)
      invariant buf == Header(latest) + Windows(was[..i]) && links == Sections(was[..i])
      invariant updated <==> !AllCurrent(was, i)
    {
      var range := table.ranges[i];
      RangeWritten(table.ranges, was, i);
      buf := buf + Le64(range.start) + Le64(range.end);
      if range.serialized.None? {
        range := range.(serialized := Some(SectionOf(range.entries)));
        table.ranges := table.ranges[i := range];
        updated := true;
      }
      links := links + [range.serialized.value];
      i := i + 1;
    }
    assert was[..i] == was;
    RefreshedOk(table.ranges, was, i);
    SameRecord(table.ranges, was, i);
    record := if updated then Some(Record(buf, links)) else None;
  }

  /** The first `n` ranges carry their serialized form. */
  ghost predicate AllCurrent(rs: seq<Range>, n: nat)
    requires n <= |rs|
  {
    forall k :: 0 <= k < n ==> rs[k].serialized.Some?
  }

  lemma NothingWritten(rs: seq<Range>)
    ensures Refreshed(rs, rs, 0) && Windows(rs[..0]) == [] && Sections(rs[..0]) == [] && AllCurrent(rs, 0)
  {
  }

  lemma RangeWritten(rs: seq<Range>, was: seq<Range>, i: nat)
    requires RangesOk(was) && Refreshed(rs, was, i) && i < |was|
    ensures rs[i] == was[i]
    ensures var form := SectionOf(was[i].entries);
      && (was[i].serialized.Some? ==> was[i].serialized.value == form && Refreshed(rs, was, i + 1))
      && Refreshed(rs[i := was[i].(serialized := Some(form))], was, i + 1)
      && Windows(was[..i + 1]) == Windows(was[..i]) + Le64(was[i].start) + Le64(was[i].end)
      && Sections(was[..i + 1]) == Sections(was[..i]) + [form]
    ensures AllCurrent(was, i + 1) <==> AllCurrent(was, i) && was[i].serialized.Some?
  {
    hide RangesOk, SectionOf, Windows, Sections;
    if was[i].serialized.Some? {
      CurrentForm(was, i);
    }
    NextWindow(was, i);
    RefreshedNext(rs, was, i);
    hide Refreshed;
  }

  lemma RefreshedNext(rs: seq<Range>, was: seq<Range>, i: nat)
    requires Refreshed(rs, was, i) && i < |was|
    ensures rs[i] == was[i]
    ensures var x := was[i].(serialized := Some(SectionOf(was[i].entries)));
      Refreshed(rs[i := x], was, i + 1) && (was[i] == x ==> Refreshed(rs, was, i + 1))
  {
    hide SectionOf;
  }

  lemma CurrentForm(rs: seq<Range>, k: nat)
    requires RangesOk(rs) && k < |rs| && rs[k].serialized.Some?
    ensures rs[k].serialized.value == SectionOf(rs[k].entries)
  {
    assert RangeOk(rs[k]);
    hide RangesOk;
  }

  lemma NextWindow(rs: seq<Range>, i: nat)
    requires i < |rs|
    ensures Windows(rs[..i + 1]) == Windows(rs[..i]) + Le64(rs[i].start) + Le64(rs[i].end)
    ensures Sections(rs[..i + 1]) == Sections(rs[..i]) + [SectionOf(rs[i].entries)]
  {
    assert rs[..i + 1][..i] == rs[..i];
  }

  lemma {:induction false} SameRecord(rs: seq<Range>, was: seq<Range>, n: nat)
    requires Refreshed(rs, was, n) && n == |rs|
    ensures Windows(rs) == Windows(was) && Sections(rs) == Sections(was)
  {
    hide SectionOf;
    if n > 0 {
      SameRecord(rs[..n - 1], was[..n - 1], n - 1);
    }
  }

  // ------------------------------------------------ what is read

  /** A 32-bit word kept in a signed integer. */
  function Signed(v: nat): (r: int)
    ensures v < U32_LIMIT ==> -0x8000_0000 <= r < 0x8000_0000 && (r == v || r == v - 0x1_0000_0000)
  {
    if v < INT_LIMIT then v else v - U32_LIMIT
  }

  function Word(s: Bytes, at: nat): (v: nat)
    requires at + 4 <= |s|
  {
    Decode(s[at..at + 4])
  }

  /** What the version vector says of the cleaner's log, after `n` entries. */
  function Seen(s: Bytes, n: nat, before: int): (latest: int)
    requires 12 + 8 * n <= |s|
  {
    if n == 0 then before
    else if Word(s, 12 + 8 * (n - 1)) == CLOUD_DIR_CLEANER then Signed(Word(s, 16 + 8 * (n - 1)))
    else Seen(s, n - 1, before)
  }

  /** The checks made on a record before it is used. */
  predicate HeaderOk(record: Record) {
    && |record.data| >= 12
    && Decode(record.data[..8]) == CHECKPOINT_MAGIC
    && Word(record.data, 8) <= 2
    && |record.data| == 16 * |record.sections| + 12 + 8 * Word(record.data, 8)
  }

  /** The checks in terms of bytes: the eight of the magic number, a count of at
      most two in the next four, and the length that the count and the links
      call for. */
  lemma HeaderExact(record: Record)
    ensures HeaderOk(record) <==>
      && |record.data| >= 12
      && record.data[..8] == [0xb4, 0x98, 0xa4, 0x42, 0xfb, 0xda, 0xd7, 0x7a]
      && record.data[8] <= 2 && record.data[9..12] == [0, 0, 0]
      && |record.data| == 12 + 8 * record.data[8] as nat + 16 * |record.sections|
  {
    var d := record.data;
    if |d| >= 12 {
      MagicRead(d[..8]);
      CountRead(d[8..12]);
      assert d[9..12] == d[8..12][1..];
      hide Decode;
    }
  }

  lemma MagicBytes()
    ensures Le64(CHECKPOINT_MAGIC) == [0xb4, 0x98, 0xa4, 0x42, 0xfb, 0xda, 0xd7, 0x7a]
  {
    HighBytes();
    assert Encode(0x7ad7_dafb_42, 5) == [0x42] + Encode(0x7ad7_dafb, 4);
    assert Encode(0x7ad7_dafb_42a4, 6) == [0xa4] + Encode(0x7ad7_dafb_42, 5);
    assert Encode(0x7ad7_dafb_42a4_98, 7) == [0x98] + Encode(0x7ad7_dafb_42a4, 6);
    assert Encode(CHECKPOINT_MAGIC, 8) == [0xb4] + Encode(0x7ad7_dafb_42a4_98, 7);
    hide Encode;
  }

  lemma HighBytes()
    ensures Encode(0x7ad7_dafb, 4) == [0xfb, 0xda, 0xd7, 0x7a]
  {
    assert Encode(0x7a, 1) == [0x7a] + Encode(0, 0);
    assert Encode(0x7ad7, 2) == [0xd7] + Encode(0x7a, 1);
    assert Encode(0x7ad7_da, 3) == [0xda] + Encode(0x7ad7, 2);
    assert Encode(0x7ad7_dafb, 4) == [0xfb] + Encode(0x7ad7_da, 3);
    hide Encode;
  }

  lemma MagicRead(s: Bytes)
    requires |s| == 8
    ensures Decode(s) == CHECKPOINT_MAGIC <==> s == [0xb4, 0x98, 0xa4, 0x42, 0xfb, 0xda, 0xd7, 0x7a]
  {
    MagicBytes();
    hide Le64, Decode;
    RoundTrip64(CHECKPOINT_MAGIC);
    Decode64(s);
  }

  lemma CountRead(s: Bytes)
    requires |s| == 4
    ensures Decode(s) <= 2 <==> s[0] <= 2 && s[1..] == [0, 0, 0]
    ensures s[1..] == [0, 0, 0] ==> Decode(s) == s[0] as nat
  {
    assert Decode([0]) == 0 && Decode([0, 0][1..]) == 0 && Decode([0, 0, 0][1..]) == 0;
    EncodeDecode(s[1..]);
    if Decode(s) <= 2 {
      assert Decode(s[1..]) == 0;
      assert Encode(0, 1) == [0] && Encode(0, 2) == [0, 0] && Encode(0, 3) == [0, 0, 0];
    }
  }

  /** The section's j-th inode number. */
  function Inum(section: Section, j: nat): (inum: nat)
    requires 8 * j + 8 <= |section.data|
    ensures inum < U64_LIMIT
  {
    Decode64(section.data[8 * j..8 * j + 8]);
    Decode(section.data[8 * j..8 * j + 8])
  }

  predicate Whole(section: Section) {
    8 * |section.links| <= |section.data|
  }

  /** Loading sections one entry after the other. */
  function LoadSection(section: Section, n: nat, m: map<nat, ItemRef>): (r: map<nat, ItemRef>)
    requires n <= |section.links| && 8 * n <= |section.data|
  {
    if n == 0 then m else LoadSection(section, n - 1, m)[Inum(section, n - 1) := section.links[n - 1]]
  }

  function LoadAll(ss: seq<Section>, m: map<nat, ItemRef>): (r: map<nat, ItemRef>)
    requires AllWhole(ss)
  {
    if ss == [] then m
    else LoadSection(ss[|ss| - 1], |ss[|ss| - 1].links|, LoadAll(ss[..|ss| - 1], m))
  }

  /** The next free inode number after an entry, as a 64-bit count. */
  function Bump(next: nat, inum: nat): (r: nat) {
    var after := (inum + 1) % U64_LIMIT;
    if next > after then next else after
  }

  function NextSection(section: Section, n: nat, next: nat): (r: nat)
    requires n <= |section.links| && 8 * n <= |section.data|
  {
    if n == 0 then next else Bump(NextSection(section, n - 1, next), Inum(section, n - 1))
  }

  function NextAll(ss: seq<Section>, next: nat): (r: nat)
    requires AllWhole(ss)
  {
    if ss == [] then next
    else NextSection(ss[|ss| - 1], |ss[|ss| - 1].links|, NextAll(ss[..|ss| - 1], next))
  }

  /** How reading a record ends: at a failed check, where the program stops; at
      a section with fewer inode numbers than links, where it reads past the end
      of the section and nothing can be said of what it does; or well. */
  datatype Outcome = Refused | Overrun | Loaded

  predicate AllWhole(ss: seq<Section>) {
    forall k :: 0 <= k < |ss| ==> Whole(ss[k])
  }

  /** Rebuild the map from a record. */
  method Deserialize(table: InodeTable, record: Record, latestBefore: int, nextBefore: nat)
    returns (outcome: Outcome, latest: int, nextInum: nat)
    requires table.Valid()
    modifies table
    ensures table.Valid()
    ensures outcome == if !HeaderOk(record) then Refused else if !AllWhole(record.sections) then Overrun else Loaded
    ensures outcome.Refused? ==> table.ranges == old(table.ranges)
    ensures outcome.Loaded? ==> table.Map() == LoadAll(record.sections, old(table.Map()))
    ensures outcome.Loaded? ==> latest == Seen(record.data, Word(record.data, 8), latestBefore)
    ensures outcome.Loaded? ==> nextInum == NextAll(record.sections, nextBefore)
    ensures old(Unwritten(table.ranges)) ==> Unwritten(table.ranges)
  {
    hide MapOf, LoadSection, RangesOk, Decode, NextSection, Seen;
    latest, nextInum := latestBefore, nextBefore;
    if !HeaderOk(record) {
      return Refused, latest, nextInum;
    }
    latest := ReadVector(record.data, latestBefore);
    var ss := record.sections;
    var i := 0;
    while i < |ss|
      invariant i <= |ss| && table.Valid() && AllWhole(ss[..i])
      invariant old(Unwritten(table.ranges)) ==> Unwritten(table.ranges)
      invariant table.Map() == LoadAll(ss[..i], old(table.Map()))
      invariant nextInum == NextAll(ss[..i], nextBefore)
    {
      assert ss[..i + 1][..i] == ss[..i];
      var whole: bool;
      whole, nextInum := LoadOne(table, ss[i], nextInum);
      if !whole {
        return Overrun, latest, nextInum;
      }
      i := i + 1;
    }
    assert ss[..i] == ss;
    outcome := Loaded;
  }

  method ReadVector(data: Bytes, before: int) returns (latest: int)
    requires |data| >= 12 && 12 + 8 * Word(data, 8) <= |data|
    ensures latest == Seen(data, Word(data, 8), before)
  {
    hide Word;
    latest := before;
    var size := Word(data, 8);
    var i := 0;
    while i < size
      invariant i <= size && latest == Seen(data, i, before)
    {
      if Word(data, 12 + 8 * i) == CLOUD_DIR_CLEANER {
        latest := Signed(Word(data, 16 + 8 * i));
      }
      i := i + 1;
    }
  }

  /** Load one section; `whole` is false where the program reads past its end. */
  method LoadOne(table: InodeTable, section: Section, before: nat) returns (whole: bool, nextInum: nat)
    requires table.Valid()
    modifies table
    ensures table.Valid() && whole == Whole(section)
    ensures whole ==> table.Map() == LoadSection(section, |section.links|, old(table.Map()))
    ensures whole ==> nextInum == NextSection(section, |section.links|, before)
    ensures old(Unwritten(table.ranges)) ==> Unwritten(table.ranges)
  {
    hide MapOf, RangesOk, Inum;
    nextInum := before;
    var j := 0;
    while j < |section.links|
      invariant j <= |section.links| && 8 * j <= |section.data| && table.Valid()
      invariant old(Unwritten(table.ranges)) ==> Unwritten(table.ranges)
      invariant table.Map() == LoadSection(section, j, old(table.Map()))
      invariant nextInum == NextSection(section, j, before)
    {
      if 8 * j + 8 > |section.data| {
        return false, nextInum;
      }
      var inum := Inum(section, j);
      table.Update(inum, section.links[j]);
      nextInum := Bump(nextInum, inum);
      j := j + 1;
    }
    whole := true;
  }

  // ------------------------------------------------ round trip

  /** The header of a written record passes every check and gives back the
      cleaner's sequence number; a negative one is not written. */
  lemma HeaderRead(rs: seq<Range>, latest: int, before: int)
    requires -INT_LIMIT <= latest < INT_LIMIT
    ensures var record := RecordOf(rs, latest);
      && HeaderOk(record)
      && Seen(record.data, Word(record.data, 8), before) == if latest >= 0 then latest else before
  {
    hide RecordOf, Decode, Encode, Le32, Le64;
    var record := RecordOf(rs, latest);
    HeaderSlices(rs, latest);
    RoundTrip64(CHECKPOINT_MAGIC);
    RoundTrip32(0);
    RoundTrip32(1);
    if latest >= 0 {
      RoundTrip32(latest);
    }
    assert Word(record.data, 8) == if latest >= 0 then 1 else 0;
  }

  lemma HeaderSlices(rs: seq<Range>, latest: int)
    ensures var record := RecordOf(rs, latest);
      var s := record.data;
      && |record.sections| == |rs| && |s| == 16 * |rs| + (if latest >= 0 then 20 else 12)
      && s[..8] == Le64(CHECKPOINT_MAGIC) && s[8..12] == Le32(if latest >= 0 then 1 else 0)
      && (latest >= 0 ==> s[12..16] == Le32(CLOUD_DIR_CLEANER) && s[16..20] == Le32(latest))
  {
    hide Windows, Sections, Le32, Le64, Encode;
  }

  /** The inode numbers of a written section read back. */
  lemma {:induction false} InumRead(es: seq<Entry>, j: nat)
    requires j < |es| && forall k :: 0 <= k < |es| ==> es[k].inum < U64_LIMIT
    ensures Inum(SectionOf(es), j) == es[j].inum
  {
    var n := |es| - 1;
    hide Decode, Le64, Links;
    var s := SectionData(es);
    if j == n {
      RoundTrip64(es[n].inum);
      assert s[8 * n..8 * n + 8] == Le64(es[n].inum);
    } else {
      InumRead(es[..n], j);
      assert s[8 * j..8 * j + 8] == SectionData(es[..n])[8 * j..8 * j + 8];
    }
  }

  /** Loading a written section puts its entries into the map. */
  lemma {:induction false} SectionLoads(es: seq<Entry>, n: nat, m: map<nat, ItemRef>, next: nat)
    requires n <= |es| && forall k :: 0 <= k < |es| ==> es[k].inum < U64_LIMIT
    ensures LoadSection(SectionOf(es), n, m) == m + EntriesMap(es[..n])
    ensures NextSection(SectionOf(es), n, next) == NextEntries(es[..n], next)
  {
    hide Inum, SectionData;
    if n > 0 {
      SectionLoads(es, n - 1, m, next);
      InumRead(es, n - 1);
      EntriesNext(es, n - 1, m, next);
    }
  }

  function NextEntries(es: seq<Entry>, next: nat): (r: nat) {
    if es == [] then next else Bump(NextEntries(es[..|es| - 1], next), es[|es| - 1].inum)
  }

  function NextRanges(rs: seq<Range>, next: nat): (r: nat) {
    if rs == [] then next else NextEntries(rs[|rs| - 1].entries, NextRanges(rs[..|rs| - 1], next))
  }

  lemma EntriesNext(es: seq<Entry>, n: nat, m: map<nat, ItemRef>, next: nat)
    requires n < |es|
    ensures m + EntriesMap(es[..n + 1]) == (m + EntriesMap(es[..n]))[es[n].inum := es[n].item]
    ensures NextEntries(es[..n + 1], next) == Bump(NextEntries(es[..n], next), es[n].inum)
  {
    assert es[..n + 1][..n] == es[..n];
  }

  ghost predicate InumsFit(rs: seq<Range>) {
    forall r, k :: 0 <= r < |rs| && 0 <= k < |rs[r].entries| ==> rs[r].entries[k].inum < U64_LIMIT
  }

  lemma {:induction false} SectionsLoad(rs: seq<Range>, m: map<nat, ItemRef>, next: nat)
    requires InumsFit(rs)
    ensures AllWhole(Sections(rs))
    ensures LoadAll(Sections(rs), m) == m + MapOf(rs)
    ensures NextAll(Sections(rs), next) == NextRanges(rs, next)
  {
    if rs != [] {
      var n := |rs| - 1;
      SectionsLoad(rs[..n], m, next);
      var es := rs[n].entries;
      assert Sections(rs)[..n] == Sections(rs[..n]);
      SectionLoads(es, |es|, LoadAll(Sections(rs[..n]), m), NextAll(Sections(rs[..n]), next));
      assert es[..|es|] == es;
      hide SectionOf, LoadSection, NextSection, EntriesMap, MapOf;
      MergeAssoc(m, MapOf(rs[..n]), EntriesMap(es));
    }
  }

  lemma {:induction false} EntriesBelow(es: seq<Entry>, next: nat)
    requires next < U64_LIMIT && forall k :: 0 <= k < |es| ==> es[k].inum < U64_LIMIT - 1
    ensures next <= NextEntries(es, next) < U64_LIMIT
    ensures forall k :: 0 <= k < |es| ==> es[k].inum < NextEntries(es, next)
  {
    if es != [] {
      EntriesBelow(es[..|es| - 1], next);
    }
  }

  lemma {:induction false} EntriesFit(es: seq<Entry>, next: nat)
    requires next < U64_LIMIT
    ensures NextEntries(es, next) < U64_LIMIT
  {
    if es != [] {
      EntriesFit(es[..|es| - 1], next);
    }
  }

  lemma {:induction false} RangesFit(rs: seq<Range>, next: nat)
    requires next < U64_LIMIT
    ensures NextRanges(rs, next) < U64_LIMIT
  {
    if rs != [] {
      RangesFit(rs[..|rs| - 1], next);
      EntriesFit(rs[|rs| - 1].entries, NextRanges(rs[..|rs| - 1], next));
    }
  }

  lemma {:induction false} RangesBelow(rs: seq<Range>, next: nat)
    requires next < U64_LIMIT && InumsFit(rs) && U64_LIMIT - 1 !in MapOf(rs)
    ensures forall x :: x in MapOf(rs) ==> x < NextRanges(rs, next)
    ensures next <= NextRanges(rs, next)
  {
    hide NextEntries, EntriesMap;
    if rs != [] {
      var n := |rs| - 1;
      var es := rs[n].entries;
      RangesBelow(rs[..n], next);
      RangesFit(rs[..n], next);
      forall k | 0 <= k < |es|
        ensures es[k].inum < U64_LIMIT - 1
      {
        KeyPresent(es, k);
      }
      EntriesBelow(es, NextRanges(rs[..n], next));
      forall x | x in EntriesMap(es)
        ensures x < NextRanges(rs, next)
      {
        EntriesIn(es, x);
      }
    }
  }

  lemma KeyPresent(es: seq<Entry>, k: nat)
    requires k < |es|
    ensures es[k].inum in EntriesMap(es)
  {
    hide EntriesMap;
    assert EntryKeys(es)[k] == es[k].inum;
    EntriesIn(es, es[k].inum);
  }

  /** A checkpoint gives the file system back: a fresh one loads the same map
      and the same cleaner sequence number. */
  lemma CheckpointRestores(rs: seq<Range>, latest: int)
    requires RangesOk(rs) && -INT_LIMIT <= latest < INT_LIMIT
    ensures var record := RecordOf(rs, latest);
      && HeaderOk(record)
      && AllWhole(record.sections)
      && LoadAll(record.sections, map[]) == MapOf(rs)
      && Seen(record.data, Word(record.data, 8), -1) == (if latest >= 0 then latest else -1)
  {
    hide RangesOk, MapOf, LoadAll, NextAll, HeaderOk, Seen, Windows, Header, Word, Sections, AllWhole;
    HeaderRead(rs, latest, -1);
    FitFromOk(rs);
    SectionsLoad(rs, map[], 0);
    assert map[] + MapOf(rs) == MapOf(rs);
  }

  /** The next inode number a fresh file system takes from a checkpoint is
      above every number in use, exactly when the largest 64-bit number is not
      in use: its successor wraps to 0. */
  lemma NextInumFree(rs: seq<Range>)
    requires RangesOk(rs)
    ensures AllWhole(Sections(rs))
    ensures (forall x :: x in MapOf(rs) ==> x < NextAll(Sections(rs), ROOT_INUM + 1))
      <==> U64_LIMIT - 1 !in MapOf(rs)
  {
    hide RangesOk, MapOf, LoadAll, NextAll, Sections, AllWhole, NextRanges;
    FitFromOk(rs);
    SectionsLoad(rs, map[], ROOT_INUM + 1);
    RangesFit(rs, ROOT_INUM + 1);
    if U64_LIMIT - 1 !in MapOf(rs) {
      RangesBelow(rs, ROOT_INUM + 1);
    }
  }

  lemma FitFromOk(rs: seq<Range>)
    requires RangesOk(rs)
    ensures InumsFit(rs)
  {
    forall r, k | 0 <= r < |rs| && 0 <= k < |rs[r].entries|
      ensures rs[r].entries[k].inum < U64_LIMIT
    {
      assert RangeOk(rs[r]);
    }
  }
}
