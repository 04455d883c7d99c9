/** Journal files: the writer that lays records out in them, and the two scans
    replay makes over them. */
module JournalFile {
  import opened Bytes
  import opened Crc32c
  import opened Journal

  const LOG_SEGMENT_SIZE: nat := 0x40_0000

  // ------------------------------------------------ the contents of a file

  predicate AllFit(items: seq<Item>) {
    forall k :: 0 <= k < |items| ==> items[k].Fits()
  }

  /** The bytes of a file that holds these items and nothing else. */
  function Segment(items: seq<Item>): (s: Bytes)
    requires AllFit(items)
    decreases |items|
  {
    if items == [] then []
    else
      var init := items[..|items| - 1];
      Segment(init) + Record(items[|items| - 1], |Segment(init)|)
  }

  function OffsetOf(items: seq<Item>, k: nat): (offset: nat)
    requires AllFit(items) && k <= |items|
  {
    |Segment(items[..k])|
  }

  /** Every record starts where the segment limit still had room. */
  predicate Laid(items: seq<Item>) {
    && AllFit(items)
    && forall k :: 0 <= k < |items| ==> OffsetOf(items, k) < LOG_SEGMENT_SIZE
  }

  function Entries(items: seq<Item>): (es: seq<Entry>)
    requires AllFit(items)
    ensures |es| == |items|
  {
    seq(|items|, k requires 0 <= k < |items| => EntryOf(items[k], OffsetOf(items, k)))
  }

  lemma NextOffset(items: seq<Item>, k: nat)
    requires AllFit(items) && k < |items|
    ensures OffsetOf(items, k + 1) == OffsetOf(items, k) + items[k].Size()
  {
    hide Record;
    assert items[..k + 1][..k] == items[..k];
  }

  /** The k-th record lies where the sizes of the earlier ones put it. */
  lemma {:induction false} SegmentHolds(items: seq<Item>, k: nat, tail: Bytes)
    requires AllFit(items) && k < |items|
    ensures Holds(Segment(items) + tail, OffsetOf(items, k), items[k])
    decreases |items|
  {
    hide Record;
    var n := |items| - 1;
    var init := items[..n];
    var record := Record(items[n], |Segment(init)|);
    assert Segment(items) + tail == Segment(init) + (record + tail);
    if k == n {
      assert items[..n] == init;
    } else {
      SegmentHolds(init, k, record + tail);
      assert init[..k] == items[..k];
    }
  }

  // ------------------------------------------------ scanning

  /** All records from `offset` on, up to the first that fails the check. */
  function Scan(buf: Bytes, offset: nat): (es: seq<Entry>)
    decreases |buf| - offset
  {
    if Validate(buf, offset)
    then [EntryAt(buf, offset)] + Scan(buf, NextRecord(buf, offset))
    else []
  }

  function NextRecord(buf: Bytes, offset: nat): (next: nat)
    requires offset + HEADER_SIZE <= |buf|
    ensures next > offset
  {
    offset + HEADER_SIZE + PayloadSize(buf, offset) + FOOTER_SIZE
  }

  /** The scan that reloads items during replay. */
  method ScanJournal2(buf: Bytes, start: nat) returns (objects: seq<Entry>)
    ensures objects == Scan(buf, start)
  {
    hide Validate, EntryAt, PayloadSize;
    objects := [];
    var offset := start;
    while Validate(buf, offset)
      invariant objects + Scan(buf, offset) == Scan(buf, start)
      decreases |buf| - offset
    {
      AcceptedInBounds(buf, offset);
      objects := objects + [EntryAt(buf, offset)];
      offset := NextRecord(buf, offset);
    }
  }

  lemma AcceptedInBounds(buf: Bytes, offset: nat)
    requires Validate(buf, offset)
    ensures offset + HEADER_SIZE <= |buf|
    ensures NextRecord(buf, offset) <= |buf|
  {
    hide Word32, ChecksumValid, PayloadSize;
  }

  lemma ScanHeld(buf: Bytes, offset: nat, item: Item)
    requires item.Fits() && offset < U32_LIMIT && Holds(buf, offset, item)
    ensures Scan(buf, offset) == [EntryOf(item, offset)] + Scan(buf, offset + item.Size())
  {
    hide Validate, EntryAt, Holds, HoldsHeader, PayloadSize;
    CompleteRecordAccepted(buf, offset, item);
    HeldHeader(buf, offset, item);
    ReadSize(buf, offset, item);
  }

  /** Starting at any record boundary, the scan returns exactly the records
      from there on, provided nothing acceptable follows them. */
  lemma {:induction false} ScanSuffix(items: seq<Item>, tail: Bytes, k: nat)
    requires Laid(items) && k <= |items|
    requires !Validate(Segment(items) + tail, |Segment(items)|)
    ensures Scan(Segment(items) + tail, OffsetOf(items, k)) == Entries(items)[k..]
    decreases |items| - k
  {
    hide Validate, Holds, Segment, Record;
    var buf := Segment(items) + tail;
    if k == |items| {
      assert items[..k] == items;
    } else {
      ScanSuffix(items, tail, k + 1);
      SegmentHolds(items, k, tail);
      NextOffset(items, k);
      ScanHeld(buf, OffsetOf(items, k), items[k]);
      assert Entries(items)[k..] == [Entries(items)[k]] + Entries(items)[k + 1..];
    }
  }

  /** Zero fill is never taken for a record. */
  lemma FillRejected(before: Bytes, fill: nat)
    ensures !Validate(before + Zeros(fill), |before|)
  {
    hide Decode, Le32, ChecksumValid, PayloadSize;
    var buf := before + Zeros(fill);
    if HeaderValid(buf, |before|) {
      WordBytes(buf, |before|, HEADER_MAGIC);
      MagicTails();
      assert false;
    }
  }

  /** Write/scan round trip: a preallocated file gives back, in order and at
      their offsets, exactly the items written to it. */
  lemma ScanRoundTrip(items: seq<Item>, fill: nat, k: nat)
    requires Laid(items) && k <= |items|
    ensures Scan(Segment(items) + Zeros(fill), OffsetOf(items, k)) == Entries(items)[k..]
  {
    FillRejected(Segment(items), fill);
    ScanSuffix(items, Zeros(fill), k);
  }

  lemma TornButWhole(before: Bytes, item: Item, t: nat, fill: nat)
    requires item.Fits() && t <= item.Size()
    requires Holds(Torn(before, item, t, fill), |before|, item)
    ensures fill >= item.Size() - t
    ensures Torn(before, item, t, fill) == before + Record(item, |before|) + Zeros(fill - (item.Size() - t))
  {
    hide Record;
    var disk := Torn(before, item, t, fill);
    var n := item.Size();
    assert disk[..|before|] == before;
    assert disk[|before| + n..] == Zeros(fill - (n - t));
    assert disk == disk[..|before|] + disk[|before|..|before| + n] + disk[|before| + n..];
  }

  lemma OffsetsStay(items: seq<Item>, next: Item)
    requires AllFit(items) && next.Fits()
    ensures AllFit(items + [next])
    ensures forall k :: 0 <= k <= |items| ==> OffsetOf(items + [next], k) == OffsetOf(items, k)
    ensures OffsetOf(items, |items|) == |Segment(items)|
    ensures Segment(items + [next]) == Segment(items) + Record(next, |Segment(items)|)
  {
    hide Record;
    var all := items + [next];
    assert all[..|items|] == items == items[..|items|];
    assert forall k :: 0 <= k <= |items| ==> all[..k] == items[..k];
  }

  lemma Appended(items: seq<Item>, next: Item)
    requires Laid(items) && next.Fits() && |Segment(items)| < LOG_SEGMENT_SIZE
    ensures Laid(items + [next])
    ensures Segment(items + [next]) == Segment(items) + Record(next, |Segment(items)|)
    ensures Entries(items + [next]) == Entries(items) + [EntryOf(next, |Segment(items)|)]
  {
    hide Record, OffsetOf, Segment;
    OffsetsStay(items, next);
    var all := items + [next];
    assert all[|items|] == next && forall k :: 0 <= k < |items| ==> all[k] == items[k];
    forall k | 0 <= k < |all|
      ensures OffsetOf(all, k) < LOG_SEGMENT_SIZE
      ensures Entries(all)[k] == (Entries(items) + [EntryOf(next, |Segment(items)|)])[k]
    {
    }
    hide Entries;
  }

  /** What a crash leaves to scan: the records written before, and the one being
      written exactly when all its bytes reached the disk. */
  lemma ScanAfterCrash(items: seq<Item>, next: Item, t: nat, fill: nat, k: nat)
    requires Laid(items) && next.Fits() && |Segment(items)| < LOG_SEGMENT_SIZE
    requires t <= next.Size() && k <= |items|
    ensures Scan(Torn(Segment(items), next, t, fill), OffsetOf(items, k))
         == Entries(items)[k..]
          + if Holds(Torn(Segment(items), next, t, fill), |Segment(items)|, next)
            then [EntryOf(next, |Segment(items)|)] else []
  {
    hide Record, Validate, Holds, Entries;
    var before := Segment(items);
    var disk := Torn(before, next, t, fill);
    TornTailExact(before, next, t, fill);
    if Holds(disk, |before|, next) {
      var all := items + [next];
      TornButWhole(before, next, t, fill);
      Appended(items, next);
      assert all[..k] == items[..k];
      ScanRoundTrip(all, fill - (next.Size() - t), k);
    } else {
      var tail := Record(next, |before|)[..t] + Zeros(fill);
      assert disk == before + tail;
      ScanSuffix(items, tail, k);
    }
  }

  // ------------------------------------------------ the writer

  function Flatten(segs: seq<seq<Item>>): (items: seq<Item>)
  {
    if segs == [] then [] else Flatten(segs[..|segs| - 1]) + segs[|segs| - 1]
  }

  datatype Location = Location(seqNum: nat, offset: nat, size: nat)

  /** A record found by scanning, and the number of the file it is in. */
  datatype Found = Found(file: nat, entry: Entry)

  function FoundIn(file: nat, es: seq<Entry>): (r: seq<Found>)
    ensures |r| == |es|
  {
    seq(|es|, k requires 0 <= k < |es| => Found(file, es[k]))
  }

  /** A file as it lies on disk: it was preallocated, so zeros follow. */
  function OnDisk(file: Bytes): (s: Bytes) {
    file + Zeros(if |file| < LOG_SEGMENT_SIZE then LOG_SEGMENT_SIZE - |file| else 0)
  }

  /** What scanning every file from its start finds. */
  function ScanAll(files: seq<Bytes>, numbers: seq<nat>): (r: seq<Found>)
    requires |files| == |numbers|
  {
    if files == [] then []
    else
      var n := |files| - 1;
      ScanAll(files[..n], numbers[..n]) + FoundIn(numbers[n], Scan(OnDisk(files[n]), 0))
  }

  /** The log thread's state: the files written so far, the last of which is
      open, their numbers, the next number to try, the journal files that exist
      already, and the items written but not yet synced. */
  class LogWriter {
    var files: seq<Bytes>
    var numbers: seq<nat>
    var seqNum: nat
    var existing: set<nat>
    var committed: seq<Item>
    ghost var contents: seq<seq<Item>>
    ghost var durable: seq<Item>

    ghost predicate Valid()
      reads this
    {
      && |files| == |contents| == |numbers| && FilesOk(files, contents, numbers)
      && (files != [] ==> numbers[|numbers| - 1] == seqNum)
      && (forall k :: 0 <= k < |numbers| ==> numbers[k] in existing && numbers[k] <= seqNum)
      && Flatten(contents) == durable + committed
    }

    constructor (first: nat, existing: set<nat>)
      ensures Valid() && files == [] && numbers == [] && seqNum == first && this.existing == existing
      ensures durable == [] && committed == []
    {
      seqNum, this.existing := first, existing;
      files, numbers, contents := [], [], [];
      committed, durable := [], [];
    }

    /** Sync the open file: everything written so far is on disk. */
    method LogCommit()
      requires Valid()
      modifies this`committed, this`durable
      ensures Valid() && committed == [] && durable == Flatten(contents)
    {
      durable := durable + committed;
      committed := [];
      assert durable + [] == durable;
    }

    /** Sync and close the open file, and start the next one under the first
        number no file has. */
    method LogOpen()
      requires Valid()
      modifies this
      ensures Valid() && files == old(files) + [[]] && contents == old(contents) + [[]]
      ensures numbers == old(numbers) + [seqNum] && existing == old(existing) + {seqNum}
      ensures old(files) != [] ==> committed == [] && durable == Flatten(contents)
      ensures seqNum !in old(existing) && seqNum >= if old(files) != [] then old(seqNum) + 1 else old(seqNum)
      ensures forall n :: (if old(files) != [] then old(seqNum) + 1 else old(seqNum)) <= n < seqNum ==> n in old(existing)
    {
      hide FilesOk, Flatten;
      if files != [] {
        LogCommit();
        seqNum := seqNum + 1;
      }
      ghost var start := seqNum;
      while seqNum in existing
        invariant start <= seqNum && forall n :: start <= n < seqNum ==> n in existing
        invariant unchanged(`files, `numbers, `existing, `contents) && Flatten(contents) == durable + committed
        invariant old(files) != [] ==> committed == [] && durable == Flatten(contents)
        decreases |From(existing, seqNum)|
      {
        FromNext(existing, seqNum);
        seqNum := seqNum + 1;
      }
      NewFile(files, contents, numbers, seqNum);
      FlattenEmpty(contents);
      files := files + [[]];
      contents := contents + [[]];
      numbers := numbers + [seqNum];
      existing := existing + {seqNum};
    }

    /** Write one item, in a new file if it would overflow the current one.  The
        location returned is where a scan finds it, behind everything written
        before. */
    method WriteItem(item: Item) returns (loc: Location)
      requires Valid() && item.Fits()
      modifies this
      ensures Valid() && files != []
      ensures Flatten(contents) == Flatten(old(contents)) + [item]
      ensures loc.seqNum == seqNum && loc.size == item.Size()
      ensures contents[|contents| - 1] != [] && loc.offset == LastOffset(contents[|contents| - 1])
      ensures ScanAll(files, numbers)
        == ScanAll(old(files), old(numbers)) + [Found(loc.seqNum, EntryOf(item, loc.offset))]
      ensures |files| == |old(files)| + if Overflows(old(files), item.Size()) then 1 else 0
      ensures forall k :: 0 <= k < |old(files)| ==> old(files)[k] <= files[k]
    {
      hide Record, Flatten, FilesOk, ScanAll, LastOffset;
      if files == [] {
        LogOpen();
        FlattenEmpty(old(contents));
        NewFileScans(old(files), old(numbers), seqNum);
      }
      var last := |files| - 1;
      var offset := |files[last]|;
      var size := item.Size();
      if offset + size >= LOG_SEGMENT_SIZE && offset > 0 {
        FlattenEmpty(contents);
        ghost var fs, ns := files, numbers;
        LogOpen();
        NewFileScans(fs, ns, seqNum);
        last := last + 1;
        offset := 0;
      }
      var record := BuildRecord(item, offset);
      NextItem(files, contents, numbers, item);
      FlattenNext(contents, item);
      files := files[last := files[last] + record];
      contents := contents[last := contents[last] + [item]];
      committed := committed + [item];
      loc := Location(seqNum, offset, size);
    }

    /** Drain a queue of items into the journal: scanning the files, zero fill
        included, then finds exactly the queue's items behind what was there, in
        order and at the locations returned, and all of it has been synced. */
    method LogThread(queue: seq<Item>) returns (locs: seq<Location>)
      requires Valid() && AllFit(queue)
      modifies this
      ensures Valid() && Flatten(contents) == Flatten(old(contents)) + queue
      ensures |locs| == |queue|
      ensures ScanAll(files, numbers) == ScanAll(old(files), old(numbers)) + Queued(queue, locs)
      ensures queue != [] ==> committed == [] && durable == Flatten(contents)
    {
      hide Flatten, FilesOk, ScanAll, LastOffset;
      locs := [];
      assert queue[..0] == [] && ScanAll(files, numbers) + [] == ScanAll(files, numbers);
      assert Flatten(contents) + [] == Flatten(contents);
      for i := 0 to |queue|
        invariant Valid() && |locs| == i
        invariant Flatten(contents) == Flatten(old(contents)) + queue[..i]
        invariant ScanAll(files, numbers) == ScanAll(old(files), old(numbers)) + Queued(queue[..i], locs)
        invariant i == |queue| > 0 ==> committed == [] && durable == Flatten(contents)
      {
        var loc := WriteItem(queue[i]);
        assert queue[..i + 1] == queue[..i] + [queue[i]];
        assert Queued(queue[..i + 1], locs + [loc]) == Queued(queue[..i], locs) + [Found(loc.seqNum, EntryOf(queue[i], loc.offset))];
        locs := locs + [loc];
        if i == |queue| - 1 {
          LogCommit();
        }
      }
      assert queue[..|queue|] == queue;
    }
  }

  /** There is no file, or the last one has something in it and not enough room. */
  predicate Overflows(files: seq<Bytes>, size: nat) {
    files == [] || (0 < |files[|files| - 1]| && |files[|files| - 1]| + size >= 0x40_0000)
  }

  /** The items of a queue where the writer says they are. */
  function Queued(queue: seq<Item>, locs: seq<Location>): (r: seq<Found>)
    requires |queue| == |locs|
    ensures |r| == |queue|
  {
    seq(|queue|, k requires 0 <= k < |queue| => Found(locs[k].seqNum, EntryOf(queue[k], locs[k].offset)))
  }

  ghost predicate FilesOk(files: seq<Bytes>, contents: seq<seq<Item>>, numbers: seq<nat>) {
    && |files| == |contents| == |numbers|
    && forall k :: 0 <= k < |files| ==> Written(files[k], contents[k])
  }

  /** Where the last record of a file starts. */
  function LastOffset(items: seq<Item>): (offset: nat)
    requires AllFit(items) && items != []
  {
    OffsetOf(items, |items| - 1)
  }

  function From(existing: set<nat>, n: nat): (r: set<nat>) {
    set k | k in existing && k >= n
  }

  lemma FromNext(existing: set<nat>, n: nat)
    requires n in existing
    ensures |From(existing, n + 1)| < |From(existing, n)|
  {
    assert From(existing, n) == From(existing, n + 1) + {n};
  }

  lemma NewFile(files: seq<Bytes>, contents: seq<seq<Item>>, numbers: seq<nat>, n: nat)
    requires FilesOk(files, contents, numbers)
    ensures FilesOk(files + [[]], contents + [[]], numbers + [n])
  {
    hide Written;
    assert Written([], []) by { EmptyFile(); }
  }

  lemma EmptyFile()
    ensures Written([], [])
  {
  }

  /** A new file holds nothing a scan would find. */
  lemma NewFileScans(files: seq<Bytes>, numbers: seq<nat>, n: nat)
    requires |files| == |numbers|
    ensures ScanAll(files + [[]], numbers + [n]) == ScanAll(files, numbers)
  {
    hide Validate;
    FillRejected([], LOG_SEGMENT_SIZE);
    assert OnDisk([]) == [] + Zeros(LOG_SEGMENT_SIZE);
    assert (files + [[]])[..|files|] == files && (numbers + [n])[..|numbers|] == numbers;
    assert FoundIn(n, []) == [];
    assert ScanAll(files, numbers) + [] == ScanAll(files, numbers);
  }

  /** A written file, with its fill, scans as its items. */
  lemma WrittenScans(file: Bytes, items: seq<Item>)
    requires Written(file, items)
    ensures AllFit(items) && Scan(OnDisk(file), 0) == Entries(items)
  {
    hide Segment, Scan, Entries, Validate;
    assert OffsetOf(items, 0) == 0 by { assert items[..0] == []; NoItems(); }
    ScanRoundTrip(items, if |file| < LOG_SEGMENT_SIZE then LOG_SEGMENT_SIZE - |file| else 0, 0);
    assert Entries(items)[0..] == Entries(items);
  }

  lemma NoItems()
    ensures Segment([]) == []
  {
  }

  lemma EntriesNext(items: seq<Item>, item: Item)
    requires AllFit(items) && item.Fits()
    ensures AllFit(items + [item])
    ensures Entries(items + [item]) == Entries(items) + [EntryOf(item, |Segment(items)|)]
    ensures LastOffset(items + [item]) == |Segment(items)|
  {
    hide Segment;
    var all := items + [item];
    assert all[..|items|] == items;
    assert forall k :: 0 <= k < |items| ==> all[..k] == items[..k];
  }

  lemma NextItem(files: seq<Bytes>, contents: seq<seq<Item>>, numbers: seq<nat>, item: Item)
    requires FilesOk(files, contents, numbers) && files != [] && item.Fits()
    requires var file := files[|files| - 1]; |file| + item.Size() < LOG_SEGMENT_SIZE || |file| == 0
    ensures var n := |files| - 1;
      var files' := files[n := files[n] + Record(item, |files[n]|)];
      var contents' := contents[n := contents[n] + [item]];
      && FilesOk(files', contents', numbers) && AllFit(contents'[n])
      && LastOffset(contents'[n]) == |files[n]|
      && ScanAll(files', numbers) == ScanAll(files, numbers) + [Found(numbers[n], EntryOf(item, |files[n]|))]
  {
    hide Record, Segment, Scan, Entries, OnDisk, Laid;
    var n := |files| - 1;
    var file, items := files[n], contents[n];
    var file' := file + Record(item, |file|);
    assert Written(file, items);
    WrittenNext(file, items, item);
    LaidFits(items);
    EntriesNext(items, item);
    WrittenScans(file, items);
    WrittenScans(file', items + [item]);
    hide Written, LastOffset;
    var e := EntryOf(item, |file|);
    assert files[n := file'][..n] == files[..n];
    assert FoundIn(numbers[n], Entries(items) + [e]) == FoundIn(numbers[n], Entries(items)) + [Found(numbers[n], e)];
  }

  /** A file the writer may have produced: only a file with a single record may
      reach the segment limit. */
  ghost predicate Written(file: Bytes, items: seq<Item>) {
    && Laid(items)
    && file == Segment(items)
    && (|items| >= 2 ==> |file| < LOG_SEGMENT_SIZE)
  }

  lemma FlattenEmpty(segs: seq<seq<Item>>)
    ensures Flatten(segs + [[]]) == Flatten(segs)
  {
    assert (segs + [[]])[..|segs|] == segs;
  }

  lemma FlattenNext(segs: seq<seq<Item>>, item: Item)
    requires segs != []
    ensures Flatten(segs[|segs| - 1 := segs[|segs| - 1] + [item]]) == Flatten(segs) + [item]
  {
    var n := |segs| - 1;
    assert segs[n := segs[n] + [item]][..n] == segs[..n];
  }

  /** Appending where the writer appends keeps a file well formed. */
  lemma WrittenNext(file: Bytes, items: seq<Item>, item: Item)
    requires item.Fits() && Written(file, items)
    requires |file| + item.Size() < LOG_SEGMENT_SIZE || |file| == 0
    ensures Written(file + Record(item, |file|), items + [item])
    ensures Holds(file + Record(item, |file|), |file|, item)
  {
    LaidFits(items);
    hide Record, Laid, Segment, Holds, AllFit;
    Appended(items, item);
    HeldAtEnd(file, item);
    if |items| >= 1 {
      SegmentNotEmpty(items);
    }
  }

  lemma LaidFits(items: seq<Item>)
    requires Laid(items)
    ensures AllFit(items)
  {
  }

  lemma HeldAtEnd(file: Bytes, item: Item)
    requires item.Fits()
    ensures Holds(file + Record(item, |file|), |file|, item)
  {
    hide Record;
    assert (file + Record(item, |file|))[|file|..|file| + item.Size()] == Record(item, |file|);
  }

  lemma SegmentNotEmpty(items: seq<Item>)
    requires AllFit(items) && items != []
    ensures |Segment(items)| > 0
  {
    hide Record;
  }

  /** The record as the log thread computes it: the checksum is carried through
      the header, the three sections and the footer magic in turn. */
  method BuildRecord(item: Item, offset: nat) returns (record: Bytes)
    requires item.Fits()
    ensures record == Record(item, offset)
  {
    hide Crc, Header, Finalize, Le32;
    var header := Header(item, offset);
    var footer := Le32(FOOTER_MAGIC);
    var crc := Update(SEED, header);
    crc := Update(crc, item.data1);
    CrcComposes(SEED, header, item.data1);
    crc := Update(crc, item.data2);
    CrcComposes(SEED, header + item.data1, item.data2);
    crc := Update(crc, item.data3);
    CrcComposes(SEED, header + item.data1 + item.data2, item.data3);
    crc := Update(crc, footer);
    CrcComposes(SEED, header + item.data1 + item.data2 + item.data3, footer);
    record := header + item.data1 + item.data2 + item.data3 + footer + Finalize(crc);
    assert header + item.data1 + item.data2 + item.data3 + footer == Covered(item, offset);
  }
}
