/** Replay over journal files: find the most recent commit point, scanning the
    files backwards, then read every record from there on, scanning forwards. */
module JournalReplay {
  import opened Bytes
  import opened Crc32c
  import opened Journal
  import opened JournalFile

  /** A place in the journal.  (0, 0) doubles as "none found". */
  datatype Position = Position(seqNum: nat, offset: nat)

  const NOWHERE := Position(0, 0)

  // ------------------------------------------------ on bytes

  /** The position a commit record carries, read from just behind its header. */
  function CommitAt(buf: Bytes, offset: nat): (p: Position)
    requires offset + HEADER_SIZE + FOOTER_SIZE <= |buf|
  {
    Position(Word32(buf, offset + HEADER_SIZE), Word32(buf, offset + HEADER_SIZE + 4))
  }

  predicate IsCommitAt(buf: Bytes, offset: nat)
    requires offset + HEADER_SIZE <= |buf|
  {
    buf[offset + 4] as int - TYPE_BASE == LOGTYPE_JOURNAL_CHECKPOINT
  }

  /** The last commit record from `offset` on, or `found` if there is none. */
  function CommitIn(buf: Bytes, offset: nat, found: Position): (p: Position)
    decreases |buf| - offset
  {
    if Validate(buf, offset)
    then CommitIn(buf, NextRecord(buf, offset), if IsCommitAt(buf, offset) then CommitAt(buf, offset) else found)
    else found
  }

  /** The scan that looks for a commit record in one file. */
  method ScanJournal(buf: Bytes, found: Position) returns (p: Position)
    ensures p == CommitIn(buf, 0, found)
  {
    hide Validate, PayloadSize, Word32;
    p := found;
    var offset := 0;
    while Validate(buf, offset)
      invariant CommitIn(buf, offset, p) == CommitIn(buf, 0, found)
      decreases |buf| - offset
    {
      AcceptedInBounds(buf, offset);
      if IsCommitAt(buf, offset) {
        p := CommitAt(buf, offset);
      }
      offset := NextRecord(buf, offset);
    }
  }

  /** Files from the newest back, stopping at the first commit position other
      than (0, 0). */
  function FindCommit(bufs: seq<Bytes>): (p: Position)
  {
    if bufs == [] then NOWHERE
    else
      var p := CommitIn(bufs[|bufs| - 1], 0, NOWHERE);
      if p != NOWHERE then p else FindCommit(bufs[..|bufs| - 1])
  }

  /** Files numbered from `s` on, up to the first that does not exist. */
  function Forward(files: map<nat, Bytes>, s: nat, offset: nat): (es: seq<Entry>)
    decreases |Above(files.Keys, s)|
  {
    if s !in files then []
    else
      NextAbove(files.Keys, s);
      Scan(files[s], offset) + Forward(files, s + 1, 0)
  }

  function Above(keys: set<nat>, s: nat): (r: set<nat>) {
    set k | k in keys && k >= s
  }

  lemma NextAbove(keys: set<nat>, s: nat)
    requires s in keys
    ensures |Above(keys, s + 1)| < |Above(keys, s)|
  {
    assert Above(keys, s) == Above(keys, s + 1) + {s};
  }

  /** The existing files in order of their numbers. */
  predicate InOrder(files: map<nat, Bytes>, names: seq<nat>) {
    && (forall k :: 0 <= k < |names| ==> names[k] in files)
    && (forall n :: n in files ==> n in names)
    && (forall j, k :: 0 <= j < k < |names| ==> names[j] < names[k])
  }

  function Contents(files: map<nat, Bytes>, names: seq<nat>): (bufs: seq<Bytes>)
    requires forall k :: 0 <= k < |names| ==> names[k] in files
    ensures |bufs| == |names|
  {
    seq(|names|, k requires 0 <= k < |names| => files[names[k]])
  }

  method Replay(files: map<nat, Bytes>, names: seq<nat>) returns (objects: seq<Entry>)
    requires InOrder(files, names)
    ensures var p := FindCommit(Contents(files, names)); objects == Forward(files, p.seqNum, p.offset)
  {
    hide Scan, CommitIn;
    var left := |names|;
    var p := NOWHERE;
    ghost var bufs := Contents(files, names);
    assert bufs[..left] == bufs;
    while left > 0 && p == NOWHERE
      invariant 0 <= left <= |names|
      invariant if p == NOWHERE then FindCommit(bufs[..left]) == FindCommit(bufs) else p == FindCommit(bufs)
    {
      left := left - 1;
      assert bufs[..left + 1][..left] == bufs[..left];
      p := ScanJournal(files[names[left]], p);
    }
    assert p == FindCommit(bufs);

    objects := [];
    var s, offset := p.seqNum, p.offset;
    while s in files
      invariant objects + Forward(files, s, offset) == Forward(files, p.seqNum, p.offset)
      decreases |Above(files.Keys, s)|
    {
      var found := ScanJournal2(files[s], offset);
      NextAbove(files.Keys, s);
      objects := objects + found;
      s, offset := s + 1, 0;
    }
  }

  // ------------------------------------------------ on items

  /** A file that scans as exactly these items, whatever follows them. */
  ghost predicate Image(buf: Bytes, items: seq<Item>) {
    && Laid(items)
    && Segment(items) <= buf
    && !Validate(buf, |Segment(items)|)
  }

  lemma ImageScans(buf: Bytes, items: seq<Item>, k: nat)
    requires Image(buf, items) && k <= |items|
    ensures Scan(buf, OffsetOf(items, k)) == Entries(items)[k..]
  {
    hide Validate, Segment, Record, Scan, Entries;
    var tail := buf[|Segment(items)|..];
    assert buf == Segment(items) + tail;
    ScanSuffix(items, tail, k);
  }

  predicate IsCommit(item: Item) {
    item.kind == LOGTYPE_JOURNAL_CHECKPOINT
  }

  function CommitOf(item: Item): (p: Position)
    requires |item.Payload()| >= 8
  {
    Position(Decode(item.Payload()[0..4]), Decode(item.Payload()[4..8]))
  }

  /** Commit records carry the two words replay reads. */
  predicate CommitsWhole(items: seq<Item>) {
    forall k :: 0 <= k < |items| && IsCommit(items[k]) ==> |items[k].Payload()| >= 8
  }

  function LastCommit(items: seq<Item>, k: nat, found: Position): (p: Position)
    requires CommitsWhole(items) && k <= |items|
    decreases |items| - k
  {
    if k == |items| then found
    else LastCommit(items, k + 1, if IsCommit(items[k]) then CommitOf(items[k]) else found)
  }

  lemma HeldCommit(buf: Bytes, offset: nat, item: Item)
    requires item.Fits() && offset < U32_LIMIT && Holds(buf, offset, item)
    ensures Validate(buf, offset)
    ensures NextRecord(buf, offset) == offset + item.Size()
    ensures IsCommitAt(buf, offset) <==> IsCommit(item)
    ensures |item.Payload()| >= 8 ==> CommitAt(buf, offset) == CommitOf(item)
  {
    hide Validate, Holds, HoldsHeader, PayloadSize, EntryAt, Decode, Le32;
    CompleteRecordAccepted(buf, offset, item);
    HeldHeader(buf, offset, item);
    ReadSize(buf, offset, item);
    ReadOwner(buf, offset, item);
    AcceptedInBounds(buf, offset);
    var n := |item.Payload()|;
    if n >= 8 {
      SubSlice(buf, offset + HEADER_SIZE, n, 0, 4);
      SubSlice(buf, offset + HEADER_SIZE, n, 4, 8);
    }
  }

  lemma ImageHolds(buf: Bytes, items: seq<Item>, k: nat)
    requires Image(buf, items) && k < |items|
    ensures items[k].Fits() && OffsetOf(items, k) < U32_LIMIT
    ensures Holds(buf, OffsetOf(items, k), items[k])
  {
    hide Validate, Segment, Record, Holds;
    var tail := buf[|Segment(items)|..];
    assert buf == Segment(items) + tail;
    SegmentHolds(items, k, tail);
  }

  lemma {:induction false} ImageCommit(buf: Bytes, items: seq<Item>, k: nat, found: Position)
    requires Image(buf, items) && CommitsWhole(items) && k <= |items|
    ensures CommitIn(buf, OffsetOf(items, k), found) == LastCommit(items, k, found)
    decreases |items| - k
  {
    hide Validate, Segment, Holds, IsCommitAt, CommitAt, NextRecord, CommitOf;
    if k == |items| {
      assert items[..k] == items;
    } else {
      ImageHolds(buf, items, k);
      NextOffset(items, k);
      HeldCommit(buf, OffsetOf(items, k), items[k]);
      ImageCommit(buf, items, k + 1, if IsCommit(items[k]) then CommitOf(items[k]) else found);
    }
  }

  /** The journal directory as a sequence of files, some of them deleted. */
  ghost predicate Directory(files: map<nat, Bytes>, segs: seq<seq<Item>>, gone: set<nat>) {
    && (forall n: nat :: n in files <==> n < |segs| && n !in gone)
    && (forall n :: n in files ==> Image(files[n], segs[n]) && CommitsWhole(segs[n]))
  }

  /** Scan backwards over whole items instead of bytes. */
  function FindItemCommit(segs: seq<seq<Item>>, gone: set<nat>): (p: Position)
    requires forall n :: 0 <= n < |segs| ==> CommitsWhole(segs[n])
  {
    if segs == [] then NOWHERE
    else
      var n := |segs| - 1;
      var p := if n in gone then NOWHERE else LastCommit(segs[n], 0, NOWHERE);
      if p != NOWHERE then p else FindItemCommit(segs[..n], gone)
  }

  /** Scan forwards over whole items: the rest of file `s`, then the later ones. */
  function ItemsFrom(segs: seq<seq<Item>>, s: nat, k: nat): (es: seq<Entry>)
    requires forall n :: 0 <= n < |segs| ==> AllFit(segs[n])
    requires s < |segs| ==> k <= |segs[s]|
    decreases |segs| - s
  {
    if s >= |segs| then [] else Entries(segs[s])[k..] + ItemsFrom(segs, s + 1, 0)
  }

  lemma WithoutNewest(files: map<nat, Bytes>, segs: seq<seq<Item>>, gone: set<nat>)
    requires Directory(files, segs, gone) && segs != []
    ensures Directory(files - {|segs| - 1}, segs[..|segs| - 1], gone)
    ensures forall m :: m in files ==> m <= |segs| - 1
    ensures |segs| - 1 in gone ==> files - {|segs| - 1} == files
  {
    hide Image, CommitsWhole;
  }

  lemma EmptyDirectory(files: map<nat, Bytes>, names: seq<nat>, gone: set<nat>)
    requires Directory(files, [], gone) && InOrder(files, names)
    ensures names == []
  {
    hide Image, CommitsWhole;
    FirstInOrder(files, names);
  }

  lemma FirstInOrder(files: map<nat, Bytes>, names: seq<nat>)
    requires InOrder(files, names)
    ensures names != [] ==> names[0] in files
  {
  }

  lemma {:induction false} BackwardScan(files: map<nat, Bytes>, names: seq<nat>, segs: seq<seq<Item>>, gone: set<nat>)
    requires Directory(files, segs, gone) && InOrder(files, names)
    requires forall n :: 0 <= n < |segs| ==> CommitsWhole(segs[n])
    ensures FindCommit(Contents(files, names)) == FindItemCommit(segs, gone)
    decreases |segs|
  {
    hide Image, CommitsWhole, CommitIn, LastCommit;
    if segs == [] {
      EmptyDirectory(files, names, gone);
    } else {
      var n := |segs| - 1;
      WithoutNewest(files, segs, gone);
      if n in gone {
        BackwardScan(files, names, segs[..n], gone);
      } else {
        BackwardScanStep(files, names, segs, gone);
      }
    }
  }

  lemma {:induction false} BackwardScanStep(files: map<nat, Bytes>, names: seq<nat>, segs: seq<seq<Item>>, gone: set<nat>)
    requires Directory(files, segs, gone) && InOrder(files, names)
    requires forall n :: 0 <= n < |segs| ==> CommitsWhole(segs[n])
    requires segs != [] && |segs| - 1 !in gone
    ensures FindCommit(Contents(files, names)) == FindItemCommit(segs, gone)
    decreases |segs|, 0
  {
    hide Image, CommitsWhole, CommitIn, LastCommit, InOrder;
    var n, last := |segs| - 1, |names| - 1;
    WithoutNewest(files, segs, gone);
    NewestIsLast(files, names, n);
    OlderInOrder(files, names);
    ImageCommitWhole(files[n], segs[n]);
    hide Directory;
    OlderContents(files, names);
    BackwardScan(files - {n}, names[..last], segs[..n], gone);
  }

  lemma OlderContents(files: map<nat, Bytes>, names: seq<nat>)
    requires InOrder(files, names) && names != []
    ensures var last := |names| - 1;
      && InOrder(files - {names[last]}, names[..last])
      && Contents(files, names)[last] == files[names[last]]
      && Contents(files - {names[last]}, names[..last]) == Contents(files, names)[..last]
  {
    OlderInOrder(files, names);
  }

  lemma NewestIsLast(files: map<nat, Bytes>, names: seq<nat>, n: nat)
    requires InOrder(files, names) && n in files && forall m :: m in files ==> m <= n
    ensures names != [] && names[|names| - 1] == n
  {
    var k :| 0 <= k < |names| && names[k] == n;
    if k < |names| - 1 {
      assert names[k] < names[|names| - 1];
    }
  }

  lemma OlderInOrder(files: map<nat, Bytes>, names: seq<nat>)
    requires InOrder(files, names) && names != []
    ensures InOrder(files - {names[|names| - 1]}, names[..|names| - 1])
  {
    var last := |names| - 1;
    forall n | n in files && n != names[last]
      ensures n in names[..last]
    {
      var k :| 0 <= k < |names| && names[k] == n;
      assert names[..last][k] == n;
    }
  }

  lemma ImageCommitWhole(buf: Bytes, items: seq<Item>)
    requires Image(buf, items) && CommitsWhole(items)
    ensures CommitIn(buf, 0, NOWHERE) == LastCommit(items, 0, NOWHERE)
  {
    hide Validate, CommitIn, LastCommit;
    ImageCommit(buf, items, 0, NOWHERE);
  }

  lemma {:induction false} ForwardScan(files: map<nat, Bytes>, segs: seq<seq<Item>>, gone: set<nat>, s: nat, k: nat)
    requires Directory(files, segs, gone) && s <= |segs|
    requires forall n :: 0 <= n < |segs| ==> AllFit(segs[n])
    requires forall n :: s <= n < |segs| ==> n !in gone
    requires if s < |segs| then k <= |segs[s]| else k == 0
    ensures Forward(files, s, if s < |segs| then OffsetOf(segs[s], k) else 0) == ItemsFrom(segs, s, k)
    decreases |segs| - s
  {
    hide Image, CommitsWhole, Scan, Entries, AllFit, OffsetOf;
    if s < |segs| {
      ImageScans(files[s], segs[s], k);
      ForwardScan(files, segs, gone, s + 1, 0);
      if s + 1 < |segs| {
        FirstOffset(segs[s + 1]);
      }
    }
  }

  lemma FirstOffset(items: seq<Item>)
    requires AllFit(items)
    ensures OffsetOf(items, 0) == 0
  {
    assert items[..0] == [];
  }

  /** Replay over bytes is replay over items: when the newest commit point names
      record `k` of file `s`, and no file from `s` on has been deleted, replay
      reloads exactly the items from there to the end of the journal. */
  lemma ReplayFromCommit(files: map<nat, Bytes>, names: seq<nat>, segs: seq<seq<Item>>, gone: set<nat>, s: nat, k: nat)
    requires Directory(files, segs, gone) && InOrder(files, names)
    requires forall n :: 0 <= n < |segs| ==> CommitsWhole(segs[n]) && AllFit(segs[n])
    requires s < |segs| && k <= |segs[s]| && forall n :: s <= n < |segs| ==> n !in gone
    requires FindItemCommit(segs, gone) == Position(s, OffsetOf(segs[s], k))
    ensures var p := FindCommit(Contents(files, names));
            Forward(files, p.seqNum, p.offset) == ItemsFrom(segs, s, k)
  {
    hide FindCommit, FindItemCommit, Forward, ItemsFrom, OffsetOf;
    BackwardScan(files, names, segs, gone);
    ForwardScan(files, segs, gone, s, k);
  }
}
