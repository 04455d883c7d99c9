/** The two views of the journal meet here: replaying the bytes of the journal
    files restores the same inode versions as replaying whole records. */
module JournalBridge {
  import opened Bytes
  import opened Options
  import J = Journal
  import F = JournalFile
  import B = JournalReplay
  import opened R = JournalRecords

  /** The version of an inode an item's payload stands for. */
  type Reading = Bytes -> Version

  /** An item on disk and the record it stands for.  A commit record names its
      point by byte offset. */
  ghost predicate Stands(item: J.Item, r: Rec, segs: seq<seq<J.Item>>, ver: Reading)
    requires forall n :: 0 <= n < |segs| ==> F.AllFit(segs[n])
  {
    match r
    case Inode(i, v) => item.kind == J.LOGTYPE_INODE && item.inum == i && ver(item.Payload()) == v
    case Marker => item.kind != J.LOGTYPE_INODE && item.kind != J.LOGTYPE_JOURNAL_CHECKPOINT
    case Commit(p) =>
      && item.kind == J.LOGTYPE_JOURNAL_CHECKPOINT && |item.Payload()| >= 8
      && p.seg < |segs| && p.idx <= |segs[p.seg]|
      && B.CommitOf(item) == B.Position(p.seg, F.OffsetOf(segs[p.seg], p.idx))
  }

  ghost predicate FileStands(items: seq<J.Item>, recs: seq<Rec>, segs: seq<seq<J.Item>>, ver: Reading)
    requires forall n :: 0 <= n < |segs| ==> F.AllFit(segs[n])
  {
    |items| == |recs| && forall k :: 0 <= k < |items| ==> Stands(items[k], recs[k], segs, ver)
  }

  /** The journal directory and the journal of records it stands for. */
  ghost predicate JournalStands(segs: seq<seq<J.Item>>, j: Journal, ver: Reading) {
    && |segs| == |j|
    && (forall n :: 0 <= n < |segs| ==> F.AllFit(segs[n]))
    && (forall n :: 0 <= n < |segs| ==> FileStands(segs[n], j[n], segs, ver))
  }

  function PositionOf(segs: seq<seq<J.Item>>, p: Pos): (q: B.Position)
    requires forall n :: 0 <= n < |segs| ==> F.AllFit(segs[n])
    requires p.seg < |segs| && p.idx <= |segs[p.seg]|
  {
    B.Position(p.seg, F.OffsetOf(segs[p.seg], p.idx))
  }

  // ------------------------------------------------ commit points

  lemma CommitsAreWhole(items: seq<J.Item>, recs: seq<Rec>, segs: seq<seq<J.Item>>, ver: Reading)
    requires forall n :: 0 <= n < |segs| ==> F.AllFit(segs[n])
    requires FileStands(items, recs, segs, ver)
    ensures B.CommitsWhole(items)
  {
    forall k | 0 <= k < |items| && B.IsCommit(items[k])
      ensures |items[k].Payload()| >= 8
    {
      assert Stands(items[k], recs[k], segs, ver);
    }
  }

  /** Reading commit records front to back finds the same last one. */
  lemma {:induction false} SameLastCommit(items: seq<J.Item>, recs: seq<Rec>, segs: seq<seq<J.Item>>, ver: Reading,
                                          k: nat, found: B.Position)
    requires forall n :: 0 <= n < |segs| ==> F.AllFit(segs[n])
    requires FileStands(items, recs, segs, ver) && B.CommitsWhole(items) && k <= |items|
    ensures var c := LastCommit(recs[k..]);
      c.Some? ==> c.value.seg < |segs| && c.value.idx <= |segs[c.value.seg]|
    ensures B.LastCommit(items, k, found)
         == var c := LastCommit(recs[k..]); if c.Some? then PositionOf(segs, c.value) else found
    decreases |items| - k
  {
    hide F.OffsetOf, F.AllFit, B.CommitOf;
    if k < |items| {
      assert Stands(items[k], recs[k], segs, ver);
      SameLastCommit(items, recs, segs, ver, k + 1, if B.IsCommit(items[k]) then B.CommitOf(items[k]) else found);
      assert recs[k..] == [recs[k]] + recs[k + 1..];
      CommitOfConcat([recs[k]], recs[k + 1..]);
      assert [recs[k]][..0] == [];
    }
  }

  lemma OffsetZero(items: seq<J.Item>, k: nat)
    requires F.AllFit(items) && k <= |items|
    ensures F.OffsetOf(items, k) == 0 <==> k == 0
  {
    if k == 0 {
      B.FirstOffset(items);
    } else {
      F.SegmentNotEmpty(items[..k]);
    }
  }

  /** Scanning the files backwards finds the same commit point. */
  lemma {:induction false} SamePoint(segs: seq<seq<J.Item>>, j: Journal, ver: Reading, gone: set<nat>, m: nat)
    requires JournalStands(segs, j, ver) && m <= |segs| && segs != []
    requires forall n :: 0 <= n < |segs| ==> B.CommitsWhole(segs[n])
    ensures Within(FindCommit(j[..m], gone), j)
    ensures B.FindItemCommit(segs[..m], gone) == PositionOf(segs, FindCommit(j[..m], gone))
    decreases m
  {
    hide F.OffsetOf, F.AllFit, B.CommitsWhole, FileStands, LastCommit, B.LastCommit;
    if m == 0 {
      OffsetZero(segs[0], 0);
    } else {
      var n := m - 1;
      assert segs[..m][..n] == segs[..n] && j[..m][..n] == j[..n];
      SameLengths(segs, j, ver);
      SameLastCommit(segs[n], j[n], segs, ver, 0, B.NOWHERE);
      assert j[n][0..] == j[n];
      var c := LastCommit(j[n]);
      if c.Some? {
        OffsetZero(segs[c.value.seg], c.value.idx);
      }
      SamePoint(segs, j, ver, gone, n);
    }
  }

  lemma SameLengths(segs: seq<seq<J.Item>>, j: Journal, ver: Reading)
    requires JournalStands(segs, j, ver)
    ensures forall n :: 0 <= n < |segs| ==> |segs[n]| == |j[n]|
  {
  }

  // ------------------------------------------------ last record wins

  /** The last payload of each inode among the entries replay reads. */
  function LastPayload(es: seq<J.Entry>): (m: map<nat, Bytes>)
  {
    if es == [] then map[]
    else
      var rest := LastPayload(es[..|es| - 1]);
      var e := es[|es| - 1];
      if e.kind == J.LOGTYPE_INODE then rest[e.inum := e.payload] else rest
  }

  function Read(m: map<nat, Bytes>, ver: Reading): (r: Versions) {
    map i | i in m :: ver(m[i])
  }

  lemma {:induction false} SameLast(es: seq<J.Entry>, recs: seq<Rec>, ver: Reading)
    requires |es| == |recs|
    requires forall k :: 0 <= k < |es| ==> EntryStands(es[k], recs[k], ver)
    ensures Read(LastPayload(es), ver) == Last(recs)
  {
    if es != [] {
      var n := |es| - 1;
      SameLast(es[..n], recs[..n], ver);
      assert EntryStands(es[n], recs[n], ver);
    }
  }

  ghost predicate EntryStands(e: J.Entry, r: Rec, ver: Reading) {
    if r.Inode? then e.kind == J.LOGTYPE_INODE && e.inum == r.inum && ver(e.payload) == r.version
    else e.kind != J.LOGTYPE_INODE
  }

  lemma {:induction false} SameEntries(segs: seq<seq<J.Item>>, j: Journal, ver: Reading, p: Pos)
    requires JournalStands(segs, j, ver)
    requires p.seg < |j| ==> p.idx <= |j[p.seg]| && p.idx <= |segs[p.seg]|
    ensures |B.ItemsFrom(segs, p.seg, p.idx)| == |From(j, p)|
    ensures forall k :: 0 <= k < |From(j, p)| ==> EntryStands(B.ItemsFrom(segs, p.seg, p.idx)[k], From(j, p)[k], ver)
    decreases |j| - p.seg
  {
    hide F.OffsetOf, F.AllFit, LastCommit, B.LastCommit, EntryStands;
    if p.seg < |j| {
      var items, recs := segs[p.seg], j[p.seg];
      assert FileStands(items, recs, segs, ver);
      SameEntries(segs, j, ver, Pos(p.seg + 1, 0));
      var here := F.Entries(items)[p.idx..];
      forall k | 0 <= k < |recs[p.idx..]|
        ensures EntryStands(here[k], recs[p.idx..][k], ver)
      {
        assert Stands(items[p.idx + k], recs[p.idx + k], segs, ver);
        EntryOfItem(items[p.idx + k], recs[p.idx + k], segs, ver, F.OffsetOf(items, p.idx + k));
      }
    }
  }

  lemma EntryOfItem(item: J.Item, r: Rec, segs: seq<seq<J.Item>>, ver: Reading, offset: nat)
    requires forall n :: 0 <= n < |segs| ==> F.AllFit(segs[n])
    requires Stands(item, r, segs, ver)
    ensures EntryStands(J.EntryOf(item, offset), r, ver)
  {
  }

  /** Replaying the journal's bytes restores exactly the versions that replaying
      its records restores, when only files before the commit point are missing. */
  lemma ByteReplayRestores(files: map<nat, Bytes>, names: seq<nat>, segs: seq<seq<J.Item>>, gone: set<nat>,
                           j: Journal, ver: Reading)
    requires JournalStands(segs, j, ver) && segs != []
    requires B.Directory(files, segs, gone) && B.InOrder(files, names)
    requires CommitsBackward(j) && forall n :: n in gone ==> n < PointOf(j).seg
    ensures Within(PointOf(j), j)
    ensures var p := B.FindCommit(B.Contents(files, names));
      Read(LastPayload(B.Forward(files, p.seqNum, p.offset)), ver) == Last(From(j, PointOf(j)))
  {
    hide F.OffsetOf, F.AllFit, LastCommit, B.LastCommit, From, Last, PointOf, FindCommit, B.FindCommit, B.FindItemCommit,
      B.Forward, B.ItemsFrom, LastPayload, Read, EntryStands, B.CommitsWhole, FileStands, B.Image;
    forall n | 0 <= n < |segs|
      ensures B.CommitsWhole(segs[n])
    {
      assert FileStands(segs[n], j[n], segs, ver);
      CommitsAreWhole(segs[n], j[n], segs, ver);
    }
    SameLengths(segs, j, ver);
    SamePoint(segs, j, ver, gone, |segs|);
    assert segs[..|segs|] == segs && j[..|j|] == j;
    FindsLastCommit(j, gone);
    var p := PointOf(j);
    B.ReplayFromCommit(files, names, segs, gone, p.seg, p.idx);
    SameEntries(segs, j, ver, p);
    SameLast(B.ItemsFrom(segs, p.seg, p.idx), From(j, p), ver);
  }
}
