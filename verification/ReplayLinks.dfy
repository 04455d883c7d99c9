/** What replay makes of the records it reads: each item becomes known under its
    id, its links are looked up among the items known so far, and an inode takes
    the place of its older version.  The locations stored in a record are not
    used, so a link to an item that replay has not seen is lost. */
module ReplayLinks {
  import opened Bytes
  import opened Options
  import J = Journal
  import F = JournalFile
  import B = JournalReplay
  import I = InodeCodec

  const ID_SIZE: nat := 16
  const LOCATION_SIZE: nat := 16

  /** An inode in memory: the item it was loaded from, and what its payload and
      links made of it.  There is none if the payload is not that of the inode:
      then the program reports an error, stops, or reads past the end. */
  datatype Loaded = Loaded(item: Bytes, inode: Option<I.Inode>)

  /** The first section of a record: the payload of the item. */
  function Data(e: J.Entry): (s: Bytes) {
    if e.size1 <= |e.payload| then e.payload[..e.size1] else []
  }

  /** The middle section of a record: the ids of the items it links to. */
  function LinkBytes(e: J.Entry): (s: Bytes) {
    if e.size1 + e.size2 <= |e.payload| then e.payload[e.size1..e.size1 + e.size2] else []
  }

  function LinkIds(s: Bytes): (ids: seq<Bytes>)
    ensures |ids| == |s| / ID_SIZE
  {
    seq(|s| / ID_SIZE, k requires 0 <= k < |s| / ID_SIZE => s[ID_SIZE * k..ID_SIZE * k + ID_SIZE])
  }

  /** What a record was written with: its data, and the ids its links section
      holds one after the other. */
  lemma SectionsRead(item: J.Item, offset: nat, ids: seq<Bytes>)
    requires |item.data2| == 16 * |ids|
    requires forall k :: 0 <= k < |ids| ==> item.data2[16 * k..16 * k + 16] == ids[k]
    ensures var e := J.EntryOf(item, offset);
      Data(e) == item.data1 && LinkIds(LinkBytes(e)) == ids
  {
    var e := J.EntryOf(item, offset);
    assert e.payload[..e.size1] == item.data1;
    assert e.payload[e.size1..e.size1 + e.size2] == item.data2;
    assert |item.data2| / 16 == |ids|;
  }

  /** A link is found if its id is known; the zero id stands for no link. */
  function Resolve(id: Bytes, known: set<Bytes>): (r: Option<Bytes>) {
    if id == Zeros(ID_SIZE) || id !in known then None else Some(id)
  }

  function ResolveAll(ids: seq<Bytes>, known: set<Bytes>): (r: seq<Option<Bytes>>)
    ensures |r| == |ids|
  {
    seq(|ids|, k requires 0 <= k < |ids| => Resolve(ids[k], known))
  }

  /** The ids of the first `n` records. */
  function Ids(es: seq<J.Entry>, n: nat): (r: set<Bytes>)
    requires n <= |es|
  {
    set k | 0 <= k < n :: es[k].id
  }

  /** The last inode record of a number. */
  function LastInode(es: seq<J.Entry>, inum: nat): (r: Option<nat>)
    ensures r.Some? ==> r.value < |es| && es[r.value].kind == J.LOGTYPE_INODE && es[r.value].inum == inum
  {
    if es == [] then None
    else
      var n := |es| - 1;
      if es[n].kind == J.LOGTYPE_INODE && es[n].inum == inum then Some(n) else LastInode(es[..n], inum)
  }

  /** The inode that replaying record `k` loads. */
  function LoadedFrom(es: seq<J.Entry>, k: nat, known: set<Bytes>): (r: Loaded)
    requires k < |es|
  {
    Load(es[k], LinksFrom(es, k, known))
  }

  function Load(e: J.Entry, links: seq<Option<Bytes>>): (r: Loaded) {
    Loaded(e.id, I.Deserialize(e.inum, I.Stored(Data(e), links)))
  }

  /** The links that replaying record `k` gives its item. */
  function LinksFrom(es: seq<J.Entry>, k: nat, known: set<Bytes>): (r: seq<Option<Bytes>>)
    requires k < |es|
  {
    ResolveAll(LinkIds(LinkBytes(es[k])), known + Ids(es, k + 1))
  }

  class Replayer {
    var known: set<Bytes>
    var inodes: map<nat, Loaded>
    var dirty: set<nat>
    var nextInum: nat

    constructor (known: set<Bytes>, inodes: map<nat, Loaded>, nextInum: nat)
      ensures this.known == known && this.inodes == inodes && this.nextInum == nextInum && dirty == {}
    {
      this.known, this.inodes, this.nextInum, dirty := known, inodes, nextInum, {};
    }

    /** Look every link id of a record up among the known items. */
    method ReloadItem(e: J.Entry) returns (links: seq<Option<Bytes>>)
      ensures links == ResolveAll(LinkIds(LinkBytes(e)), known)
    {
      var data2 := LinkBytes(e);
      var count := |data2| / ID_SIZE;
      links := [];
      for i := 0 to count
        invariant |links| == i
        invariant forall k :: 0 <= k < i ==> links[k] == Resolve(LinkIds(data2)[k], known)
      {
        var id := data2[ID_SIZE * i..ID_SIZE * i + ID_SIZE];
        var ref: Option<Bytes> := None;
        if id != Zeros(ID_SIZE) && id in known {
          ref := Some(id);
        }
        links := links + [ref];
      }
    }

    /** Replay records in order. */
    method Reload(es: seq<J.Entry>)
      modifies this
      ensures known == old(known) + Ids(es, |es|)
      ensures forall i :: LastInode(es, i).Some? ==>
        i in inodes && inodes[i] == LoadedFrom(es, LastInode(es, i).value, old(known))
      ensures forall i :: LastInode(es, i).None? ==> SameAt(old(inodes), inodes, i)
      ensures forall i :: i in dirty <==> i in old(dirty) || LastInode(es, i).Some?
      ensures Replenished(es, old(nextInum), nextInum)
    {
      hide ResolveAll, LinkIds, LinkBytes, LastInode, Loads, Dirtied, Ids, Load;
      var k := 0;
      ReloadStarts(es, known, inodes, dirty);
      while k < |es|
        invariant k <= |es| && known == old(known) + Ids(es, k)
        invariant Loads(es, k, old(known), old(inodes), inodes)
        invariant Dirtied(es, k, old(dirty), dirty)
        invariant nextInum == NextAfter(es, k, old(nextInum))
      {
        var e := es[k];
        known := known + {e.id};
        OneMore(es, k, old(known));
        var links := ReloadItem(e);
        LoadsNext(es, k, old(known), old(inodes), inodes);
        DirtiedNext(es, k, old(dirty), dirty);
        if e.kind == J.LOGTYPE_INODE {
          inodes := inodes[e.inum := Load(e, links)];
          dirty := dirty + {e.inum};
          var after := (e.inum + 1) % U64_LIMIT;
          nextInum := if nextInum > after then nextInum else after;
        }
        k := k + 1;
      }
      assert es[..k] == es;
      ReloadEnds(es, old(known), old(inodes), inodes, old(dirty), dirty);
      NextReplenished(es, |es|, old(nextInum));
    }
  }

  /** The dirty list after `k` records. */
  ghost predicate Dirtied(es: seq<J.Entry>, k: nat, before: set<nat>, after: set<nat>)
    requires k <= |es|
  {
    forall i :: i in after <==> i in before || LastInode(es[..k], i).Some?
  }

  lemma DirtiedNext(es: seq<J.Entry>, k: nat, before: set<nat>, after: set<nat>)
    requires k < |es| && Dirtied(es, k, before, after)
    ensures Dirtied(es, k + 1, before, if es[k].kind == J.LOGTYPE_INODE then after + {es[k].inum} else after)
  {
    LastInodeNext(es, k);
    var after' := if es[k].kind == J.LOGTYPE_INODE then after + {es[k].inum} else after;
    forall i
      ensures i in after' <==> i in before || LastInode(es[..k + 1], i).Some?
    {
      assert LastInode(es[..k + 1], i) == NextLast(es, k, i);
    }
  }

  lemma ReloadStarts(es: seq<J.Entry>, known: set<Bytes>, inodes: map<nat, Loaded>, dirty: set<nat>)
    ensures Loads(es, 0, known, inodes, inodes) && Dirtied(es, 0, dirty, dirty) && known + Ids(es, 0) == known
  {
  }

  lemma ReloadEnds(es: seq<J.Entry>, known: set<Bytes>, before: map<nat, Loaded>, after: map<nat, Loaded>,
                   dirtyBefore: set<nat>, dirtyAfter: set<nat>)
    requires Loads(es, |es|, known, before, after) && Dirtied(es, |es|, dirtyBefore, dirtyAfter)
    ensures forall i :: LastInode(es, i).Some? ==> i in after && after[i] == LoadedFrom(es, LastInode(es, i).value, known)
    ensures forall i :: LastInode(es, i).None? ==> SameAt(before, after, i)
    ensures forall i :: i in dirtyAfter <==> i in dirtyBefore || LastInode(es, i).Some?
  {
    assert es[..|es|] == es;
  }

  /** The inodes after `k` records. */
  ghost predicate Loads(es: seq<J.Entry>, k: nat, known: set<Bytes>, before: map<nat, Loaded>, after: map<nat, Loaded>)
    requires k <= |es|
  {
    && (forall i :: LastInode(es[..k], i).Some? ==>
          i in after && after[i] == LoadedFrom(es, LastInode(es[..k], i).value, known))
    && (forall i :: LastInode(es[..k], i).None? ==> SameAt(before, after, i))
  }

  predicate SameAt(before: map<nat, Loaded>, after: map<nat, Loaded>, i: nat) {
    (i in after <==> i in before) && (i in after ==> after[i] == before[i])
  }

  /** The next free inode number after the first `n` records. */
  function NextAfter(es: seq<J.Entry>, n: nat, next: nat): (r: nat)
    requires n <= |es|
  {
    if n == 0 then next
    else
      var before := NextAfter(es, n - 1, next);
      var after := (es[n - 1].inum + 1) % U64_LIMIT;
      if es[n - 1].kind == J.LOGTYPE_INODE && after > before then after else before
  }

  predicate IsInode(e: J.Entry) {
    e.kind == J.LOGTYPE_INODE
  }

  /** The next free inode number: it never falls, it is above every replayed inode
      number but the largest there is, and it is no higher than that needs. */
  ghost predicate Replenished(es: seq<J.Entry>, before: nat, after: nat) {
    && before <= after
    && (forall k :: 0 <= k < |es| && es[k].kind == J.LOGTYPE_INODE && es[k].inum < U64_LIMIT - 1 ==> es[k].inum < after)
    && (after == before || exists k :: 0 <= k < |es| && IsInode(es[k]) && (es[k].inum + 1) % U64_LIMIT == after)
  }

  lemma {:induction false} NextReplenished(es: seq<J.Entry>, n: nat, next: nat)
    requires n <= |es|
    ensures Replenished(es[..n], next, NextAfter(es, n, next))
  {
    if n > 0 {
      NextReplenished(es, n - 1, next);
      var a, b := NextAfter(es, n - 1, next), NextAfter(es, n, next);
      var was, now := es[..n - 1], es[..n];
      assert forall k :: 0 <= k < n - 1 ==> was[k] == now[k];
      if b != a {
        assert (now[n - 1].inum + 1) % U64_LIMIT == b;
      } else if a != next {
        var k :| 0 <= k < |was| && was[k].kind == J.LOGTYPE_INODE && (was[k].inum + 1) % U64_LIMIT == a;
        assert now[k].kind == J.LOGTYPE_INODE && (now[k].inum + 1) % U64_LIMIT == b;
      }
    }
  }

  /** All replayed inode numbers are below it if and only if none of them is the
      largest there is, or it was above that before. */
  lemma NextAboveReplayed(es: seq<J.Entry>, before: nat, after: nat)
    requires Replenished(es, before, after) && before < U64_LIMIT && forall k :: 0 <= k < |es| ==> es[k].inum < U64_LIMIT
    ensures after < U64_LIMIT
    ensures (forall k :: 0 <= k < |es| && es[k].kind == J.LOGTYPE_INODE ==> es[k].inum < after)
       <==> forall k :: 0 <= k < |es| && es[k].kind == J.LOGTYPE_INODE ==> es[k].inum != U64_LIMIT - 1
  {
  }

  lemma OneMore(es: seq<J.Entry>, k: nat, known: set<Bytes>)
    requires k < |es|
    ensures known + Ids(es, k) + {es[k].id} == known + Ids(es, k + 1)
  {
  }

  lemma LoadsNext(es: seq<J.Entry>, k: nat, known: set<Bytes>, before: map<nat, Loaded>, after: map<nat, Loaded>)
    requires k < |es| && Loads(es, k, known, before, after)
    ensures Loads(es, k + 1, known, before,
                  if es[k].kind == J.LOGTYPE_INODE then after[es[k].inum := LoadedFrom(es, k, known)] else after)
    ensures forall i :: LastInode(es[..k + 1], i) == NextLast(es, k, i)
  {
    hide LoadedFrom;
    LastInodeNext(es, k);
    var after' := if es[k].kind == J.LOGTYPE_INODE then after[es[k].inum := LoadedFrom(es, k, known)] else after;
    forall i
      ensures LastInode(es[..k + 1], i).Some? ==>
        i in after' && after'[i] == LoadedFrom(es, LastInode(es[..k + 1], i).value, known)
      ensures LastInode(es[..k + 1], i).None? ==> SameAt(before, after', i)
    {
      assert LastInode(es[..k + 1], i) == NextLast(es, k, i);
    }
  }

  function NextLast(es: seq<J.Entry>, k: nat, i: nat): (r: Option<nat>)
    requires k < |es|
  {
    if es[k].kind == J.LOGTYPE_INODE && es[k].inum == i then Some(k) else LastInode(es[..k], i)
  }

  lemma LastInodeNext(es: seq<J.Entry>, k: nat)
    requires k < |es|
    ensures forall i :: LastInode(es[..k + 1], i) == NextLast(es, k, i)
  {
    assert es[..k + 1][..k] == es[..k];
  }

  // ------------------------------------------------ which links survive

  ghost predicate Seen(es: seq<J.Entry>, k: nat, id: Bytes)
    requires k < |es|
  {
    exists j :: 0 <= j <= k && es[j].id == id
  }

  /** A link of a replayed record is there after replay if and only if it is a
      link at all and its item is known from the checkpoint or was replayed no
      later than the record. */
  lemma LinkSurvives(es: seq<J.Entry>, k: nat, known: set<Bytes>, m: nat)
    requires k < |es| && m < |LinkIds(LinkBytes(es[k]))|
    ensures var id := LinkIds(LinkBytes(es[k]))[m];
      LinksFrom(es, k, known)[m] ==
      if id != Zeros(ID_SIZE) && (id in known || Seen(es, k, id)) then Some(id) else None
  {
    hide LinkIds, LinkBytes;
    var id := LinkIds(LinkBytes(es[k]))[m];
    if id in Ids(es, k + 1) {
      var j :| 0 <= j < k + 1 && es[j].id == id;
    }
  }

  /** And so a block of a replayed file is there exactly then. */
  lemma BlockSurvives(es: seq<J.Entry>, k: nat, known: set<Bytes>)
    requires k < |es| && LoadedFrom(es, k, known).inode.Some? && LoadedFrom(es, k, known).inode.value.contents.Regular?
    ensures var blocks := LoadedFrom(es, k, known).inode.value.contents.blocks;
      && |blocks| == |LinkIds(LinkBytes(es[k]))|
      && forall m :: 0 <= m < |blocks| ==>
           var id := LinkIds(LinkBytes(es[k]))[m];
           blocks[m] == I.Ref(if id != Zeros(ID_SIZE) && (id in known || Seen(es, k, id)) then Some(id) else None)
  {
    hide LinkIds, LinkBytes, Seen;
    FileBlocks(es[k].inum, I.Stored(Data(es[k]), LinksFrom(es, k, known)));
    forall m | 0 <= m < |LinkIds(LinkBytes(es[k]))|
      ensures LinksFrom(es, k, known)[m] ==
        var id := LinkIds(LinkBytes(es[k]))[m];
        if id != Zeros(ID_SIZE) && (id in known || Seen(es, k, id)) then Some(id) else None
    {
      LinkSurvives(es, k, known, m);
    }
  }

  lemma FileBlocks(inum: nat, item: I.Stored)
    requires I.Deserialize(inum, item).Some? && I.Deserialize(inum, item).value.contents.Regular?
    ensures var blocks := I.Deserialize(inum, item).value.contents.blocks;
      |blocks| == |item.links| && forall m :: 0 <= m < |blocks| ==> blocks[m] == I.Ref(item.links[m])
  {
    hide Decode;
  }

  /** So it is for replay over the journal's bytes: `es` are the records from the
      commit point on, and what lies before it counts only if the checkpoint
      names it. */
  lemma LinkSurvivesReplay(files: map<nat, Bytes>, names: seq<nat>, segs: seq<seq<J.Item>>, gone: set<nat>,
                           s: nat, k: nat, known: set<Bytes>, e: nat, m: nat)
    requires B.Directory(files, segs, gone) && B.InOrder(files, names)
    requires forall n :: 0 <= n < |segs| ==> B.CommitsWhole(segs[n]) && F.AllFit(segs[n])
    requires s < |segs| && k <= |segs[s]| && forall n :: s <= n < |segs| ==> n !in gone
    requires B.FindItemCommit(segs, gone) == B.Position(s, F.OffsetOf(segs[s], k))
    requires e < |B.ItemsFrom(segs, s, k)| && m < |LinkIds(LinkBytes(B.ItemsFrom(segs, s, k)[e]))|
    ensures var p := B.FindCommit(B.Contents(files, names));
      var es := B.Forward(files, p.seqNum, p.offset);
      && es == B.ItemsFrom(segs, s, k)
      && var id := LinkIds(LinkBytes(es[e]))[m];
         LinksFrom(es, e, known)[m] ==
         if id != Zeros(ID_SIZE) && (id in known || Seen(es, e, id)) then Some(id) else None
  {
    hide LinksFrom, LinkIds, LinkBytes, Seen, B.Forward, B.ItemsFrom, B.FindCommit, F.OffsetOf, B.FindItemCommit;
    B.ReplayFromCommit(files, names, segs, gone, s, k);
    LinkSurvives(B.ItemsFrom(segs, s, k), e, known, m);
  }

  // ------------------------------------------------ a file that loses a block

  /** A file of two blocks, twice synced: the ids of the seven items this
      journals, the data of the two blocks and of the new second one, the inode
      each time, and the locations its record gives for its blocks. */
  datatype Story = Story(ids: seq<Bytes>, blocks: seq<Bytes>, first: I.Inode, second: I.Inode, at: seq<Bytes>) {

    predicate Plausible() {
      && |ids| == 7 && (forall k :: 0 <= k < 7 ==> |ids[k]| == ID_SIZE && ids[k] != Zeros(ID_SIZE))
      && (forall j, k :: 0 <= j < k < 7 ==> ids[j] != ids[k])
      && |blocks| == 3 && (forall k :: 0 <= k < 3 ==> |blocks[k]| <= I.F.BLOCK_SIZE)
      && |at| == 2 && |at[0]| == 2 * LOCATION_SIZE && |at[1]| == 2 * LOCATION_SIZE
      && I.Fits(first) && I.Fits(second) && second.inum == first.inum
      && first.contents.Regular? && first.contents.blocks == [I.Ref(Some(ids[0])), I.Ref(Some(ids[1]))]
      && second.contents.Regular? && second.contents.blocks == [I.Ref(Some(ids[0])), I.Ref(Some(ids[5]))]
    }

    /** A block as it is journaled. */
    function DataItem(k: nat, block: nat): (item: J.Item)
      requires Plausible() && k < 7 && block < 3
      ensures item.Fits() && item.Size() <= 40000
    {
      J.Item(J.LOGTYPE_DATA, first.inum, ids[k], blocks[block], [], [])
    }

    /** The inode as it is journaled. */
    function InodeItem(k: nat, inode: I.Inode, a: nat, b: nat, at: Bytes): (item: J.Item)
      requires Plausible() && k < 7 && a < 7 && b < 7 && (inode == first || inode == second)
      requires |at| == 2 * LOCATION_SIZE
      ensures item.Fits() && item.Size() <= 40000
    {
      J.Item(J.LOGTYPE_INODE, first.inum, ids[k], I.Serialize(inode).data, ids[a] + ids[b], at)
    }

    /** Where the marker of the flush pass lies. */
    function MarkAt(): (offset: nat)
      requires Plausible()
      ensures offset <= 120000
    {
      DataItem(0, 0).Size() + DataItem(1, 1).Size() + InodeItem(2, first, 0, 1, at[0]).Size()
    }

    function MarkItem(): (item: J.Item)
      requires Plausible()
      ensures item.Fits() && item.Size() <= 40000
    {
      J.Item(J.LOGTYPE_JOURNAL_MARKER, 0, ids[3], [], [], [])
    }

    function CommitItem(): (item: J.Item)
      requires Plausible()
      ensures item.Fits() && item.Size() <= 40000
    {
      J.Item(J.LOGTYPE_JOURNAL_CHECKPOINT, 0, ids[4], Le32(0) + Le32(MarkAt()), [], [])
    }

    /** The journal: the file is synced, a flush pass writes its marker and its
        commit record, and the file is synced again with its second block
        rewritten. */
    function Journal(): (items: seq<J.Item>)
      requires Plausible()
      ensures |items| == 7 && F.AllFit(items)
    {
      hide DataItem, InodeItem, MarkItem, CommitItem, J.Item.Fits;
      var items := [
        DataItem(0, 0),
        DataItem(1, 1),
        InodeItem(2, first, 0, 1, at[0]),
        MarkItem(),
        CommitItem(),
        DataItem(5, 2),
        InodeItem(6, second, 0, 5, at[1])
      ];
      items
    }

    /** What replay reads of it, zero fill behind it. */
    function Replayed(fill: nat): (es: seq<J.Entry>)
      requires Plausible()
    {
      var files := map[0 := F.Segment(Journal()) + Zeros(fill)];
      var p := B.FindCommit(B.Contents(files, [0]));
      B.Forward(files, p.seqNum, p.offset)
    }

    /** The second version of the file, without its first block. */
    function Spoilt(): (inode: I.Inode)
      requires Plausible()
    {
      second.(contents := I.Regular(second.contents.size, [I.Ref(None), I.Ref(Some(ids[5]))]))
    }
  }

  function Id(n: nat): (s: Bytes)
    requires n < 0xFF
    ensures |s| == ID_SIZE && s[0] == (n + 1) as Byte
  {
    seq(ID_SIZE, _ => (n + 1) as Byte)
  }

  /** Such a story exists. */
  lemma SomeStory() returns (st: Story)
    ensures st.Plausible()
  {
    var ids := seq(7, k requires 0 <= k < 7 => Id(k));
    forall k | 0 <= k < 7
      ensures ids[k] != Zeros(ID_SIZE)
    {
      assert ids[k][0] != Zeros(ID_SIZE)[0];
    }
    forall j, k | 0 <= j < k < 7
      ensures ids[j] != ids[k]
    {
      assert ids[j][0] != ids[k][0];
    }
    hide Id;
    var size := I.F.BLOCK_SIZE + 1;
    var first := I.Inode(0, 0, 0, 1, 5, 1, 0, 0, 0, 0, I.Regular(size, [I.Ref(Some(ids[0])), I.Ref(Some(ids[1]))]));
    var second := first.(contents := I.Regular(size, [I.Ref(Some(ids[0])), I.Ref(Some(ids[5]))]));
    st := Story(ids, [[], [], []], first, second, [Zeros(32), Zeros(32)]);
  }

  lemma StoryOffsets(st: Story)
    requires st.Plausible()
    ensures F.OffsetOf(st.Journal(), 3) == st.MarkAt()
    ensures forall k :: 0 <= k < 7 ==> F.OffsetOf(st.Journal(), k) < F.LOG_SEGMENT_SIZE
  {
    hide J.Record, F.OffsetOf, Story.Plausible, Story.DataItem, Story.InodeItem, Story.MarkItem, Story.CommitItem,
      J.Item.Fits, F.AllFit;
    var items := st.Journal();
    B.FirstOffset(items);
    F.NextOffset(items, 0);
    F.NextOffset(items, 1);
    F.NextOffset(items, 2);
    F.NextOffset(items, 3);
    F.NextOffset(items, 4);
    F.NextOffset(items, 5);
    forall k | 0 <= k < 7
      ensures F.OffsetOf(items, k) < F.LOG_SEGMENT_SIZE
    {
      assert k == 0 || k == 1 || k == 2 || k == 3 || k == 4 || k == 5 || k == 6;
    }
  }

  /** Replay starts at the marker. */
  lemma StoryPoint(st: Story)
    requires st.Plausible()
    ensures B.CommitsWhole(st.Journal()) && B.LastCommit(st.Journal(), 0, B.NOWHERE) == B.Position(0, st.MarkAt())
  {
    hide Story.Plausible, Story.MarkAt, Le32, Decode, Encode, J.Item.Fits, F.AllFit;
    var items := st.Journal();
    var p := Le32(0) + Le32(st.MarkAt());
    assert items[4].Payload() == p;
    RoundTrip32(0);
    RoundTrip32(st.MarkAt());
    assert p[0..4] == Le32(0) && p[4..8] == Le32(st.MarkAt());
    OneCommit(items, 4, B.Position(0, st.MarkAt()));
  }

  lemma OneCommit(items: seq<J.Item>, k: nat, p: B.Position)
    requires |items| == 7 && k == 4 && B.IsCommit(items[4]) && |items[4].Payload()| >= 8 && B.CommitOf(items[4]) == p
    requires forall n :: 0 <= n < |items| && n != k ==> !B.IsCommit(items[n])
    ensures B.CommitsWhole(items) && B.LastCommit(items, 0, B.NOWHERE) == p
  {
    hide B.IsCommit, B.CommitOf, J.Item.Payload;
    NoCommitAfter(items, 5, p);
    assert B.LastCommit(items, 4, B.NOWHERE) == p;
    NoCommitBefore(items, 4);
  }

  lemma {:induction false} NoCommitAfter(items: seq<J.Item>, k: nat, found: B.Position)
    requires B.CommitsWhole(items) && k <= |items| && forall n :: k <= n < |items| ==> !B.IsCommit(items[n])
    ensures B.LastCommit(items, k, found) == found
    decreases |items| - k
  {
    if k < |items| {
      NoCommitAfter(items, k + 1, found);
    }
  }

  lemma {:induction false} NoCommitBefore(items: seq<J.Item>, k: nat)
    requires B.CommitsWhole(items) && k <= |items| && forall n :: 0 <= n < k ==> !B.IsCommit(items[n])
    ensures B.LastCommit(items, 0, B.NOWHERE) == B.LastCommit(items, k, B.NOWHERE)
  {
    if k > 0 {
      NoCommitBefore(items, k - 1);
    }
  }

  lemma StoryEntries(st: Story)
    requires st.Plausible()
    ensures var es := F.Entries(st.Journal())[3..];
      && |es| == 4 && LastInode(es, st.first.inum) == Some(3)
      && (forall k :: 0 <= k < 4 ==> es[k].id == st.ids[3 + k])
      && es[3].inum == st.first.inum && Data(es[3]) == I.Serialize(st.second).data
      && LinkIds(LinkBytes(es[3])) == [st.ids[0], st.ids[5]]
  {
    hide F.OffsetOf, F.AllFit, J.Item.Fits, Le32, I.Serialize, I.Fits, Story.MarkAt, LinkIds;
    var items := st.Journal();
    var es := F.Entries(items)[3..];
    forall k | 0 <= k < 4
      ensures es[k] == J.EntryOf(items[3 + k], F.OffsetOf(items, 3 + k))
    {
    }
    assert es[3].payload == I.Serialize(st.second).data + (st.ids[0] + st.ids[5]) + st.at[1];
    TwoIds(st.ids[0], st.ids[5]);
  }

  lemma TwoIds(a: Bytes, b: Bytes)
    requires |a| == |b| == ID_SIZE
    ensures LinkIds(a + b) == [a, b]
  {
    assert (a + b)[0..16] == a && (a + b)[16..32] == b;
  }

  /** The item of the first block is unknown, and the second version of the file
      comes back without it: for all contents of the blocks, attributes of the
      inode, ids and locations. */
  lemma OldBlockLost(st: Story, known: set<Bytes>)
    requires st.Plausible() && st.ids[0] !in known
    ensures F.OffsetOf(st.Journal(), 3) == st.MarkAt()
    ensures B.CommitsWhole(st.Journal()) && B.LastCommit(st.Journal(), 0, B.NOWHERE) == B.Position(0, st.MarkAt())
    ensures var es := F.Entries(st.Journal())[3..];
      |es| == 4 && LastInode(es, st.first.inum) == Some(3) && LoadedFrom(es, 3, known).inode == Some(st.Spoilt())
  {
    hide F.OffsetOf, F.AllFit, F.Entries, B.LastCommit, B.CommitsWhole, LinkIds, LinkBytes, LastInode, Zeros, Data,
      Story.Journal, Story.MarkAt, I.Fits, I.Serialize, I.Deserialize, LinksFrom;
    StoryOffsets(st);
    StoryPoint(st);
    StoryEntries(st);
    var es := F.Entries(st.Journal())[3..];
    LastLinks(es, known, st.ids[0], st.ids[5]);
    SpoiltLoads(st);
  }

  lemma LastLinks(es: seq<J.Entry>, known: set<Bytes>, a: Bytes, b: Bytes)
    requires |es| == 4 && a !in known && b != Zeros(ID_SIZE) && LinkIds(LinkBytes(es[3])) == [a, b]
    requires es[2].id == b && forall k :: 0 <= k < |es| ==> es[k].id != a
    ensures LinksFrom(es, 3, known) == [None, Some(b)]
  {
    hide LinkIds, LinkBytes, Zeros;
    LinkSurvives(es, 3, known, 0);
    LinkSurvives(es, 3, known, 1);
    assert Seen(es, 3, b);
    var links := LinksFrom(es, 3, known);
    assert |links| == 2 && links[0] == None && links[1] == Some(b);
  }

  /** The payload does not depend on the blocks, so it loads with whatever links
      there are. */
  lemma SpoiltLoads(st: Story)
    requires st.Plausible()
    ensures I.Deserialize(st.first.inum, I.Stored(I.Serialize(st.second).data, [None, Some(st.ids[5])]))
      == Some(st.Spoilt())
  {
    hide I.Header, I.Deserialize, Le64;
    var hole := st.second.(contents := I.Regular(st.second.contents.size, [I.Zero, I.Ref(Some(st.ids[5]))]));
    assert I.Fits(hole);
    SameHeader(st.second, hole);
    assert I.LinksOf(hole.contents) == [None, Some(st.ids[5])];
    I.InodeRoundTrip(hole);
    assert I.Referenced(hole.contents) == st.Spoilt().contents;
  }

  lemma SameHeader(a: I.Inode, b: I.Inode)
    requires I.Fits(a) && I.Fits(b) && a.contents.Regular? && b.contents.Regular?
    requires b == a.(contents := b.contents)
    ensures I.Header(a) == I.Header(b)
  {
    hide Le64, Le32, I.FromSigned, I.ContentsFit;
  }

  /** The same over the bytes of the journal file, with any zero fill. */
  lemma OldBlockLostInReplay(st: Story, known: set<Bytes>, fill: nat)
    requires st.Plausible() && st.ids[0] !in known
    ensures var es := st.Replayed(fill);
      |es| == 4 && LastInode(es, st.first.inum) == Some(3) && LoadedFrom(es, 3, known).inode == Some(st.Spoilt())
  {
    hide Story.Journal, F.OffsetOf, F.AllFit, B.LastCommit, B.CommitsWhole, LoadedFrom, LastInode, F.Segment, B.Forward,
      B.FindCommit, F.Entries, B.Image, Story.Plausible, Story.MarkAt;
    OldBlockLost(st, known);
    var items := st.Journal();
    var files := map[0 := F.Segment(items) + Zeros(fill)];
    StoryImage(st, fill);
    OneFile(files[0], items);
    assert [items][..0] == [];
    assert B.FindItemCommit([items], {}) == B.Position(0, st.MarkAt());
    B.ReplayFromCommit(files, [0], [items], {}, 0, 3);
    OneFileItems(items, 3);
  }

  lemma StoryImage(st: Story, fill: nat)
    requires st.Plausible()
    ensures B.Image(F.Segment(st.Journal()) + Zeros(fill), st.Journal())
  {
    hide Story.Plausible, Story.Journal, F.OffsetOf, F.AllFit, J.Validate, F.Segment;
    StoryOffsets(st);
    F.FillRejected(F.Segment(st.Journal()), fill);
  }

  lemma OneFile(file: Bytes, items: seq<J.Item>)
    requires B.Image(file, items) && B.CommitsWhole(items)
    ensures B.Directory(map[0 := file], [items], {}) && B.InOrder(map[0 := file], [0])
  {
    hide B.Image, B.CommitsWhole;
    assert [items][0] == items && [0][0] in [0];
  }

  lemma OneFileItems(items: seq<J.Item>, k: nat)
    requires F.AllFit(items) && k <= |items|
    ensures B.ItemsFrom([items], 0, k) == F.Entries(items)[k..]
  {
    hide F.Entries;
    assert B.ItemsFrom([items], 1, 0) == [];
    assert F.Entries(items)[k..] + [] == F.Entries(items)[k..];
  }
}
