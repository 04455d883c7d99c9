/** Merging what a cleaner has moved: the proxy takes over the new locations of
    items it still uses, and nothing else. */
module Cleaner {
  import opened Bytes
  import opened Options
  import opened CloudItem

  const PRIMARY: nat := 0
  const CLEANER: nat := 1

  /** An item the proxy knows: its id, where it is in the cloud, its data. */
  datatype Known = Known(id: Bytes, location: Location, data: Bytes)

  /** A link as the cleaner wrote it. */
  datatype Moved = Moved(id: Bytes, location: Location)

  /** An item of the cleaner's log. */
  datatype CleanerItem = CleanerItem(kind: int, inum: nat, links: seq<Moved>)

  /** A block of a file: anything but a clean one is left alone. */
  datatype Block = Clean(item: nat) | Other

  datatype File = Regular(blocks: seq<Block>) | NotRegular

  // ------------------------------------------------ what needs merging

  /** An int in an unsigned comparison. */
  function Unsigned(v: int): (r: nat) {
    v % U32_LIMIT
  }

  predicate NeedsMerging(latest: int, at: Location) {
    && at.directory != PRIMARY
    && !(at.directory == CLEANER && at.sequence <= Unsigned(latest))
  }

  /** Exactly the cleaner's newer segments need merging, exactly when some
      cleaner checkpoint has been seen: the initial -1 compares as the largest
      number, and then nothing of the cleaner's does. */
  lemma NeedsMergingExact(latest: int)
    requires -0x8000_0000 <= latest < 0x8000_0000
    ensures (forall at: Location :: at.Fits() && at.directory == CLEANER ==>
        (NeedsMerging(latest, at) <==> at.sequence > latest))
      <==> latest >= 0
    ensures latest == -1 ==> forall at: Location :: at.Fits() && at.directory == CLEANER ==> !NeedsMerging(latest, at)
  {
    if latest < 0 {
      var at := Location(CLEANER, 0, 0, 0);
      assert Unsigned(latest) == latest + U32_LIMIT;
      assert at.Fits() && !NeedsMerging(latest, at) && at.sequence > latest;
    } else {
      assert Unsigned(latest) == latest;
    }
  }

  // ------------------------------------------------ one file

  type Items = map<nat, Known>

  /** Ids and where the cleaner says they are. */
  type News = set<(Bytes, Location)>

  type Loader = Location -> Option<CleanerItem>

  /** What merging works on: the items, and the inodes handed to be synced. */
  datatype Books = Books(items: Items, synced: seq<nat>)

  /** The cleaner has block `k` under the id the proxy knows it by. */
  predicate Match(items: Items, blocks: seq<Block>, links: seq<Moved>, k: nat)
    requires k < |blocks|
  {
    blocks[k].Clean? && k < |links| && blocks[k].item in items && items[blocks[k].item].id == links[k].id
  }

  /** The first `n` blocks moved to where the cleaner has them. */
  function MoveBlocks(items: Items, blocks: seq<Block>, links: seq<Moved>, n: nat): (r: Items)
    requires n <= |blocks|
  {
    if n == 0 then
      items
    else
      var r := MoveBlocks(items, blocks, links, n - 1);
      if Match(r, blocks, links, n - 1) then
        r[blocks[n - 1].item := r[blocks[n - 1].item].(location := links[n - 1].location)]
      else
        r
  }

  /** One inode of the cleaner's taken over; one that is gone stays gone. */
  function TakeInode(b: Books, files: map<nat, File>, inodes: set<nat>, ci: CleanerItem): (r: Books) {
    if ci.inum !in inodes then
      b
    else if ci.inum in files && files[ci.inum].Regular? then
      var blocks := files[ci.inum].blocks;
      Books(MoveBlocks(b.items, blocks, ci.links, |blocks|), b.synced + [ci.inum])
    else
      Books(b.items, b.synced + [ci.inum])
  }

  /** A link to something the cleaner wrote since its last checkpoint. */
  predicate Newer(latest: int, load: Loader, m: Moved) {
    NeedsMerging(latest, m.location) && load(m.location).Some?
  }

  /** The newer ones of the first `n` inodes of a section. */
  function TakeSection(b: Books, files: map<nat, File>, inodes: set<nat>, latest: int, load: Loader,
                       section: CleanerItem, n: nat): (r: Books)
    requires n <= |section.links|
  {
    if n == 0 then
      b
    else
      var r := TakeSection(b, files, inodes, latest, load, section, n - 1);
      if Newer(latest, load, section.links[n - 1]) then
        TakeInode(r, files, inodes, load(section.links[n - 1].location).value)
      else
        r
  }

  /** The newer ones of the first `n` sections of a checkpoint. */
  function TakeCheckpoint(b: Books, files: map<nat, File>, inodes: set<nat>, latest: int, load: Loader,
                          checkpoint: CleanerItem, n: nat): (r: Books)
    requires n <= |checkpoint.links|
  {
    if n == 0 then
      b
    else
      var r := TakeCheckpoint(b, files, inodes, latest, load, checkpoint, n - 1);
      if Newer(latest, load, checkpoint.links[n - 1]) then
        var section := load(checkpoint.links[n - 1].location).value;
        TakeSection(r, files, inodes, latest, load, section, |section.links|)
      else
        r
  }

  // ------------------------------------------------ what the cleaner said

  function Pairs(links: seq<Moved>): (r: News) {
    set k | 0 <= k < |links| :: (links[k].id, links[k].location)
  }

  /** The links of the newer inodes of a section. */
  function SectionNews(latest: int, load: Loader, section: CleanerItem, n: nat): (r: News)
    requires n <= |section.links|
  {
    if n == 0 then
      {}
    else if Newer(latest, load, section.links[n - 1]) then
      SectionNews(latest, load, section, n - 1) + Pairs(load(section.links[n - 1].location).value.links)
    else
      SectionNews(latest, load, section, n - 1)
  }

  /** The links of the newer inodes of the newer sections of a checkpoint. */
  function CheckpointNews(latest: int, load: Loader, checkpoint: CleanerItem, n: nat): (r: News)
    requires n <= |checkpoint.links|
  {
    if n == 0 then
      {}
    else if Newer(latest, load, checkpoint.links[n - 1]) then
      var section := load(checkpoint.links[n - 1].location).value;
      CheckpointNews(latest, load, checkpoint, n - 1) + SectionNews(latest, load, section, |section.links|)
    else
      CheckpointNews(latest, load, checkpoint, n - 1)
  }

  /** Only locations differ, and only in favour of what the cleaner wrote. */
  ghost predicate Took(before: Items, after: Items, news: News) {
    && before.Keys == after.Keys
    && forall x :: x in before ==>
         && after[x].id == before[x].id && after[x].data == before[x].data
         && (after[x].location == before[x].location || (after[x].id, after[x].location) in news)
  }

  /** The first `n` blocks that match are where the cleaner put them. */
  ghost predicate TookAll(items: Items, blocks: seq<Block>, links: seq<Moved>, n: nat, news: News)
    requires n <= |blocks|
  {
    forall k :: 0 <= k < n && Match(items, blocks, links, k) ==>
      (items[blocks[k].item].id, items[blocks[k].item].location) in news
  }

  /** A file the cleaner's version of which has been taken over. */
  ghost predicate Merged(items: Items, files: map<nat, File>, inodes: set<nat>, ci: CleanerItem, news: News) {
    ci.inum in inodes && ci.inum in files && files[ci.inum].Regular? ==>
      TookAll(items, files[ci.inum].blocks, ci.links, |files[ci.inum].blocks|, news)
  }

  /** Every inode of a section that is newer has been taken over. */
  ghost predicate SectionMerged(items: Items, files: map<nat, File>, inodes: set<nat>, latest: int,
                                load: Loader, section: CleanerItem, n: nat, news: News)
    requires n <= |section.links|
  {
    forall j :: 0 <= j < n && Newer(latest, load, section.links[j]) ==>
      Merged(items, files, inodes, load(section.links[j].location).value, news)
  }

  /** All sections of a checkpoint that are newer. */
  ghost predicate AllMerged(items: Items, files: map<nat, File>, inodes: set<nat>, latest: int,
                            load: Loader, checkpoint: CleanerItem, n: nat, news: News)
    requires n <= |checkpoint.links|
  {
    forall i :: 0 <= i < n && Newer(latest, load, checkpoint.links[i]) ==>
      var section := load(checkpoint.links[i].location).value;
      SectionMerged(items, files, inodes, latest, load, section, |section.links|, news)
  }

  /** What holds stays so under later moves, with their links added. */
  lemma Later(a: Items, b: Items, c: Items, n1: News, n2: News)
    requires Took(a, b, n1) && Took(b, c, n2)
    ensures Took(a, c, n1 + n2)
  {
  }

  lemma MergedLater(a: Items, b: Items, files: map<nat, File>, inodes: set<nat>, ci: CleanerItem, n1: News, n2: News)
    requires Merged(a, files, inodes, ci, n1) && Took(a, b, n2)
    ensures Merged(b, files, inodes, ci, n1 + n2)
  {
  }

  lemma SectionLater(a: Items, b: Items, files: map<nat, File>, inodes: set<nat>, latest: int, load: Loader,
                     section: CleanerItem, n: nat, n1: News, n2: News)
    requires n <= |section.links| && SectionMerged(a, files, inodes, latest, load, section, n, n1) && Took(a, b, n2)
    ensures SectionMerged(b, files, inodes, latest, load, section, n, n1 + n2)
  {
    hide Merged, Took;
    forall j | 0 <= j < n && Newer(latest, load, section.links[j])
      ensures Merged(b, files, inodes, load(section.links[j].location).value, n1 + n2)
    {
      MergedLater(a, b, files, inodes, load(section.links[j].location).value, n1, n2);
    }
  }

  lemma AllLater(a: Items, b: Items, files: map<nat, File>, inodes: set<nat>, latest: int, load: Loader,
                 checkpoint: CleanerItem, n: nat, n1: News, n2: News)
    requires n <= |checkpoint.links| && AllMerged(a, files, inodes, latest, load, checkpoint, n, n1) && Took(a, b, n2)
    ensures AllMerged(b, files, inodes, latest, load, checkpoint, n, n1 + n2)
  {
    hide SectionMerged, Took;
    forall i | 0 <= i < n && Newer(latest, load, checkpoint.links[i])
      ensures var section := load(checkpoint.links[i].location).value;
        SectionMerged(b, files, inodes, latest, load, section, |section.links|, n1 + n2)
    {
      var section := load(checkpoint.links[i].location).value;
      SectionLater(a, b, files, inodes, latest, load, section, |section.links|, n1, n2);
    }
  }

  /** Block `k` is the item and the cleaner has it under its id. */
  predicate Moves(items: Items, blocks: seq<Block>, links: seq<Moved>, k: nat, x: nat)
    requires k < |blocks|
  {
    blocks[k] == Clean(x) && Match(items, blocks, links, k)
  }

  /** The last of the first `n` blocks that is the item and that the cleaner has. */
  function LastMove(items: Items, blocks: seq<Block>, links: seq<Moved>, n: nat, x: nat): (r: Option<nat>)
    requires n <= |blocks|
    ensures r.None? ==> forall k :: 0 <= k < n ==> !Moves(items, blocks, links, k, x)
    ensures r.Some? ==> r.value < n && Moves(items, blocks, links, r.value, x)
    ensures r.Some? ==> forall k :: r.value < k < n ==> !Moves(items, blocks, links, k, x)
  {
    if n == 0 then None
    else if Moves(items, blocks, links, n - 1, x) then Some(n - 1)
    else LastMove(items, blocks, links, n - 1, x)
  }

  /** Of one file exactly the items move that are blocks the cleaner has in the
      same place under the same id, each to where the cleaner has the last such
      block. */
  lemma {:induction false} BlocksMoved(items: Items, blocks: seq<Block>, links: seq<Moved>, n: nat)
    requires n <= |blocks|
    ensures var r := MoveBlocks(items, blocks, links, n);
      && r.Keys == items.Keys
      && forall x :: x in items ==>
           var k := LastMove(items, blocks, links, n, x);
           r[x] == if k.None? then items[x] else items[x].(location := links[k.value].location)
  {
    if n > 0 {
      BlocksMoved(items, blocks, links, n - 1);
    }
  }

  /** So items move only to links that have their ids, and no match is left out. */
  lemma BlocksTaken(items: Items, blocks: seq<Block>, links: seq<Moved>, n: nat)
    requires n <= |blocks|
    ensures var r := MoveBlocks(items, blocks, links, n);
      Took(items, r, Pairs(links)) && TookAll(r, blocks, links, n, Pairs(links))
  {
    hide MoveBlocks, LastMove;
    BlocksMoved(items, blocks, links, n);
    var r := MoveBlocks(items, blocks, links, n);
    forall x | x in items && LastMove(items, blocks, links, n, x).Some?
      ensures (r[x].id, r[x].location) in Pairs(links)
    {
      var k := LastMove(items, blocks, links, n, x).value;
      assert (links[k].id, links[k].location) in Pairs(links);
    }
    hide Pairs;
    forall k | 0 <= k < n && Match(r, blocks, links, k)
      ensures (r[blocks[k].item].id, r[blocks[k].item].location) in Pairs(links)
    {
      assert Moves(items, blocks, links, k, blocks[k].item);
    }
  }

  lemma InodeTaken(b: Books, files: map<nat, File>, inodes: set<nat>, ci: CleanerItem)
    ensures var r := TakeInode(b, files, inodes, ci);
      Took(b.items, r.items, Pairs(ci.links)) && Merged(r.items, files, inodes, ci, Pairs(ci.links))
  {
    hide Pairs;
    if ci.inum in files && files[ci.inum].Regular? {
      BlocksTaken(b.items, files[ci.inum].blocks, ci.links, |files[ci.inum].blocks|);
    }
  }

  lemma {:induction false} SectionTaken(b: Books, files: map<nat, File>, inodes: set<nat>, latest: int, load: Loader,
                                        section: CleanerItem, n: nat)
    requires n <= |section.links|
    ensures var r := TakeSection(b, files, inodes, latest, load, section, n);
      var news := SectionNews(latest, load, section, n);
      && Took(b.items, r.items, news)
      && SectionMerged(r.items, files, inodes, latest, load, section, n, news)
  {
    hide TakeInode, Pairs, Merged, NeedsMerging;
    if n > 0 {
      SectionTaken(b, files, inodes, latest, load, section, n - 1);
      var r := TakeSection(b, files, inodes, latest, load, section, n - 1);
      var news := SectionNews(latest, load, section, n - 1);
      if Newer(latest, load, section.links[n - 1]) {
        var ci := load(section.links[n - 1].location).value;
        InodeTaken(r, files, inodes, ci);
        var after := TakeInode(r, files, inodes, ci).items;
        Later(b.items, r.items, after, news, Pairs(ci.links));
        SectionLater(r.items, after, files, inodes, latest, load, section, n - 1, news, Pairs(ci.links));
        MoreNews(after, files, inodes, ci, Pairs(ci.links), news);
      }
    }
  }

  lemma MoreNews(items: Items, files: map<nat, File>, inodes: set<nat>, ci: CleanerItem, n1: News, n2: News)
    requires Merged(items, files, inodes, ci, n1)
    ensures Merged(items, files, inodes, ci, n2 + n1)
  {
  }

  lemma MoreSectionNews(items: Items, files: map<nat, File>, inodes: set<nat>, latest: int, load: Loader,
                        section: CleanerItem, n1: News, n2: News)
    requires SectionMerged(items, files, inodes, latest, load, section, |section.links|, n1)
    ensures SectionMerged(items, files, inodes, latest, load, section, |section.links|, n2 + n1)
  {
    hide Merged;
    forall j | 0 <= j < |section.links| && Newer(latest, load, section.links[j])
      ensures Merged(items, files, inodes, load(section.links[j].location).value, n2 + n1)
    {
      MoreNews(items, files, inodes, load(section.links[j].location).value, n1, n2);
    }
  }

  /** Merging a checkpoint moves items only to where the cleaner's newer inodes
      have them, and leaves no block behind that such an inode has under the
      same id. */
  lemma {:induction false} CheckpointTaken(b: Books, files: map<nat, File>, inodes: set<nat>, latest: int,
                                           load: Loader, checkpoint: CleanerItem, n: nat)
    requires n <= |checkpoint.links|
    ensures var r := TakeCheckpoint(b, files, inodes, latest, load, checkpoint, n);
      var news := CheckpointNews(latest, load, checkpoint, n);
      && Took(b.items, r.items, news)
      && AllMerged(r.items, files, inodes, latest, load, checkpoint, n, news)
  {
    hide TakeSection, SectionNews, SectionMerged, NeedsMerging;
    if n > 0 {
      CheckpointTaken(b, files, inodes, latest, load, checkpoint, n - 1);
      var r := TakeCheckpoint(b, files, inodes, latest, load, checkpoint, n - 1);
      var news := CheckpointNews(latest, load, checkpoint, n - 1);
      if Newer(latest, load, checkpoint.links[n - 1]) {
        var section := load(checkpoint.links[n - 1].location).value;
        SectionTaken(r, files, inodes, latest, load, section, |section.links|);
        var after := TakeSection(r, files, inodes, latest, load, section, |section.links|).items;
        var more := SectionNews(latest, load, section, |section.links|);
        Later(b.items, r.items, after, news, more);
        AllLater(r.items, after, files, inodes, latest, load, checkpoint, n - 1, news, more);
        MoreSectionNews(after, files, inodes, latest, load, section, more, news);
      }
    }
  }

  /** Link `j` of a section leads to a newer version of an inode that is still
      there. */
  predicate Leads(inodes: set<nat>, latest: int, load: Loader, section: CleanerItem, j: nat, inum: nat)
    requires j < |section.links|
  {
    Newer(latest, load, section.links[j]) && load(section.links[j].location).value.inum == inum && inum in inodes
  }

  /** Some newer section of the checkpoint does. */
  ghost predicate Reaches(inodes: set<nat>, latest: int, load: Loader, checkpoint: CleanerItem, i: nat, inum: nat)
    requires i < |checkpoint.links|
  {
    && Newer(latest, load, checkpoint.links[i])
    && var section := load(checkpoint.links[i].location).value;
       exists j :: 0 <= j < |section.links| && Leads(inodes, latest, load, section, j, inum)
  }

  lemma {:induction false} SectionSynced(b: Books, files: map<nat, File>, inodes: set<nat>, latest: int, load: Loader,
                                         section: CleanerItem, n: nat, inum: nat)
    requires n <= |section.links|
    ensures var r := TakeSection(b, files, inodes, latest, load, section, n);
      && b.synced <= r.synced
      && (inum in r.synced <==>
          inum in b.synced || exists j :: 0 <= j < n && Leads(inodes, latest, load, section, j, inum))
  {
    hide NeedsMerging, MoveBlocks;
    if n > 0 {
      SectionSynced(b, files, inodes, latest, load, section, n - 1, inum);
      var r := TakeSection(b, files, inodes, latest, load, section, n - 1);
      var r' := TakeSection(b, files, inodes, latest, load, section, n);
      assert inum in r'.synced <==> inum in r.synced || Leads(inodes, latest, load, section, n - 1, inum);
    }
  }

  /** Handed to be synced are, behind what was, exactly the inodes that are still
      there and that a newer section has a newer version of. */
  lemma {:induction false} CheckpointSynced(b: Books, files: map<nat, File>, inodes: set<nat>, latest: int,
                                            load: Loader, checkpoint: CleanerItem, n: nat, inum: nat)
    requires n <= |checkpoint.links|
    ensures var r := TakeCheckpoint(b, files, inodes, latest, load, checkpoint, n);
      && b.synced <= r.synced
      && (inum in r.synced <==>
          inum in b.synced || exists i :: 0 <= i < n && Reaches(inodes, latest, load, checkpoint, i, inum))
  {
    hide NeedsMerging, TakeSection;
    if n > 0 {
      CheckpointSynced(b, files, inodes, latest, load, checkpoint, n - 1, inum);
      var r := TakeCheckpoint(b, files, inodes, latest, load, checkpoint, n - 1);
      var r' := TakeCheckpoint(b, files, inodes, latest, load, checkpoint, n);
      if Newer(latest, load, checkpoint.links[n - 1]) {
        var section := load(checkpoint.links[n - 1].location).value;
        SectionSynced(r, files, inodes, latest, load, section, |section.links|, inum);
      }
      assert inum in r'.synced <==> inum in r.synced || Reaches(inodes, latest, load, checkpoint, n - 1, inum);
    }
  }

  /** Nothing in the cleaner's log is newer: every link is to the primary log
      or to a segment already seen. */
  ghost predicate NothingNewer(latest: int, links: seq<Moved>, n: nat)
    requires n <= |links|
  {
    forall j :: 0 <= j < n ==> !NeedsMerging(latest, links[j].location)
  }

  /** Then there is nothing to do. */
  lemma {:induction false} NothingTaken(b: Books, files: map<nat, File>, inodes: set<nat>, latest: int, load: Loader,
                                        checkpoint: CleanerItem, n: nat)
    requires n <= |checkpoint.links| && NothingNewer(latest, checkpoint.links, n)
    ensures TakeCheckpoint(b, files, inodes, latest, load, checkpoint, n) == b
  {
    hide NeedsMerging;
    if n > 0 {
      NothingTaken(b, files, inodes, latest, load, checkpoint, n - 1);
    }
  }

  // ------------------------------------------------ the proxy

  /** Every clean block's item is known. */
  ghost predicate FilesOk(items: Items, files: map<nat, File>) {
    forall inum :: inum in files && files[inum].Regular? ==> BlocksOk(items, files[inum].blocks)
  }

  ghost predicate BlocksOk(items: Items, blocks: seq<Block>) {
    forall k :: 0 <= k < |blocks| && blocks[k].Clean? ==> blocks[k].item in items
  }

  class Proxy {
    var items: Items
    var files: map<nat, File>
    var inodes: set<nat>
    var latest: int
    var synced: seq<nat>

    ghost predicate Valid()
      reads this
    {
      inodes <= files.Keys && FilesOk(items, files)
    }

    ghost function Now(): (b: Books)
      reads this
    {
      Books(items, synced)
    }

    constructor (items: Items, files: map<nat, File>, inodes: set<nat>, latest: int)
      requires inodes <= files.Keys && FilesOk(items, files)
      ensures Valid() && this.items == items && this.files == files && this.inodes == inodes && this.latest == latest
      ensures synced == []
    {
      this.items, this.files, this.inodes, this.latest := items, files, inodes, latest;
      synced := [];
    }

    /** Take over what the cleaner did to one inode, and have it written out
        again; an inode that is gone stays gone. */
    method MergeInode(ci: CleanerItem)
      requires Valid()
      modifies this`items, this`synced
      ensures Valid() && Now() == TakeInode(old(Now()), files, inodes, ci)
    {
      if ci.inum !in inodes {
        return;
      }
      if files[ci.inum].Regular? {
        var blocks := files[ci.inum].blocks;
        var i := 0;
        while i < |blocks|
          invariant i <= |blocks| && items.Keys == old(items.Keys) && synced == old(synced)
          invariant items == MoveBlocks(old(items), blocks, ci.links, i)
        {
          if blocks[i].Clean? && i < |ci.links| {
            var x := blocks[i].item;
            if items[x].id == ci.links[i].id {
              items := items[x := items[x].(location := ci.links[i].location)];
            }
          }
          i := i + 1;
        }
      }
      synced := synced + [ci.inum];
    }

    /** Take over every inode of a section that needs it. */
    method MergeSection(section: CleanerItem, load: Loader)
      requires Valid()
      modifies this`items, this`synced
      ensures Valid() && Now() == TakeSection(old(Now()), files, inodes, latest, load, section, |section.links|)
    {
      hide TakeInode, FilesOk, NeedsMerging;
      var j := 0;
      while j < |section.links|
        invariant j <= |section.links| && Valid()
        invariant Now() == TakeSection(old(Now()), files, inodes, latest, load, section, j)
      {
        var at := section.links[j].location;
        if NeedsMerging(latest, at) {
          var inode := load(at);
          if inode.Some? {
            MergeInode(inode.value);
          }
        }
        j := j + 1;
      }
    }

    /** Merge the newest checkpoint of the cleaner's log, if there is one newer
        than what has been seen and it is complete. Whatever the cloud holds, as
        long as the cleaner's links lead to copies of what they name, every item
        that read back still does, as the same data. */
    method Merge(found: Option<(nat, CleanerItem)>, load: Loader)
      requires Valid()
      modifies this
      ensures Valid() && files == old(files) && inodes == old(inodes) && latest >= old(latest)
      ensures if found.Some? && found.value.0 > old(latest) && found.value.1.kind == CHECKPOINT
        then latest == found.value.0
          && Now() == TakeCheckpoint(old(Now()), files, inodes, old(latest), load, found.value.1,
                                     |found.value.1.links|)
        else latest == old(latest) && Now() == old(Now())
      ensures found.Some? ==> forall cloud: Cloud ::
        IdsUnique(cloud)
        && Faithful(CheckpointNews(old(latest), load, found.value.1, |found.value.1.links|), cloud)
        ==> SameContents(old(items), items, cloud)
      ensures found.Some? && NothingNewer(old(latest), found.value.1.links, |found.value.1.links|) ==>
        Now() == old(Now())
    {
      hide TakeSection, FilesOk, NeedsMerging, IdsUnique, Faithful, CheckpointNews, SameContents,
        NothingNewer;
      if found.Some? {
        NothingMoved(items);
      }
      if found.None? || found.value.0 <= latest || found.value.1.kind != CHECKPOINT {
        return;
      }
      var checkpoint := found.value.1;
      var i := 0;
      while i < |checkpoint.links|
        invariant i <= |checkpoint.links| && Valid()
        invariant files == old(files) && inodes == old(inodes) && latest == old(latest)
        invariant Now() == TakeCheckpoint(old(Now()), files, inodes, latest, load, checkpoint, i)
      {
        var at := checkpoint.links[i].location;
        if NeedsMerging(latest, at) {
          var section := load(at);
          if section.Some? {
            MergeSection(section.value, load);
          }
        }
        i := i + 1;
      }
      ContentsKept(old(Now()), files, inodes, old(latest), load, checkpoint);
      if NothingNewer(old(latest), checkpoint.links, |checkpoint.links|) {
        NothingTaken(old(Now()), files, inodes, old(latest), load, checkpoint, |checkpoint.links|);
      }
      latest := found.value.0;
    }
  }

  /** So the first checkpoint of a cleaner is taken as seen without being
      looked at: none of its links is followed. */
  lemma FirstCheckpointSkipped(links: seq<Moved>)
    requires forall j :: 0 <= j < |links| ==>
      links[j].location.Fits() && (links[j].location.directory == PRIMARY || links[j].location.directory == CLEANER)
    ensures NothingNewer(-1, links, |links|)
  {
    assert Unsigned(-1) == U32_LIMIT - 1;
  }

  /** The links the next version of a file goes out with: after a merge, every
      block that a newer inode of the cleaner's has under the same id names a
      copy of the cleaner's. */
  lemma NextVersionMoved(b: Books, files: map<nat, File>, inodes: set<nat>, latest: int, load: Loader,
                         checkpoint: CleanerItem, i: nat, j: nat, k: nat)
    requires i < |checkpoint.links| && Newer(latest, load, checkpoint.links[i])
    requires var section := load(checkpoint.links[i].location).value;
      && j < |section.links| && Newer(latest, load, section.links[j])
      && var ci := load(section.links[j].location).value;
         && ci.inum in inodes && ci.inum in files && files[ci.inum].Regular? && k < |files[ci.inum].blocks|
         && Match(b.items, files[ci.inum].blocks, ci.links, k)
    ensures var ci := load(load(checkpoint.links[i].location).value.links[j].location).value;
      var after := TakeCheckpoint(b, files, inodes, latest, load, checkpoint, |checkpoint.links|).items;
      var link := LinkOut(after, files[ci.inum].blocks[k]);
      && link.To? && link.id == ci.links[k].id
      && (link.id, link.at) in CheckpointNews(latest, load, checkpoint, |checkpoint.links|)
  {
    hide CheckpointNews, TakeCheckpoint, NeedsMerging;
    var n := |checkpoint.links|;
    var news := CheckpointNews(latest, load, checkpoint, n);
    CheckpointTaken(b, files, inodes, latest, load, checkpoint, n);
    var after := TakeCheckpoint(b, files, inodes, latest, load, checkpoint, n).items;
    var section := load(checkpoint.links[i].location).value;
    assert SectionMerged(after, files, inodes, latest, load, section, |section.links|, news);
    var ci := load(section.links[j].location).value;
    assert Merged(after, files, inodes, ci, news);
    assert Match(after, files[ci.inum].blocks, ci.links, k);
  }

  function LinkOut(items: Items, b: Block): (l: Link) {
    if b.Clean? && b.item in items then To(items[b.item].id, items[b.item].location) else Null
  }

  // ------------------------------------------------ contents

  /** What the cloud holds at a location: an item's id and data. */
  type Cloud = map<Location, (Bytes, Bytes)>

  /** An id names one piece of data. */
  ghost predicate IdsUnique(cloud: Cloud) {
    forall p, q :: p in cloud && q in cloud && cloud[p].0 == cloud[q].0 ==> cloud[p].1 == cloud[q].1
  }

  /** An item reads back from its location. */
  ghost predicate Reads(k: Known, cloud: Cloud) {
    k.location in cloud && cloud[k.location] == (k.id, k.data)
  }

  /** Wherever the cloud has the item's id, it has the item's data. */
  ghost predicate Names(k: Known, cloud: Cloud) {
    forall p :: p in cloud && cloud[p].0 == k.id ==> cloud[p].1 == k.data
  }

  /** The cleaner's links lead to copies of the items they name. */
  ghost predicate Faithful(news: News, cloud: Cloud) {
    forall id, p :: (id, p) in news ==> p in cloud && cloud[p].0 == id
  }

  /** An item that read back still does, as the same data; one that did not, not
      being uploaded yet, stays where it is or reads back now. */
  ghost predicate Kept(before: Known, after: Known, cloud: Cloud) {
    && after.id == before.id && after.data == before.data
    && (Reads(before, cloud) ==> Reads(after, cloud))
    && (Names(before, cloud) ==> after.location == before.location || Reads(after, cloud))
  }

  ghost predicate SameContents(before: Items, after: Items, cloud: Cloud) {
    before.Keys == after.Keys && forall x :: x in before ==> Kept(before[x], after[x], cloud)
  }

  /** Moving items to copies of them keeps what every file holds. */
  lemma MovePreservesContents(before: Items, after: Items, news: News, cloud: Cloud)
    requires Took(before, after, news) && IdsUnique(cloud) && Faithful(news, cloud)
    ensures SameContents(before, after, cloud)
  {
    forall x | x in before
      ensures Kept(before[x], after[x], cloud)
    {
      if after[x].location != before[x].location {
        assert (after[x].id, after[x].location) in news;
        if Reads(before[x], cloud) {
          assert cloud[after[x].location].0 == cloud[before[x].location].0;
        }
      }
    }
  }

  lemma NothingMoved(items: Items)
    ensures forall cloud: Cloud :: SameContents(items, items, cloud)
  {
  }

  /** Merging keeps the meaning of every file: whatever the proxy reads through
      an item, before and after, is the same bytes. */
  lemma ContentsKept(b: Books, files: map<nat, File>, inodes: set<nat>, latest: int, load: Loader,
                     checkpoint: CleanerItem)
    ensures var n := |checkpoint.links|;
      forall cloud: Cloud ::
        IdsUnique(cloud) && Faithful(CheckpointNews(latest, load, checkpoint, n), cloud) ==>
          SameContents(b.items, TakeCheckpoint(b, files, inodes, latest, load, checkpoint, n).items, cloud)
  {
    hide IdsUnique, Faithful, CheckpointNews, TakeCheckpoint, SameContents, AllMerged, Took;
    var n := |checkpoint.links|;
    CheckpointTaken(b, files, inodes, latest, load, checkpoint, n);
    var after := TakeCheckpoint(b, files, inodes, latest, load, checkpoint, n).items;
    forall cloud: Cloud | IdsUnique(cloud) && Faithful(CheckpointNews(latest, load, checkpoint, n), cloud)
      ensures SameContents(b.items, after, cloud)
    {
      MovePreservesContents(b.items, after, CheckpointNews(latest, load, checkpoint, n), cloud);
    }
  }
}
