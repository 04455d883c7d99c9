/** From the last segment to the inode map: what a flush wrote, encrypted and
    uploaded, start-up finds, decrypts and reads back. */
module Startup {
  import opened Bytes
  import opened Options
  import opened CloudItem
  import opened CloudLog
  import C = CloudCrypt
  import P = Checkpoint
  import Imap = InodeMap

  /** The keys of a file system, and the random counter blocks of each segment. */
  datatype Keys = Keys(cipher: C.Cipher, mac: C.Mac, random: nat -> nat -> Bytes)

  ghost predicate Sound(keys: Keys) {
    && C.CounterMode(keys.cipher) && C.Digest(keys.mac)
    && forall s: nat, k: nat :: |keys.random(s)(k)| == C.IV_SIZE
  }

  function ItemsOf(nodes: Nodes, ws: seq<Written>): (items: seq<Item>)
    requires forall k :: 0 <= k < |ws| ==> ws[k].x in nodes
    ensures |items| == |ws|
  {
    seq(|ws|, k requires 0 <= k < |ws| => Resolved(nodes, ws[k].x))
  }

  /** Every number written fits its field, and no item has the zero id. */
  ghost predicate Storable(nodes: Nodes, written: set<nat>) {
    forall x :: x in written && x in nodes ==> Resolved(nodes, x).Fits() && Named(Resolved(nodes, x).links)
  }

  /** No record is so long that its size does not fit an int. */
  ghost predicate Scannable(nodes: Nodes, written: set<nat>) {
    forall x :: x in written && x in nodes ==> nodes[x].location.size < C.INT_LIMIT
  }

  lemma SegmentHolding(nodes: Nodes, written: set<nat>, directory: nat, s: nat, ws: seq<Written>)
    requires SegmentOk(nodes, written, directory, s, ws) && Storable(nodes, written)
    ensures forall k :: 0 <= k < |ws| ==> ws[k].x in nodes
    ensures C.Holding(Records(ws), ItemsOf(nodes, ws))
  {
    hide IsRecord, Resolved, C.Flatten, Item.Fits, Named;
    forall k | 0 <= k < |ws|
      ensures ws[k].x in nodes && IsRecord(ws[k].record, Resolved(nodes, ws[k].x)) && Resolved(nodes, ws[k].x).Fits()
    {
      assert InSegment(nodes, written, directory, s, ws, k);
    }
  }

  ghost predicate Passable(keys: Keys, s: nat, rs: seq<Bytes>) {
    && C.CounterMode(keys.cipher)
    && (forall k :: 0 <= k < |rs| ==> C.Sized(rs[k]))
    && (forall k :: 0 <= k < |rs| ==> C.Sized(C.Encrypted(rs, keys.cipher, keys.mac, keys.random(s))[k]))
  }

  /** The records of a segment after it has been encrypted, stored, fetched and
      decrypted. */
  ghost function Fetched(keys: Keys, s: nat, rs: seq<Bytes>): (ds: seq<Bytes>)
    ensures |ds| == |rs|
  {
    if Passable(keys, s, rs) then
      C.Decrypted(C.Encrypted(rs, keys.cipher, keys.mac, keys.random(s)), keys.cipher, keys.mac, false)
    else rs
  }

  /** They hold the same items at the same offsets. */
  lemma FetchedHolds(keys: Keys, s: nat, rs: seq<Bytes>, items: seq<Item>)
    requires Sound(keys) && C.Holding(rs, items)
    ensures C.Holding(Fetched(keys, s, rs), items)
    ensures forall k :: 0 <= k <= |rs| ==> |C.Flatten(Fetched(keys, s, rs)[..k])| == |C.Flatten(rs[..k])|
    ensures forall k :: 0 <= k < |rs| ==> |Fetched(keys, s, rs)[k]| == |rs[k]|
  {
    hide C.Holding, C.Flatten, C.Cut, C.Rest, C.Accepted, C.Known, C.Layout, C.EncryptBlock, C.DecryptBlock;
    var random := keys.random(s);
    C.SegmentRoundTrip(rs, items, keys.cipher, keys.mac, random, false);
    var es := C.Encrypted(rs, keys.cipher, keys.mac, random);
    assert Passable(keys, s, rs);
    var ds := Fetched(keys, s, rs);
    forall k | 0 <= k < |rs|
      ensures |ds[k]| == |rs[k]|
    {
      C.EncryptedSized(rs[k], keys.cipher, keys.mac, random(k));
      C.DecryptedSized(es[k], keys.cipher, keys.mac, false);
    }
    forall k | 0 <= k <= |rs|
      ensures |C.Flatten(ds[..k])| == |C.Flatten(rs[..k])|
    {
      C.SameSizedFlatten(ds[..k], rs[..k]);
    }
  }

  // ------------------------------------------------ the store, decrypted

  type View = map<nat, Bytes>

  /** What fetching and decrypting each segment gives: those of this log, and
      older ones numbered below its first. */
  ghost predicate Downloaded(start: nat, done: map<nat, seq<Written>>, keys: Keys, view: View) {
    && (forall s :: s in done ==> s in view && view[s] == C.Flatten(Fetched(keys, s, Records(done[s]))))
    && (forall s :: s in view && s !in done ==> s < start)
  }

  function ReadAt(view: View, at: Location): (r: Option<Item>) {
    if at.sequence in view && at.offset <= |view[at.sequence]| then ReadItem(view[at.sequence][at.offset..]) else None
  }

  lemma SegmentReads(nodes: Nodes, written: set<nat>, directory: nat, s: nat, ws: seq<Written>, keys: Keys, k: nat)
    requires SegmentOk(nodes, written, directory, s, ws) && Storable(nodes, written) && Sound(keys) && k < |ws|
    ensures ws[k].x in nodes
    ensures var bytes := C.Flatten(Fetched(keys, s, Records(ws)));
      var at := nodes[ws[k].x].location;
      at.offset <= |bytes| && ReadItem(bytes[at.offset..]) == Some(Resolved(nodes, ws[k].x))
  {
    hide IsRecord, Resolved, C.Flatten, Item.Fits, Named, ReadItem, Fetched, C.Holding, Sound;
    SegmentHolding(nodes, written, directory, s, ws);
    var rs, items := Records(ws), ItemsOf(nodes, ws);
    FetchedHolds(keys, s, rs, items);
    assert InSegment(nodes, written, directory, s, ws, k);
    assert Records(ws[..k]) == rs[..k];
    assert Named(items[k].links) by { assert items[k] == Resolved(nodes, ws[k].x); }
    C.ItemAtLocation(Fetched(keys, s, rs), items, k);
  }

  /** Every item of a settled log reads back from the store, through
      encryption. */
  lemma ReadsBack(log: Log, keys: Keys, view: View, x: nat)
    requires log.Valid() && Settled(log) && Storable(log.nodes, log.written) && Sound(keys)
    requires Downloaded(log.start, log.layout.done, keys, view) && x in log.written && x in log.nodes
    ensures ReadAt(view, log.nodes[x].location) == Some(Resolved(log.nodes, x))
  {
    hide IsRecord, Resolved, C.Flatten, ReadItem, LinksBack, Once, Mapped, Storable, Sound, Fetched;
    var l := log.layout;
    EmptyData(log.nodes, log.earlier, log.written, l);
    var s := log.nodes[x].location.sequence;
    assert FoundAt(x, s, l) && s in l.done;
    var ws := l.done[s];
    var k :| 0 <= k < |ws| && ws[k].x == x;
    SegmentReads(log.nodes, log.written, l.directory, s, ws, keys, k);
  }

  /** The scan of the last segment finds the checkpoint written last. */
  lemma ScanFinds(log: Log, keys: Keys, view: View, cp: nat)
    requires log.Valid() && Settled(log) && Storable(log.nodes, log.written) && Sound(keys)
    requires Downloaded(log.start, log.layout.done, keys, view) && NewestRecord(log.layout, cp) && cp in log.nodes
    requires log.nodes[cp].kind == CHECKPOINT && log.nodes[cp].data != [] && Scannable(log.nodes, log.written)
    ensures var at := log.nodes[cp].location;
      && at.sequence in view && (forall s :: s in view ==> s <= at.sequence)
      && C.LastCheckpoint(view[at.sequence], 0, None) == C.Ended(Some((at.offset, at.size)))
  {
    hide IsRecord, Resolved, C.Flatten, C.LastCheckpoint, LinksBack, Once, Mapped, Storable, Sound, Fetched, Found,
      C.Holding, Records, Scannable;
    var l := log.layout;
    EmptyData(log.nodes, log.earlier, log.written, l);
    var s := l.sequence - 1;
    var ws := l.done[s];
    var n := |ws| - 1;
    assert SegmentOk(log.nodes, log.written, l.directory, s, ws);
    assert InSegment(log.nodes, log.written, l.directory, s, ws, n);
    SegmentScan(log.nodes, log.written, l.directory, s, ws, keys);
  }

  lemma SegmentScan(nodes: Nodes, written: set<nat>, directory: nat, s: nat, ws: seq<Written>, keys: Keys)
    requires SegmentOk(nodes, written, directory, s, ws) && Storable(nodes, written) && Sound(keys) && ws != []
    requires Scannable(nodes, written)
    requires var cp := ws[|ws| - 1].x; cp in nodes && nodes[cp].kind == CHECKPOINT && nodes[cp].data != []
    ensures var at := nodes[ws[|ws| - 1].x].location;
      C.LastCheckpoint(C.Flatten(Fetched(keys, s, Records(ws))), 0, None) == C.Ended(Some((at.offset, at.size)))
  {
    hide IsRecord, C.Flatten, Item.Fits, Named, Fetched, C.Holding, Sound, C.LastCheckpoint;
    SegmentHolding(nodes, written, directory, s, ws);
    var rs, items := Records(ws), ItemsOf(nodes, ws);
    FetchedHolds(keys, s, rs, items);
    var n := |ws| - 1;
    assert InSegment(nodes, written, directory, s, ws, n);
    assert Records(ws[..n]) == rs[..n];
    var ds := Fetched(keys, s, rs);
    assert items[n] == Resolved(nodes, ws[n].x);
    SameCount(ds, items);
    forall k | 0 <= k < |ds|
      ensures |ds[k]| < C.INT_LIMIT
    {
      assert InSegment(nodes, written, directory, s, ws, k);
    }
    C.CheckpointFound(ds, items, 0, None);
  }

  lemma SameCount(ds: seq<Bytes>, items: seq<Item>)
    requires C.Holding(ds, items)
    ensures |ds| == |items|
  {
  }

  // ------------------------------------------------ the inode map

  /** An item in memory that is the serialized form of a range. */
  ghost predicate SectionNode(nodes: Nodes, x: nat, es: seq<Imap.Entry>) {
    && x in nodes && nodes[x].data == Imap.SectionData(es) && |nodes[x].links| == |es|
    && forall k :: 0 <= k < |es| ==> nodes[x].links[k] == es[k].item
  }

  /** An item in memory that is the checkpoint record of a map. */
  ghost predicate CheckpointNode(nodes: Nodes, cp: nat, rs: seq<Imap.Range>, latest: int) {
    && cp in nodes && nodes[cp].kind == CHECKPOINT && nodes[cp].data == P.RecordOf(rs, latest).data
    && |nodes[cp].links| == |rs|
    && forall k :: 0 <= k < |rs| ==>
         nodes[cp].links[k].Some? && SectionNode(nodes, nodes[cp].links[k].value, rs[k].entries)
  }

  /** Finding items by id, as links are resolved on loading. */
  function RefOf(l: Link, byId: map<Bytes, nat>): (r: Imap.ItemRef) {
    if l.Null? || l.id !in byId then None else Some(byId[l.id])
  }

  function SectionFrom(item: Item, byId: map<Bytes, nat>): (s: Imap.Section) {
    Imap.Section(item.data, seq(|item.links|, k requires 0 <= k < |item.links| => RefOf(item.links[k], byId)))
  }

  /** The sections a checkpoint item leads to. */
  function LoadSection(view: View, l: Link, byId: map<Bytes, nat>): (s: Imap.Section) {
    if l.Null? then Imap.Section([], [])
    else
      var item := ReadAt(view, l.at);
      if item.None? then Imap.Section([], []) else SectionFrom(item.value, byId)
  }

  function LoadRecord(view: View, item: Item, byId: map<Bytes, nat>): (r: P.Record) {
    P.Record(item.data, seq(|item.links|, k requires 0 <= k < |item.links| => LoadSection(view, item.links[k], byId)))
  }

  ghost predicate ById(nodes: Nodes, byId: map<Bytes, nat>) {
    forall x :: x in nodes ==> nodes[x].id in byId && byId[nodes[x].id] == x
  }

  lemma SectionReads(nodes: Nodes, x: nat, es: seq<Imap.Entry>, byId: map<Bytes, nat>)
    requires SectionNode(nodes, x, es) && LinksThere(nodes) && ById(nodes, byId)
    ensures SectionFrom(Resolved(nodes, x), byId) == Imap.SectionOf(es)
  {
    hide Imap.SectionData;
    var a, b := SectionFrom(Resolved(nodes, x), byId), Imap.SectionOf(es);
    forall k | 0 <= k < |es|
      ensures a.links[k] == b.links[k]
    {
      assert nodes[x].links[k] == es[k].item;
    }
    assert a.links == b.links;
  }

  lemma {:induction false} SectionAt(rs: seq<Imap.Range>, k: nat)
    requires k < |rs|
    ensures P.Sections(rs)[k] == Imap.SectionOf(rs[k].entries)
  {
    hide Imap.SectionOf;
    if k < |rs| - 1 {
      SectionAt(rs[..|rs| - 1], k);
    }
  }

  /** The sections of a checkpoint that were in the cloud before this log was
      started read back from there. */
  ghost predicate SectionsHeld(log: Log, cp: nat, view: View)
    reads log
  {
    forall x :: cp in log.nodes && x in log.earlier && x in log.nodes && Some(x) in log.nodes[cp].links ==>
      ReadAt(view, log.nodes[x].location) == Some(Resolved(log.nodes, x))
  }

  lemma RecordReads(log: Log, keys: Keys, view: View, cp: nat, rs: seq<Imap.Range>, latest: int, byId: map<Bytes, nat>)
    requires log.Valid() && Settled(log) && Storable(log.nodes, log.written) && Sound(keys)
    requires Downloaded(log.start, log.layout.done, keys, view) && ById(log.nodes, byId)
    requires cp in log.written && SectionsHeld(log, cp, view) && CheckpointNode(log.nodes, cp, rs, latest)
    ensures LoadRecord(view, Resolved(log.nodes, cp), byId) == P.RecordOf(rs, latest)
  {
    hide IsRecord, C.Flatten, Once, Mapped, Storable, Sound, Downloaded, ReadAt, ById, SectionNode, P.Header, P.Windows,
      Imap.SectionOf, P.Sections, SectionFrom;
    var nodes := log.nodes;
    var item := Resolved(nodes, cp);
    var loaded := LoadRecord(view, item, byId);
    forall k | 0 <= k < |rs|
      ensures loaded.sections[k] == P.Sections(rs)[k]
    {
      var x := nodes[cp].links[k].value;
      SectionLinked(log, cp, k);
      if x in log.written {
        ReadsBack(log, keys, view, x);
      }
      SectionReads(nodes, x, rs[k].entries, byId);
      SectionAt(rs, k);
    }
    assert loaded.sections == P.Sections(rs);
  }

  lemma SectionLinked(log: Log, cp: nat, k: nat)
    requires log.Valid() && cp in log.written && cp in log.nodes
    requires k < |log.nodes[cp].links| && log.nodes[cp].links[k].Some?
    ensures var x := log.nodes[cp].links[k].value;
      && x in log.nodes && (x in log.written || x in log.earlier)
      && Resolved(log.nodes, cp).links[k] == To(log.nodes[x].id, log.nodes[x].location)
    ensures LinksThere(log.nodes)
  {
    hide LayoutOk, Found, Once, Mapped, UploadsOk;
  }

  // ------------------------------------------------ the end of a flush

  lemma NewestRotated(l: Layout, x: nat)
    requires NewestRecord(l, x)
    ensures NewestRecord(Rotated(l), x)
  {
  }

  lemma NowWritten(nodes: Nodes, earlier: set<nat>, written: set<nat>, l: Layout, x: nat)
    requires LogOk(nodes, earlier, written, l) && x in nodes && nodes[x].Placed() && x !in earlier
    ensures x in written
  {
    hide LayoutOk, Found, LinksBack;
  }

  lemma NotEarlier(nodes: Nodes, earlier: set<nat>, written: set<nat>, l: Layout, x: nat)
    requires LogOk(nodes, earlier, written, l) && x in nodes && !nodes[x].Placed()
    ensures x !in earlier
  {
    hide LayoutOk, Found, LinksBack;
  }

  lemma Fewer(uploads: map<nat, Upload>, s: nat)
    requires s in uploads
    ensures |uploads - {s}| < |uploads|
  {
    assert (uploads - {s}).Keys == uploads.Keys - {s};
    assert |(uploads - {s}).Keys| == |uploads - {s}| && |uploads.Keys| == |uploads|;
  }

  /** The end of a flush pass: the checkpoint record of the inode map goes out
      behind everything it leads to, the segment is handed over, and every
      upload is waited for. */
  method Publish(log: Log, cp: nat, ghost rs: seq<Imap.Range>, ghost latest: int, ghost rank: map<nat, nat>,
                 ghost within: set<nat>)
    requires log.Valid() && CheckpointNode(log.nodes, cp, rs, latest) && !log.nodes[cp].Placed()
    requires Acyclic(log.nodes, rank) && cp in within && Closed(log.nodes, within)
    modifies log, log.table
    ensures log.Valid() && Settled(log) && cp in log.written && NewestRecord(log.layout, cp)
    ensures CheckpointNode(log.nodes, cp, rs, latest) && SameNodes(old(log.nodes), log.nodes)
  {
    hide SameNodes, LogOk, NewestRecord, Rotated, Once, Mapped, UploadsOk, StoredFlags, EventsOk, Acyclic, Closed, Progress, Records,
      C.Flatten, Items, Elements, Marked, CheckpointNode;
    InNodes(log.nodes, cp, rs, latest);
    NotEarlier(log.nodes, log.earlier, log.written, log.layout, cp);
    log.Serialize(cp, rank, within);
    ProgressSame(old(log.nodes), log.nodes, old(log.written), log.written);
    NowWritten(log.nodes, log.earlier, log.written, log.layout, cp);
    NewestRotated(log.layout, cp);
    log.Flush();
    while log.uploads != map[]
      invariant log.Valid() && log.data == [] && cp in log.written && NewestRecord(log.layout, cp)
      invariant SameNodes(old(log.nodes), log.nodes)
      decreases |log.uploads|
    {
      var s :| s in log.uploads;
      ghost var before := log.uploads;
      SameMarked(old(log.nodes), log.nodes, Elements(log.uploads[s].items));
      log.UploadComplete(s, true);
      Fewer(before, s);
    }
    SameCheckpoint(old(log.nodes), log.nodes, cp, rs, latest);
  }

  /** The same items, but for where they are. */
  ghost predicate SameNodes(a: Nodes, b: Nodes) {
    a.Keys == b.Keys && forall x :: x in a ==> SameContents(a[x], b[x])
  }

  lemma InNodes(nodes: Nodes, cp: nat, rs: seq<Imap.Range>, latest: int)
    requires CheckpointNode(nodes, cp, rs, latest)
    ensures cp in nodes
  {
  }

  lemma ProgressSame(a: Nodes, b: Nodes, before: set<nat>, after: set<nat>)
    requires Progress(a, b, before, after)
    ensures SameNodes(a, b)
  {
  }

  lemma SameMarked(a: Nodes, b: Nodes, xs: set<nat>)
    requires SameNodes(a, b)
    ensures SameNodes(a, Marked(b, xs))
  {
  }

  lemma SameCheckpoint(a: Nodes, b: Nodes, cp: nat, rs: seq<Imap.Range>, latest: int)
    requires SameNodes(a, b) && CheckpointNode(a, cp, rs, latest)
    ensures CheckpointNode(b, cp, rs, latest)
  {
    hide P.RecordOf, Imap.SectionData;
  }

  // ------------------------------------------------ start-up

  /** Start-up restores the file system: after a flush has settled, the scan of
      the last segment leads to the checkpoint record, and loading it through
      the store gives back the inode map and the cleaner sequence number. */
  lemma StartupRestores(log: Log, keys: Keys, view: View, cp: nat, rs: seq<Imap.Range>, latest: int,
                        byId: map<Bytes, nat>)
    requires log.Valid() && Settled(log) && Storable(log.nodes, log.written) && Sound(keys)
    requires Downloaded(log.start, log.layout.done, keys, view) && ById(log.nodes, byId)
    requires cp in log.written && NewestRecord(log.layout, cp) && CheckpointNode(log.nodes, cp, rs, latest)
    requires SectionsHeld(log, cp, view) && Scannable(log.nodes, log.written)
    requires Imap.RangesOk(rs) && -P.INT_LIMIT <= latest < P.INT_LIMIT
    ensures var at := log.nodes[cp].location;
      && at.sequence in view && (forall s :: s in view ==> s <= at.sequence)
      && C.LastCheckpoint(view[at.sequence], 0, None) == C.Ended(Some((at.offset, at.size)))
      && ReadAt(view, at).Some?
      && var record := LoadRecord(view, ReadAt(view, at).value, byId);
         && P.HeaderOk(record) && P.AllWhole(record.sections)
         && P.LoadAll(record.sections, map[]) == Imap.MapOf(rs)
         && P.Seen(record.data, P.Word(record.data, 8), -1) == (if latest >= 0 then latest else -1)
  {
    hide Log.Valid, Settled, Storable, Scannable, Sound, Downloaded, ById, Resolved, ReadAt, P.RecordOf, LoadRecord, NewestRecord,
      C.LastCheckpoint, P.HeaderOk, P.AllWhole, P.LoadAll, Imap.MapOf, P.Seen, P.Word, Imap.RangesOk;
    RecordNotEmpty(rs, latest);
    ScanFinds(log, keys, view, cp);
    ReadsBack(log, keys, view, cp);
    RecordReads(log, keys, view, cp, rs, latest, byId);
    P.CheckpointRestores(rs, latest);
  }

  lemma RecordNotEmpty(rs: seq<Imap.Range>, latest: int)
    ensures P.RecordOf(rs, latest).data != []
  {
    hide P.Windows;
  }
}
