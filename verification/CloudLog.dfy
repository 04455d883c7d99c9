/** Writing items to the cloud log: an item goes out after everything it points
    to, once, and the record it gets holds the final locations of its links. */
module CloudLog {
  import opened Bytes
  import opened Options
  import opened CloudItem
  import Crypt = CloudCrypt
  import Imap = InodeMap

  const SEGMENT_SIZE: nat := 0x40_0000

  /** An item in memory, by identity; `cloud` and `pending` are its location
      flags for the cloud. */
  datatype Node = Node(
    kind: int, inum: nat, id: Bytes, data: Bytes, links: seq<Option<nat>>,
    location: Location, cloud: bool, pending: bool
  ) {
    predicate Placed() {
      cloud || pending
    }
  }

  type Nodes = map<nat, Node>

  ghost predicate LinksThere(nodes: Nodes) {
    forall x, k :: x in nodes && 0 <= k < |nodes[x].links| && nodes[x].links[k].Some? ==>
      nodes[x].links[k].value in nodes
  }

  /** No item reaches itself: links go down in rank. */
  ghost predicate Acyclic(nodes: Nodes, rank: map<nat, nat>) {
    && (forall x :: x in nodes ==> x in rank)
    && forall x, k :: x in nodes && 0 <= k < |nodes[x].links| && nodes[x].links[k].Some? ==>
         nodes[x].links[k].value in rank && rank[nodes[x].links[k].value] < rank[x]
  }

  ghost predicate Closed(nodes: Nodes, within: set<nat>) {
    forall x, k :: x in within && x in nodes && 0 <= k < |nodes[x].links| && nodes[x].links[k].Some? ==>
      nodes[x].links[k].value in within
  }

  ghost predicate LinksPlaced(nodes: Nodes, x: nat)
    requires x in nodes
  {
    forall k :: 0 <= k < |nodes[x].links| && nodes[x].links[k].Some? ==>
      nodes[x].links[k].value in nodes && nodes[nodes[x].links[k].value].Placed()
  }

  function LinkOf(nodes: Nodes, l: Option<nat>): (r: Link) {
    if l.None? || l.value !in nodes then Null else To(nodes[l.value].id, nodes[l.value].location)
  }

  /** The item as it is written, its links resolved. */
  function Resolved(nodes: Nodes, x: nat): (item: Item)
    requires x in nodes
  {
    var n := nodes[x];
    Item(n.kind, n.inum, n.id, n.data, seq(|n.links|, k requires 0 <= k < |n.links| => LinkOf(nodes, n.links[k])))
  }

  /** A location further back in the log. */
  predicate Before(p: Location, q: Location) {
    p.sequence < q.sequence || (p.sequence == q.sequence && p.offset + p.size <= q.offset)
  }

  datatype Written = Written(x: nat, record: Bytes)

  function Records(ws: seq<Written>): (rs: seq<Bytes>)
    ensures |rs| == |ws|
  {
    seq(|ws|, k requires 0 <= k < |ws| => ws[k].record)
  }

  function Items(ws: seq<Written>): (xs: set<nat>) {
    set k | 0 <= k < |ws| :: ws[k].x
  }

  /** The k-th record of a segment holds its item, at the item's location. */
  ghost predicate InSegment(nodes: Nodes, written: set<nat>, directory: nat, sequence: nat, ws: seq<Written>, k: nat)
    requires k < |ws|
  {
    var x := ws[k].x;
    && x in written && x in nodes
    && nodes[x].location == Location(directory, sequence, |Crypt.Flatten(Records(ws[..k]))|, |ws[k].record|)
    && IsRecord(ws[k].record, Resolved(nodes, x))
  }

  ghost predicate SegmentOk(nodes: Nodes, written: set<nat>, directory: nat, sequence: nat, ws: seq<Written>) {
    forall k :: 0 <= k < |ws| ==> InSegment(nodes, written, directory, sequence, ws, k)
  }

  /** The segment being filled and the ones handed over. */
  datatype Layout = Layout(directory: nat, sequence: nat, current: seq<Written>, done: map<nat, seq<Written>>)

  ghost predicate LayoutOk(nodes: Nodes, written: set<nat>, l: Layout) {
    && SegmentOk(nodes, written, l.directory, l.sequence, l.current)
    && forall s :: s in l.done ==>
         s < l.sequence && l.done[s] != [] && SegmentOk(nodes, written, l.directory, s, l.done[s])
  }

  predicate FoundAt(x: nat, s: nat, l: Layout) {
    if s == l.sequence then x in Items(l.current) else s in l.done && x in Items(l.done[s])
  }

  /** Every written item is in the segment its location names. */
  ghost predicate Found(nodes: Nodes, written: set<nat>, l: Layout) {
    forall x :: x in written ==> x in nodes && FoundAt(x, nodes[x].location.sequence, l)
  }

  /** Every written item's links were in the cloud before or are further back. */
  ghost predicate LinksBack(nodes: Nodes, written: set<nat>) {
    forall x, k :: x in written && x in nodes && 0 <= k < |nodes[x].links| && nodes[x].links[k].Some? ==>
      var y := nodes[x].links[k].value;
      y in nodes && nodes[y].Placed() && (y in written ==> Before(nodes[y].location, nodes[x].location))
  }

  ghost predicate FlagsOk(nodes: Nodes, earlier: set<nat>, written: set<nat>) {
    && earlier !! written
    && (forall x :: x in written ==> x in nodes)
    && forall x :: x in nodes ==> (nodes[x].Placed() <==> x in earlier || x in written)
  }

  ghost predicate Shaped(nodes: Nodes) {
    forall x :: x in nodes ==>
      |nodes[x].id| == ID_SIZE && -0x30 <= nodes[x].kind < 0x100 - 0x30 && nodes[x].inum < U64_LIMIT
  }

  ghost predicate LogOk(nodes: Nodes, earlier: set<nat>, written: set<nat>, l: Layout) {
    && LinksThere(nodes) && Shaped(nodes)
    && FlagsOk(nodes, earlier, written) && LinksBack(nodes, written)
    && LayoutOk(nodes, written, l) && Found(nodes, written, l)
  }

  // ------------------------------------------------ appending one item

  function Put(nodes: Nodes, x: nat, p: Location): (r: Nodes)
    requires x in nodes
  {
    nodes[x := nodes[x].(location := p, pending := true)]
  }

  /** Placing an item does not change what any record says whose links were
      placed already, and the item has none to itself. */
  lemma ResolvedKept(nodes: Nodes, x: nat, p: Location, y: nat)
    requires x in nodes && !nodes[x].Placed() && y in nodes && LinksPlaced(nodes, y)
    ensures Resolved(Put(nodes, x, p), y) == Resolved(nodes, y)
  {
    var a, b := Resolved(Put(nodes, x, p), y), Resolved(nodes, y);
    forall k | 0 <= k < |nodes[y].links|
      ensures a.links[k] == b.links[k]
    {
    }
    assert a.links == b.links;
  }

  lemma BackLinksPlaced(nodes: Nodes, written: set<nat>, x: nat)
    requires LinksBack(nodes, written) && x in written && x in nodes
    ensures LinksPlaced(nodes, x)
  {
  }

  lemma SegmentKept(nodes: Nodes, written: set<nat>, directory: nat, s: nat, ws: seq<Written>, x: nat, p: Location)
    requires SegmentOk(nodes, written, directory, s, ws) && LinksBack(nodes, written)
    requires x in nodes && !nodes[x].Placed() && x !in written
    ensures SegmentOk(Put(nodes, x, p), written + {x}, directory, s, ws)
  {
    hide IsRecord, Crypt.Flatten, Resolved;
    forall k | 0 <= k < |ws|
      ensures InSegment(Put(nodes, x, p), written + {x}, directory, s, ws, k)
    {
      assert InSegment(nodes, written, directory, s, ws, k);
      BackLinksPlaced(nodes, written, ws[k].x);
      ResolvedKept(nodes, x, p, ws[k].x);
    }
  }

  lemma FlattenOne(ws: seq<Written>, w: Written)
    ensures Crypt.Flatten(Records(ws + [w])) == Crypt.Flatten(Records(ws)) + w.record
  {
    assert Records(ws + [w]) == Records(ws) + [w.record];
    Crypt.FlattenSplit(Records(ws), [w.record]);
    assert Crypt.Flatten([w.record]) == w.record + [];
  }

  /** The segment being filled, with one more record. */
  lemma SegmentGrows(nodes: Nodes, written: set<nat>, directory: nat, s: nat, ws: seq<Written>, w: Written)
    requires SegmentOk(nodes, written, directory, s, ws)
    requires w.x in written && w.x in nodes && IsRecord(w.record, Resolved(nodes, w.x))
    requires nodes[w.x].location == Location(directory, s, |Crypt.Flatten(Records(ws))|, |w.record|)
    ensures SegmentOk(nodes, written, directory, s, ws + [w])
  {
    hide IsRecord, Crypt.Flatten, Resolved;
    forall k | 0 <= k < |ws + [w]|
      ensures InSegment(nodes, written, directory, s, ws + [w], k)
    {
      assert (ws + [w])[..k] == ws[..k];
      if k < |ws| {
        assert InSegment(nodes, written, directory, s, ws, k);
      } else {
        assert ws[..k] == ws;
      }
    }
  }

  /** Everything written so far ends before where the next record starts. */
  lemma EndsBefore(nodes: Nodes, written: set<nat>, l: Layout, y: nat)
    requires LayoutOk(nodes, written, l) && Found(nodes, written, l) && y in written
    ensures y in nodes
      && Before(nodes[y].location, Location(l.directory, l.sequence, |Crypt.Flatten(Records(l.current))|, 0))
  {
    hide IsRecord, Resolved, Crypt.Flatten;
    var s := nodes[y].location.sequence;
    if s == l.sequence {
      var k :| 0 <= k < |l.current| && l.current[k].x == y;
      assert InSegment(nodes, written, l.directory, s, l.current, k);
      var ws := l.current;
      assert Records(ws) == Records(ws[..k]) + [ws[k].record] + Records(ws[k + 1..]);
      Crypt.FlattenSplit(Records(ws[..k]) + [ws[k].record], Records(ws[k + 1..]));
      assert ws[..k] + [ws[k]] == ws[..k + 1];
      assert Records(ws[..k + 1]) == Records(ws[..k]) + [ws[k].record];
      FlattenOne(ws[..k], ws[k]);
    } else {
      assert s in l.done;
    }
  }

  function NextLocation(l: Layout, size: nat): (p: Location) {
    Location(l.directory, l.sequence, |Crypt.Flatten(Records(l.current))|, size)
  }

  lemma ItemsGrow(ws: seq<Written>, w: Written)
    ensures Items(ws + [w]) == Items(ws) + {w.x}
  {
    assert forall k :: 0 <= k < |ws| ==> (ws + [w])[k] == ws[k];
    assert (ws + [w])[|ws|] == w;
  }

  lemma LayoutGrows(nodes: Nodes, written: set<nat>, l: Layout, x: nat, record: Bytes)
    requires LayoutOk(nodes, written, l) && LinksBack(nodes, written)
    requires x in nodes && !nodes[x].Placed() && x !in written && LinksPlaced(nodes, x)
    requires IsRecord(record, Resolved(nodes, x))
    ensures LayoutOk(Put(nodes, x, NextLocation(l, |record|)), written + {x},
                     l.(current := l.current + [Written(x, record)]))
  {
    hide IsRecord, Resolved, Crypt.Flatten, SegmentOk, LinksPlaced, LinksBack;
    var p := NextLocation(l, |record|);
    SegmentKept(nodes, written, l.directory, l.sequence, l.current, x, p);
    ResolvedKept(nodes, x, p, x);
    SegmentGrows(Put(nodes, x, p), written + {x}, l.directory, l.sequence, l.current, Written(x, record));
    forall s | s in l.done
      ensures SegmentOk(Put(nodes, x, p), written + {x}, l.directory, s, l.done[s])
    {
      SegmentKept(nodes, written, l.directory, s, l.done[s], x, p);
    }
  }

  lemma FoundGrows(nodes: Nodes, written: set<nat>, l: Layout, x: nat, record: Bytes)
    requires Found(nodes, written, l) && x in nodes && x !in written
    ensures Found(Put(nodes, x, NextLocation(l, |record|)), written + {x},
                  l.(current := l.current + [Written(x, record)]))
  {
    ItemsGrow(l.current, Written(x, record));
    hide Items, Crypt.Flatten;
  }

  lemma LinksBackGrow(nodes: Nodes, written: set<nat>, l: Layout, x: nat, size: nat)
    requires LinksBack(nodes, written) && LayoutOk(nodes, written, l) && Found(nodes, written, l)
    requires x in nodes && !nodes[x].Placed() && x !in written && LinksPlaced(nodes, x)
    ensures LinksBack(Put(nodes, x, NextLocation(l, size)), written + {x})
  {
    var p := NextLocation(l, size);
    var nodes' := Put(nodes, x, p);
    forall y | y in written
      ensures y in nodes && Before(nodes[y].location, p)
    {
      EndsBefore(nodes, written, l, y);
    }
    hide LayoutOk, Found, Crypt.Flatten, NextLocation;
  }

  /** Appending an item whose links are placed keeps the log in order. */
  lemma Appended(nodes: Nodes, earlier: set<nat>, written: set<nat>, l: Layout, x: nat, record: Bytes)
    requires LogOk(nodes, earlier, written, l)
    requires x in nodes && !nodes[x].Placed() && LinksPlaced(nodes, x)
    requires IsRecord(record, Resolved(nodes, x))
    ensures LogOk(Put(nodes, x, NextLocation(l, |record|)), earlier, written + {x},
                  l.(current := l.current + [Written(x, record)]))
  {
    hide IsRecord, Resolved, Crypt.Flatten, LayoutOk, Found, LinksBack, LinksPlaced, NextLocation;
    LayoutGrows(nodes, written, l, x, record);
    FoundGrows(nodes, written, l, x, record);
    LinksBackGrow(nodes, written, l, x, |record|);
  }

  // ------------------------------------------------ handing a segment over

  lemma HandedOver(nodes: Nodes, earlier: set<nat>, written: set<nat>, l: Layout)
    requires LogOk(nodes, earlier, written, l) && l.current != []
    ensures LogOk(nodes, earlier, written,
                  Layout(l.directory, l.sequence + 1, [], l.done[l.sequence := l.current]))
  {
    hide LinksThere, Shaped, FlagsOk, LinksBack, SegmentOk;
    var l' := Layout(l.directory, l.sequence + 1, [], l.done[l.sequence := l.current]);
    assert SegmentOk(nodes, written, l.directory, l.sequence + 1, []) by { EmptySegment(nodes, written, l'); }
    hide Items;
    assert LayoutOk(nodes, written, l');
    forall x | x in written
      ensures x in nodes && FoundAt(x, nodes[x].location.sequence, l')
    {
      assert FoundAt(x, nodes[x].location.sequence, l);
    }
  }

  lemma EmptySegment(nodes: Nodes, written: set<nat>, l: Layout)
    ensures SegmentOk(nodes, written, l.directory, l.sequence, [])
  {
  }

  // ------------------------------------------------ an upload completing

  /** Items marked as stored. */
  function Marked(nodes: Nodes, xs: set<nat>): (r: Nodes)
    ensures r.Keys == nodes.Keys
  {
    map x | x in nodes :: if x in xs then nodes[x].(pending := false, cloud := true) else nodes[x]
  }

  lemma MarkedResolved(nodes: Nodes, xs: set<nat>, x: nat)
    requires x in nodes
    ensures Resolved(Marked(nodes, xs), x) == Resolved(nodes, x)
  {
    var a, b := Resolved(Marked(nodes, xs), x), Resolved(nodes, x);
    assert a.links == b.links;
  }

  lemma MarkedSegment(nodes: Nodes, written: set<nat>, xs: set<nat>, directory: nat, s: nat, ws: seq<Written>)
    requires SegmentOk(nodes, written, directory, s, ws)
    ensures SegmentOk(Marked(nodes, xs), written, directory, s, ws)
  {
    hide IsRecord, Crypt.Flatten, Resolved;
    forall k | 0 <= k < |ws|
      ensures InSegment(Marked(nodes, xs), written, directory, s, ws, k)
    {
      assert InSegment(nodes, written, directory, s, ws, k);
      MarkedResolved(nodes, xs, ws[k].x);
    }
  }

  lemma MarkedOk(nodes: Nodes, earlier: set<nat>, written: set<nat>, l: Layout, xs: set<nat>)
    requires LogOk(nodes, earlier, written, l) && xs <= written
    ensures LogOk(Marked(nodes, xs), earlier, written, l)
  {
    hide SegmentOk, Items;
    MarkedSegment(nodes, written, xs, l.directory, l.sequence, l.current);
    forall s | s in l.done
      ensures SegmentOk(Marked(nodes, xs), written, l.directory, s, l.done[s])
    {
      MarkedSegment(nodes, written, xs, l.directory, s, l.done[s]);
    }
    MarkedLinks(nodes, written, xs);
    hide LinksBack;
  }

  lemma MarkedLinks(nodes: Nodes, written: set<nat>, xs: set<nat>)
    requires LinksBack(nodes, written) && LinksThere(nodes)
    ensures LinksBack(Marked(nodes, xs), written) && LinksThere(Marked(nodes, xs))
  {
  }

  // ------------------------------------------------ runs of the log

  /** Between two points nothing but the newly written items changed, and those
      only in their location and flags. */
  ghost predicate Progress(a: Nodes, b: Nodes, before: set<nat>, after: set<nat>) {
    && a.Keys == b.Keys && before <= after
    && (forall y :: y in a && (y !in after - before || a[y].Placed()) ==> b[y] == a[y])
    && (forall y :: y in a ==> SameContents(a[y], b[y]))
  }

  predicate SameContents(a: Node, b: Node) {
    a.kind == b.kind && a.inum == b.inum && a.id == b.id && a.data == b.data && a.links == b.links
  }

  lemma ProgressTwice(a: Nodes, b: Nodes, c: Nodes, before: set<nat>, mid: set<nat>, after: set<nat>)
    requires Progress(a, b, before, mid) && Progress(b, c, mid, after)
    ensures Progress(a, c, before, after)
  {
  }

  lemma ProgressGraph(a: Nodes, b: Nodes, before: set<nat>, after: set<nat>, rank: map<nat, nat>, within: set<nat>)
    requires Progress(a, b, before, after) && Acyclic(a, rank) && Closed(a, within)
    ensures Acyclic(b, rank) && Closed(b, within)
  {
    assert forall y :: y in a ==> SameContents(a[y], b[y]);
  }

  ghost function Below(within: set<nat>, rank: map<nat, nat>, x: nat): (r: set<nat>)
    requires x in rank
    ensures r <= within
  {
    set y | y in within && y in rank && rank[y] < rank[x]
  }

  lemma Ranked(nodes: Nodes, rank: map<nat, nat>, x: nat)
    requires Acyclic(nodes, rank) && x in nodes
    ensures x in rank
  {
  }

  lemma BelowClosed(nodes: Nodes, within: set<nat>, rank: map<nat, nat>, x: nat)
    requires Acyclic(nodes, rank) && Closed(nodes, within) && x in nodes && x in within
    ensures Closed(nodes, Below(within, rank, x)) && x !in Below(within, rank, x)
    ensures forall k :: 0 <= k < |nodes[x].links| && nodes[x].links[k].Some? ==>
      nodes[x].links[k].value in Below(within, rank, x)
  {
  }

  ghost predicate AllPlaced(nodes: Nodes, links: seq<Option<nat>>, n: nat)
    requires n <= |links|
  {
    forall k :: 0 <= k < n && links[k].Some? ==> links[k].value in nodes && nodes[links[k].value].Placed()
  }

  lemma NoProgress(nodes: Nodes, written: set<nat>)
    ensures Progress(nodes, nodes, written, written)
  {
  }

  lemma LinkReady(a: Nodes, b: Nodes, before: set<nat>, after: set<nat>, rank: map<nat, nat>, within: set<nat>,
                  x: nat, i: nat)
    requires Progress(a, b, before, after) && LinksThere(a) && Acyclic(a, rank) && Closed(a, within)
    requires x in a && x in within && i < |a[x].links| && a[x].links[i].Some?
    ensures var y := a[x].links[i].value;
      && y in b && y in rank && rank[y] < rank[x] && y in Below(within, rank, x)
      && Acyclic(b, rank) && Closed(b, Below(within, rank, x))
  {
    BelowClosed(a, within, rank, x);
    ProgressGraph(a, b, before, after, rank, Below(within, rank, x));
  }

  lemma NonePlaced(nodes: Nodes, links: seq<Option<nat>>)
    ensures AllPlaced(nodes, links, 0)
  {
  }

  lemma NullLink(nodes: Nodes, links: seq<Option<nat>>, n: nat)
    requires n < |links| && AllPlaced(nodes, links, n) && links[n].None?
    ensures AllPlaced(nodes, links, n + 1)
  {
  }

  lemma PlacedStays(a: Nodes, b: Nodes, before: set<nat>, after: set<nat>, links: seq<Option<nat>>, n: nat)
    requires Progress(a, b, before, after) && n < |links| && AllPlaced(a, links, n)
    requires links[n].Some? && links[n].value in b && b[links[n].value].Placed()
    ensures AllPlaced(b, links, n + 1)
  {
  }

  /** Once its links are placed an item is ready, and still unplaced itself. */
  lemma LinksDone(a: Nodes, b: Nodes, before: set<nat>, after: set<nat>, x: nat)
    requires Progress(a, b, before, after) && x in a && x !in after - before
    requires AllPlaced(b, a[x].links, |a[x].links|)
    ensures x in b && b[x] == a[x] && LinksPlaced(b, x)
  {
  }

  /** What was written, in order. */
  datatype Event = Event(x: nat, kind: int, inum: nat)

  /** The inode map after a run: each inode number points at the inode item
      written last. */
  function Mapped(m: map<nat, Imap.ItemRef>, history: seq<Event>): (r: map<nat, Imap.ItemRef>) {
    if history == [] then m
    else
      var e := history[|history| - 1];
      var before := Mapped(m, history[..|history| - 1]);
      if e.kind == INODE then before[e.inum := Some(e.x)] else before
  }

  /** Events say what their items are. */
  ghost predicate EventsOk(history: seq<Event>, nodes: Nodes) {
    forall i :: 0 <= i < |history| ==>
      history[i].x in nodes && history[i].kind == nodes[history[i].x].kind && history[i].inum == nodes[history[i].x].inum
  }

  lemma EventsStay(history: seq<Event>, a: Nodes, b: Nodes, before: set<nat>, after: set<nat>)
    requires EventsOk(history, a) && Progress(a, b, before, after)
    ensures EventsOk(history, b)
  {
    assert forall y :: y in a ==> SameContents(a[y], b[y]);
  }

  /** The last inode item written under an inode number. */
  function NewestInode(history: seq<Event>, inum: nat): (r: Option<nat>) {
    if history == [] then None
    else
      var e := history[|history| - 1];
      if e.kind == INODE && e.inum == inum then Some(e.x) else NewestInode(history[..|history| - 1], inum)
  }

  /** Whatever order items are written in, the inode map ends up at the newest
      item of every inode, and is as it was for all others. */
  lemma {:induction false} MappedNewest(m: map<nat, Imap.ItemRef>, history: seq<Event>, inum: nat)
    ensures match NewestInode(history, inum)
      case Some(x) => inum in Mapped(m, history) && Mapped(m, history)[inum] == Some(x)
      case None => (inum in Mapped(m, history) <==> inum in m) && (inum in m ==> Mapped(m, history)[inum] == m[inum])
  {
    if history != [] {
      MappedNewest(m, history[..|history| - 1], inum);
    }
  }

  /** Each item once, and exactly the written ones. */
  ghost predicate Once(history: seq<Event>, written: set<nat>) {
    && (forall i, j :: 0 <= i < j < |history| ==> history[i].x != history[j].x)
    && (forall i :: 0 <= i < |history| ==> history[i].x in written)
    && (forall x :: x in written ==> exists i :: 0 <= i < |history| && history[i].x == x)
  }

  lemma OnceMore(history: seq<Event>, written: set<nat>, e: Event)
    requires Once(history, written) && e.x !in written
    ensures Once(history + [e], written + {e.x})
  {
    var h := history + [e];
    forall x | x in written + {e.x}
      ensures exists i :: 0 <= i < |h| && h[i].x == x
    {
      if x in written {
        var i :| 0 <= i < |history| && history[i].x == x;
        assert h[i].x == x;
      } else {
        assert h[|history|].x == x;
      }
    }
  }

  datatype Upload = Upload(data: Bytes, items: seq<nat>)

  ghost predicate UploadsOk(uploads: map<nat, Upload>, stored: map<nat, Bytes>, done: map<nat, seq<Written>>) {
    && uploads.Keys !! stored.Keys && uploads.Keys + stored.Keys == done.Keys
    && (forall s :: s in uploads ==>
          uploads[s].data == Crypt.Flatten(Records(done[s])) && Elements(uploads[s].items) == Items(done[s]))
    && (forall s :: s in stored ==> stored[s] == Crypt.Flatten(Records(done[s])))
  }

  lemma UploadAdded(uploads: map<nat, Upload>, stored: map<nat, Bytes>, done: map<nat, seq<Written>>,
                    s: nat, up: Upload, ws: seq<Written>)
    requires UploadsOk(uploads, stored, done) && s !in done
    requires up.data == Crypt.Flatten(Records(ws)) && Elements(up.items) == Items(ws)
    ensures s !in uploads && UploadsOk(uploads[s := up], stored, done[s := ws])
  {
    hide Crypt.Flatten, Records, Elements, Items;
  }

  lemma UploadMoved(uploads: map<nat, Upload>, stored: map<nat, Bytes>, done: map<nat, seq<Written>>, s: nat)
    requires UploadsOk(uploads, stored, done) && s in uploads
    ensures s in done && Elements(uploads[s].items) == Items(done[s])
    ensures UploadsOk(uploads - {s}, stored[s := uploads[s].data], done)
  {
    hide Crypt.Flatten, Records, Elements, Items;
  }

  function Elements(xs: seq<nat>): (r: set<nat>) {
    set x | x in xs
  }

  /** A written item is marked as stored exactly when its segment is. */
  ghost predicate StoredFlags(nodes: Nodes, written: set<nat>, stored: map<nat, Bytes>) {
    forall x :: x in written && x in nodes ==> (nodes[x].cloud <==> nodes[x].location.sequence in stored)
  }

  /** Every segment of this log is numbered from its first one up. */
  ghost predicate From(start: nat, l: Layout) {
    start <= l.sequence && forall s :: s in l.done ==> start <= s
  }

  /** The layout once the segment being filled has been handed over. */
  function Rotated(l: Layout): (r: Layout) {
    if l.current == [] then l
    else Layout(l.directory, l.sequence + 1, [], l.done[l.sequence := l.current])
  }

  /** How far the segment being filled grows: segments are handed over when they
      are longer than the limit and, with aggregation, only then; without it
      after every item. */
  ghost predicate Filled(aggregate: bool, data: Bytes, data': Bytes, ups: map<nat, Upload>, ups': map<nat, Upload>) {
    && (|data| <= SEGMENT_SIZE ==> |data'| <= SEGMENT_SIZE)
    && (!aggregate && data == [] ==> data' == [])
    && (forall s :: s in ups ==> s in ups' && ups'[s] == ups[s])
    && (aggregate ==> forall s :: s in ups' && s !in ups ==> |ups'[s].data| > SEGMENT_SIZE)
  }

  predicate EndsWith(ws: seq<Written>, x: nat) {
    ws != [] && ws[|ws| - 1].x == x
  }

  /** The newest record is this item's. */
  predicate NewestRecord(l: Layout, x: nat) {
    if l.current != [] then EndsWith(l.current, x)
    else l.sequence > 0 && l.sequence - 1 in l.done && EndsWith(l.done[l.sequence - 1], x)
  }

  lemma NewestKept(l: Layout, x: nat)
    requires EndsWith(l.current, x)
    ensures NewestRecord(l, x) && NewestRecord(Rotated(l), x)
  {
  }

  lemma EmptyData(nodes: Nodes, earlier: set<nat>, written: set<nat>, l: Layout)
    requires LogOk(nodes, earlier, written, l)
    ensures Crypt.Flatten(Records(l.current)) == [] <==> l.current == []
  {
    if l.current != [] {
      assert InSegment(nodes, written, l.directory, l.sequence, l.current, 0);
      assert Records(l.current)[0] == l.current[0].record;
    }
  }

  lemma NoRecords()
    ensures Crypt.Flatten(Records([])) == [] && Items([]) == {} && Elements([]) == {}
  {
  }

  lemma DoneFresh(nodes: Nodes, earlier: set<nat>, written: set<nat>, l: Layout)
    requires LogOk(nodes, earlier, written, l)
    ensures l.sequence !in l.done
  {
  }

  lemma ResolvedShaped(nodes: Nodes, earlier: set<nat>, written: set<nat>, l: Layout, x: nat)
    requires LogOk(nodes, earlier, written, l) && x in nodes
    ensures Resolved(nodes, x).Shaped() && nodes[x].inum < U64_LIMIT
    ensures !nodes[x].Placed() ==> x !in written
  {
    hide LayoutOk, Found, LinksBack;
  }

  lemma NewRecord(magic: Bytes, junk: Bytes, item: Item)
    requires magic == MAGIC && |junk| == 48 && item.Shaped()
    ensures IsRecord(magic + junk + Body(item), item)
  {
    hide Body;
    assert (magic + junk + Body(item))[52..] == Body(item);
  }

  lemma MappedMore(m: map<nat, Imap.ItemRef>, history: seq<Event>, e: Event)
    ensures Mapped(m, history + [e])
      == if e.kind == INODE then Mapped(m, history)[e.inum := Some(e.x)] else Mapped(m, history)
  {
    assert (history + [e])[..|history|] == history;
  }

  lemma FlagsAppended(nodes: Nodes, written: set<nat>, stored: map<nat, Bytes>, x: nat, l: Layout, size: nat)
    requires StoredFlags(nodes, written, stored) && x in nodes && !nodes[x].Placed() && l.sequence !in stored
    ensures StoredFlags(Put(nodes, x, NextLocation(l, size)), written + {x}, stored)
  {
    hide Crypt.Flatten;
  }

  class Log {
    var nodes: Nodes
    var data: Bytes
    const directory: nat
    var sequence: nat
    var writeback: seq<nat>
    var uploads: map<nat, Upload>
    var stored: map<nat, Bytes>
    const aggregate: bool
    const table: Imap.InodeTable

    ghost const earlier: set<nat>
    ghost const start: nat
    ghost const first: map<nat, Imap.ItemRef>
    ghost var written: set<nat>
    ghost var layout: Layout
    ghost var history: seq<Event>

    ghost predicate Valid()
      reads this, table
    {
      && table.Valid() && table.Map() == Mapped(first, history)
      && LogOk(nodes, earlier, written, layout) && From(start, layout)
      && layout.directory == directory && layout.sequence == sequence
      && data == Crypt.Flatten(Records(layout.current)) && Elements(writeback) == Items(layout.current)
      && UploadsOk(uploads, stored, layout.done) && StoredFlags(nodes, written, stored)
      && Once(history, written) && EventsOk(history, nodes)
    }

    /** A log that starts a new segment behind those already in the cloud. */
    constructor (nodes: Nodes, directory: nat, sequence: nat, aggregate: bool, table: Imap.InodeTable)
      requires table.Valid() && LinksThere(nodes) && Shaped(nodes)
      ensures Valid() && this.nodes == nodes && this.table == table && written == {} && history == []
      ensures this.sequence == sequence && this.directory == directory && stored == map[] && start == sequence
      ensures this.aggregate == aggregate && data == [] && uploads == map[]
      ensures forall x :: x in earlier <==> x in nodes && nodes[x].Placed()
    {
      this.nodes, this.directory, this.sequence, this.aggregate := nodes, directory, sequence, aggregate;
      this.table := table;
      data, writeback, uploads, stored := [], [], map[], map[];
      earlier := set x | x in nodes && nodes[x].Placed();
      start, first := sequence, table.Map();
      written, history := {}, [];
      layout := Layout(directory, sequence, [], map[]);
    }

    /** Hand the segment being filled over to be uploaded. */
    method Flush()
      requires Valid()
      modifies this
      ensures Valid() && data == [] && layout.current == []
      ensures nodes == old(nodes) && written == old(written) && history == old(history) && stored == old(stored)
      ensures layout == Rotated(old(layout))
      ensures old(data) == [] ==> uploads == old(uploads)
      ensures old(data) != [] ==>
        old(sequence) !in old(uploads) && uploads == old(uploads)[old(sequence) := Upload(old(data), old(writeback))]
    {
      hide LogOk, Records, Crypt.Flatten, Items, Once, StoredFlags, Mapped, Elements, UploadsOk, EventsOk;
      if data == [] {
        EmptyData(nodes, earlier, written, layout);
        return;
      }
      assert layout.current != [] by { NoRecords(); }
      HandedOver(nodes, earlier, written, layout);
      DoneFresh(nodes, earlier, written, layout);
      UploadAdded(uploads, stored, layout.done, sequence, Upload(data, writeback), layout.current);
      uploads := uploads[sequence := Upload(data, writeback)];
      layout := Layout(layout.directory, layout.sequence + 1, [], layout.done[layout.sequence := layout.current]);
      sequence := sequence + 1;
      writeback := [];
      data := [];
      NoRecords();
    }

    lemma Linked()
      requires Valid()
      ensures LinksThere(nodes)
    {
    }

    /** Write one item whose links are placed: its header, then its data. */
    method Append(x: nat)
      requires Valid() && x in nodes && !nodes[x].Placed() && LinksPlaced(nodes, x)
      modifies this, table
      ensures Valid() && x in nodes && nodes[x].Placed()
      ensures Progress(old(nodes), nodes, old(written), written) && written == old(written) + {x}
      ensures history == old(history) + [Event(x, nodes[x].kind, nodes[x].inum)] && stored == old(stored)
      ensures EndsWith(layout.current, x) && old(data) <= data && uploads == old(uploads)
    {
      hide LogOk, Records, Crypt.Flatten, Items, Once, StoredFlags, Mapped, Elements, IsRecord, Resolved,
        LinksPlaced, UploadsOk, Progress, EventsOk;
      var node := nodes[x];
      var record := Format(x);
      var e := Event(x, node.kind, node.inum);
      AppendFacts(x, record, e);
      nodes := Put(nodes, x, Location(directory, sequence, |data|, |record|));
      data := data + record;
      if node.kind == INODE {
        table.Update(node.inum, Some(x));
      }
      writeback := [x] + writeback;
      written := written + {x};
      layout := layout.(current := layout.current + [Written(x, record)]);
      history := history + [e];
    }

    /** The record of an item.  The program leaves the authenticator and the
        counter block of the header as they are in memory; the encryption pass
        fills them. */
    method Format(x: nat) returns (record: Bytes)
      requires Valid() && x in nodes
      ensures IsRecord(record, Resolved(nodes, x)) && nodes[x].inum < U64_LIMIT
      ensures !nodes[x].Placed() ==> x !in written
    {
      hide LogOk, Resolved, Body, IsRecord;
      ResolvedShaped(nodes, earlier, written, layout, x);
      var item := Resolved(nodes, x);
      assert |Zeros(48)| == 48;
      var junk: Bytes :| |junk| == 48;
      record := MAGIC + junk + Body(item);
      NewRecord(MAGIC, junk, item);
    }

    lemma AppendFacts(x: nat, record: Bytes, e: Event)
      requires Valid() && x in nodes && !nodes[x].Placed() && LinksPlaced(nodes, x) && x !in written
      requires IsRecord(record, Resolved(nodes, x)) && e == Event(x, nodes[x].kind, nodes[x].inum)
      ensures var l := layout.(current := layout.current + [Written(x, record)]);
        var nodes' := Put(nodes, x, NextLocation(layout, |record|));
        && LogOk(nodes', earlier, written + {x}, l)
        && data + record == Crypt.Flatten(Records(l.current))
        && Elements([x] + writeback) == Items(l.current)
        && StoredFlags(nodes', written + {x}, stored)
        && Once(history + [e], written + {x})
        && EventsOk(history + [e], nodes')
        && Progress(nodes, nodes', written, written + {x})
      ensures Mapped(first, history + [e])
        == if e.kind == INODE then Mapped(first, history)[e.inum := Some(x)] else Mapped(first, history)
    {
      hide LogOk, Records, Crypt.Flatten, Items, Once, StoredFlags, Mapped, IsRecord, Resolved, LinksPlaced;
      Appended(nodes, earlier, written, layout, x, record);
      FlattenOne(layout.current, Written(x, record));
      ItemsGrow(layout.current, Written(x, record));
      DoneFresh(nodes, earlier, written, layout);
      FlagsAppended(nodes, written, stored, x, layout, |record|);
      OnceMore(history, written, e);
      EventsStay(history, nodes, Put(nodes, x, NextLocation(layout, |record|)), written, written + {x});
      MappedMore(first, history, e);
    }

    /** Write an item and everything it points to that is not in the cloud.
        `within` is any set that holds the item and all its links lead to:
        nothing outside it is written. */
    method Serialize(x: nat, ghost rank: map<nat, nat>, ghost within: set<nat>)
      requires Valid() && x in nodes && Acyclic(nodes, rank) && x in within && Closed(nodes, within)
      modifies this, table
      ensures Valid() && Progress(old(nodes), nodes, old(written), written)
      ensures x in nodes && nodes[x].Placed()
      ensures written - old(written) <= within
      ensures old(history) <= history && stored == old(stored)
      ensures Filled(aggregate, old(data), data, old(uploads), uploads)
      ensures !old(nodes)[x].Placed() ==> history != [] && history[|history| - 1].x == x && NewestRecord(layout, x)
      decreases rank[x]
    {
      hide Log.Valid, Progress, Acyclic, Closed, Below, LinksPlaced, LinksThere, AllPlaced, NewestRecord, Rotated,
        EndsWith;
      Linked();
      Ranked(nodes, rank, x);
      if nodes[x].Placed() {
        NoProgress(nodes, written);
        return;
      }
      var links := nodes[x].links;
      ghost var below := Below(within, rank, x);
      BelowClosed(nodes, within, rank, x);
      NoProgress(nodes, written);
      NonePlaced(nodes, links);
      var i := 0;
      while i < |links|
        invariant i <= |links| && Valid() && Progress(old(nodes), nodes, old(written), written)
        invariant written - old(written) <= below && old(history) <= history && stored == old(stored)
        invariant AllPlaced(nodes, links, i) && Filled(aggregate, old(data), data, old(uploads), uploads)
      {
        if links[i].Some? {
          ghost var mid, w := nodes, written;
          LinkReady(old(nodes), nodes, old(written), written, rank, within, x, i);
          Serialize(links[i].value, rank, below);
          ProgressTwice(old(nodes), mid, nodes, old(written), w, written);
          PlacedStays(mid, nodes, w, written, links, i);
        } else {
          NullLink(nodes, links, i);
        }
        i := i + 1;
      }
      ghost var mid, w := nodes, written;
      LinksDone(old(nodes), nodes, old(written), written, x);
      Append(x);
      ProgressTwice(old(nodes), mid, nodes, old(written), w, written);
      NewestKept(layout, x);
      if |data| > SEGMENT_SIZE || !aggregate {
        Flush();
      }
    }

    /** An upload has ended.  If it failed the same segment is submitted again;
        if not, its items are marked one by one. */
    method UploadComplete(s: nat, succeeded: bool)
      requires Valid() && s in uploads
      modifies this
      ensures Valid() && written == old(written) && history == old(history) && layout == old(layout)
      ensures !succeeded ==> nodes == old(nodes) && uploads == old(uploads) && stored == old(stored)
      ensures succeeded ==> stored == old(stored)[s := old(uploads)[s].data] && uploads == old(uploads) - {s}
      ensures succeeded ==> nodes == Marked(old(nodes), Elements(old(uploads)[s].items))
    {
      hide LogOk, Records, Crypt.Flatten, Items, Once, StoredFlags, Mapped, Marked, Elements, UploadsOk, EventsOk;
      if !succeeded {
        return;
      }
      UploadMoved(uploads, stored, layout.done, s);
      var marked := MarkAll(nodes, uploads[s].items);
      SegmentItems(nodes, earlier, written, layout, s);
      MarkedOk(nodes, earlier, written, layout, Items(layout.done[s]));
      StoredMarked(nodes, earlier, written, layout, stored, s, uploads[s].data);
      EventsMarked(history, nodes, Items(layout.done[s]));
      nodes := marked;
      stored := stored[s := uploads[s].data];
      uploads := uploads - {s};
    }
  }

  method MarkAll(nodes: Nodes, items: seq<nat>) returns (marked: Nodes)
    ensures marked == Marked(nodes, Elements(items))
  {
    hide Marked, Elements;
    MarkedNone(nodes);
    assert items[..0] == [];
    marked := nodes;
    for i := 0 to |items|
      invariant marked == Marked(nodes, Elements(items[..i]))
    {
      MarkedOne(nodes, items, i);
      var x := items[i];
      if x in marked {
        marked := marked[x := marked[x].(pending := false, cloud := true)];
      }
    }
    assert items[..|items|] == items;
  }

  lemma EventsMarked(history: seq<Event>, nodes: Nodes, xs: set<nat>)
    requires EventsOk(history, nodes)
    ensures EventsOk(history, Marked(nodes, xs))
  {
  }

  lemma MarkedNone(nodes: Nodes)
    ensures Marked(nodes, Elements([])) == nodes
  {
  }

  lemma MarkedOne(nodes: Nodes, items: seq<nat>, i: nat)
    requires i < |items|
    ensures var m := Marked(nodes, Elements(items[..i]));
      var x := items[i];
      Marked(nodes, Elements(items[..i + 1])) ==
      if x in m then m[x := m[x].(pending := false, cloud := true)] else m
  {
    assert Elements(items[..i + 1]) == Elements(items[..i]) + {items[i]};
  }

  lemma SegmentItems(nodes: Nodes, earlier: set<nat>, written: set<nat>, l: Layout, s: nat)
    requires LogOk(nodes, earlier, written, l) && s in l.done
    ensures Items(l.done[s]) <= written
    ensures forall x :: x in written && x in nodes ==>
      (nodes[x].location.sequence == s <==> x in Items(l.done[s]))
  {
    hide IsRecord, Resolved, Crypt.Flatten, LinksBack;
    var ws := l.done[s];
    forall x | x in Items(ws)
      ensures x in written && x in nodes && nodes[x].location.sequence == s
    {
      var k :| 0 <= k < |ws| && ws[k].x == x;
      assert InSegment(nodes, written, l.directory, s, ws, k);
    }
  }

  lemma StoredMarked(nodes: Nodes, earlier: set<nat>, written: set<nat>, l: Layout,
                     stored: map<nat, Bytes>, s: nat, bytes: Bytes)
    requires LogOk(nodes, earlier, written, l) && StoredFlags(nodes, written, stored) && s in l.done
    ensures StoredFlags(Marked(nodes, Items(l.done[s])), written, stored[s := bytes])
  {
    hide LogOk, Items;
    SegmentItems(nodes, earlier, written, l, s);
  }

  // ------------------------------------------------ what the cloud holds

  /** Nothing is waiting to be uploaded. */
  ghost predicate Settled(log: Log)
    reads log
  {
    log.uploads == map[] && log.data == []
  }

  /** Once the log has settled every written item is in the cloud, at its
      location, and reads back with its links at their locations. */
  lemma SettledStored(log: Log, x: nat)
    requires log.Valid() && Settled(log) && x in log.written && x in log.nodes
    requires Resolved(log.nodes, x).Fits() && Named(Resolved(log.nodes, x).links)
    ensures var p := log.nodes[x].location;
      && log.nodes[x].cloud && p.sequence in log.stored && p.offset + p.size <= |log.stored[p.sequence]|
      && ReadItem(log.stored[p.sequence][p.offset..]) == Some(Resolved(log.nodes, x))
  {
    hide IsRecord, Resolved, Crypt.Flatten, ReadItem, Named, LinksBack, Once, Mapped, Item.Fits;
    var l := log.layout;
    EmptyData(log.nodes, log.earlier, log.written, l);
    var s := log.nodes[x].location.sequence;
    assert FoundAt(x, s, l);
    assert s in l.done;
    var ws := l.done[s];
    var k :| 0 <= k < |ws| && ws[k].x == x;
    assert InSegment(log.nodes, log.written, l.directory, s, ws, k);
    RecordInSegment(ws, k, Resolved(log.nodes, x));
  }

  lemma RecordInSegment(ws: seq<Written>, k: nat, item: Item)
    requires k < |ws| && IsRecord(ws[k].record, item) && item.Fits() && Named(item.links)
    ensures var at := |Crypt.Flatten(Records(ws[..k]))|;
      var s := Crypt.Flatten(Records(ws));
      at + |ws[k].record| <= |s| && ReadItem(s[at..]) == Some(item)
  {
    hide IsRecord, ReadItem, Named, Item.Fits, Crypt.Flatten;
    var a, r, b := Records(ws[..k]), ws[k].record, Records(ws[k + 1..]);
    assert Records(ws) == a + [r] + b;
    Crypt.FlattenSplit(a + [r], b);
    FlattenOne(ws[..k], ws[k]);
    assert Records(ws[..k] + [ws[k]]) == a + [r];
    var s := Crypt.Flatten(Records(ws));
    assert s[|Crypt.Flatten(a)|..] == r + Crypt.Flatten(b);
    ItemRead(r, item, Crypt.Flatten(b));
  }

  /** Each step of a path follows a link. */
  ghost predicate Follows(nodes: Nodes, path: seq<nat>) {
    forall i :: 0 <= i < |path| - 1 ==> FollowsAt(nodes, path, i)
  }

  ghost predicate FollowsAt(nodes: Nodes, path: seq<nat>, i: nat)
    requires i + 1 < |path|
  {
    path[i] in nodes && Some(path[i + 1]) in nodes[path[i]].links
  }

  /** Everything a placed item leads to is placed too, as long as that was so
      of the items that were in the cloud to begin with; once the log has
      settled nothing is reachable from a checkpoint that is not stored. */
  lemma {:induction false} ReachableStored(log: Log, path: seq<nat>)
    requires log.Valid() && Settled(log) && Closed(log.nodes, log.earlier)
    requires path != [] && path[0] in log.nodes && log.nodes[path[0]].Placed() && Follows(log.nodes, path)
    ensures var y := path[|path| - 1];
      y in log.earlier || (y in log.written && y in log.nodes && log.nodes[y].location.sequence in log.stored)
  {
    hide IsRecord, Resolved, Crypt.Flatten, Once, Mapped;
    var n := |path| - 1;
    var nodes := log.nodes;
    if n == 0 {
      StoredIfWritten(log, path[0]);
    } else {
      forall i | 0 <= i < n - 1
        ensures FollowsAt(nodes, path[..n], i)
      {
        assert FollowsAt(nodes, path, i);
      }
      ReachableStored(log, path[..n]);
      var x := path[n - 1];
      assert FollowsAt(nodes, path, n - 1);
      var k :| 0 <= k < |nodes[x].links| && nodes[x].links[k] == Some(path[n]);
      if x in log.written {
        assert nodes[path[n]].Placed();
        StoredIfWritten(log, path[n]);
      }
    }
  }

  /** Following links through what this log has written goes back in the log, so
      no path comes back to where it was. */
  lemma {:induction false} PathGoesBack(log: Log, path: seq<nat>)
    requires log.Valid() && |path| >= 2 && Follows(log.nodes, path)
    requires forall i :: 0 <= i < |path| ==> path[i] in log.written && path[i] in log.nodes
    ensures var p, q := log.nodes[path[|path| - 1]].location, log.nodes[path[0]].location;
      p.sequence < q.sequence || (p.sequence == q.sequence && p.offset + p.size <= q.offset)
    decreases |path|
  {
    hide IsRecord, Resolved, Crypt.Flatten, Once, Mapped, Found, StoredFlags, UploadsOk, EventsOk;
    var n, nodes := |path| - 1, log.nodes;
    assert FollowsAt(nodes, path, n - 1);
    var x := path[n - 1];
    var k :| 0 <= k < |nodes[x].links| && nodes[x].links[k] == Some(path[n]);
    assert Before(nodes[path[n]].location, nodes[x].location);
    if n >= 2 {
      forall i | 0 <= i < n - 1
        ensures FollowsAt(nodes, path[..n], i)
      {
        assert FollowsAt(nodes, path, i);
      }
      PathGoesBack(log, path[..n]);
    }
  }

  lemma StoredIfWritten(log: Log, x: nat)
    requires log.Valid() && Settled(log) && x in log.nodes && log.nodes[x].Placed()
    ensures x in log.earlier || (x in log.written && log.nodes[x].location.sequence in log.stored)
  {
    hide IsRecord, Resolved, Crypt.Flatten, LinksBack, Once, Mapped;
    EmptyData(log.nodes, log.earlier, log.written, log.layout);
    if x in log.written {
      assert FoundAt(x, log.nodes[x].location.sequence, log.layout);
    }
  }
}
