/** The inode map: a sorted sequence of ranges of inode numbers, each holding a
    sorted sequence of entries and, while it is unchanged, its serialized form.
    It is proved to behave as one plain map. */
module InodeMap {
  import opened Bytes
  import opened Options
  import G = GSequence

  const TARGET_IMAP_SIZE: nat := 4096

  /** A cloud log item, by identity; a new entry has none yet. */
  type ItemRef = Option<nat>

  datatype Entry = Entry(inum: nat, item: ItemRef)

  /** A serialized range: the inode numbers as bytes, the items as links. */
  datatype Section = Section(data: Bytes, links: seq<ItemRef>)

  datatype Range = Range(start: nat, end: nat, entries: seq<Entry>, serialized: Option<Section>)

  // ------------------------------------------------ the plain map

  function EntriesMap(es: seq<Entry>): (m: map<nat, ItemRef>)
  {
    if es == [] then map[] else EntriesMap(es[..|es| - 1])[es[|es| - 1].inum := es[|es| - 1].item]
  }

  function MapOf(rs: seq<Range>): (m: map<nat, ItemRef>)
  {
    if rs == [] then map[] else MapOf(rs[..|rs| - 1]) + EntriesMap(rs[|rs| - 1].entries)
  }

  lemma {:induction false} EntriesConcat(a: seq<Entry>, b: seq<Entry>)
    ensures EntriesMap(a + b) == EntriesMap(a) + EntriesMap(b)
    decreases |b|
  {
    if b == [] {
      assert a + b == a;
    } else {
      assert (a + b)[..|a + b| - 1] == a + b[..|b| - 1];
      EntriesConcat(a, b[..|b| - 1]);
    }
  }

  lemma MergeAssoc(a: map<nat, ItemRef>, b: map<nat, ItemRef>, c: map<nat, ItemRef>)
    ensures (a + b) + c == a + (b + c)
  {
  }

  lemma {:induction false} MapConcat(a: seq<Range>, b: seq<Range>)
    ensures MapOf(a + b) == MapOf(a) + MapOf(b)
    decreases |b|
  {
    hide EntriesMap;
    if b == [] {
      assert a + b == a;
    } else {
      var n := |b| - 1;
      assert (a + b)[..|a + b| - 1] == a + b[..n];
      MapConcat(a, b[..n]);
      MergeAssoc(MapOf(a), MapOf(b[..n]), EntriesMap(b[n].entries));
    }
  }

  /** The map around one range. */
  lemma MapAround(rs: seq<Range>, r: nat, x: Range)
    requires r < |rs|
    ensures MapOf(rs[r := x]) == (MapOf(rs[..r]) + EntriesMap(x.entries)) + MapOf(rs[r + 1..])
  {
    var a, b := rs[..r], rs[r + 1..];
    assert rs[r := x] == a + [x] + b;
    MapConcat(a + [x], b);
    MapConcat(a, [x]);
    MapOfOne(x);
  }

  lemma MapOfOne(r: Range)
    ensures MapOf([r]) == EntriesMap(r.entries)
  {
    hide EntriesMap;
    assert [r][..0] == [];
    assert MapOf([]) == map[];
  }

  // ------------------------------------------------ representation

  function EntryKeys(es: seq<Entry>): (ks: seq<nat>)
    ensures |ks| == |es| && forall k :: 0 <= k < |es| ==> ks[k] == es[k].inum
  {
    seq(|es|, k requires 0 <= k < |es| => es[k].inum)
  }

  function RangeKeys(rs: seq<Range>): (ks: seq<nat>)
    ensures |ks| == |rs| && forall k :: 0 <= k < |rs| ==> ks[k] == rs[k].start
  {
    seq(|rs|, k requires 0 <= k < |rs| => rs[k].start)
  }

  function Aligned(inum: nat): (start: nat) {
    inum - inum % TARGET_IMAP_SIZE
  }

  /** The inode numbers of a range, in order, eight bytes each. */
  function SectionData(es: seq<Entry>): (s: Bytes)
    ensures |s| == 8 * |es|
  {
    if es == [] then [] else SectionData(es[..|es| - 1]) + Le64(es[|es| - 1].inum)
  }

  function Links(es: seq<Entry>): (ls: seq<ItemRef>)
    ensures |ls| == |es|
  {
    seq(|es|, k requires 0 <= k < |es| => es[k].item)
  }

  function SectionOf(es: seq<Entry>): (s: Section) {
    Section(SectionData(es), Links(es))
  }

  /** A range is one aligned window; a serialized form it keeps is current. */
  ghost predicate RangeOk(r: Range) {
    && r.start % TARGET_IMAP_SIZE == 0
    && r.end == r.start + TARGET_IMAP_SIZE - 1 < U64_LIMIT
    && G.Sorted(EntryKeys(r.entries))
    && (forall k :: 0 <= k < |r.entries| ==> r.start <= r.entries[k].inum <= r.end)
    && (r.serialized.Some? ==> r.serialized.value == SectionOf(r.entries))
  }

  ghost predicate RangesOk(rs: seq<Range>) {
    && (forall k :: 0 <= k < |rs| ==> RangeOk(rs[k]))
    && G.Sorted(RangeKeys(rs))
  }

  /** Windows that start apart do not overlap. */
  lemma WindowsApart(a: nat, b: nat)
    requires a % TARGET_IMAP_SIZE == 0 && b % TARGET_IMAP_SIZE == 0 && a < b
    ensures a + TARGET_IMAP_SIZE <= b
  {
  }

  /** An inode number is in the map of some entries exactly if it is a key. */
  lemma {:induction false} EntriesIn(es: seq<Entry>, x: nat)
    ensures x in EntriesMap(es) <==> x in EntryKeys(es)
  {
    if es != [] {
      var n := |es| - 1;
      EntriesIn(es[..n], x);
      assert EntryKeys(es) == EntryKeys(es[..n]) + [es[n].inum];
    }
  }

  lemma {:induction false} EntriesBounded(es: seq<Entry>, lo: nat, hi: nat)
    requires forall k :: 0 <= k < |es| ==> lo <= es[k].inum < hi
    ensures forall x :: x in EntriesMap(es) ==> lo <= x < hi
  {
    if es != [] {
      EntriesBounded(es[..|es| - 1], lo, hi);
    }
  }

  lemma {:induction false} KeysBounded(rs: seq<Range>, lo: nat, hi: nat)
    requires forall k :: 0 <= k < |rs| ==> RangeOk(rs[k]) && lo <= rs[k].start && rs[k].end < hi
    ensures forall x :: x in MapOf(rs) ==> lo <= x < hi
  {
    hide EntriesMap;
    if rs != [] {
      var n := |rs| - 1;
      KeysBounded(rs[..n], lo, hi);
      EntriesBounded(rs[n].entries, lo, hi);
    }
  }

  lemma RangesApart(rs: seq<Range>, j: nat, k: nat)
    requires RangesOk(rs) && j < k < |rs|
    ensures rs[j].end < rs[k].start
  {
    assert RangeKeys(rs)[j] < RangeKeys(rs)[k];
    WindowsApart(rs[j].start, rs[k].start);
  }

  /** Inside one range's window, the map is that range's entries. */
  lemma MapInWindow(rs: seq<Range>, r: nat, x: nat)
    requires RangesOk(rs) && r < |rs| && rs[r].start <= x <= rs[r].end
    ensures x in MapOf(rs) <==> x in EntriesMap(rs[r].entries)
    ensures x in MapOf(rs) ==> MapOf(rs)[x] == EntriesMap(rs[r].entries)[x]
  {
    hide MapOf, RangeOk, EntriesMap;
    assert rs[r := rs[r]] == rs;
    MapAround(rs, r, rs[r]);
    OutsideOthers(rs, r, x);
  }

  lemma OutsideOthers(rs: seq<Range>, r: nat, x: nat)
    requires RangesOk(rs) && r < |rs| && rs[r].start <= x <= rs[r].end
    ensures x !in MapOf(rs[..r]) && x !in MapOf(rs[r + 1..])
  {
    hide RangeOk, MapOf;
    var a, b := rs[..r], rs[r + 1..];
    forall k | 0 <= k < |a|
      ensures RangeOk(a[k]) && 0 <= a[k].start && a[k].end < rs[r].start
    {
      RangesApart(rs, k, r);
    }
    forall k | 0 <= k < |b|
      ensures RangeOk(b[k]) && rs[r].end + 1 <= b[k].start && b[k].end < U64_LIMIT
    {
      RangesApart(rs, r, r + 1 + k);
      RangeEnd(b[k]);
    }
    KeysBounded(a, 0, rs[r].start);
    KeysBounded(b, rs[r].end + 1, U64_LIMIT);
  }

  lemma RangeEnd(r: Range)
    requires RangeOk(r)
    ensures r.start <= r.end < U64_LIMIT
  {
  }

  /** Replacing one range's entries changes the map in that window only. */
  lemma MapUpdated(rs: seq<Range>, r: nat, x: Range)
    requires RangesOk(rs) && r < |rs| && RangeOk(x) && x.start == rs[r].start
    ensures RangesOk(rs[r := x])
    ensures forall y :: rs[r].start <= y <= rs[r].end ==>
      (y in MapOf(rs[r := x]) <==> y in EntriesMap(x.entries))
      && (y in MapOf(rs[r := x]) ==> MapOf(rs[r := x])[y] == EntriesMap(x.entries)[y])
    ensures forall y :: !(rs[r].start <= y <= rs[r].end) ==>
      (y in MapOf(rs[r := x]) <==> y in MapOf(rs)) && (y in MapOf(rs) ==> MapOf(rs[r := x])[y] == MapOf(rs)[y])
  {
    var rs' := rs[r := x];
    assert forall k :: 0 <= k < |rs| ==> RangeKeys(rs')[k] == RangeKeys(rs)[k];
    assert RangesOk(rs') by { hide RangeOk; }
    forall y | rs[r].start <= y <= rs[r].end
      ensures (y in MapOf(rs') <==> y in EntriesMap(x.entries))
        && (y in MapOf(rs') ==> MapOf(rs')[y] == EntriesMap(x.entries)[y])
    {
      MapInWindow(rs', r, y);
    }
    SameOutside(rs, r, x);
  }

  lemma SameOutside(rs: seq<Range>, r: nat, x: Range)
    requires r < |rs| && RangeOk(rs[r]) && RangeOk(x) && x.start == rs[r].start
    ensures forall y :: !(rs[r].start <= y <= rs[r].end) ==>
      (y in MapOf(rs[r := x]) <==> y in MapOf(rs)) && (y in MapOf(rs) ==> MapOf(rs[r := x])[y] == MapOf(rs)[y])
  {
    assert rs[r := rs[r]] == rs;
    MapAround(rs, r, rs[r]);
    MapAround(rs, r, x);
    EntriesBounded(rs[r].entries, rs[r].start, rs[r].end + 1);
    EntriesBounded(x.entries, rs[r].start, rs[r].end + 1);
    hide MapOf, EntriesMap, RangeOk;
  }

  // ------------------------------------------------ inserting and deleting

  function InsertEntry(es: seq<Entry>, e: Entry): (r: seq<Entry>) {
    var u := G.Search(EntryKeys(es), e.inum);
    es[..u] + [e] + es[u..]
  }

  lemma MergeMiss(a: map<nat, ItemRef>, b: map<nat, ItemRef>, x: nat, v: ItemRef)
    requires x !in b
    ensures a[x := v] + b == (a + b)[x := v]
    ensures x !in a ==> (a[x := v] + b) - {x} == a + b
  {
  }

  lemma InsertedKeys(es: seq<Entry>, e: Entry)
    requires G.Sorted(EntryKeys(es)) && e.inum !in EntryKeys(es)
    ensures EntryKeys(InsertEntry(es, e)) == G.Insert(EntryKeys(es), e.inum)
    ensures G.Sorted(EntryKeys(InsertEntry(es, e)))
    ensures e.inum !in EntryKeys(es[G.Search(EntryKeys(es), e.inum)..])
  {
    G.InsertSorted(EntryKeys(es), e.inum);
    hide G.Search;
    var u := G.Search(EntryKeys(es), e.inum);
    assert EntryKeys(InsertEntry(es, e)) == G.Insert(EntryKeys(es), e.inum);
    assert forall k :: 0 <= k < |es[u..]| ==> EntryKeys(es[u..])[k] == EntryKeys(es)[u + k];
  }

  lemma EntryInserted(es: seq<Entry>, e: Entry)
    requires G.Sorted(EntryKeys(es)) && e.inum !in EntryKeys(es)
    ensures G.Sorted(EntryKeys(InsertEntry(es, e)))
    ensures EntriesMap(InsertEntry(es, e)) == EntriesMap(es)[e.inum := e.item]
  {
    hide G.Search, EntriesMap, G.Sorted, G.Insert, EntryKeys;
    InsertedKeys(es, e);
    var u := G.Search(EntryKeys(es), e.inum);
    InsertedMap(es[..u], e, es[u..]);
    assert es[..u] + es[u..] == es;
  }

  lemma InsertedMap(a: seq<Entry>, e: Entry, b: seq<Entry>)
    requires e.inum !in EntryKeys(b)
    ensures EntriesMap(a + [e] + b) == EntriesMap(a + b)[e.inum := e.item]
  {
    hide EntriesMap, EntryKeys;
    EntriesConcat(a, b);
    EntriesAround(a, e, b);
    EntriesIn(b, e.inum);
    MergeMiss(EntriesMap(a), EntriesMap(b), e.inum, e.item);
  }

  lemma OneEntry(e: Entry)
    ensures EntriesMap([e]) == map[e.inum := e.item]
  {
    assert [e][..0] == [];
  }

  lemma EntryReplaced(es: seq<Entry>, k: nat, item: ItemRef)
    requires G.Sorted(EntryKeys(es)) && k < |es|
    ensures var es' := es[k := Entry(es[k].inum, item)];
      EntryKeys(es') == EntryKeys(es) && EntriesMap(es') == EntriesMap(es)[es[k].inum := item]
  {
    hide EntriesMap, G.Sorted, EntryKeys;
    LaterKeys(es, k);
    var x := es[k].inum;
    var a, b := es[..k], es[k + 1..];
    SameKeys(es, es[k := Entry(x, item)]);
    assert es == a + [es[k]] + b && es[k := Entry(x, item)] == a + [Entry(x, item)] + b;
    EntriesAround(a, es[k], b);
    EntriesAround(a, Entry(x, item), b);
    EntriesIn(b, x);
    MergeMiss(EntriesMap(a), EntriesMap(b), x, es[k].item);
    MergeMiss(EntriesMap(a), EntriesMap(b), x, item);
  }

  lemma SameKeys(es: seq<Entry>, es': seq<Entry>)
    requires |es| == |es'| && forall k :: 0 <= k < |es| ==> es[k].inum == es'[k].inum
    ensures EntryKeys(es) == EntryKeys(es')
  {
  }

  lemma EntriesAround(a: seq<Entry>, e: Entry, b: seq<Entry>)
    ensures EntriesMap(a + [e] + b) == EntriesMap(a)[e.inum := e.item] + EntriesMap(b)
  {
    EntriesConcat(a + [e], b);
    EntriesConcat(a, [e]);
    OneEntry(e);
  }

  lemma LaterKeys(es: seq<Entry>, k: nat)
    requires G.Sorted(EntryKeys(es)) && k < |es|
    ensures es[k].inum !in EntryKeys(es[k + 1..]) && es[k].inum !in EntryKeys(es[..k])
  {
    forall m | 0 <= m < |es| && m != k
      ensures es[m].inum != es[k].inum
    {
      if m < k {
        assert EntryKeys(es)[m] < EntryKeys(es)[k];
      } else {
        assert EntryKeys(es)[k] < EntryKeys(es)[m];
      }
    }
    var later := es[k + 1..];
    assert forall m :: 0 <= m < |later| ==> EntryKeys(later)[m] == EntryKeys(es)[k + 1 + m];
  }

  function RemoveEntry(es: seq<Entry>, k: nat): (r: seq<Entry>)
    requires k < |es|
  {
    es[..k] + es[k + 1..]
  }

  lemma RemovedKeys(es: seq<Entry>, k: nat)
    requires G.Sorted(EntryKeys(es)) && k < |es|
    ensures G.Sorted(EntryKeys(RemoveEntry(es, k)))
  {
    var r := RemoveEntry(es, k);
    forall i, j | 0 <= i < j < |r|
      ensures EntryKeys(r)[i] < EntryKeys(r)[j]
    {
      assert EntryKeys(r)[i] == EntryKeys(es)[if i < k then i else i + 1];
      assert EntryKeys(r)[j] == EntryKeys(es)[if j < k then j else j + 1];
    }
  }

  lemma EntryRemoved(es: seq<Entry>, k: nat)
    requires G.Sorted(EntryKeys(es)) && k < |es|
    ensures EntriesMap(RemoveEntry(es, k)) == EntriesMap(es) - {es[k].inum}
  {
    hide EntriesMap, G.Sorted, EntryKeys;
    var a, e, b := es[..k], es[k], es[k + 1..];
    NoOtherEntry(es, k);
    RemovedBetween(a, e, b);
    SplitAround(es, k);
    assert RemoveEntry(es, k) == a + b;
  }

  lemma SplitAround(es: seq<Entry>, k: nat)
    requires k < |es|
    ensures es == es[..k] + [es[k]] + es[k + 1..]
  {
  }

  lemma NoOtherEntry(es: seq<Entry>, k: nat)
    requires G.Sorted(EntryKeys(es)) && k < |es|
    ensures es[k].inum !in EntriesMap(es[..k]) && es[k].inum !in EntriesMap(es[k + 1..])
  {
    hide EntriesMap, G.Sorted, EntryKeys;
    LaterKeys(es, k);
    EntriesIn(es[..k], es[k].inum);
    EntriesIn(es[k + 1..], es[k].inum);
  }

  lemma RemovedBetween(a: seq<Entry>, e: Entry, b: seq<Entry>)
    requires e.inum !in EntriesMap(a) && e.inum !in EntriesMap(b)
    ensures EntriesMap(a + b) == EntriesMap(a + [e] + b) - {e.inum}
  {
    hide EntriesMap;
    EntriesAround(a, e, b);
    EntriesConcat(a, b);
    MergeMiss(EntriesMap(a), EntriesMap(b), e.inum, e.item);
  }

  function InsertRange(rs: seq<Range>, x: Range): (r: seq<Range>) {
    var u := G.Search(RangeKeys(rs), x.start);
    rs[..u] + [x] + rs[u..]
  }

  lemma RangeInsertedOk(rs: seq<Range>, x: Range)
    requires RangesOk(rs) && RangeOk(x) && x.start !in RangeKeys(rs)
    ensures RangesOk(InsertRange(rs, x))
  {
    hide G.Search, RangeOk;
    var u := G.Search(RangeKeys(rs), x.start);
    G.InsertSorted(RangeKeys(rs), x.start);
    assert RangeKeys(InsertRange(rs, x)) == G.Insert(RangeKeys(rs), x.start);
    assert forall k :: 0 <= k < |InsertRange(rs, x)| ==>
      InsertRange(rs, x)[k] == if k < u then rs[k] else if k == u then x else rs[k - 1];
  }

  /** A new empty range changes no entry. */
  lemma RangeInserted(rs: seq<Range>, x: Range)
    requires RangesOk(rs) && RangeOk(x) && x.entries == [] && x.start !in RangeKeys(rs)
    ensures RangesOk(InsertRange(rs, x)) && MapOf(InsertRange(rs, x)) == MapOf(rs)
  {
    hide G.Search, RangesOk, RangeOk, MapOf, RangeKeys;
    RangeInsertedOk(rs, x);
    var u := G.Search(RangeKeys(rs), x.start);
    EmptyRange(rs[..u], x, rs[u..]);
    assert rs == rs[..u] + rs[u..];
  }

  lemma NoEntries(x: Range)
    requires x.entries == []
    ensures MapOf([x]) == map[]
  {
    MapOfOne(x);
    assert EntriesMap([]) == map[];
  }

  lemma EmptyRange(a: seq<Range>, x: Range, b: seq<Range>)
    requires x.entries == []
    ensures MapOf(a + [x] + b) == MapOf(a + b)
  {
    hide MapOf, EntriesMap;
    MapConcat(a, b);
    MapConcat(a + [x], b);
    MapConcat(a, [x]);
    NoEntries(x);
    assert MapOf(a) + map[] == MapOf(a);
  }

  // ------------------------------------------------ the map object

  /** Where an entry lies. */
  datatype Handle = Handle(range: nat, entry: nat)

  /** The range the search lands on covers the inode number whenever any does. */
  lemma CoveringRange(rs: seq<Range>, inum: nat)
    requires RangesOk(rs)
    ensures var i := G.Prev(G.Search(RangeKeys(rs), inum));
      (exists r :: 0 <= r < |rs| && rs[r].start <= inum <= rs[r].end)
      <==> i < |rs| && rs[i].start <= inum <= rs[i].end
  {
    var u := G.Search(RangeKeys(rs), inum);
    hide G.Search;
    if r :| 0 <= r < |rs| && rs[r].start <= inum <= rs[r].end {
      G.SearchSorted(RangeKeys(rs), inum);
      assert RangeKeys(rs)[r] <= inum && r < u && RangeKeys(rs)[u - 1] <= inum;
      if r < u - 1 {
        RangesApart(rs, r, u - 1);
      }
    }
  }

  lemma NotCovered(rs: seq<Range>, inum: nat)
    requires RangesOk(rs) && forall r :: 0 <= r < |rs| ==> !(rs[r].start <= inum <= rs[r].end)
    ensures inum !in MapOf(rs) && Aligned(inum) !in RangeKeys(rs)
  {
    KeyNowhere(rs, inum);
    forall r | 0 <= r < |rs|
      ensures rs[r].start != Aligned(inum)
    {
      assert RangeOk(rs[r]);
    }
  }

  lemma {:induction false} KeyNowhere(rs: seq<Range>, inum: nat)
    requires forall r :: 0 <= r < |rs| ==> RangeOk(rs[r]) && !(rs[r].start <= inum <= rs[r].end)
    ensures inum !in MapOf(rs)
  {
    hide EntriesMap;
    if rs != [] {
      var n := |rs| - 1;
      KeyNowhere(rs[..n], inum);
      EntriesBounded(rs[n].entries, rs[n].start, rs[n].end + 1);
    }
  }

  /** The bounds a new range gets from its neighbours never cut its window: the
      range is the whole aligned window around the inode number, even where the
      first range is skipped. */
  lemma NewWindow(rs: seq<Range>, inum: nat)
    requires RangesOk(rs) && inum < U64_LIMIT
    requires forall r :: 0 <= r < |rs| ==> !(rs[r].start <= inum <= rs[r].end)
    ensures var (lo, hi) := Bounds(rs, inum);
      lo <= inum <= hi < U64_LIMIT && lo <= Aligned(inum) && Aligned(inum) + TARGET_IMAP_SIZE - 1 <= hi
  {
    var u := G.Search(RangeKeys(rs), inum);
    var i := G.Prev(u);
    G.SearchSorted(RangeKeys(rs), inum);
    hide G.Search;
    WindowFits(inum);
    if 0 < i < |rs| {
      assert RangeKeys(rs)[i] <= inum && RangeOk(rs[i]);
      WindowAfter(rs[i].start, inum);
    }
    if i + 1 < |rs| {
      assert inum < RangeKeys(rs)[i + 1] by {
        if u == 0 { assert RangeKeys(rs)[0] < RangeKeys(rs)[1]; }
      }
      assert RangeOk(rs[i + 1]);
      WindowBefore(rs[i + 1].start, inum);
    }
  }

  lemma WindowFits(inum: nat)
    requires inum < U64_LIMIT
    ensures Aligned(inum) + TARGET_IMAP_SIZE - 1 < U64_LIMIT && Aligned(inum) <= inum < Aligned(inum) + TARGET_IMAP_SIZE
    ensures Aligned(inum) % TARGET_IMAP_SIZE == 0
  {
  }

  lemma WindowAfter(start: nat, inum: nat)
    requires start % TARGET_IMAP_SIZE == 0 && start + TARGET_IMAP_SIZE <= inum
    ensures start + TARGET_IMAP_SIZE <= Aligned(inum)
  {
  }

  lemma WindowBefore(start: nat, inum: nat)
    requires start % TARGET_IMAP_SIZE == 0 && inum < start
    ensures Aligned(inum) + TARGET_IMAP_SIZE <= start
  {
  }

  /** The program's bounds for a new range, from the ranges on either side of the
      search position. */
  function Bounds(rs: seq<Range>, inum: nat): (b: (nat, nat))
    requires RangesOk(rs) && inum < U64_LIMIT
  {
    var i := G.Prev(G.Search(RangeKeys(rs), inum));
    var next := G.Next(i, |rs|);
    var lo := if i != 0 && i < |rs| then rs[i].end + 1 else 0;
    var hi := if next < |rs| then (if rs[next].start > 0 then rs[next].start - 1 else 0) else U64_LIMIT - 1;
    (lo, hi)
  }

  /** Changing one range inside its window changes the map there. */
  lemma WindowChanged(rs: seq<Range>, r: nat, x: Range, inum: nat)
    requires RangesOk(rs) && r < |rs| && RangeOk(x) && x.start == rs[r].start && rs[r].start <= inum <= rs[r].end
    requires forall y :: y != inum ==> (y in EntriesMap(x.entries) <==> y in EntriesMap(rs[r].entries))
    requires forall y :: y != inum && y in EntriesMap(x.entries) ==> EntriesMap(x.entries)[y] == EntriesMap(rs[r].entries)[y]
    ensures RangesOk(rs[r := x])
    ensures inum in EntriesMap(x.entries) ==> MapOf(rs[r := x]) == MapOf(rs)[inum := EntriesMap(x.entries)[inum]]
    ensures inum !in EntriesMap(x.entries) ==> MapOf(rs[r := x]) == MapOf(rs) - {inum}
  {
    hide MapOf, EntriesMap, RangeOk, RangesOk, G.Sorted;
    MapUpdated(rs, r, x);
    var before, after := MapOf(rs), MapOf(rs[r := x]);
    forall y | y != inum
      ensures (y in after <==> y in before) && (y in before ==> after[y] == before[y])
    {
      if rs[r].start <= y <= rs[r].end {
        MapInWindow(rs, r, y);
      }
    }
    AgreeBut(before, after, inum);
  }

  lemma AgreeBut(before: map<nat, ItemRef>, after: map<nat, ItemRef>, inum: nat)
    requires forall y :: y != inum ==> (y in after <==> y in before)
    requires forall y :: y != inum && y in before ==> after[y] == before[y]
    ensures inum in after ==> after == before[inum := after[inum]]
    ensures inum !in after ==> after == before - {inum}
  {
  }

  /** No range carries a serialized form. */
  predicate Unwritten(rs: seq<Range>) {
    forall k :: 0 <= k < |rs| ==> rs[k].serialized.None?
  }

  lemma StillUnwritten(rs: seq<Range>, r: nat, x: Range)
    requires r < |rs| && x.serialized.None?
    ensures Unwritten(rs) ==> Unwritten(rs[r := x])
  {
  }

  lemma InsertedUnwritten(rs: seq<Range>, x: Range)
    requires x.serialized.None?
    ensures Unwritten(rs) ==> Unwritten(InsertRange(rs, x))
  {
    hide G.Search;
  }

  class InodeTable {
    var ranges: seq<Range>

    ghost predicate Valid()
      reads this
    {
      RangesOk(ranges)
    }

    ghost function Map(): (m: map<nat, ItemRef>)
      reads this
    {
      MapOf(ranges)
    }

    ghost predicate At(h: Handle, inum: nat)
      reads this
    {
      h.range < |ranges| && h.entry < |ranges[h.range].entries| && ranges[h.range].entries[h.entry].inum == inum
      && ranges[h.range].start <= inum <= ranges[h.range].end
    }

    constructor ()
      ensures Valid() && Map() == map[] && Unwritten(ranges)
    {
      ranges := [];
    }

    /** The range an inode number falls into, made if asked for. */
    method FindRange(inum: nat, create: bool) returns (r: Option<nat>)
      requires Valid() && inum < U64_LIMIT
      modifies this
      ensures Valid() && Map() == old(Map()) && (!create ==> ranges == old(ranges))
      ensures create ==> r.Some?
      ensures r.Some? ==> r.value < |ranges| && ranges[r.value].start <= inum <= ranges[r.value].end
      ensures r.None? ==> inum !in Map()
      ensures old(Unwritten(ranges)) ==> Unwritten(ranges)
    {
      hide RangeOk, MapOf, RangeKeys, G.Search, Aligned, Unwritten;
      var keys := RangeKeys(ranges);
      var i := G.Prev(G.Search(keys, inum));
      CoveringRange(ranges, inum);
      if i < |ranges| && ranges[i].start <= inum <= ranges[i].end {
        return Some(i);
      }
      NotCovered(ranges, inum);
      if !create {
        return None;
      }
      NewWindow(ranges, inum);
      var (lo, hi) := Bounds(ranges, inum);
      assert lo <= inum <= hi;
      var start := if lo > Aligned(inum) then lo else Aligned(inum);
      var end := if hi < start + TARGET_IMAP_SIZE - 1 then hi else start + TARGET_IMAP_SIZE - 1;
      var range := Range(start, end, [], None);
      NewRangeOk(inum, range);
      RangeInserted(ranges, range);
      InsertedUnwritten(ranges, range);
      var u := G.Search(RangeKeys(ranges), start);
      ranges := InsertRange(ranges, range);
      r := Some(u);
    }

    /** Look up an inode number; a positive action makes an entry if there is
        none, a negative one deletes it.  A range that may change loses its
        serialized form. */
    method Lookup(inum: nat, action: int) returns (found: Option<Handle>)
      requires Valid() && inum < U64_LIMIT
      modifies this
      ensures Valid() && (action == 0 ==> ranges == old(ranges))
      ensures Map() == if action > 0 && inum !in old(Map()) then old(Map())[inum := None]
                       else if action < 0 then old(Map()) - {inum}
                       else old(Map())
      ensures found.Some? <==> action > 0 || (action == 0 && inum in old(Map()))
      ensures found.Some? ==> At(found.value, inum)
      ensures action > 0 ==> ranges[found.value.range].serialized.None?
      ensures old(Unwritten(ranges)) ==> Unwritten(ranges)
    {
      hide MapOf, EntriesMap, RangesOk, G.Search, EntryKeys;
      var where := FindRange(inum, action > 0);
      if where.None? {
        assert Map() - {inum} == Map();
        return None;
      }
      var r := where.value;
      found := LookupIn(r, inum, action);
    }

    method LookupIn(r: nat, inum: nat, action: int) returns (found: Option<Handle>)
      requires Valid() && r < |ranges| && ranges[r].start <= inum <= ranges[r].end
      modifies this
      ensures Valid() && (action == 0 ==> ranges == old(ranges))
      ensures Map() == if action > 0 && inum !in old(Map()) then old(Map())[inum := None]
                       else if action < 0 then old(Map()) - {inum}
                       else old(Map())
      ensures found.Some? <==> action > 0 || (action == 0 && inum in old(Map()))
      ensures found.Some? ==> At(found.value, inum)
      ensures action > 0 ==> ranges[found.value.range].serialized.None?
      ensures old(Unwritten(ranges)) ==> Unwritten(ranges)
    {
      var es := ranges[r].entries;
      SearchEntry(ranges, r, inum);
      var i := G.Prev(G.Search(EntryKeys(es), inum));
      var present := i < |es| && es[i].inum == inum;
      hide MapOf, EntriesMap, RangesOk, G.Search, EntryKeys, RangeOk, G.Sorted, Unwritten;
      if !present && action <= 0 {
        assert Map() - {inum} == Map();
        return None;
      }
      if action == 0 {
        return Some(Handle(r, i));
      }
      if action < 0 {
        EntryDeleted(ranges, r, i);
        StillUnwritten(ranges, r, ranges[r].(serialized := None, entries := RemoveEntry(es, i)));
        ranges := ranges[r := ranges[r].(serialized := None, entries := RemoveEntry(es, i))];
        return None;
      }
      if present {
        EntryTouched(ranges, r, i);
        StillUnwritten(ranges, r, ranges[r].(serialized := None));
        ranges := ranges[r := ranges[r].(serialized := None)];
        return Some(Handle(r, i));
      }
      EntryCreated(ranges, r, inum);
      var u := G.Search(EntryKeys(es), inum);
      StillUnwritten(ranges, r, ranges[r].(serialized := None, entries := InsertEntry(es, Entry(inum, None))));
      ranges := ranges[r := ranges[r].(serialized := None, entries := InsertEntry(es, Entry(inum, None)))];
      found := Some(Handle(r, u));
    }

    /** Set the item of an entry just looked up for writing. */
    method SetItem(h: Handle, inum: nat, item: ItemRef)
      requires Valid() && At(h, inum) && ranges[h.range].serialized.None?
      modifies this
      ensures Valid() && Map() == old(Map())[inum := item]
      ensures old(Unwritten(ranges)) ==> Unwritten(ranges)
    {
      hide MapOf, EntriesMap, RangesOk, RangeOk, EntryKeys;
      var range := ranges[h.range];
      EntrySet(ranges, h.range, h.entry, item);
      ranges := ranges[h.range := range.(entries := range.entries[h.entry := Entry(inum, item)])];
    }

    /** Point an inode number at its newest item, as writing an inode to the
        cloud does. */
    method Update(inum: nat, item: ItemRef)
      requires Valid() && inum < U64_LIMIT
      modifies this
      ensures Valid() && Map() == old(Map())[inum := item]
      ensures old(Unwritten(ranges)) ==> Unwritten(ranges)
    {
      hide MapOf, RangesOk;
      var found := Lookup(inum, 1);
      SetItem(found.value, inum, item);
    }
  }

  lemma NewRangeOk(inum: nat, range: Range)
    requires inum < U64_LIMIT && range == Range(Aligned(inum), Aligned(inum) + TARGET_IMAP_SIZE - 1, [], None)
    ensures RangeOk(range) && range.start <= inum <= range.end
  {
    WindowFits(inum);
  }

  /** Searching the entries of the covering range decides membership. */
  lemma SearchEntry(rs: seq<Range>, r: nat, inum: nat)
    requires RangesOk(rs) && r < |rs| && rs[r].start <= inum <= rs[r].end
    ensures var es := rs[r].entries;
      var i := G.Prev(G.Search(EntryKeys(es), inum));
      (inum in MapOf(rs) <==> i < |es| && es[i].inum == inum) && (inum in MapOf(rs) <==> inum in EntryKeys(es))
  {
    hide MapOf, EntriesMap;
    assert RangeOk(rs[r]);
    MapInWindow(rs, r, inum);
    EntriesIn(rs[r].entries, inum);
    G.FoundBefore(EntryKeys(rs[r].entries), inum);
    hide G.Search;
  }

  lemma EntryDeleted(rs: seq<Range>, r: nat, k: nat)
    requires RangesOk(rs) && r < |rs| && k < |rs[r].entries|
    ensures var x := rs[r].(serialized := None, entries := RemoveEntry(rs[r].entries, k));
      RangesOk(rs[r := x]) && MapOf(rs[r := x]) == MapOf(rs) - {rs[r].entries[k].inum}
  {
    var es := rs[r].entries;
    assert RangeOk(rs[r]);
    EntryRemoved(es, k);
    RemovedKeys(es, k);
    hide MapOf, EntriesMap, RangesOk, G.Sorted, EntryKeys;
    WindowChanged(rs, r, rs[r].(serialized := None, entries := RemoveEntry(es, k)), es[k].inum);
  }

  lemma EntryTouched(rs: seq<Range>, r: nat, k: nat)
    requires RangesOk(rs) && r < |rs| && k < |rs[r].entries|
    ensures var x := rs[r].(serialized := None);
      RangesOk(rs[r := x]) && MapOf(rs[r := x]) == MapOf(rs)
  {
    assert RangeOk(rs[r]);
    var inum := rs[r].entries[k].inum;
    assert RangeOk(rs[r].(serialized := None));
    assert EntryKeys(rs[r].entries)[k] == inum;
    hide MapOf, EntriesMap, RangesOk, RangeOk, G.Sorted, EntryKeys;
    EntriesIn(rs[r].entries, inum);
    MapInWindow(rs, r, inum);
    WindowChanged(rs, r, rs[r].(serialized := None), inum);
    assert MapOf(rs)[inum := MapOf(rs)[inum]] == MapOf(rs);
  }

  lemma InsertedRangeOk(r: Range, e: Entry)
    requires RangeOk(r) && r.start <= e.inum <= r.end && e.inum !in EntryKeys(r.entries)
    ensures RangeOk(r.(serialized := None, entries := InsertEntry(r.entries, e)))
    ensures var u := G.Search(EntryKeys(r.entries), e.inum);
      u < |InsertEntry(r.entries, e)| && InsertEntry(r.entries, e)[u] == e
  {
    hide EntriesMap, G.Sorted, EntryKeys, G.Search;
    EntryInserted(r.entries, e);
    InsertedWithin(r.entries, e, r.start, r.end);
    hide InsertEntry;
  }

  lemma InsertedWithin(es: seq<Entry>, e: Entry, lo: nat, hi: nat)
    requires lo <= e.inum <= hi && forall k :: 0 <= k < |es| ==> lo <= es[k].inum <= hi
    ensures forall k :: 0 <= k < |InsertEntry(es, e)| ==> lo <= InsertEntry(es, e)[k].inum <= hi
    ensures var u := G.Search(EntryKeys(es), e.inum);
      u < |InsertEntry(es, e)| && InsertEntry(es, e)[u] == e
  {
    hide EntryKeys, G.Search;
  }

  lemma EntryCreated(rs: seq<Range>, r: nat, inum: nat)
    requires RangesOk(rs) && r < |rs| && rs[r].start <= inum <= rs[r].end && inum !in EntryKeys(rs[r].entries)
    ensures var es := InsertEntry(rs[r].entries, Entry(inum, None));
      var x := rs[r].(serialized := None, entries := es);
      var u := G.Search(EntryKeys(rs[r].entries), inum);
      u < |es| && es[u].inum == inum
      && RangesOk(rs[r := x]) && MapOf(rs[r := x]) == MapOf(rs)[inum := None]
  {
    assert RangeOk(rs[r]);
    assert G.Sorted(EntryKeys(rs[r].entries));
    hide MapOf, EntriesMap, RangesOk, RangeOk, G.Sorted, EntryKeys, G.Search, InsertEntry;
    var e := Entry(inum, None);
    EntryInserted(rs[r].entries, e);
    InsertedRangeOk(rs[r], e);
    var x := rs[r].(serialized := None, entries := InsertEntry(rs[r].entries, e));
    WindowChanged(rs, r, x, inum);
  }

  lemma EntrySet(rs: seq<Range>, r: nat, k: nat, item: ItemRef)
    requires RangesOk(rs) && r < |rs| && k < |rs[r].entries| && rs[r].serialized.None?
    ensures var inum := rs[r].entries[k].inum;
      var x := rs[r].(entries := rs[r].entries[k := Entry(inum, item)]);
      RangesOk(rs[r := x]) && MapOf(rs[r := x]) == MapOf(rs)[inum := item]
  {
    assert RangeOk(rs[r]);
    var inum := rs[r].entries[k].inum;
    EntryReplaced(rs[r].entries, k, item);
    hide MapOf, EntriesMap, RangesOk, G.Sorted, EntryKeys;
    WindowChanged(rs, r, rs[r].(entries := rs[r].entries[k := Entry(inum, item)]), inum);
  }
}
