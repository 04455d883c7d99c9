/** Cloud log items as bytes: the 89-byte header, the payload, the ids of the
    items it points to and where those are stored. */
module CloudItem {
  import opened Bytes
  import opened Options

  const MAGIC: Bytes := [0x41, 0x67, 0x49, 0x2d]
  const HEADER_SIZE: nat := 89
  const ID_SIZE: nat := 16
  const LOCATION_SIZE: nat := 16

  const DATA: nat := 1
  const INODE: nat := 2
  const INODE_MAP: nat := 3
  const CHECKPOINT: nat := 4

  datatype Location = Location(directory: nat, sequence: nat, offset: nat, size: nat) {
    predicate Fits() {
      directory < U32_LIMIT && sequence < U32_LIMIT && offset < U32_LIMIT && size < U32_LIMIT
    }
  }

  /** A link to another item, or none (a hole in a file, say). */
  datatype Link = Null | To(id: Bytes, at: Location) {
    predicate Shaped() {
      To? ==> |id| == ID_SIZE
    }

    predicate Fits() {
      Shaped() && (To? ==> at.Fits())
    }
  }

  datatype Item = Item(kind: int, inum: nat, id: Bytes, data: Bytes, links: seq<Link>) {
    /** The fixed-size fields have their sizes. */
    predicate Shaped() {
      && -0x30 <= kind < 0x100 - 0x30 && |id| == ID_SIZE
      && forall k :: 0 <= k < |links| ==> links[k].Shaped()
    }

    /** Moreover, every number fits the field it is written to. */
    predicate Fits() {
      && Shaped() && inum < U64_LIMIT
      && |data| < U32_LIMIT && 16 * |links| < U32_LIMIT
      && forall k :: 0 <= k < |links| ==> links[k].Shaped() && links[k].Fits()
    }
  }

  // ------------------------------------------------ links

  function LocationBytes(p: Location): (s: Bytes)
    ensures |s| == LOCATION_SIZE
  {
    Le32(p.directory) + Le32(p.sequence) + Le32(p.offset) + Le32(p.size)
  }

  function LocationAt(s: Bytes): (p: Location)
    requires |s| >= LOCATION_SIZE
  {
    Location(Decode(s[..4]), Decode(s[4..8]), Decode(s[8..12]), Decode(s[12..16]))
  }

  lemma LocationRead(p: Location, rest: Bytes)
    requires p.Fits()
    ensures LocationAt(LocationBytes(p) + rest) == p
  {
    var s := LocationBytes(p) + rest;
    RoundTrip32(p.directory);
    RoundTrip32(p.sequence);
    RoundTrip32(p.offset);
    RoundTrip32(p.size);
    hide Le32, Decode;
    assert s[..4] == Le32(p.directory) && s[4..8] == Le32(p.sequence);
    assert s[8..12] == Le32(p.offset) && s[12..16] == Le32(p.size);
  }

  function IdOf(l: Link): (s: Bytes)
    requires l.Shaped()
    ensures |s| == ID_SIZE
  {
    if l.Null? then Zeros(ID_SIZE) else l.id
  }

  /** The ids, a zero one for no link. */
  function Ids(ls: seq<Link>): (s: Bytes)
    requires forall k :: 0 <= k < |ls| ==> ls[k].Shaped()
    ensures |s| == ID_SIZE * |ls|
  {
    if ls == [] then [] else IdOf(ls[0]) + Ids(ls[1..])
  }

  /** The locations, of the links that are there only. */
  function Locations(ls: seq<Link>): (s: Bytes)
    ensures |s| <= LOCATION_SIZE * |ls|
  {
    if ls == [] then []
    else if ls[0].Null? then Locations(ls[1..])
    else LocationBytes(ls[0].at) + Locations(ls[1..])
  }

  /** The loop that writes the links of an item out. */
  method SerializeLinks(ls: seq<Link>) returns (ids: Bytes, locations: Bytes)
    requires forall k :: 0 <= k < |ls| ==> ls[k].Shaped()
    ensures ids == Ids(ls) && locations == Locations(ls)
  {
    hide LocationBytes;
    ids, locations := [], [];
    var i := 0;
    assert ls[0..] == ls && [] + Ids(ls) == Ids(ls) && [] + Locations(ls) == Locations(ls);
    while i < |ls|
      invariant i <= |ls| && ids + Ids(ls[i..]) == Ids(ls) && locations + Locations(ls[i..]) == Locations(ls)
    {
      var l := ls[i];
      assert ls[i..][1..] == ls[i + 1..];
      assert ids + Ids(ls[i..]) == (ids + IdOf(l)) + Ids(ls[i + 1..]);
      if l.To? {
        assert locations + Locations(ls[i..]) == (locations + LocationBytes(l.at)) + Locations(ls[i + 1..]);
        ids, locations := ids + l.id, locations + LocationBytes(l.at);
      } else {
        ids := ids + Zeros(ID_SIZE);
      }
      i := i + 1;
    }
  }

  function Prepend(found: seq<Link>, rest: Option<seq<Link>>): (r: Option<seq<Link>>) {
    if rest.None? then None else Some(found + rest.value)
  }

  lemma PrependTwice(a: seq<Link>, b: seq<Link>, rest: Option<seq<Link>>)
    ensures Prepend(a, Prepend(b, rest)) == Prepend(a + b, rest)
  {
    if rest.Some? {
      assert a + (b + rest.value) == (a + b) + rest.value;
    }
  }

  /** Reading links back; None where the program stops on a short location
      list. */
  function ReadLinks(ids: Bytes, locations: Bytes): (r: Option<seq<Link>>)
    decreases |ids|
  {
    if |ids| < ID_SIZE then Some([])
    else if ids[..ID_SIZE] == Zeros(ID_SIZE) then Prepend([Null], ReadLinks(ids[ID_SIZE..], locations))
    else if |locations| < LOCATION_SIZE then None
    else Prepend([To(ids[..ID_SIZE], LocationAt(locations))], ReadLinks(ids[ID_SIZE..], locations[LOCATION_SIZE..]))
  }

  /** The loop over the link list. */
  method DeserializeLinks(ids: Bytes, locations: Bytes) returns (links: Option<seq<Link>>)
    ensures links == ReadLinks(ids, locations)
  {
    var data2, data3 := ids, locations;
    var found: seq<Link> := [];
    assert forall ls: seq<Link> :: [] + ls == ls;
    while |data2| >= ID_SIZE
      invariant ReadLinks(ids, locations) == Prepend(found, ReadLinks(data2, data3))
      decreases |data2|
    {
      var id := data2[..ID_SIZE];
      var link := Null;
      var before := data3;
      if id != Zeros(ID_SIZE) {
        if |data3| < LOCATION_SIZE {
          return None;
        }
        link := To(id, LocationAt(data3));
        data3 := data3[LOCATION_SIZE..];
      }
      assert ReadLinks(data2, before) == Prepend([link], ReadLinks(data2[ID_SIZE..], data3));
      data2 := data2[ID_SIZE..];
      PrependTwice(found, [link], ReadLinks(data2, data3));
      found := found + [link];
    }
    assert found + [] == found;
    links := Some(found);
  }

  predicate Named(ls: seq<Link>) {
    forall k :: 0 <= k < |ls| && ls[k].To? ==> ls[k].id != Zeros(ID_SIZE)
  }

  /** Links read back as they were written exactly when no item has the zero
      id, which stands for no link. */
  lemma {:induction false} LinksRead(ls: seq<Link>, rest: Bytes)
    requires forall k :: 0 <= k < |ls| ==> ls[k].Shaped() && ls[k].Fits()
    ensures Named(ls) <==> ReadLinks(Ids(ls), Locations(ls) + rest) == Some(ls)
  {
    hide LocationBytes, LocationAt;
    if ls != [] {
      LinksRead(ls[1..], rest);
      SplitLinks(ls, rest);
      FirstLink(Ids(ls), Locations(ls) + rest, ls);
    }
  }

  lemma SplitLinks(ls: seq<Link>, rest: Bytes)
    requires ls != [] && forall k :: 0 <= k < |ls| ==> ls[k].Shaped() && ls[k].Fits()
    ensures ls[0].Fits() && Ids(ls)[..ID_SIZE] == IdOf(ls[0]) && Ids(ls)[ID_SIZE..] == Ids(ls[1..])
    ensures var ps := Locations(ls) + rest;
      if ls[0].Null? then ps == Locations(ls[1..]) + rest
      else |ps| >= LOCATION_SIZE && LocationAt(ps) == ls[0].at && ps[LOCATION_SIZE..] == Locations(ls[1..]) + rest
    ensures Named(ls) <==> (ls[0].To? ==> ls[0].id != Zeros(ID_SIZE)) && Named(ls[1..])
  {
    hide LocationAt, LocationBytes, Zeros;
    SplitNamed(ls);
    hide Named;
    if ls[0].To? {
      SplitLocation(ls[0].at, Locations(ls[1..]), rest);
    }
  }

  lemma SplitNamed(ls: seq<Link>)
    requires ls != []
    ensures Named(ls) <==> (ls[0].To? ==> ls[0].id != Zeros(ID_SIZE)) && Named(ls[1..])
  {
    hide Zeros;
    assert ls == [ls[0]] + ls[1..];
  }

  lemma SplitLocation(p: Location, more: Bytes, rest: Bytes)
    requires p.Fits()
    ensures var ps := LocationBytes(p) + more + rest;
      LocationAt(ps) == p && ps[LOCATION_SIZE..] == more + rest
  {
    hide LocationAt, LocationBytes;
    assert LocationBytes(p) + more + rest == LocationBytes(p) + (more + rest);
    LocationRead(p, more + rest);
  }

  lemma FirstLink(ids: Bytes, ps: Bytes, ls: seq<Link>)
    requires ls != [] && ls[0].Shaped() && |ids| >= ID_SIZE && ids[..ID_SIZE] == IdOf(ls[0])
    requires ls[0].To? ==> |ps| >= LOCATION_SIZE && LocationAt(ps) == ls[0].at
    ensures ReadLinks(ids, ps) == Some(ls) <==>
      if ls[0].Null? then ReadLinks(ids[ID_SIZE..], ps) == Some(ls[1..])
      else ls[0].id != Zeros(ID_SIZE) && ReadLinks(ids[ID_SIZE..], ps[LOCATION_SIZE..]) == Some(ls[1..])
  {
    hide LocationAt;
    var r := ReadLinks(ids[ID_SIZE..], if ids[..ID_SIZE] == Zeros(ID_SIZE) then ps else ps[LOCATION_SIZE..]);
    var l := if ids[..ID_SIZE] == Zeros(ID_SIZE) then Null else ls[0];
    assert ReadLinks(ids, ps) == Prepend([l], r);
    assert ls == [ls[0]] + ls[1..];
    if r.Some? {
      assert ([l] + r.value)[0] == l && ([l] + r.value)[1..] == r.value;
    }
  }

  // ------------------------------------------------ records

  /** What follows the magic, the authenticator and the counter block. */
  function Body(item: Item): (s: Bytes)
    requires item.Shaped()
    ensures |s| >= 37
  {
    [(item.kind + 0x30) as Byte] + item.id + Le64(item.inum)
    + Le32(|item.data|) + Le32(|Ids(item.links)|) + Le32(|Locations(item.links)|)
    + item.data + Ids(item.links) + Locations(item.links)
  }

  ghost predicate IsRecord(s: Bytes, item: Item) {
    item.Shaped() && |s| >= 52 && s[..4] == MAGIC && s[52..] == Body(item)
  }

  function Size1(s: Bytes): (n: nat) requires |s| >= HEADER_SIZE { Decode(s[77..81]) }

  function Size2(s: Bytes): (n: nat) requires |s| >= HEADER_SIZE { Decode(s[81..85]) }

  function Size3(s: Bytes): (n: nat) requires |s| >= HEADER_SIZE { Decode(s[85..89]) }

  function RecordSize(s: Bytes): (n: nat)
    requires |s| >= HEADER_SIZE
    ensures n >= HEADER_SIZE
  {
    HEADER_SIZE + Size1(s) + Size2(s) + Size3(s)
  }

  /** Reading an item from the cloud; None where the bytes are refused. */
  function ReadItem(s: Bytes): (r: Option<Item>) {
    if |s| < HEADER_SIZE || s[..4] != MAGIC || |s| < RecordSize(s) then None
    else
      var d2 := HEADER_SIZE + Size1(s);
      var d3 := d2 + Size2(s);
      var links := ReadLinks(s[d2..d3], s[d3..d3 + Size3(s)]);
      if links.None? then None
      else Some(Item(s[52] as int - 0x30, Decode(s[69..77]), s[53..69], s[HEADER_SIZE..d2], links.value))
  }

  lemma BodyFields(item: Item)
    requires item.Shaped()
    ensures var b := Body(item);
      var d2 := 37 + |item.data|;
      var d3 := d2 + |Ids(item.links)|;
      && |b| == d3 + |Locations(item.links)|
      && b[0] as int == item.kind + 0x30 && b[1..17] == item.id && b[17..25] == Le64(item.inum)
      && b[25..29] == Le32(|item.data|) && b[29..33] == Le32(|Ids(item.links)|)
      && b[33..37] == Le32(|Locations(item.links)|)
      && b[37..d2] == item.data && b[d2..d3] == Ids(item.links) && b[d3..] == Locations(item.links)
  {
    hide Le32, Le64, Ids, Locations;
  }

  /** What a record in front of other bytes says of its sizes. */
  lemma RecordFields(s: Bytes, item: Item, rest: Bytes)
    requires IsRecord(s, item) && item.Fits()
    ensures var t := s + rest;
      && |s| >= HEADER_SIZE && RecordSize(t) == |s| && t[..4] == MAGIC && t[52] as int == item.kind + 0x30
      && Size1(t) == |item.data| && Size2(t) == |Ids(item.links)| && Size3(t) == |Locations(item.links)|
  {
    hide Body, Ids, Locations, Le32, Decode, Item.Fits;
    var b := Body(item);
    BodyFields(item);
    BodySlice(s, b, rest, 25, 29);
    BodySlice(s, b, rest, 29, 33);
    BodySlice(s, b, rest, 33, 37);
    SizesRead(item);
    assert s[52] == b[0];
  }

  lemma SizesRead(item: Item)
    requires item.Fits()
    ensures Decode(Le32(|item.data|)) == |item.data| && Decode(Le64(item.inum)) == item.inum
    ensures Decode(Le32(|Ids(item.links)|)) == |Ids(item.links)|
    ensures Decode(Le32(|Locations(item.links)|)) == |Locations(item.links)|
  {
    hide Ids, Locations, Le32, Decode, Le64;
    RoundTrip32(|item.data|);
    RoundTrip32(|Ids(item.links)|);
    RoundTrip32(|Locations(item.links)|);
    RoundTrip64(item.inum);
  }

  /** An item read back from its record is the item written, exactly when no
      item it links to has the zero id. */
  lemma ItemRead(s: Bytes, item: Item, rest: Bytes)
    requires IsRecord(s, item) && item.Fits()
    ensures ReadItem(s + rest) == Some(item) <==> Named(item.links)
  {
    hide Ids, Locations, Le32, Le64, Decode, Body, Named, ReadLinks, Size1, Size2, Size3;
    RecordFields(s, item, rest);
    SizesRead(item);
    LinksRead(item.links, []);
    RecordSlices(s, item, rest);
    hide Item.Fits, IsRecord;
    assert Locations(item.links) + [] == Locations(item.links);
  }

  lemma RecordSlices(s: Bytes, item: Item, rest: Bytes)
    requires IsRecord(s, item) && item.Fits()
    ensures var t := s + rest;
      var d2 := HEADER_SIZE + |item.data|;
      var d3 := d2 + |Ids(item.links)|;
      && d3 + |Locations(item.links)| == |s|
      && t[53..69] == item.id && t[69..77] == Le64(item.inum) && t[HEADER_SIZE..d2] == item.data
      && t[d2..d3] == Ids(item.links) && t[d3..|s|] == Locations(item.links)
  {
    hide Body, Ids, Locations, Le32, Le64;
    BodyFields(item);
    var b := Body(item);
    var d2 := 37 + |item.data|;
    var d3 := d2 + |Ids(item.links)|;
    BodySlice(s, b, rest, 1, 17);
    BodySlice(s, b, rest, 17, 25);
    BodySlice(s, b, rest, 37, d2);
    BodySlice(s, b, rest, d2, d3);
    BodySlice(s, b, rest, d3, |b|);
  }

  lemma BodySlice(s: Bytes, b: Bytes, rest: Bytes, i: nat, j: nat)
    requires |s| >= 52 && s[52..] == b && i <= j <= |b|
    ensures (s + rest)[52 + i..52 + j] == b[i..j]
  {
    assert forall k :: 0 <= k < |b| ==> s[52 + k] == b[k];
  }
}
