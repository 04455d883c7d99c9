/** Directories: one sequence of entries sorted by cookie and two name indices,
    kept in step; renames; and reading a directory a page at a time. */
module Directory {
  import opened Bytes
  import opened Options
  import G = GSequence

  const COOKIE_LIMIT: nat := 0x8000_0000
  const FIRST_COOKIE: nat := 4
  const MAX_READDIR_DIRENTS: nat := 64

  datatype Dirent = Dirent(name: Bytes, cookie: nat, inum: nat)

  /** A name is a string of bytes; folding takes away its case. */
  type Fold = Bytes -> Bytes

  /** The folding in use: ASCII capitals become small letters. */
  function Lower(s: Bytes): (r: Bytes) {
    seq(|s|, k requires 0 <= k < |s| => LowerByte(s[k]))
  }

  function LowerByte(b: Byte): (r: Byte) {
    if 0x41 <= b <= 0x5A then b + 0x20 else b
  }

  function Cookies(ds: seq<Dirent>): (ks: seq<nat>)
    ensures |ks| == |ds| && forall k :: 0 <= k < |ds| ==> ks[k] == ds[k].cookie
  {
    seq(|ds|, k requires 0 <= k < |ds| => ds[k].cookie)
  }

  ghost predicate EntriesOk(ds: seq<Dirent>) {
    && (forall i, j :: 0 <= i < j < |ds| ==> ds[i].cookie < ds[j].cookie)
    && (forall i :: 0 <= i < |ds| ==> FIRST_COOKIE <= ds[i].cookie < COOKIE_LIMIT)
  }

  /** The name index holds every entry, under its name, and nothing else. */
  ghost predicate Indexed(ds: seq<Dirent>, names: map<Bytes, Dirent>) {
    && (forall d :: d in ds ==> d.name in names && names[d.name] == d)
    && (forall n :: n in names ==> names[n] in ds && names[n].name == n)
  }

  /** Whatever the folded index finds is an entry whose name folds to the key. */
  ghost predicate Sound(ds: seq<Dirent>, folded: map<Bytes, Dirent>, fold: Fold) {
    forall f :: f in folded ==> folded[f] in ds && fold(folded[f].name) == f
  }

  /** The folded index finds something for every entry. */
  ghost predicate Complete(ds: seq<Dirent>, folded: map<Bytes, Dirent>, fold: Fold) {
    forall d :: d in ds ==> fold(d.name) in folded
  }

  // ------------------------------------------------ searching

  lemma SearchCookie(ds: seq<Dirent>, cookie: nat)
    requires EntriesOk(ds)
    ensures var u := G.Search(Cookies(ds), cookie);
      && u <= |ds|
      && (forall k :: 0 <= k < u ==> ds[k].cookie <= cookie)
      && (forall k :: u <= k < |ds| ==> cookie < ds[k].cookie)
      && (ds != [] ==> ((exists d :: d in ds && d.cookie == cookie) <==> ds[G.Prev(u)].cookie == cookie))
  {
    hide G.Search;
    var u := G.Search(Cookies(ds), cookie);
    assert forall k :: 0 <= k < u ==> Cookies(ds)[k] <= cookie;
    assert u < |ds| ==> cookie < Cookies(ds)[u];
    forall d | d in ds && d.cookie == cookie
      ensures u > 0 && ds[u - 1] == d
    {
      var k :| 0 <= k < |ds| && ds[k] == d;
      assert k < u;
    }
    assert ds != [] ==> ds[G.Prev(u)] in ds;
  }

  function Inserted(ds: seq<Dirent>, d: Dirent): (r: seq<Dirent>) {
    var u := G.Search(Cookies(ds), d.cookie);
    ds[..u] + [d] + ds[u..]
  }

  lemma InsertedOk(ds: seq<Dirent>, d: Dirent)
    requires EntriesOk(ds) && FIRST_COOKIE <= d.cookie < COOKIE_LIMIT
    requires forall e :: e in ds ==> e.cookie != d.cookie
    ensures EntriesOk(Inserted(ds, d))
    ensures forall e :: e in Inserted(ds, d) <==> e in ds || e == d
  {
    hide G.Search;
    SearchCookie(ds, d.cookie);
    var u := G.Search(Cookies(ds), d.cookie);
    assert forall k :: 0 <= k < u ==> ds[k] in ds;
    InsertedOrder(ds, d, u);
    hide EntriesOk;
    assert ds == ds[..u] + ds[u..];
  }

  lemma InsertedOrder(ds: seq<Dirent>, d: Dirent, u: nat)
    requires EntriesOk(ds) && FIRST_COOKIE <= d.cookie < COOKIE_LIMIT && u <= |ds|
    requires forall k :: 0 <= k < u ==> ds[k].cookie < d.cookie
    requires forall k :: u <= k < |ds| ==> d.cookie < ds[k].cookie
    ensures EntriesOk(ds[..u] + [d] + ds[u..])
  {
    var r := ds[..u] + [d] + ds[u..];
    forall i, j | 0 <= i < j < |r|
      ensures r[i].cookie < r[j].cookie
    {
      assert r[i] == if i < u then ds[i] else if i == u then d else ds[i - 1];
      assert r[j] == if j < u then ds[j] else if j == u then d else ds[j - 1];
    }
  }

  function Without(ds: seq<Dirent>, k: nat): (r: seq<Dirent>)
    requires k < |ds|
  {
    ds[..k] + ds[k + 1..]
  }

  lemma WithoutOk(ds: seq<Dirent>, k: nat)
    requires EntriesOk(ds) && k < |ds|
    ensures EntriesOk(Without(ds, k))
    ensures forall e :: e in Without(ds, k) <==> e in ds && e != ds[k]
  {
    var r := Without(ds, k);
    assert forall i :: 0 <= i < |r| ==> r[i] == if i < k then ds[i] else ds[i + 1];
    forall e | e in ds && e != ds[k]
      ensures e in r
    {
      var i :| 0 <= i < |ds| && ds[i] == e;
      assert r[if i < k then i else i - 1] == e;
    }
  }

  /** The indices with one entry more. */
  lemma IndicesGrow(ds: seq<Dirent>, ds': seq<Dirent>, names: map<Bytes, Dirent>, folded: map<Bytes, Dirent>,
                    fold: Fold, d: Dirent)
    requires Indexed(ds, names) && Sound(ds, folded, fold) && d.name !in names
    requires forall e :: e in ds' <==> e in ds || e == d
    ensures Indexed(ds', names[d.name := d]) && Sound(ds', folded[fold(d.name) := d], fold)
    ensures Complete(ds, folded, fold) ==> Complete(ds', folded[fold(d.name) := d], fold)
  {
  }

  /** The indices with one entry less. */
  lemma IndicesShrink(ds: seq<Dirent>, ds': seq<Dirent>, names: map<Bytes, Dirent>, folded: map<Bytes, Dirent>,
                      fold: Fold, d: Dirent)
    requires Indexed(ds, names) && Sound(ds, folded, fold) && d in ds
    requires forall e :: e in ds' <==> e in ds && e != d
    ensures Indexed(ds', names - {d.name})
    ensures Sound(ds', folded - {fold(d.name)}, fold)
    ensures Complete(ds, folded, fold) ==>
      (Complete(ds', folded - {fold(d.name)}, fold) <==>
       forall n :: n in names - {d.name} ==> fold(n) != fold(d.name))
  {
    assert forall e :: e in ds' ==> e.name != d.name;
    if Complete(ds, folded, fold) && Complete(ds', folded - {fold(d.name)}, fold) {
      forall n | n in names - {d.name}
        ensures fold(n) != fold(d.name)
      {
        assert names[n] in ds';
      }
    }
  }

  // ------------------------------------------------ the directory

  class DirInode {
    var dirents: seq<Dirent>
    var names: map<Bytes, Dirent>
    var folded: map<Bytes, Dirent>
    var changes: nat
    const fold: Fold

    ghost predicate Valid()
      reads this
    {
      EntriesOk(dirents) && Indexed(dirents, names) && Sound(dirents, folded, fold)
    }

    /** The directory as a plain map. */
    ghost function Map(): (m: map<Bytes, nat>)
      reads this
    {
      map n | n in names :: names[n].inum
    }

    ghost predicate FindsAll()
      reads this
    {
      Complete(dirents, folded, fold)
    }

    constructor (fold: Fold)
      ensures Valid() && Map() == map[] && FindsAll() && this.fold == fold && changes == 1
    {
      this.fold := fold;
      dirents, names, folded, changes := [], map[], map[], 1;
    }

    /** An entry by its name, in the index asked for. */
    ghost function Find(name: Bytes, caseSensitive: bool): (d: Option<Dirent>)
      reads this
    {
      if caseSensitive then (if name in names then Some(names[name]) else None)
      else if name in folded then Some(folded[name]) else None
    }

    lemma FindFacts(name: Bytes, caseSensitive: bool)
      requires Valid()
      ensures var d := Find(name, caseSensitive);
        d.Some? ==>
          && d.value.name in Map() && Map()[d.value.name] == d.value.inum
          && (caseSensitive ==> d.value.name == name)
    {
    }

    /** Of three cookies two entries leave one free. */
    lemma SomeFree(a: Bytes, b: Bytes)
      requires Valid() && Map().Keys <= {a, b}
      ensures Free(4) || Free(5) || Free(6)
    {
      hide EntriesOk, Sound;
      forall d | d in dirents
        ensures d.name == a || d.name == b
      {
        assert d.name in Map();
      }
    }

    /** Every entry has a folded name, and only folded names have entries. */
    lemma Folds(name: Bytes)
      requires Valid() && FindsAll()
      ensures name in Map() ==> fold(name) in folded
      ensures (forall n :: fold(n) != name) ==> name !in folded
    {
    }

    /** An only entry that the folded index misses. */
    lemma Missed(name: Bytes)
      requires Valid() && !FindsAll() && Map().Keys == {name}
      ensures fold(name) !in folded
    {
      hide EntriesOk, Sound;
      var d :| d in dirents && fold(d.name) !in folded;
      assert d.name in Map();
    }

    /** The inode number of a name, or 0. */
    method Lookup(name: Bytes) returns (inum: nat)
      requires Valid()
      ensures inum == if name in Map() then Map()[name] else 0
    {
      inum := if name in names then names[name].inum else 0;
    }

    /** The inode number of some name that folds alike, or 0. */
    method FoldedLookup(name: Bytes) returns (found: Option<Dirent>)
      requires Valid()
      ensures found.Some? ==> found.value.name in Map() && Map()[found.value.name] == found.value.inum
      ensures found.Some? ==> fold(found.value.name) == fold(name)
      ensures FindsAll() ==> (found.None? <==> forall n :: n in Map() ==> fold(n) != fold(name))
      ensures found.None? <==> fold(name) !in folded
    {
      var key := fold(name);
      if key !in folded {
        return None;
      }
      found := Some(folded[key]);
    }

    predicate Free(draw: nat)
      reads this
    {
      var cookie := draw % COOKIE_LIMIT;
      cookie >= FIRST_COOKIE && forall d :: d in dirents ==> d.cookie != cookie
    }

    /** A random cookie no entry has; `last` is a draw that is good enough, and
        the loop goes no further. */
    method PickCookie(draw: nat -> nat, ghost last: nat) returns (cookie: nat)
      requires Valid() && Free(draw(last))
      ensures FIRST_COOKIE <= cookie < COOKIE_LIMIT && forall d :: d in dirents ==> d.cookie != cookie
    {
      hide G.Search;
      var k := 0;
      while true
        invariant k <= last
        decreases last - k
      {
        cookie := draw(k) % COOKIE_LIMIT;
        if cookie >= FIRST_COOKIE {
          SearchCookie(dirents, cookie);
          if |dirents| == 0 {
            return;
          }
          if dirents[G.Prev(G.Search(Cookies(dirents), cookie))].cookie != cookie {
            return;
          }
        }
        assert !Free(draw(k));
        k := k + 1;
      }
    }

    /** Add a name; refused if it is there. */
    method Insert(name: Bytes, inum: nat, draw: nat -> nat, ghost last: nat) returns (ok: bool)
      requires Valid() && Free(draw(last))
      modifies this
      ensures Valid() && ok == (name !in old(Map()))
      ensures Map() == if ok then old(Map())[name := inum] else old(Map())
      ensures changes == if ok then old(changes) + 1 else old(changes)
      ensures old(FindsAll()) ==> FindsAll()
      ensures forall d :: d in old(dirents) ==> d in dirents
    {
      hide G.Search, Inserted, EntriesOk, Indexed, Sound, Complete;
      if name in names {
        return false;
      }
      var cookie := PickCookie(draw, last);
      var d := Dirent(name, cookie, inum);
      InsertedOk(dirents, d);
      IndicesGrow(dirents, Inserted(dirents, d), names, folded, fold, d);
      dirents := Inserted(dirents, d);
      names := names[name := d];
      folded := folded[fold(name) := d];
      changes := changes + 1;
      ok := true;
    }

    /** Remove a name.  The folded index goes on finding every entry exactly
        when no other entry folds to the same name. */
    method Remove(name: Bytes) returns (ok: bool)
      requires Valid()
      modifies this
      ensures Valid() && ok == (name in old(Map()))
      ensures Map() == old(Map()) - {name}
      ensures changes == if ok then old(changes) + 1 else old(changes)
      ensures ok && old(FindsAll()) ==>
        (FindsAll() <==> forall n :: n in Map() ==> fold(n) != fold(name))
      ensures forall d :: d in old(dirents) && d.name != name ==> d in dirents
      ensures forall d :: d in dirents ==> d in old(dirents)
    {
      hide G.Search, EntriesOk, Indexed, Sound, Complete, Without;
      if name !in names {
        assert Map() - {name} == Map();
        return false;
      }
      NamedEntry(dirents, names, name);
      var d := names[name];
      SearchCookie(dirents, d.cookie);
      var i := G.Prev(G.Search(Cookies(dirents), d.cookie));
      SameEntry(dirents, i, d);
      WithoutOk(dirents, i);
      IndicesShrink(dirents, Without(dirents, i), names, folded, fold, d);
      names := names - {d.name};
      folded := folded - {fold(d.name)};
      dirents := Without(dirents, i);
      changes := changes + 1;
      ok := true;
    }

    /** Fill an empty directory from the entries of its stored form, in whatever
        order they come.  The indices agree exactly if no two entries have the
        same cookie or the same name and all cookies are in range; entries
        already in order come out as they are. */
    method Reload(ds: seq<Dirent>)
      requires dirents == [] && names == map[] && folded == map[]
      modifies this
      ensures dirents == SortedIn(ds) && names == LastNamed(ds) && folded == LastFolded(ds, fold)
      ensures Valid() <==> Distinct(ds) && NamesDiffer(ds)
      ensures FindsAll() && forall d :: d in dirents <==> d in ds
      ensures EntriesOk(ds) ==> dirents == ds
    {
      hide Inserted;
      assert ds[..0] == [];
      var i := 0;
      while i < |ds|
        invariant i <= |ds| && dirents == SortedIn(ds[..i]) && names == LastNamed(ds[..i])
        invariant folded == LastFolded(ds[..i], fold)
      {
        var d := ds[i];
        assert ds[..i + 1][..i] == ds[..i];
        dirents := Inserted(dirents, d);
        names := names[d.name := d];
        folded := folded[fold(d.name) := d];
        i := i + 1;
      }
      assert ds[..i] == ds;
      hide *;
      ReloadExact(ds, fold);
    }

    /** One page of the directory: up to 64 entries behind a cookie. */
    method ReadDir(cookie: nat) returns (entries: seq<Dirent>, eof: bool)
      requires Valid()
      ensures Page(dirents, cookie % U32_LIMIT, entries, eof)
    {
      hide G.Search, EntriesOk, Page, Indexed, Sound;
      var start := cookie % U32_LIMIT;
      SearchCookie(dirents, start);
      var u := G.Search(Cookies(dirents), start);
      var i := u;
      entries := [];
      while |entries| < MAX_READDIR_DIRENTS && i < |dirents|
        invariant u <= i <= |dirents| && entries == dirents[u..i] && |entries| <= MAX_READDIR_DIRENTS
        decreases |dirents| - i
      {
        entries := entries + [dirents[i]];
        i := G.Next(i, |dirents|);
      }
      eof := i >= |dirents|;
      SliceIsPage(dirents, start, u, i);
    }
  }

  ghost predicate NamesDiffer(ds: seq<Dirent>) {
    forall i, j :: 0 <= i < j < |ds| ==> ds[i].name != ds[j].name
  }

  ghost predicate Distinct(ds: seq<Dirent>) {
    && (forall i, j :: 0 <= i < j < |ds| ==> ds[i].cookie != ds[j].cookie)
    && (forall i :: 0 <= i < |ds| ==> FIRST_COOKIE <= ds[i].cookie < COOKIE_LIMIT)
  }

  /** Entries put one after another into the sorted sequence. */
  function SortedIn(ds: seq<Dirent>): (r: seq<Dirent>) {
    if ds == [] then [] else Inserted(SortedIn(ds[..|ds| - 1]), ds[|ds| - 1])
  }

  function LastNamed(ds: seq<Dirent>): (m: map<Bytes, Dirent>) {
    if ds == [] then map[] else LastNamed(ds[..|ds| - 1])[ds[|ds| - 1].name := ds[|ds| - 1]]
  }

  function LastFolded(ds: seq<Dirent>, fold: Fold): (m: map<Bytes, Dirent>) {
    if ds == [] then map[] else LastFolded(ds[..|ds| - 1], fold)[fold(ds[|ds| - 1].name) := ds[|ds| - 1]]
  }

  lemma SnocHolds(ds: seq<Dirent>)
    requires ds != []
    ensures forall e :: e in ds <==> e in ds[..|ds| - 1] || e == ds[|ds| - 1]
  {
    assert ds == ds[..|ds| - 1] + [ds[|ds| - 1]];
  }

  lemma InsertedHolds(ds: seq<Dirent>, d: Dirent)
    ensures forall e :: e in Inserted(ds, d) <==> e in ds || e == d
  {
    hide G.Search;
    var u := G.Search(Cookies(ds), d.cookie);
    assert ds == ds[..u] + ds[u..];
  }

  /** An entry whose cookie is taken, or out of range, spoils the order. */
  lemma InsertedNeeds(ds: seq<Dirent>, d: Dirent)
    requires EntriesOk(Inserted(ds, d))
    ensures EntriesOk(ds) && FIRST_COOKIE <= d.cookie < COOKIE_LIMIT
    ensures forall e :: e in ds ==> e.cookie != d.cookie
  {
    hide G.Search;
    var u := G.Search(Cookies(ds), d.cookie);
    var r := Inserted(ds, d);
    assert r[u] == d;
    forall k | 0 <= k < |ds|
      ensures ds[k] == r[if k < u then k else k + 1] && ds[k].cookie != d.cookie
    {
    }
    forall i, j | 0 <= i < j < |ds|
      ensures ds[i].cookie < ds[j].cookie
    {
      assert ds[i] == r[if i < u then i else i + 1] && ds[j] == r[if j < u then j else j + 1];
    }
  }

  lemma {:induction false} SortedExact(ds: seq<Dirent>)
    ensures forall e :: e in SortedIn(ds) <==> e in ds
    ensures EntriesOk(SortedIn(ds)) <==> Distinct(ds)
    ensures EntriesOk(ds) ==> SortedIn(ds) == ds
    decreases |ds|
  {
    hide Inserted, EntriesOk, SortedIn, Distinct;
    if ds != [] {
      var n := |ds| - 1;
      var sofar := SortedIn(ds[..n]);
      SortedLast(ds);
      SortedExact(ds[..n]);
      SnocHolds(ds);
      InsertedHolds(sofar, ds[n]);
      if EntriesOk(SortedIn(ds)) {
        InsertedNeeds(sofar, ds[n]);
        DistinctMore(ds);
      }
      if Distinct(ds) {
        DistinctLess(ds);
        InsertedOk(sofar, ds[n]);
      }
      if EntriesOk(ds) {
        AppendedLast(ds, n);
        PrefixOk(ds, n);
        assert ds[..n + 1] == ds;
      }
    } else {
      NothingSorted();
    }
  }

  lemma DistinctMore(ds: seq<Dirent>)
    requires ds != [] && Distinct(ds[..|ds| - 1])
    requires FIRST_COOKIE <= ds[|ds| - 1].cookie < COOKIE_LIMIT
    requires forall e :: e in ds[..|ds| - 1] ==> e.cookie != ds[|ds| - 1].cookie
    ensures Distinct(ds)
  {
    var n := |ds| - 1;
    forall i | 0 <= i < n
      ensures ds[..n][i] == ds[i] && ds[i].cookie != ds[n].cookie
    {
      assert ds[..n][i] in ds[..n];
    }
  }

  lemma DistinctLess(ds: seq<Dirent>)
    requires ds != [] && Distinct(ds)
    ensures Distinct(ds[..|ds| - 1]) && FIRST_COOKIE <= ds[|ds| - 1].cookie < COOKIE_LIMIT
    ensures forall e :: e in ds[..|ds| - 1] ==> e.cookie != ds[|ds| - 1].cookie
  {
  }

  lemma SortedLast(ds: seq<Dirent>)
    requires ds != []
    ensures SortedIn(ds) == Inserted(SortedIn(ds[..|ds| - 1]), ds[|ds| - 1])
  {
  }

  lemma NothingSorted()
    ensures SortedIn([]) == [] && EntriesOk([]) && Distinct([])
  {
  }

  lemma PrefixOk(ds: seq<Dirent>, n: nat)
    requires EntriesOk(ds) && n <= |ds|
    ensures EntriesOk(ds[..n])
  {
  }

  /** Entries come in order, so each goes behind the ones before. */
  lemma AppendedLast(ds: seq<Dirent>, i: nat)
    requires EntriesOk(ds) && i < |ds|
    ensures Inserted(ds[..i], ds[i]) == ds[..i + 1]
  {
    hide G.Search;
    var u := G.Search(Cookies(ds[..i]), ds[i].cookie);
    assert forall k :: 0 <= k < i ==> Cookies(ds[..i])[k] < ds[i].cookie;
    assert ds[..i + 1] == ds[..i] + [ds[i]];
  }

  lemma {:induction false} LastNamedHolds(ds: seq<Dirent>)
    ensures forall d :: d in ds ==> d.name in LastNamed(ds)
    ensures forall n :: n in LastNamed(ds) ==> LastNamed(ds)[n] in ds && LastNamed(ds)[n].name == n
    decreases |ds|
  {
    if ds != [] {
      LastNamedHolds(ds[..|ds| - 1]);
      SnocHolds(ds);
    }
  }

  lemma {:induction false} LastFoldedHolds(ds: seq<Dirent>, fold: Fold)
    ensures Complete(ds, LastFolded(ds, fold), fold) && Sound(ds, LastFolded(ds, fold), fold)
    decreases |ds|
  {
    if ds != [] {
      LastFoldedHolds(ds[..|ds| - 1], fold);
      SnocHolds(ds);
    }
  }

  lemma SameName(ds: seq<Dirent>, d: Dirent, e: Dirent)
    requires NamesDiffer(ds) && d in ds && e in ds && d.name == e.name
    ensures d == e
  {
    var i :| 0 <= i < |ds| && ds[i] == d;
    var j :| 0 <= j < |ds| && ds[j] == e;
  }

  lemma ReloadExact(ds: seq<Dirent>, fold: Fold)
    ensures var r := SortedIn(ds);
      && (EntriesOk(r) && Indexed(r, LastNamed(ds)) && Sound(r, LastFolded(ds, fold), fold)
          <==> Distinct(ds) && NamesDiffer(ds))
      && Complete(r, LastFolded(ds, fold), fold) && (forall d :: d in r <==> d in ds)
      && (EntriesOk(ds) ==> r == ds)
  {
    hide SortedIn, LastNamed, LastFolded, EntriesOk;
    SortedExact(ds);
    LastNamedHolds(ds);
    LastFoldedHolds(ds, fold);
    var r, names := SortedIn(ds), LastNamed(ds);
    if NamesDiffer(ds) {
      forall d | d in r
        ensures names[d.name] == d
      {
        SameName(ds, d, names[d.name]);
      }
    }
    if Distinct(ds) && Indexed(r, names) {
      forall i, j | 0 <= i < j < |ds|
        ensures ds[i].name != ds[j].name
      {
        assert ds[i] in r && ds[j] in r;
      }
    }
  }

  lemma NamedEntry(ds: seq<Dirent>, names: map<Bytes, Dirent>, name: Bytes)
    requires Indexed(ds, names) && name in names
    ensures names[name] in ds && names[name].name == name
  {
  }

  /** Cookies tell entries apart. */
  lemma SameEntry(ds: seq<Dirent>, i: nat, d: Dirent)
    requires EntriesOk(ds) && i < |ds| && d in ds && ds[i].cookie == d.cookie
    ensures ds[i] == d
  {
    var k :| 0 <= k < |ds| && ds[k] == d;
  }

  // ------------------------------------------------ renaming

  /** What a rename is asked to make of the maps of the two directories, which
      may be the same one: the entry found takes the new name, in the place of
      the one found there. */
  ghost predicate Renamed(from: map<Bytes, nat>, found1: Bytes, to: map<Bytes, nat>, found2: Option<Bytes>,
                          name2: Bytes, same: bool, from': map<Bytes, nat>, to': map<Bytes, nat>)
    requires found1 in from
  {
    var replaced := if found2.Some? then {found2.value} else {};
    if same then from' == to' == (from - {found1} - replaced)[name2 := from[found1]]
    else from' == from - {found1} && to' == (to - replaced)[name2 := from[found1]]
  }

  /** What it does make of them: the entries removed are those of the given
      names, whatever was found, and a name that is there is not inserted. */
  ghost predicate Moved(from: map<Bytes, nat>, name1: Bytes, to: map<Bytes, nat>, name2: Bytes, inum: nat, replace: bool,
                        same: bool, from': map<Bytes, nat>, to': map<Bytes, nat>)
  {
    var removed := if replace then {name2} else {};
    if same then from' == to' == Added(from - removed - {name1}, name2, inum)
    else from' == from - {name1} && to' == Added(to - removed, name2, inum)
  }

  ghost function Added(m: map<Bytes, nat>, name: Bytes, inum: nat): (r: map<Bytes, nat>) {
    if name in m then m else m[name := inum]
  }

  /** What was found is what the given names name, but for the new name. */
  ghost predicate AsNamed(from: map<Bytes, nat>, name1: Bytes, found1: Bytes, to: map<Bytes, nat>, name2: Bytes,
                          found2: Option<Bytes>, inum: nat, same: bool)
  {
    var replaced := if found2.Some? then {found2.value} else {};
    var there := found2.None? && name2 in to && !(same && name1 == name2);
    && (there ==> to[name2] == inum)
    && (if same then {found1} + replaced - {name2} == (from.Keys * {name1}) - {name2}
        else found1 == name1 && replaced <= {name2})
  }

  /** The code does what is asked exactly when the names found are the names
      given. */
  lemma RenameExact(from: map<Bytes, nat>, name1: Bytes, found1: Bytes, to: map<Bytes, nat>, name2: Bytes,
                    found2: Option<Bytes>, same: bool, from': map<Bytes, nat>, to': map<Bytes, nat>)
    requires found1 in from && (found2.Some? ==> found2.value in to) && (same ==> from == to)
    requires Moved(from, name1, to, name2, from[found1], found2.Some?, same, from', to')
    ensures Renamed(from, found1, to, found2, name2, same, from', to')
      <==> AsNamed(from, name1, found1, to, name2, found2, from[found1], same)
  {
    var inum := from[found1];
    var replaced := if found2.Some? then {found2.value} else {};
    var removed := if found2.Some? then {name2} else {};
    if same {
      SameOff(from - {found1} - replaced, from - removed - {name1}, name2, inum);
      var a, b := from - {found1} - replaced, from - removed - {name1};
      assert a.Keys == from.Keys - ({found1} + replaced) && b.Keys == from.Keys - ({name1} + removed);
      OffKeys(from.Keys, {found1} + replaced, {name1}, removed, name2);
      KeysDecide(from, a - {name2}, b - {name2});
    } else {
      SameOff(to - replaced, to - removed, name2, inum);
      if from - {found1} == from - {name1} {
        assert found1 !in from - {name1};
        assert found1 == name1;
      }
      assert (to - replaced) - {name2} == (to - removed) - {name2} <==> replaced <= {name2} by {
        if found2.Some? && found2.value != name2 {
          assert found2.value in (to - removed) - {name2};
        }
      }
    }
  }

  lemma KeysDecide(m: map<Bytes, nat>, a: map<Bytes, nat>, b: map<Bytes, nat>)
    requires a.Keys <= m.Keys && b.Keys <= m.Keys
    requires (forall x :: x in a ==> a[x] == m[x]) && (forall x :: x in b ==> b[x] == m[x])
    ensures a == b <==> a.Keys == b.Keys
  {
    if a.Keys == b.Keys {
      assert forall x :: x in a <==> x in b;
    }
  }

  lemma OffKeys(keys: set<Bytes>, a: set<Bytes>, b: set<Bytes>, c: set<Bytes>, n: Bytes)
    requires a <= keys && c <= {n}
    ensures keys - a - {n} == keys - (b + c) - {n} <==> a - {n} == (keys * b) - {n}
  {
    if keys - a - {n} == keys - (b + c) - {n} {
      forall x
        ensures x in a - {n} <==> x in (keys * b) - {n}
      {
        assert x in keys - a - {n} <==> x in keys - (b + c) - {n};
      }
    } else if a - {n} == (keys * b) - {n} {
      forall x
        ensures x in keys - a - {n} <==> x in keys - (b + c) - {n}
      {
        assert x in a - {n} <==> x in (keys * b) - {n};
      }
    }
  }

  /** Setting a name in one map, adding it to another. */
  lemma SameOff(a: map<Bytes, nat>, b: map<Bytes, nat>, n: Bytes, v: nat)
    ensures a[n := v] == Added(b, n, v) <==> a - {n} == b - {n} && (n in b ==> b[n] == v)
  {
    var l, r := a[n := v], Added(b, n, v);
    assert l - {n} == a - {n} && r - {n} == b - {n};
    if a - {n} == b - {n} && (n in b ==> b[n] == v) {
      forall x
        ensures (x in l <==> x in r) && (x in l && x in r ==> l[x] == r[x])
      {
        assert x != n ==> (x in a - {n} <==> x in b - {n});
        assert x != n && x in a - {n} && x in b - {n} ==> (a - {n})[x] == (b - {n})[x];
      }
    }
  }

  function NameOf(d: Option<Dirent>): (n: Option<Bytes>) {
    if d.None? then None else Some(d.value.name)
  }

  /** Rename a file, between directories or within one, over an existing name
      if asked to.  Without regard to case the names are looked up in the folded
      indices, as they are given. */
  method Rename(dir1: DirInode, name1: Bytes, dir2: DirInode, name2: Bytes, caseSensitive: bool, overwrite: bool,
                draw: nat -> nat, ghost last: nat)
    returns (ok: bool)
    requires dir1.Valid() && dir2.Valid() && dir2.Free(draw(last))
    modifies dir1, dir2
    ensures dir1.Valid() && dir2.Valid()
    ensures var d1, d2 := old(dir1.Find(name1, caseSensitive)), old(dir2.Find(name2, caseSensitive));
      && (ok <==> d1.Some? && (overwrite || d2.None?))
      && (ok ==> d1.value.name in old(dir1.Map()) && d1.value.inum == old(dir1.Map())[d1.value.name])
      && (d2.Some? ==> d2.value.name in old(dir2.Map()))
      && (ok ==> Moved(old(dir1.Map()), name1, old(dir2.Map()), name2, d1.value.inum, d2.Some?, dir1 == dir2,
                       dir1.Map(), dir2.Map()))
      && (!ok ==> dir1.Map() == old(dir1.Map()) && dir2.Map() == old(dir2.Map()))
      && (ok && caseSensitive ==>
            d1.value.name == name1
            && Renamed(old(dir1.Map()), name1, old(dir2.Map()), NameOf(d2), name2, dir1 == dir2, dir1.Map(), dir2.Map()))
  {
    hide DirInode.Valid, Renamed, Moved, AsNamed;
    ghost var from, to := dir1.Map(), dir2.Map();
    ghost var g1, g2 := dir1.Find(name1, caseSensitive), dir2.Find(name2, caseSensitive);
    dir1.FindFacts(name1, caseSensitive);
    dir2.FindFacts(name2, caseSensitive);
    var found1, found2: bool;
    var inum := 0;
    if caseSensitive {
      found1, found2 := name1 in dir1.names, name2 in dir2.names;
      if found1 {
        inum := dir1.names[name1].inum;
      }
    } else {
      found1, found2 := name1 in dir1.folded, name2 in dir2.folded;
      if found1 {
        inum := dir1.folded[name1].inum;
      }
    }
    if !found1 || (found2 && !overwrite) {
      return false;
    }
    if found2 {
      var _ := dir2.Remove(name2);
    }
    var _ := dir1.Remove(name1);
    var _ := dir2.Insert(name2, inum, draw, last);
    ok := true;
    assert Moved(from, name1, to, name2, inum, found2, dir1 == dir2, dir1.Map(), dir2.Map()) by {
      MovedStep(from, name1, to, name2, inum, found2, dir1 == dir2, dir1.Map(), dir2.Map());
    }
    if caseSensitive {
      RenameExact(from, name1, g1.value.name, to, name2, NameOf(g2), dir1 == dir2, dir1.Map(), dir2.Map());
      NamedAsGiven(from, name1, to, name2, NameOf(g2), inum, dir1 == dir2);
    }
  }

  lemma MovedStep(from: map<Bytes, nat>, name1: Bytes, to: map<Bytes, nat>, name2: Bytes, inum: nat, replace: bool,
                  same: bool, from': map<Bytes, nat>, to': map<Bytes, nat>)
    requires same ==> from == to && from' == to'
    requires var mid := if replace then to - {name2} else to;
      if same then to' == Added(mid - {name1}, name2, inum) else from' == from - {name1} && to' == Added(mid, name2, inum)
    ensures Moved(from, name1, to, name2, inum, replace, same, from', to')
  {
    assert to - {} == to;
    assert same && !replace ==> from - {} - {name1} == to - {name1};
  }

  /** With regard to case, what is found is what is named. */
  lemma NamedAsGiven(from: map<Bytes, nat>, name1: Bytes, to: map<Bytes, nat>, name2: Bytes, found2: Option<Bytes>,
                     inum: nat, same: bool)
    requires name1 in from && (same ==> from == to)
    requires found2 == if name2 in to then Some(name2) else None
    ensures AsNamed(from, name1, name1, to, name2, found2, inum, same)
  {
    assert from.Keys * {name1} == {name1};
    var replaced := if found2.Some? then {found2.value} else {};
    assert {name1} + replaced - {name2} == {name1} - {name2};
  }

  // ------------------------------------------------ where case is lost

  /** A draw that a directory of at most two entries can use. */
  lemma FreeDraw(dir: DirInode, a: Bytes, b: Bytes) returns (draw: nat)
    requires dir.Valid() && dir.Map().Keys <= {a, b}
    ensures dir.Free(draw)
  {
    hide DirInode.Valid;
    dir.SomeFree(a, b);
    draw := if dir.Free(4) then 4 else if dir.Free(5) then 5 else 6;
  }

  /** Of any two names that fold alike, removing one hides the other from the
      folded index. */
  method FoldedMisses(a: Bytes, b: Bytes) returns (dir: DirInode, found: Option<Dirent>)
    requires a != b && Lower(a) == Lower(b)
    ensures dir.Valid() && dir.fold == Lower && dir.Map() == map[b := 2]
    ensures found.None? && Lower(b) !in dir.folded
  {
    hide DirInode.Valid, DirInode.Free, DirInode.FindsAll, Lower;
    dir := new DirInode(Lower);
    ghost var last := FreeDraw(dir, [], []);
    var _ := dir.Insert(a, 1, k => k, last);
    last := FreeDraw(dir, a, []);
    var _ := dir.Insert(b, 2, k => k, last);
    var _ := dir.Remove(a);
    assert b in dir.Map();
    dir.Missed(b);
    found := dir.FoldedLookup(b);
  }

  /** Without regard to case, renaming any file onto any name with a capital
      that is there loses the file. */
  method FoldedRenameLoses(a: Bytes, b: Bytes) returns (dir: DirInode, ok: bool)
    requires Lower(a) == a && Lower(b) != b
    ensures dir.Valid() && dir.fold == Lower && ok && dir.Map() == map[b := 2]
  {
    hide DirInode.Valid, DirInode.Free, DirInode.FindsAll, Lower, Renamed, Moved;
    dir := new DirInode(Lower);
    ghost var last := FreeDraw(dir, [], []);
    var _ := dir.Insert(a, 1, k => k, last);
    last := FreeDraw(dir, a, []);
    var _ := dir.Insert(b, 2, k => k, last);
    ghost var was := dir.Map();
    last := FreeDraw(dir, a, b);
    dir.Folds(a);
    NotFolded(b);
    dir.Folds(b);
    ok := Rename(dir, a, dir, b, false, true, k => k, last);
    ghost var inum :| Moved(was, a, was, b, inum, false, true, dir.Map(), dir.Map());
    Lost(was, a, b, inum, dir.Map());
  }

  lemma Lost(was: map<Bytes, nat>, a: Bytes, b: Bytes, inum: nat, now: map<Bytes, nat>)
    requires a != b && was == map[a := 1, b := 2] && Moved(was, a, was, b, inum, false, true, now, now)
    ensures now == map[b := 2]
  {
    assert b in was - {} - {a};
    assert was - {} - {a} == map[b := 2];
  }

  /** A name with a capital is not the folding of any. */
  lemma NotFolded(b: Bytes)
    requires Lower(b) != b
    ensures forall n :: Lower(n) != b
  {
    forall n
      ensures Lower(n) != b
    {
      assert Lower(Lower(n)) == Lower(n);
    }
  }

  /** Two bytes are the same letter in either case, or the same byte. */
  predicate SameLetter(a: Byte, b: Byte) {
    a == b || (0x41 <= a <= 0x5A && b == a + 0x20) || (0x41 <= b <= 0x5A && a == b + 0x20)
  }

  /** Names fold alike exactly when they differ in the case of letters only, and a
      folded name has no capital. */
  lemma FoldsAlike(a: Bytes, b: Bytes)
    ensures Lower(a) == Lower(b) <==> |a| == |b| && forall k :: 0 <= k < |a| ==> SameLetter(a[k], b[k])
    ensures forall k :: 0 <= k < |Lower(a)| ==> !(0x41 <= Lower(a)[k] <= 0x5A)
  {
    if Lower(a) == Lower(b) {
      assert |a| == |Lower(a)| == |b|;
      forall k | 0 <= k < |a|
        ensures SameLetter(a[k], b[k])
      {
        assert Lower(a)[k] == Lower(b)[k];
      }
    }
  }

  /** There are such names. */
  lemma CapitalA()
    ensures Lower([0x41]) == Lower([0x61]) == [0x61] != [0x41]
  {
    assert [0x41][0] != [0x61][0];
  }

  // ------------------------------------------------ reading page by page

  predicate Increasing(es: seq<Dirent>) {
    forall i, j :: 0 <= i < j < |es| ==> es[i].cookie < es[j].cookie
  }

  /** A page: entries behind the cookie in order, missing none up to its last;
      at most 64 of them, fewer only if there are no more. */
  ghost predicate Page(ds: seq<Dirent>, cookie: nat, entries: seq<Dirent>, eof: bool) {
    && Increasing(entries) && |entries| <= MAX_READDIR_DIRENTS
    && (forall e :: e in entries ==> e in ds && cookie < e.cookie)
    && (eof <==> forall d :: d in ds && cookie < d.cookie ==> d in entries)
    && (!eof ==> |entries| == MAX_READDIR_DIRENTS)
    && (!eof ==> forall d :: d in ds && cookie < d.cookie <= entries[|entries| - 1].cookie ==> d in entries)
  }

  /** In sorted entries, which of them a slice holds. */
  lemma SliceHolds(ds: seq<Dirent>, cookie: nat, u: nat, v: nat, d: Dirent)
    requires EntriesOk(ds) && u <= v <= |ds| && d in ds && cookie < d.cookie
    requires forall k :: 0 <= k < u ==> ds[k].cookie <= cookie
    ensures d in ds[u..v] <==> v == |ds| || d.cookie < ds[v].cookie
  {
    var k :| 0 <= k < |ds| && ds[k] == d;
    assert k >= u;
    if k < v {
      assert ds[u..v][k - u] == d;
    } else {
      assert v < |ds| && ds[v].cookie <= d.cookie;
      assert forall m :: 0 <= m < v - u ==> ds[u..v][m] == ds[u + m] && ds[u + m].cookie < ds[v].cookie;
    }
  }

  lemma SliceIsPage(ds: seq<Dirent>, cookie: nat, u: nat, v: nat)
    requires EntriesOk(ds) && u <= v <= |ds| && v - u <= MAX_READDIR_DIRENTS
    requires v < |ds| ==> v - u == MAX_READDIR_DIRENTS
    requires forall k :: 0 <= k < u ==> ds[k].cookie <= cookie
    requires forall k :: u <= k < |ds| ==> cookie < ds[k].cookie
    ensures Page(ds, cookie, ds[u..v], v >= |ds|)
  {
    var es := ds[u..v];
    assert Increasing(es);
    assert forall e :: e in es ==> e in ds && cookie < e.cookie;
    forall d | d in ds && cookie < d.cookie
      ensures d in es <==> v == |ds| || d.cookie < ds[v].cookie
    {
      SliceHolds(ds, cookie, u, v, d);
    }
    if v < |ds| {
      assert ds[v] in ds && es[|es| - 1].cookie < ds[v].cookie;
    }
    hide EntriesOk;
  }

  /** A listing in progress: each page continues from the last cookie of the
      one before, whatever happened to the directory in between; none but the
      last may have reached the end. */
  ghost predicate Listing(states: seq<seq<Dirent>>, pages: seq<seq<Dirent>>, eof: bool) {
    && |states| == |pages|
    && (forall k :: 0 <= k < |states| ==> EntriesOk(states[k]))
    && (forall k :: 0 <= k < |pages| ==>
          Page(states[k], StartOf(pages, k), pages[k], k == |pages| - 1 && eof))
  }

  /** The cookie a page is asked for with: the last one seen, 0 at first. */
  function StartOf(pages: seq<seq<Dirent>>, k: nat): (cookie: nat)
    requires k <= |pages|
  {
    if k == 0 || pages[k - 1] == [] then 0 else pages[k - 1][|pages[k - 1]| - 1].cookie
  }

  function Joined(pages: seq<seq<Dirent>>): (all: seq<Dirent>) {
    if pages == [] then [] else Joined(pages[..|pages| - 1]) + pages[|pages| - 1]
  }

  ghost predicate Throughout(states: seq<seq<Dirent>>, d: Dirent) {
    forall t :: 0 <= t < |states| ==> d in states[t]
  }

  /** One more page in order. */
  lemma JoinedIncreases(all: seq<Dirent>, page: seq<Dirent>, cookie: nat)
    requires Increasing(all) && Increasing(page)
    requires forall e :: e in all ==> e.cookie <= cookie
    requires forall e :: e in page ==> cookie < e.cookie
    ensures Increasing(all + page)
  {
    var r := all + page;
    forall i, j | 0 <= i < j < |r|
      ensures r[i].cookie < r[j].cookie
    {
      if i < |all| <= j {
        assert r[i] in all && r[j] in page;
      }
    }
  }

  /** After k full pages: in order, up to the last cookie, and holding every
      entry up to there that was in the directory throughout. */
  lemma {:induction false} ListedSoFar(states: seq<seq<Dirent>>, pages: seq<seq<Dirent>>, eof: bool, k: nat)
    requires Listing(states, pages, eof) && k <= |pages| && (k == |pages| ==> !eof)
    ensures Increasing(Joined(pages[..k])) && |Joined(pages[..k])| == k * MAX_READDIR_DIRENTS
    ensures forall e :: e in Joined(pages[..k]) ==> FIRST_COOKIE <= e.cookie <= StartOf(pages, k)
    ensures forall d :: Throughout(states, d) && 0 < d.cookie <= StartOf(pages, k) ==> d in Joined(pages[..k])
  {
    hide EntriesOk, Increasing, Joined, Page;
    if k > 0 {
      ListedSoFar(states, pages, eof, k - 1);
      FullPage(states[k - 1], StartOf(pages, k - 1), pages[k - 1]);
      JoinedLast(pages, k);
      JoinedIncreases(Joined(pages[..k - 1]), pages[k - 1], StartOf(pages, k - 1));
    } else {
      assert pages[..0] == [];
      NoPages();
    }
  }

  lemma NoPages()
    ensures Joined([]) == [] && Increasing([])
  {
  }

  lemma FullPage(ds: seq<Dirent>, start: nat, page: seq<Dirent>)
    requires EntriesOk(ds) && Page(ds, start, page, false)
    ensures Increasing(page) && |page| == MAX_READDIR_DIRENTS
    ensures forall e :: e in page ==> start < e.cookie && FIRST_COOKIE <= e.cookie <= page[|page| - 1].cookie
    ensures forall d :: d in ds && start < d.cookie <= page[|page| - 1].cookie ==> d in page
    ensures page[|page| - 1].cookie < COOKIE_LIMIT
  {
    assert page[|page| - 1] in page;
  }

  lemma JoinedLast(pages: seq<seq<Dirent>>, k: nat)
    requires 0 < k <= |pages|
    ensures Joined(pages[..k]) == Joined(pages[..k - 1]) + pages[k - 1]
  {
    assert pages[..k][..k - 1] == pages[..k - 1];
  }

  /** A finished listing returns no entry twice, only entries that were in the
      directory when their page was read, and every entry that was there from
      the first page to the last. */
  lemma ListingComplete(states: seq<seq<Dirent>>, pages: seq<seq<Dirent>>)
    requires Listing(states, pages, true) && pages != []
    ensures Increasing(Joined(pages))
    ensures forall k, e :: 0 <= k < |pages| && e in pages[k] ==> e in states[k]
    ensures forall d :: Throughout(states, d) ==> d in Joined(pages)
  {
    var n := |pages| - 1;
    ListedSoFar(states, pages, true, n);
    assert Page(states[n], StartOf(pages, n), pages[n], true);
    JoinedLast(pages, n + 1);
    assert pages[..n + 1] == pages;
    JoinedIncreases(Joined(pages[..n]), pages[n], StartOf(pages, n));
    forall d | Throughout(states, d)
      ensures d in Joined(pages)
    {
      assert d in states[n] && EntriesOk(states[n]);
    }
    hide EntriesOk, Increasing, Joined;
  }

  lemma {:induction false} CookiesSpread(es: seq<Dirent>, i: nat)
    requires Increasing(es) && i < |es| && forall e :: e in es ==> FIRST_COOKIE <= e.cookie
    ensures es[i].cookie >= FIRST_COOKIE + i
  {
    if i > 0 {
      CookiesSpread(es, i - 1);
    }
  }

  /** Listing cannot go on for ever: every page that is not the last brings 64
      cookies never seen before. */
  lemma ListingEnds(states: seq<seq<Dirent>>, pages: seq<seq<Dirent>>)
    requires Listing(states, pages, false)
    ensures FIRST_COOKIE + |pages| * MAX_READDIR_DIRENTS <= COOKIE_LIMIT
  {
    hide EntriesOk, Page, Joined;
    var n := |pages|;
    ListedSoFar(states, pages, false, n);
    assert pages[..n] == pages;
    if n > 0 {
      var all := Joined(pages);
      CookiesSpread(all, |all| - 1);
      assert all[|all| - 1] in all;
      FullPage(states[n - 1], StartOf(pages, n - 1), pages[n - 1]);
    }
  }
}
