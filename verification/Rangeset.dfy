/** Ranges kept in a sequence sorted by where they start; the items of a cached
    segment are found through it. */
module Rangeset {
  import opened Options
  import G = GSequence

  datatype Span = Span(start: nat, length: nat) {
    predicate Holds(offset: nat) {
      start <= offset < start + length
    }
  }

  function Starts(ss: seq<Span>): (ks: seq<nat>)
    ensures |ks| == |ss| && forall k :: 0 <= k < |ss| ==> ks[k] == ss[k].start
  {
    seq(|ss|, k requires 0 <= k < |ss| => ss[k].start)
  }

  /** Sorted by start; the same range may be there more than once. */
  predicate Ordered(ss: seq<Span>) {
    forall i, j :: 0 <= i < j < |ss| ==> ss[i].start <= ss[j].start
  }

  /** No range is empty, and no two overlap unless they are the same range. */
  ghost predicate Disjoint(ss: seq<Span>) {
    && (forall a :: a in ss ==> a.length > 0)
    && (forall a, b :: a in ss && b in ss && a != b ==>
          a.start + a.length <= b.start || b.start + b.length <= a.start)
  }

  /** Everything behind the found position starts later. */
  lemma Behind(ss: seq<Span>, offset: nat)
    requires Ordered(ss)
    ensures var u := G.Search(Starts(ss), offset);
      && u <= |ss|
      && (forall k :: 0 <= k < u ==> ss[k].start <= offset)
      && (forall k :: u <= k < |ss| ==> offset < ss[k].start)
  {
    hide G.Search;
    var u := G.Search(Starts(ss), offset);
    if u < |ss| {
      assert offset < Starts(ss)[u];
    }
    forall k | 0 <= k < u
      ensures ss[k].start <= offset
    {
      assert Starts(ss)[k] <= offset;
    }
  }

  class Ranges {
    var spans: seq<Span>

    ghost predicate Valid()
      reads this
    {
      Ordered(spans)
    }

    constructor ()
      ensures Valid() && spans == []
    {
      spans := [];
    }

    method Insert(start: nat, length: nat)
      requires Valid()
      modifies this
      ensures Valid() && multiset(spans) == multiset(old(spans)) + multiset{Span(start, length)}
    {
      hide G.Search;
      Behind(spans, start);
      var u := G.Search(Starts(spans), start);
      assert spans == spans[..u] + spans[u..];
      spans := spans[..u] + [Span(start, length)] + spans[u..];
    }

    /** The range holding an offset, as far as the search sees: it looks at one
        range only. */
    method Lookup(offset: nat) returns (found: Option<Span>)
      requires Valid()
      ensures found == Looked(spans, offset)
      ensures found.Some? ==> found.value in spans
      ensures found.Some? ==> found.value.start <= offset < found.value.start + found.value.length
      ensures found.None? && Unshadowed(spans) ==> forall s :: s in spans ==> !(s.start <= offset < s.start + s.length)
    {
      hide G.Search;
      LookupExact(spans);
      hide Unshadowed;
      var i := G.Prev(G.Search(Starts(spans), offset));
      if i >= |spans| {
        return None;
      }
      if spans[i].Holds(offset) {
        return Some(spans[i]);
      }
      found := None;
    }

    /** The first range starting at or behind an offset. */
    method LookupNext(offset: nat) returns (found: Option<Span>)
      requires Valid()
      ensures found.Some? ==> found.value in spans && offset <= found.value.start
      ensures found.Some? ==> forall s :: s in spans && offset <= s.start ==> found.value.start <= s.start
      ensures found.None? ==> forall s :: s in spans ==> s.start < offset
    {
      hide G.Search;
      Behind(spans, offset);
      var i := G.Prev(G.Search(Starts(spans), offset));
      if i >= |spans| {
        return None;
      }
      if spans[i].start < offset {
        i := G.Next(i, |spans|);
        if i >= |spans| {
          return None;
        }
      }
      found := Some(spans[i]);
    }
  }

  /** What the search comes to: the last range that starts at or before the
      offset, if it holds the offset. */
  function Looked(ss: seq<Span>, offset: nat): (r: Option<Span>) {
    var i := G.Prev(G.Search(Starts(ss), offset));
    if i < |ss| && ss[i].Holds(offset) then Some(ss[i]) else None
  }

  function End(s: Span): (n: nat) {
    s.start + s.length
  }

  /** No range reaches past a later one into ground that is the later one's to
      answer for: from a start to the next, the last range there decides. */
  ghost predicate Unshadowed(ss: seq<Span>) {
    forall k, i :: 0 <= k < i < |ss| ==> !Shadows(ss, k, i)
  }

  /** Range i is the last with its start and ends before range k does, with a gap
      behind it. */
  predicate Shadows(ss: seq<Span>, k: nat, i: nat)
    requires k < |ss| && i < |ss|
  {
    && End(ss[i]) < End(ss[k])
    && (i + 1 < |ss| ==> End(ss[i]) < ss[i + 1].start)
  }

  /** Whatever the offset, a range that holds it is never overlooked. */
  ghost predicate NoneMissed(ss: seq<Span>) {
    forall offset: nat, s :: s in ss && s.Holds(offset) ==> Looked(ss, offset).Some?
  }

  /** The search misses no range, for any offset, exactly when none is shadowed. */
  lemma LookupExact(ss: seq<Span>)
    requires Ordered(ss)
    ensures Unshadowed(ss) <==> NoneMissed(ss)
  {
    hide Looked, Shadows;
    if Unshadowed(ss) {
      forall offset: nat, s | s in ss && s.Holds(offset)
        ensures Looked(ss, offset).Some?
      {
        var k :| 0 <= k < |ss| && ss[k] == s;
        FoundWhenUnshadowed(ss, offset, k);
      }
    } else {
      var k, i :| 0 <= k < i < |ss| && Shadows(ss, k, i);
      MissedWhenShadowed(ss, k, i);
      assert ss[k] in ss;
    }
  }

  lemma FoundWhenUnshadowed(ss: seq<Span>, offset: nat, k: nat)
    requires Ordered(ss) && Unshadowed(ss) && k < |ss| && ss[k].Holds(offset)
    ensures Looked(ss, offset).Some?
  {
    hide G.Search;
    Behind(ss, offset);
    var u := G.Search(Starts(ss), offset);
    assert k < u;
    var i := u - 1;
    assert k < i ==> !Shadows(ss, k, i);
  }

  /** A shadowed range is missed just behind the range that shadows it. */
  lemma MissedWhenShadowed(ss: seq<Span>, k: nat, i: nat)
    requires Ordered(ss) && k < i < |ss| && Shadows(ss, k, i)
    ensures ss[k].Holds(End(ss[i])) && Looked(ss, End(ss[i])).None?
  {
    hide G.Search;
    var offset := End(ss[i]);
    Behind(ss, offset);
    var u := G.Search(Starts(ss), offset);
    assert u == i + 1;
  }

  /** Ranges that do not overlap are not shadowed. */
  lemma DisjointUnshadowed(ss: seq<Span>)
    requires Ordered(ss) && Disjoint(ss)
    ensures Unshadowed(ss)
  {
    forall k, i | 0 <= k < i < |ss|
      ensures End(ss[k]) <= End(ss[i])
    {
      assert ss[k] in ss && ss[i] in ss && ss[k].start <= ss[i].start;
    }
  }

  /** Insertion does not refuse a range that shadows another, and then the wider
      one is missed. */
  method OverlapMisses() returns (ranges: Ranges, found: Option<Span>)
    ensures ranges.Valid() && Span(0, 100) in ranges.spans && Span(0, 100).Holds(50) && found.None?
    ensures found == Looked(ranges.spans, 50)
  {
    hide G.Search;
    ranges := new Ranges();
    ranges.Insert(0, 100);
    ranges.Insert(10, 5);
    ghost var ss := ranges.spans;
    TwoSpans(ss, Span(0, 100), Span(10, 5));
    assert 50 >= End(ss[1]) && ss[0].Holds(50);
    Behind(ss, 50);
    found := ranges.Lookup(50);
  }

  lemma TwoSpans(ss: seq<Span>, a: Span, b: Span)
    requires Ordered(ss) && multiset(ss) == multiset{a} + multiset{b} && a.start < b.start
    ensures ss == [a, b]
  {
    assert |multiset(ss)| == 2 && |ss| == 2;
    assert a in multiset(ss) && b in multiset(ss);
    assert ss[0] in multiset(ss) && ss[1] in multiset(ss);
    assert ss == [ss[0], ss[1]];
  }
}
