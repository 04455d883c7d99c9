/** The journal as a sequence of files of whole records, and what replay makes
    of it: the last record of an inode wins. */
module JournalRecords {
  import opened Options

  type Inum = nat

  /** A version of an inode, as one serialized item holds it. */
  type Version = nat

  /** Record `idx` of file `seg`. */
  datatype Pos = Pos(seg: nat, idx: nat)

  datatype Rec = Inode(inum: Inum, version: Version) | Marker | Commit(point: Pos)

  type Journal = seq<seq<Rec>>

  type Versions = map<Inum, Version>

  const START := Pos(0, 0)

  // ------------------------------------------------ last record wins

  function Last(recs: seq<Rec>): (m: Versions)
  {
    if recs == [] then map[]
    else
      var rest := Last(recs[..|recs| - 1]);
      match recs[|recs| - 1]
      case Inode(i, v) => rest[i := v]
      case _ => rest
  }

  lemma {:induction false} LastOfConcat(a: seq<Rec>, b: seq<Rec>)
    ensures Last(a + b) == Last(a) + Last(b)
    decreases |b|
  {
    if b == [] {
      assert a + b == a;
    } else {
      assert (a + b)[..|a + b| - 1] == a + b[..|b| - 1];
      LastOfConcat(a, b[..|b| - 1]);
    }
  }

  lemma LastOfNext(a: seq<Rec>, r: Rec)
    ensures Last(a + [r]) == if r.Inode? then Last(a)[r.inum := r.version] else Last(a)
  {
    assert (a + [r])[..|a|] == a;
  }

  /** The commit point of the last commit record, if there is one. */
  function LastCommit(recs: seq<Rec>): (p: Option<Pos>)
  {
    if recs == [] then None
    else if recs[|recs| - 1].Commit? then Some(recs[|recs| - 1].point)
    else LastCommit(recs[..|recs| - 1])
  }

  lemma {:induction false} CommitOfConcat(a: seq<Rec>, b: seq<Rec>)
    ensures LastCommit(a + b) == if LastCommit(b).Some? then LastCommit(b) else LastCommit(a)
    decreases |b|
  {
    if b == [] {
      assert a + b == a;
    } else {
      assert (a + b)[..|a + b| - 1] == a + b[..|b| - 1];
      CommitOfConcat(a, b[..|b| - 1]);
    }
  }

  // ------------------------------------------------ positions in a journal

  predicate Within(p: Pos, j: Journal) {
    p.seg < |j| && p.idx <= |j[p.seg]|
  }

  predicate AtOrBefore(p: Pos, q: Pos) {
    p.seg < q.seg || (p.seg == q.seg && p.idx <= q.idx)
  }

  /** All records at or after a position. */
  function From(j: Journal, p: Pos): (recs: seq<Rec>)
    requires p.seg < |j| ==> p.idx <= |j[p.seg]|
    decreases |j| - p.seg
  {
    if p.seg >= |j| then [] else j[p.seg][p.idx..] + From(j, Pos(p.seg + 1, 0))
  }

  function All(j: Journal): (recs: seq<Rec>) {
    From(j, START)
  }

  function End(j: Journal): (p: Pos)
    requires j != []
    ensures Within(p, j)
  {
    Pos(|j| - 1, |j[|j| - 1]|)
  }

  function Newest(j: Journal): (f: seq<Rec>)
    requires j != []
  {
    j[|j| - 1]
  }

  /** The journal after one more record in its last file. */
  function Push(j: Journal, r: Rec): (j': Journal)
    requires j != []
    ensures |j'| == |j|
  {
    j[|j| - 1 := j[|j| - 1] + [r]]
  }

  /** The journal with only the first `n` records of its last file. */
  function Cut(j: Journal, n: nat): (j': Journal)
    requires j != [] && n <= |j[|j| - 1]|
    ensures |j'| == |j|
  {
    j[|j| - 1 := j[|j| - 1][..n]]
  }

  lemma {:induction false} FromPush(j: Journal, r: Rec, p: Pos)
    requires j != [] && Within(p, j)
    ensures Within(p, Push(j, r)) && From(Push(j, r), p) == From(j, p) + [r]
    decreases |j| - p.seg
  {
    var j' := Push(j, r);
    if p.seg == |j| - 1 {
      assert j'[p.seg][p.idx..] == j[p.seg][p.idx..] + [r];
      assert From(j, Pos(p.seg + 1, 0)) == [] == From(j', Pos(p.seg + 1, 0));
    } else {
      FromPush(j, r, Pos(p.seg + 1, 0));
    }
  }

  lemma {:induction false} FromNewFile(j: Journal, f: seq<Rec>, p: Pos)
    requires Within(p, j)
    ensures From(j + [f], p) == From(j, p) + f
    decreases |j| - p.seg
  {
    var next := Pos(p.seg + 1, 0);
    assert (j + [f])[p.seg] == j[p.seg];
    if p.seg == |j| - 1 {
      FromNewFileStart(j, f);
      assert From(j, next) == [];
    } else {
      FromNewFile(j, f, next);
    }
    assert From(j + [f], next) == From(j, next) + f;
    assert From(j + [f], p) == j[p.seg][p.idx..] + From(j + [f], next);
    hide From;
    assert j[p.seg][p.idx..] + (From(j, next) + f) == (j[p.seg][p.idx..] + From(j, next)) + f;
  }

  lemma FromNewFileStart(j: Journal, f: seq<Rec>)
    ensures From(j + [f], Pos(|j|, 0)) == f
  {
    assert From(j + [f], Pos(|j| + 1, 0)) == [];
    assert f[0..] + [] == f;
  }

  lemma CutWhole(j: Journal)
    requires j != []
    ensures Cut(j, |j[|j| - 1]|) == j
  {
    var last := j[|j| - 1];
    assert last[..|last|] == last;
  }

  lemma CutPushed(j: Journal, r: Rec, n: nat)
    requires j != [] && n <= |j[|j| - 1]|
    ensures Cut(Push(j, r), n) == Cut(j, n)
    ensures Cut(Push(j, r), |j[|j| - 1]| + 1) == Push(j, r)
  {
    var last := j[|j| - 1];
    assert (last + [r])[..n] == last[..n];
    assert (last + [r])[..|last| + 1] == last + [r];
  }

  /** A later position sees a suffix of what an earlier one sees. */
  lemma {:induction false} FromSuffix(j: Journal, p: Pos, q: Pos) returns (skipped: seq<Rec>)
    requires Within(p, j) && Within(q, j) && AtOrBefore(p, q)
    ensures From(j, p) == skipped + From(j, q)
    decreases q.seg - p.seg
  {
    if p.seg == q.seg {
      skipped := j[p.seg][p.idx..q.idx];
      assert j[p.seg][p.idx..] == skipped + j[p.seg][q.idx..];
    } else {
      var rest := FromSuffix(j, Pos(p.seg + 1, 0), q);
      skipped := j[p.seg][p.idx..] + rest;
    }
  }

  /** Inodes seen from a later position are seen from an earlier one, with the
      same version. */
  lemma LastFromLater(j: Journal, p: Pos, q: Pos)
    requires Within(p, j) && Within(q, j) && AtOrBefore(p, q)
    ensures Last(From(j, q)).Keys <= Last(From(j, p)).Keys
    ensures forall i :: i in Last(From(j, q)) ==> Last(From(j, p))[i] == Last(From(j, q))[i]
  {
    var skipped := FromSuffix(j, p, q);
    LastOfConcat(skipped, From(j, q));
  }

  lemma {:induction false} FromCut(j: Journal, n: nat, p: Pos)
    requires j != [] && n <= |j[|j| - 1]| && Within(p, Cut(j, n))
    ensures Within(p, j) && From(j, p) == From(Cut(j, n), p) + j[|j| - 1][n..]
    decreases |j| - p.seg
  {
    var c := Cut(j, n);
    var last := |j| - 1;
    if p.seg == last {
      assert j[last][p.idx..] == c[last][p.idx..] + j[last][n..];
      assert From(j, Pos(p.seg + 1, 0)) == [] == From(c, Pos(p.seg + 1, 0));
    } else {
      FromCut(j, n, Pos(p.seg + 1, 0));
    }
  }

  /** Cutting off the end of the journal hides inodes, it never shows new ones. */
  lemma CutKeys(j: Journal, m: nat, n: nat, p: Pos)
    requires j != [] && m <= n <= |j[|j| - 1]| && Within(p, Cut(j, m))
    ensures Within(p, Cut(j, n))
    ensures Last(From(Cut(j, m), p)).Keys <= Last(From(Cut(j, n), p)).Keys
  {
    var c := Cut(j, n);
    assert c[|c| - 1][..m] == j[|j| - 1][..m];
    assert Cut(c, m) == Cut(j, m);
    FromCut(c, m, p);
    LastOfConcat(From(Cut(c, m), p), c[|c| - 1][m..]);
  }

  // ------------------------------------------------ replay

  /** The commit point replay finds: files are scanned from the newest back, a
      deleted file is not there to scan, and the first file with a commit record
      decides. */
  function FindCommit(j: Journal, gone: set<nat>): (p: Pos)
  {
    if j == [] then START
    else
      var n := |j| - 1;
      var found := if n in gone then None else LastCommit(j[n]);
      if found.Some? && found.value != START then found.value else FindCommit(j[..n], gone)
  }

  /** The records replay reads: up to the first file that does not exist. */
  function ReplayFrom(j: Journal, gone: set<nat>, p: Pos): (recs: seq<Rec>)
    requires p.seg < |j| ==> p.idx <= |j[p.seg]|
    decreases |j| - p.seg
  {
    if p.seg >= |j| || p.seg in gone then []
    else j[p.seg][p.idx..] + ReplayFrom(j, gone, Pos(p.seg + 1, 0))
  }

  lemma {:induction false} ReplayWhole(j: Journal, gone: set<nat>, p: Pos)
    requires p.seg < |j| ==> p.idx <= |j[p.seg]|
    requires forall n :: n in gone ==> n < p.seg
    ensures ReplayFrom(j, gone, p) == From(j, p)
    decreases |j| - p.seg
  {
    if p.seg < |j| {
      ReplayWhole(j, gone, Pos(p.seg + 1, 0));
    }
  }

  /** Commit records point backwards, and never to the very start. */
  predicate CommitsBackward(j: Journal) {
    forall f, k :: 0 <= f < |j| && 0 <= k < |j[f]| && j[f][k].Commit? ==>
      j[f][k].point != START && Within(j[f][k].point, j) && AtOrBefore(j[f][k].point, Pos(f, k))
  }

  /** The commit point of a journal none of whose files is missing. */
  function PointOf(j: Journal): (p: Pos) {
    var c := LastCommit(All(j));
    if c.Some? then c.value else START
  }

  lemma {:induction false} LastCommitMember(recs: seq<Rec>) returns (k: nat)
    requires LastCommit(recs).Some?
    ensures k < |recs| && recs[k].Commit? && LastCommit(recs) == Some(recs[k].point)
  {
    var n := |recs| - 1;
    if recs[n].Commit? {
      k := n;
    } else {
      k := LastCommitMember(recs[..n]);
    }
  }

  lemma AllOfPrefix(j: Journal)
    requires j != []
    ensures All(j) == All(j[..|j| - 1]) + j[|j| - 1]
  {
    var n := |j| - 1;
    assert j == j[..n] + [j[n]];
    if n > 0 {
      FromNewFile(j[..n], j[n], START);
    } else {
      FromNewFileStart(j[..n], j[n]);
    }
  }

  /** The backward scan finds the last commit record, provided only files before
      its commit point are missing. */
  lemma {:induction false} FindsLastCommit(j: Journal, gone: set<nat>)
    requires forall f, k :: 0 <= f < |j| && 0 <= k < |j[f]| && j[f][k].Commit? ==>
               j[f][k].point != START && j[f][k].point.seg <= f
    requires forall n :: n in gone ==> n < PointOf(j).seg
    ensures FindCommit(j, gone) == PointOf(j)
    decreases |j|
  {
    if j != [] {
      var n := |j| - 1;
      AllOfPrefix(j);
      CommitOfConcat(All(j[..n]), j[n]);
      if LastCommit(j[n]).Some? {
        var k := LastCommitMember(j[n]);
        assert j[n][k].point.seg <= n;
      } else {
        FindsLastCommit(j[..n], gone);
      }
    }
  }
}
