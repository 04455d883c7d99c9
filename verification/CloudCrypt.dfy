/** The encryption and decryption passes over a cloud log segment, and the walk
    from record to record they share.  The cipher and the authenticator are
    parameters: a counter-mode cipher undoes itself under the same counter
    block, and an authenticator has a fixed size. */
module CloudCrypt {
  import opened Bytes
  import opened Options
  import opened CloudItem
  import R = Rangeset

  const ENCRYPTED_MAGIC: Bytes := [0x41, 0x67, 0x49, 0x3d]
  const IV_SIZE: nat := 16
  const AUTH_SIZE: nat := 32

  type Cipher = (Bytes, Bytes) -> Bytes
  type Mac = Bytes -> Bytes

  ghost predicate CounterMode(cipher: Cipher) {
    forall iv: Bytes, d: Bytes :: |cipher(iv, d)| == |d| && cipher(iv, cipher(iv, d)) == d
  }

  ghost predicate Digest(mac: Mac) {
    forall d: Bytes :: |mac(d)| == AUTH_SIZE
  }

  // ------------------------------------------------ walking a segment

  /** A whole record, by what its own header says. */
  predicate Sized(r: Bytes) {
    |r| >= HEADER_SIZE && RecordSize(r) == |r|
  }

  function Flatten(rs: seq<Bytes>): (s: Bytes) {
    if rs == [] then [] else rs[0] + Flatten(rs[1..])
  }

  /** There is another whole record in front. */
  predicate More(s: Bytes) {
    |s| >= HEADER_SIZE && RecordSize(s) <= |s|
  }

  /** The records the walk visits. */
  function Cut(s: Bytes): (rs: seq<Bytes>)
    ensures forall k :: 0 <= k < |rs| ==> Sized(rs[k])
    decreases |s|
  {
    if !More(s) then []
    else
      FrontSized(s);
      [s[..RecordSize(s)]] + Cut(s[RecordSize(s)..])
  }

  lemma FrontSized(s: Bytes)
    requires More(s)
    ensures Sized(s[..RecordSize(s)])
  {
    var r := s[..RecordSize(s)];
    assert r[77..81] == s[77..81] && r[81..85] == s[81..85] && r[85..89] == s[85..89];
  }

  lemma SizedPrefix(r: Bytes, rest: Bytes)
    requires Sized(r)
    ensures More(r + rest) && RecordSize(r + rest) == |r|
    ensures (r + rest)[..|r|] == r && (r + rest)[|r|..] == rest
  {
    var s := r + rest;
    assert s[77..81] == r[77..81] && s[81..85] == r[81..85] && s[85..89] == r[85..89];
  }

  /** Walking records laid end to end visits exactly those records. */
  lemma {:induction false} CutFlatten(rs: seq<Bytes>)
    requires forall k :: 0 <= k < |rs| ==> Sized(rs[k])
    ensures Cut(Flatten(rs)) == rs
  {
    if rs != [] {
      CutFlatten(rs[1..]);
      SizedPrefix(rs[0], Flatten(rs[1..]));
    }
  }

  /** The bytes behind the last whole record, which no pass touches. */
  function Rest(s: Bytes): (t: Bytes)
    decreases |s|
  {
    if !More(s) then s else Rest(s[RecordSize(s)..])
  }

  lemma {:induction false} RestFlatten(rs: seq<Bytes>)
    requires forall k :: 0 <= k < |rs| ==> Sized(rs[k])
    ensures Rest(Flatten(rs)) == []
  {
    if rs != [] {
      RestFlatten(rs[1..]);
      SizedPrefix(rs[0], Flatten(rs[1..]));
    }
  }

  lemma {:induction false} FlattenSplit(a: seq<Bytes>, b: seq<Bytes>)
    ensures Flatten(a + b) == Flatten(a) + Flatten(b)
  {
    if a == [] {
      assert a + b == b;
    } else {
      assert (a + b)[1..] == a[1..] + b;
      FlattenSplit(a[1..], b);
    }
  }

  // ------------------------------------------------ one record

  predicate NeedsEncryption(kind: Byte) {
    kind as int - 0x30 != INODE_MAP && kind as int - 0x30 != CHECKPOINT
  }

  /** The pieces of a record: magic, authenticator, counter block, and the
      rest from the type byte on. */
  function Assemble(magic: Bytes, auth: Bytes, iv: Bytes, tail: Bytes): (r: Bytes) {
    magic + auth + iv + tail
  }

  /** The record with its payload put through the cipher. */
  function Masked(r: Bytes, cipher: Cipher, iv: Bytes): (tail: Bytes)
    requires Sized(r)
  {
    r[52..HEADER_SIZE] + cipher(iv, r[HEADER_SIZE..HEADER_SIZE + Size1(r)]) + r[HEADER_SIZE + Size1(r)..]
  }

  /** The authenticator covers the counter block, the header's tail, the
      payload and the ids, but not the locations. */
  function Authenticator(r: Bytes, mac: Mac): (auth: Bytes)
    requires Sized(r)
  {
    mac(r[36..|r| - Size3(r)])
  }

  /** A record put together with its authenticator; the last `n` bytes of the
      tail are not covered. */
  function Sealed(magic: Bytes, mac: Mac, iv: Bytes, tail: Bytes, n: nat): (r: Bytes)
    requires n <= |tail|
  {
    Assemble(magic, mac((iv + tail)[..|iv + tail| - n]), iv, tail)
  }

  function EncryptBlock(r: Bytes, cipher: Cipher, mac: Mac, random: Bytes): (s: Bytes)
    requires Sized(r) && CounterMode(cipher)
  {
    if NeedsEncryption(r[52]) then Sealed(ENCRYPTED_MAGIC, mac, random, Masked(r, cipher, random), Size3(r))
    else Sealed(r[..4], mac, Zeros(IV_SIZE), r[52..], Size3(r))
  }

  /** Whether a record is accepted: its authenticator agrees, or it is one a
      cleaner may rewrite and the caller lets those through. */
  predicate Accepted(r: Bytes, mac: Mac, allowUnauthenticated: bool)
    requires Sized(r)
  {
    || Authenticator(r, mac) == r[4..36]
    || (allowUnauthenticated && !NeedsEncryption(r[52]))
  }

  function DecryptBlock(r: Bytes, cipher: Cipher, mac: Mac, allowUnauthenticated: bool): (s: Bytes)
    requires Sized(r)
  {
    if !Accepted(r, mac, allowUnauthenticated) || r[..4] == MAGIC then r
    else Assemble(MAGIC, r[4..36], Zeros(IV_SIZE), Masked(r, cipher, r[36..52]))
  }

  lemma AssembledParts(magic: Bytes, auth: Bytes, iv: Bytes, tail: Bytes)
    requires |magic| == 4 && |auth| == AUTH_SIZE && |iv| == IV_SIZE
    ensures var r := Assemble(magic, auth, iv, tail);
      && |r| == 52 + |tail| && r[..4] == magic && r[4..36] == auth && r[36..52] == iv && r[52..] == tail
      && r[36..] == iv + tail
  {
  }

  /** Sizes depend on the header's tail only. */
  lemma SameSizes(r: Bytes, s: Bytes)
    requires Sized(r) && |s| == |r| && s[52..HEADER_SIZE] == r[52..HEADER_SIZE]
    ensures Sized(s) && Size1(s) == Size1(r) && Size2(s) == Size2(r) && Size3(s) == Size3(r) && s[52] == r[52]
  {
    TailSlice(r, 25, 29);
    TailSlice(s, 25, 29);
    TailSlice(r, 29, 33);
    TailSlice(s, 29, 33);
    TailSlice(r, 33, 37);
    TailSlice(s, 33, 37);
    assert s[52] == s[52..HEADER_SIZE][0] && r[52] == r[52..HEADER_SIZE][0];
  }

  lemma TailSlice(r: Bytes, i: nat, j: nat)
    requires |r| >= HEADER_SIZE && i <= j <= 37
    ensures r[52..HEADER_SIZE][i..j] == r[52 + i..52 + j]
  {
    assert forall k :: i <= k < j ==> r[52..HEADER_SIZE][k] == r[52 + k];
  }

  /** Where the locations start, which nothing authenticates. */
  function Head(r: Bytes): (n: nat)
    requires Sized(r)
    ensures HEADER_SIZE <= n <= |r| && n + Size3(r) == |r|
  {
    |r| - Size3(r)
  }

  function Relocated(r: Bytes, locations: Bytes): (s: Bytes)
    requires Sized(r) && |locations| == Size3(r)
  {
    r[..Head(r)] + locations
  }

  lemma RelocatedSizes(r: Bytes, locations: Bytes)
    requires Sized(r) && |locations| == Size3(r)
    ensures var s := Relocated(r, locations);
      Sized(s) && Size1(s) == Size1(r) && Size2(s) == Size2(r) && Size3(s) == Size3(r) && s[52] == r[52]
  {
    var s := Relocated(r, locations);
    assert s[52..HEADER_SIZE] == r[52..HEADER_SIZE];
    SameSizes(r, s);
  }

  lemma MaskedShape(r: Bytes, cipher: Cipher, iv: Bytes)
    requires Sized(r) && CounterMode(cipher)
    ensures |Masked(r, cipher, iv)| == |r| - 52
    ensures Masked(r, cipher, iv)[..37] == r[52..HEADER_SIZE]
  {
    hide Size1, Size2, Size3;
  }

  /** The cipher undoes itself on any record that carries the masked tail. */
  lemma MaskedTwice(r: Bytes, s: Bytes, cipher: Cipher, iv: Bytes)
    requires Sized(r) && CounterMode(cipher) && |s| == |r| && s[52..] == Masked(r, cipher, iv)
    ensures Sized(s) && Masked(s, cipher, iv) == r[52..]
  {
    MaskedShape(r, cipher, iv);
    var t := Masked(r, cipher, iv);
    var n := Size1(r);
    assert s[52..HEADER_SIZE] == t[..37];
    SameSizes(r, s);
    hide Size1, Size2, Size3, CounterMode;
    assert s[HEADER_SIZE..HEADER_SIZE + n] == t[37..37 + n] == cipher(iv, r[HEADER_SIZE..HEADER_SIZE + n]) by {
      CipherSize(cipher, iv, r[HEADER_SIZE..HEADER_SIZE + n]);
    }
    assert s[HEADER_SIZE + n..] == t[37 + n..] == r[HEADER_SIZE + n..] by {
      CipherSize(cipher, iv, r[HEADER_SIZE..HEADER_SIZE + n]);
    }
    CipherSize(cipher, iv, r[HEADER_SIZE..HEADER_SIZE + n]);
  }

  lemma CipherSize(cipher: Cipher, iv: Bytes, d: Bytes)
    requires CounterMode(cipher)
    ensures |cipher(iv, d)| == |d| && cipher(iv, cipher(iv, d)) == d
  {
  }

  /** An encrypted record keeps its size and its header's tail, and passes
      authentication. */
  lemma EncryptedSized(r: Bytes, cipher: Cipher, mac: Mac, random: Bytes)
    requires Sized(r) && CounterMode(cipher) && Digest(mac) && |random| == IV_SIZE
    ensures var e := EncryptBlock(r, cipher, mac, random);
      && |e| == |r| && Sized(e) && e[52] == r[52] && Size3(e) == Size3(r)
      && Accepted(e, mac, false)
      && e[..4] == (if NeedsEncryption(r[52]) then ENCRYPTED_MAGIC else r[..4])
  {
    hide Masked, CounterMode, Size1, Size2, Size3, Sealed, Digest;
    var e := EncryptBlock(r, cipher, mac, random);
    MaskedShape(r, cipher, random);
    var tail := if NeedsEncryption(r[52]) then Masked(r, cipher, random) else r[52..];
    if NeedsEncryption(r[52]) {
      SealedParts(ENCRYPTED_MAGIC, mac, random, tail, Size3(r));
    } else {
      SealedParts(r[..4], mac, Zeros(IV_SIZE), tail, Size3(r));
    }
    assert e[52..HEADER_SIZE] == tail[..37] == r[52..HEADER_SIZE];
    SameSizes(r, e);
  }

  /** Decrypting gives the record back: its magic, and everything from the
      type byte on. */
  lemma BlockRoundTrip(r: Bytes, cipher: Cipher, mac: Mac, random: Bytes, allow: bool)
    requires Sized(r) && r[..4] == MAGIC && CounterMode(cipher) && Digest(mac) && |random| == IV_SIZE
    ensures var e := EncryptBlock(r, cipher, mac, random);
      && Sized(e) && Accepted(e, mac, allow) && (e[..4] == MAGIC || e[..4] == ENCRYPTED_MAGIC)
      && var d := DecryptBlock(e, cipher, mac, allow);
         |d| == |r| && d[..4] == MAGIC && d[52..] == r[52..]
  {
    EncryptedSized(r, cipher, mac, random);
    var e := EncryptBlock(r, cipher, mac, random);
    EncryptedTail(r, cipher, mac, random);
    hide EncryptBlock, Accepted, Size1, Size2, Size3, CounterMode, Digest, Masked, Assemble;
    if NeedsEncryption(r[52]) {
      MaskedTwice(r, e, cipher, random);
      MaskedShape(e, cipher, e[36..52]);
      AssembledParts(MAGIC, e[4..36], Zeros(IV_SIZE), Masked(e, cipher, e[36..52]));
    }
  }

  lemma SealedParts(magic: Bytes, mac: Mac, iv: Bytes, tail: Bytes, n: nat)
    requires |magic| == 4 && |iv| == IV_SIZE && n <= |tail| && Digest(mac)
    ensures var r := Sealed(magic, mac, iv, tail, n);
      && |r| == 52 + |tail| && r[..4] == magic && r[36..52] == iv && r[52..] == tail
      && r[4..36] == mac(r[36..|r| - n])
  {
    var covered := (iv + tail)[..|iv + tail| - n];
    assert |mac(covered)| == AUTH_SIZE;
    hide Digest, Assemble;
    AssembledParts(magic, mac(covered), iv, tail);
    var r := Sealed(magic, mac, iv, tail, n);
    assert r[36..|r| - n] == covered;
  }

  lemma EncryptedTail(r: Bytes, cipher: Cipher, mac: Mac, random: Bytes)
    requires Sized(r) && CounterMode(cipher) && Digest(mac) && |random| == IV_SIZE
    ensures var e := EncryptBlock(r, cipher, mac, random);
      |e| >= 52 && if NeedsEncryption(r[52]) then e[36..52] == random && e[52..] == Masked(r, cipher, random)
      else e[52..] == r[52..]
  {
    hide Masked, CounterMode, Size1, Size2, Size3, Sealed, Digest;
    if NeedsEncryption(r[52]) {
      MaskedShape(r, cipher, random);
      SealedParts(ENCRYPTED_MAGIC, mac, random, Masked(r, cipher, random), Size3(r));
    } else {
      SealedParts(r[..4], mac, Zeros(IV_SIZE), r[52..], Size3(r));
    }
  }

  // ------------------------------------------------ byte by byte

  /** The type bytes of inode map sections and checkpoints, which stay readable
      to a cleaner. */
  predicate Open(kind: Byte) {
    kind == 0x33 || kind == 0x34
  }

  /** What encryption makes of a record.  Of everything but inode map sections and
      checkpoints the payload goes through the cipher under the random counter
      block, and nothing else; the authenticator is that of everything behind it
      but the locations. */
  lemma EncryptedBytes(r: Bytes, cipher: Cipher, mac: Mac, random: Bytes)
    requires Sized(r) && CounterMode(cipher) && Digest(mac) && |random| == IV_SIZE
    ensures var e := EncryptBlock(r, cipher, mac, random);
      var n := 89 + Size1(r);
      && |e| == |r| && n <= |r| && e[52..89] == r[52..89] && e[n..] == r[n..]
      && e[4..36] == mac(e[36..|r| - Size3(r)])
      && (if Open(r[52]) then e[..4] == r[..4] && e[36..52] == Zeros(16) && e[89..n] == r[89..n]
          else e[..4] == [0x41, 0x67, 0x49, 0x3d] && e[36..52] == random && e[89..n] == cipher(random, r[89..n]))
  {
    hide CounterMode, Size1, Size2, Size3, Sealed, Digest;
    var n := 89 + Size1(r);
    assert n <= |r| by { PayloadWithin(r); }
    if Open(r[52]) {
      SealedParts(r[..4], mac, Zeros(IV_SIZE), r[52..], Size3(r));
      var e := EncryptBlock(r, cipher, mac, random);
      assert e[52..][..37] == r[52..][..37] && e[52..][37..n - 52] == r[52..][37..n - 52] && e[52..][n - 52..] == r[52..][n - 52..];
    } else {
      CipherSize(cipher, random, r[89..n]);
      MaskedShape(r, cipher, random);
      var t := Masked(r, cipher, random);
      SealedParts(ENCRYPTED_MAGIC, mac, random, t, Size3(r));
      var e := EncryptBlock(r, cipher, mac, random);
      assert t[..37] == r[52..89] && t[37..n - 52] == cipher(random, r[89..n]) && t[n - 52..] == r[n..];
      assert e[52..89] == t[..37] && e[89..n] == t[37..n - 52] && e[n..] == t[n - 52..];
    }
  }

  lemma PayloadWithin(r: Bytes)
    requires Sized(r)
    ensures 89 + Size1(r) + Size2(r) + Size3(r) == |r|
  {
  }

  /** The authenticator a record carries is not the one it should. */
  predicate Forged(r: Bytes, mac: Mac)
    requires Sized(r)
  {
    mac(r[36..|r| - Size3(r)]) != r[4..36]
  }

  /** What decryption makes of a record.  One with the wrong authenticator stays as
      it is, unless it is one a cleaner may rewrite and those are let through; so
      does one with the plain magic.  Otherwise the payload goes through the cipher
      under the record's own counter block. */
  lemma DecryptedBytes(r: Bytes, cipher: Cipher, mac: Mac, allow: bool)
    requires Sized(r) && CounterMode(cipher)
    ensures var d := DecryptBlock(r, cipher, mac, allow);
      var n := 89 + Size1(r);
      if (Forged(r, mac) && !(allow && Open(r[52]))) || r[..4] == [0x41, 0x67, 0x49, 0x2d] then d == r
      else
        && |d| == |r| && n <= |r| && d[..4] == [0x41, 0x67, 0x49, 0x2d] && d[4..36] == r[4..36]
        && d[36..52] == Zeros(16) && d[52..89] == r[52..89] && d[89..n] == cipher(r[36..52], r[89..n]) && d[n..] == r[n..]
  {
    hide CounterMode, Size1, Size2, Size3;
    var n := 89 + Size1(r);
    assert n <= |r| by { PayloadWithin(r); }
    if !((Forged(r, mac) && !(allow && Open(r[52]))) || r[..4] == MAGIC) {
      var iv := r[36..52];
      CipherSize(cipher, iv, r[89..n]);
      MaskedShape(r, cipher, iv);
      var t := Masked(r, cipher, iv);
      AssembledParts(MAGIC, r[4..36], Zeros(IV_SIZE), t);
      var d := DecryptBlock(r, cipher, mac, allow);
      assert t[..37] == r[52..89] && t[37..n - 52] == cipher(iv, r[89..n]) && t[n - 52..] == r[n..];
      assert d[52..89] == t[..37] && d[89..n] == t[37..n - 52] && d[n..] == t[n - 52..];
    }
  }

  lemma RelocatedMask(r: Bytes, cipher: Cipher, iv: Bytes, locations: Bytes)
    requires Sized(r) && CounterMode(cipher) && |locations| == Size3(r)
    ensures Sized(Relocated(r, locations)) && |Masked(r, cipher, iv)| == |r| - 52
    ensures Masked(Relocated(r, locations), cipher, iv) == Masked(r, cipher, iv)[..|r| - 52 - Size3(r)] + locations
  {
    RelocatedSizes(r, locations);
    MaskedShape(r, cipher, iv);
    hide Size1, Size2, Size3, CounterMode;
    var n := HEADER_SIZE + Size1(r);
    var r2 := Relocated(r, locations);
    CipherSize(cipher, iv, r[HEADER_SIZE..n]);
    assert r2[HEADER_SIZE..n] == r[HEADER_SIZE..n];
    assert r2[n..] == r[n..Head(r)] + locations;
    assert r2[52..HEADER_SIZE] == r[52..HEADER_SIZE];
  }

  lemma RelocatedSeal(magic: Bytes, mac: Mac, iv: Bytes, t: Bytes, locations: Bytes)
    requires |magic| == 4 && |iv| == IV_SIZE && |locations| <= |t| && Digest(mac)
    ensures var n := |locations|;
      var s := Sealed(magic, mac, iv, t, n);
      && |s| == 52 + |t|
      && s[..|s| - n] + locations == Sealed(magic, mac, iv, t[..|t| - n] + locations, n)
  {
    var n := |locations|;
    var t2 := t[..|t| - n] + locations;
    var covered := (iv + t)[..|iv + t| - n];
    assert covered == (iv + t2)[..|iv + t2| - n];
    assert |mac(covered)| == AUTH_SIZE;
    hide Digest;
    assert Assemble(magic, mac(covered), iv, t) == (magic + mac(covered) + iv) + t;
  }

  /** Rewriting the locations commutes with encryption: a cleaner that moves
      items and rewrites nothing else leaves every record authentic. */
  lemma RelocationCommutes(r: Bytes, cipher: Cipher, mac: Mac, random: Bytes, locations: Bytes)
    requires Sized(r) && CounterMode(cipher) && Digest(mac) && |random| == IV_SIZE && |locations| == Size3(r)
    ensures var e := EncryptBlock(r, cipher, mac, random);
      && Sized(e) && Size3(e) == Size3(r) && Sized(Relocated(r, locations))
      && Relocated(e, locations) == EncryptBlock(Relocated(r, locations), cipher, mac, random)
  {
    hide Size1, Size2, Size3, CounterMode, Masked, Sealed, Digest;
    EncryptedSized(r, cipher, mac, random);
    RelocatedSizes(r, locations);
    RelocatedMask(r, cipher, random, locations);
    var r2 := Relocated(r, locations);
    assert r2[52..] == r[52..][..|r| - 52 - |locations|] + locations && r2[..4] == r[..4];
    if NeedsEncryption(r[52]) {
      RelocatedSeal(ENCRYPTED_MAGIC, mac, random, Masked(r, cipher, random), locations);
    } else {
      RelocatedSeal(r[..4], mac, Zeros(IV_SIZE), r[52..], locations);
    }
  }

  /** So a relocated record is still accepted, and reads as the original with
      the new locations. */
  lemma RelocatedAccepted(r: Bytes, cipher: Cipher, mac: Mac, random: Bytes, locations: Bytes)
    requires Sized(r) && r[..4] == MAGIC && CounterMode(cipher) && Digest(mac) && |random| == IV_SIZE
    requires |locations| == Size3(r)
    ensures var e := EncryptBlock(r, cipher, mac, random);
      && Sized(e) && Size3(e) == Size3(r)
      && var m := Relocated(e, locations);
         && Sized(m) && Accepted(m, mac, false)
         && DecryptBlock(m, cipher, mac, false)[..4] == MAGIC
         && DecryptBlock(m, cipher, mac, false)[52..] == Relocated(r, locations)[52..]
  {
    RelocationCommutes(r, cipher, mac, random, locations);
    RelocatedSizes(r, locations);
    var r2 := Relocated(r, locations);
    assert r2[..4] == MAGIC;
    hide EncryptBlock, DecryptBlock, Accepted, Relocated, Size1, Size2, Size3;
    BlockRoundTrip(r2, cipher, mac, random, false);
  }

  // ------------------------------------------------ the passes

  /** Overwrite part of a buffer. */
  method Store(a: array<Byte>, at: nat, s: Bytes)
    requires at + |s| <= a.Length
    modifies a
    ensures a[..] == old(a[..at]) + s + old(a[at + |s|..])
  {
    forall k | at <= k < at + |s| {
      a[k] := s[k - at];
    }
    assert a[..at] == old(a[..at]);
    assert a[at..at + |s|] == s;
  }

  /** A stretch of `n` records, each put through a block operation. */
  function Encrypted(rs: seq<Bytes>, cipher: Cipher, mac: Mac, random: nat -> Bytes): (es: seq<Bytes>)
    requires CounterMode(cipher) && forall k :: 0 <= k < |rs| ==> Sized(rs[k])
    ensures |es| == |rs|
  {
    seq(|rs|, k requires 0 <= k < |rs| => EncryptBlock(rs[k], cipher, mac, random(k)))
  }

  function Decrypted(rs: seq<Bytes>, cipher: Cipher, mac: Mac, allow: bool): (ds: seq<Bytes>)
    requires forall k :: 0 <= k < |rs| ==> Sized(rs[k])
    ensures |ds| == |rs|
  {
    seq(|rs|, k requires 0 <= k < |rs| => DecryptBlock(rs[k], cipher, mac, allow))
  }

  /** How far a pass has come: the records before `at` are replaced by `out`,
      the rest of the buffer is as it was. */
  ghost predicate Passed(now: Bytes, was: Bytes, i: nat, at: nat, out: seq<Bytes>) {
    && i <= |Cut(was)| && at <= |now| == |was| && |out| == i
    && now[..at] == Flatten(out) && now[at..] == was[at..]
    && Cut(was)[i..] == Cut(was[at..]) && Rest(was) == Rest(was[at..])
  }

  lemma PassedNext(now: Bytes, was: Bytes, i: nat, at: nat, out: seq<Bytes>, e: Bytes)
    requires Passed(now, was, i, at, out) && More(now[at..]) && |e| == RecordSize(now[at..])
    ensures i < |Cut(was)| && Cut(was)[i] == now[at..at + |e|]
    ensures Passed(now[..at] + e + now[at + |e|..], was, i + 1, at + |e|, out + [e])
  {
    hide Cut, Rest, Flatten, More, RecordSize;
    var n := |e|;
    PassedRecord(now, was, i, at, out);
    CutNext(was[at..]);
    assert Cut(was)[i + 1..] == Cut(was)[i..][1..];
    assert was[at..][n..] == was[at + n..];
    FlattenSplit(out, [e]);
    FlattenSingle(e);
    Overwritten(now, was, at, e);
  }

  lemma CutNext(s: Bytes)
    requires More(s)
    ensures var n := RecordSize(s);
      Cut(s) != [] && Cut(s)[1..] == Cut(s[n..]) && Rest(s) == Rest(s[n..])
  {
  }

  lemma FlattenSingle(e: Bytes)
    ensures Flatten([e]) == e
  {
    assert Flatten([e]) == e + [];
  }

  lemma Overwritten(now: Bytes, was: Bytes, at: nat, e: Bytes)
    requires at + |e| <= |now| == |was| && now[at..] == was[at..]
    ensures var s := now[..at] + e + now[at + |e|..];
      |s| == |was| && s[..at + |e|] == now[..at] + e && s[at + |e|..] == was[at + |e|..]
  {
    assert now[at..][|e|..] == now[at + |e|..] && was[at..][|e|..] == was[at + |e|..];
  }

  /** Encrypt every record of a segment in place; the program stops on a record
      without the plain magic. */
  method EncryptSegment(a: array<Byte>, cipher: Cipher, mac: Mac, random: nat -> Bytes) returns (ok: bool)
    requires CounterMode(cipher) && Digest(mac) && forall k :: |random(k)| == IV_SIZE
    modifies a
    ensures ok <==> forall k :: 0 <= k < |Cut(old(a[..]))| ==> Cut(old(a[..]))[k][..4] == MAGIC
    ensures ok ==> a[..] == Flatten(Encrypted(Cut(old(a[..])), cipher, mac, random)) + Rest(old(a[..]))
  {
    hide Flatten, EncryptBlock, CounterMode, Digest, Cut, Rest, Passed, RecordSize, MAGIC, NeedsEncryption, Accepted;
    ghost var was := a[..];
    ghost var rs := Cut(was);
    ghost var es := Encrypted(rs, cipher, mac, random);
    var at, i := 0, 0;
    PassStarts(was);
    assert a[..] == was;
    while More(a[at..])
      invariant at <= a.Length && i <= |rs| && Passed(a[..], was, i, at, es[..i])
      invariant forall k :: 0 <= k < i ==> rs[k][..4] == MAGIC
      decreases a.Length - at
    {
      var n := RecordSize(a[at..]);
      var r := a[at..at + n];
      PassedRecord(a[..], was, i, at, es[..i]);
      assert r == a[..][at..at + n] && a[..][at..] == a[at..];
      if r[..4] != MAGIC {
        return false;
      }
      EncryptedSized(r, cipher, mac, random(i));
      var e := EncryptBlock(r, cipher, mac, random(i));
      PassedNext(a[..], was, i, at, es[..i], e);
      assert es[..i] + [e] == es[..i + 1];
      Store(a, at, e);
      at := at + n;
      i := i + 1;
    }
    PassEnds(a[..], was, i, at, es[..i]);
    assert es[..i] == es;
    ok := true;
  }

  lemma PassStarts(was: Bytes)
    ensures Passed(was, was, 0, 0, [])
  {
    assert was[0..] == was;
    assert Cut(was)[0..] == Cut(was);
    hide Cut, Rest;
  }

  lemma PassedRecord(now: Bytes, was: Bytes, i: nat, at: nat, out: seq<Bytes>)
    requires Passed(now, was, i, at, out) && More(now[at..])
    ensures var n := RecordSize(now[at..]);
      at + n <= |now| && i < |Cut(was)| && Cut(was)[i] == now[at..at + n] && Sized(now[at..at + n])
  {
    var n := RecordSize(now[at..]);
    assert Cut(was)[i..] == [now[at..][..n]] + Cut(now[at..][n..]);
    assert now[at..][..n] == now[at..at + n];
  }

  lemma PassEnds(now: Bytes, was: Bytes, i: nat, at: nat, out: seq<Bytes>)
    requires Passed(now, was, i, at, out) && !More(now[at..])
    ensures i == |Cut(was)| && now == Flatten(out) + Rest(was)
  {
    assert Cut(was)[i..] == [];
    assert now == now[..at] + now[at..];
  }

  /** Decrypt every record of a segment in place and note where records are;
      the program stops on a magic it does not know.  A record that fails
      authentication is noted too, but stays as it is. */
  method DecryptSegment(a: array<Byte>, cipher: Cipher, mac: Mac, allow: bool, items: R.Ranges) returns (ok: bool)
    requires CounterMode(cipher) && Digest(mac) && items.Valid()
    modifies a, items
    ensures items.Valid() && (ok <==> forall k :: 0 <= k < |Cut(old(a[..]))| ==> Known(Cut(old(a[..]))[k]))
    ensures ok ==> a[..] == Flatten(Decrypted(Cut(old(a[..])), cipher, mac, allow)) + Rest(old(a[..]))
    ensures ok ==> multiset(items.spans) == multiset(old(items.spans)) + multiset(Layout(Cut(old(a[..]))))
  {
    hide Flatten, DecryptBlock, CounterMode, Digest, Cut, Rest, Passed, RecordSize, Layout, Known, R.Ordered, Sized,
      MAGIC;
    ghost var was := a[..];
    ghost var rs := Cut(was);
    ghost var ds := Decrypted(rs, cipher, mac, allow);
    var at, i := 0, 0;
    PassStarts(was);
    LayoutStarts();
    assert a[..] == was && rs[..0] == [];
    while More(a[at..])
      invariant at <= a.Length && i <= |rs| && Passed(a[..], was, i, at, ds[..i]) && items.Valid()
      invariant multiset(items.spans) == multiset(old(items.spans)) + multiset(Layout(rs[..i]))
      invariant at == |Flatten(rs[..i])|
      invariant forall k :: 0 <= k < i ==> Known(rs[k])
      decreases a.Length - at
    {
      var n := RecordSize(a[at..]);
      var r := a[at..at + n];
      PassedRecord(a[..], was, i, at, ds[..i]);
      assert r == a[..][at..at + n] && a[..][at..] == a[at..];
      if !Known(r) {
        return false;
      }
      DecryptedSized(r, cipher, mac, allow);
      var d := DecryptBlock(r, cipher, mac, allow);
      PassedNext(a[..], was, i, at, ds[..i], d);
      assert ds[..i] + [d] == ds[..i + 1] && rs[..i] + [r] == rs[..i + 1];
      LayoutNext(rs[..i], r);
      Store(a, at, d);
      items.Insert(at, n);
      at := at + n;
      i := i + 1;
    }
    PassEnds(a[..], was, i, at, ds[..i]);
    assert ds[..i] == ds && rs[..i] == rs;
    ok := true;
  }

  predicate Known(r: Bytes) {
    |r| >= 4 && (r[..4] == MAGIC || r[..4] == ENCRYPTED_MAGIC)
  }

  /** The two magic numbers differ in their last byte. */
  lemma KnownExact(r: Bytes)
    ensures Known(r) <==> |r| >= 4 && r[..3] == [0x41, 0x67, 0x49] && (r[3] == 0x2d || r[3] == 0x3d)
  {
    if |r| >= 4 {
      assert r[..4] == r[..3] + [r[3]];
      assert MAGIC[..3] == [0x41, 0x67, 0x49] && ENCRYPTED_MAGIC[..3] == [0x41, 0x67, 0x49];
      assert r[..3] == r[..4][..3];
    }
  }

  /** Where records laid end to end start, and their sizes. */
  function Layout(rs: seq<Bytes>): (l: seq<R.Span>)
    ensures |l| == |rs|
  {
    seq(|rs|, k requires 0 <= k < |rs| => R.Span(|Flatten(rs[..k])|, |rs[k]|))
  }

  lemma LayoutStarts()
    ensures Layout([]) == [] && Flatten([]) == []
  {
  }

  lemma LayoutNext(rs: seq<Bytes>, r: Bytes)
    ensures Layout(rs + [r]) == Layout(rs) + [R.Span(|Flatten(rs)|, |r|)]
    ensures multiset(Layout(rs + [r])) == multiset(Layout(rs)) + multiset{R.Span(|Flatten(rs)|, |r|)}
    ensures |Flatten(rs + [r])| == |Flatten(rs)| + |r|
  {
    FlattenSplit(rs, [r]);
    assert Flatten([r]) == r + [];
    hide Flatten;
    assert (rs + [r])[..|rs|] == rs;
    assert forall k :: 0 <= k < |rs| ==> (rs + [r])[..k] == rs[..k];
  }

  /** The ranges noted do not overlap, so looking one up misses none. */
  lemma LayoutDisjoint(rs: seq<Bytes>)
    requires forall k :: 0 <= k < |rs| ==> |rs[k]| > 0
    ensures R.Disjoint(Layout(rs))
  {
    hide Flatten;
    var l := Layout(rs);
    forall i, j | 0 <= i < j < |l|
      ensures l[i].start + l[i].length <= l[j].start
    {
      assert rs[..j] == rs[..i] + [rs[i]] + rs[i + 1..j];
      FlattenSplit(rs[..i] + [rs[i]], rs[i + 1..j]);
      LayoutNext(rs[..i], rs[i]);
    }
    forall x, y | x in l && y in l && x != y
      ensures x.start + x.length <= y.start || y.start + y.length <= x.start
    {
      var i :| 0 <= i < |l| && l[i] == x;
      var j :| 0 <= j < |l| && l[j] == y;
    }
  }

  lemma DecryptedSized(r: Bytes, cipher: Cipher, mac: Mac, allow: bool)
    requires Sized(r) && CounterMode(cipher)
    ensures |DecryptBlock(r, cipher, mac, allow)| == |r|
  {
    MaskedShape(r, cipher, r[36..52]);
    hide Masked, CounterMode;
  }

  // ------------------------------------------------ whole segments

  ghost predicate Holding(rs: seq<Bytes>, items: seq<Item>) {
    |rs| == |items| && forall k :: 0 <= k < |rs| ==> IsRecord(rs[k], items[k]) && items[k].Fits()
  }

  lemma HoldingSized(rs: seq<Bytes>, items: seq<Item>)
    requires Holding(rs, items)
    ensures forall k :: 0 <= k < |rs| ==> Sized(rs[k]) && rs[k][..4] == MAGIC
  {
    forall k | 0 <= k < |rs|
      ensures Sized(rs[k]) && rs[k][..4] == MAGIC
    {
      RecordFields(rs[k], items[k], []);
      assert rs[k] + [] == rs[k];
    }
  }

  /** Encrypting a segment of records keeps where every record is; decrypting
      it visits and accepts exactly those, and gives records of the same items
      back. */
  lemma SegmentRoundTrip(rs: seq<Bytes>, items: seq<Item>, cipher: Cipher, mac: Mac, random: nat -> Bytes, allow: bool)
    requires Holding(rs, items) && CounterMode(cipher) && Digest(mac) && forall k :: |random(k)| == IV_SIZE
    ensures forall k :: 0 <= k < |rs| ==> Sized(rs[k]) && rs[k][..4] == MAGIC
    ensures Cut(Flatten(rs)) == rs && Rest(Flatten(rs)) == []
    ensures var es := Encrypted(rs, cipher, mac, random);
      && (forall k :: 0 <= k < |es| ==> Sized(es[k]) && Known(es[k]) && Accepted(es[k], mac, allow))
      && Cut(Flatten(es)) == es && Rest(Flatten(es)) == [] && Layout(es) == Layout(rs)
      && Holding(Decrypted(es, cipher, mac, allow), items)
  {
    hide Cut, Rest, Flatten, Layout, IsRecord, EncryptBlock, DecryptBlock, Accepted, Known, Masked, CounterMode, Digest,
      Sized, MAGIC;
    HoldingSized(rs, items);
    CutFlatten(rs);
    RestFlatten(rs);
    var es := Encrypted(rs, cipher, mac, random);
    forall k | 0 <= k < |es|
      ensures Sized(es[k]) && Known(es[k]) && Accepted(es[k], mac, allow) && |es[k]| == |rs[k]|
      ensures IsRecord(DecryptBlock(es[k], cipher, mac, allow), items[k])
    {
      EncryptedSized(rs[k], cipher, mac, random(k));
      RecordRoundTrip(rs[k], items[k], cipher, mac, random(k), allow);
    }
    CutFlatten(es);
    RestFlatten(es);
    SameLayout(rs, es);
  }

  lemma RecordRoundTrip(r: Bytes, item: Item, cipher: Cipher, mac: Mac, random: Bytes, allow: bool)
    requires IsRecord(r, item) && Sized(r) && CounterMode(cipher) && Digest(mac) && |random| == IV_SIZE
    ensures var e := EncryptBlock(r, cipher, mac, random);
      Sized(e) && Known(e) && Accepted(e, mac, allow) && IsRecord(DecryptBlock(e, cipher, mac, allow), item)
  {
    BlockRoundTrip(r, cipher, mac, random, allow);
    hide EncryptBlock, DecryptBlock, Body, CounterMode, Digest, Accepted;
  }

  lemma {:induction false} SameSizedFlatten(a: seq<Bytes>, b: seq<Bytes>)
    requires |a| == |b| && forall k :: 0 <= k < |a| ==> |a[k]| == |b[k]|
    ensures |Flatten(a)| == |Flatten(b)|
  {
    if a != [] {
      SameSizedFlatten(a[1..], b[1..]);
    }
  }

  lemma SameLayout(a: seq<Bytes>, b: seq<Bytes>)
    requires |a| == |b| && forall k :: 0 <= k < |a| ==> |a[k]| == |b[k]|
    ensures Layout(a) == Layout(b)
  {
    forall k | 0 <= k < |a|
      ensures Layout(a)[k] == Layout(b)[k]
    {
      SameSizedFlatten(a[..k], b[..k]);
    }
  }

  /** Every item is read back from where its record starts. */
  lemma ItemAtLocation(rs: seq<Bytes>, items: seq<Item>, k: nat)
    requires Holding(rs, items) && k < |rs| && Named(items[k].links)
    ensures |Flatten(rs[..k])| <= |Flatten(rs)|
    ensures ReadItem(Flatten(rs)[|Flatten(rs[..k])|..]) == Some(items[k])
  {
    hide IsRecord, ReadItem, Named;
    assert rs == rs[..k] + rs[k..];
    FlattenSplit(rs[..k], rs[k..]);
    assert rs[k..][1..] == rs[k + 1..];
    assert Flatten(rs)[|Flatten(rs[..k])|..] == rs[k] + Flatten(rs[k + 1..]);
    hide Flatten;
    ItemRead(rs[k], items[k], Flatten(rs[k + 1..]));
  }

  /** A record of a segment that carries the encrypted magic and the wrong
      authenticator is not read after the decryption pass. */
  lemma ForgedRefused(rs: seq<Bytes>, cipher: Cipher, mac: Mac, allow: bool, k: nat)
    requires CounterMode(cipher) && k < |rs| && forall m :: 0 <= m < |rs| ==> Sized(rs[m])
    requires Sized(rs[k]) && rs[k][..4] == [0x41, 0x67, 0x49, 0x3d]
    requires Forged(rs[k], mac) && !(allow && Open(rs[k][52]))
    ensures var s := Flatten(Decrypted(rs, cipher, mac, allow));
      var at := |Flatten(rs[..k])|;
      at + |rs[k]| <= |s| && s[at..at + |rs[k]|] == rs[k] && ReadItem(s[at..]) == None
  {
    hide CounterMode, DecryptBlock, Size1, Size2, Size3, Flatten;
    var ds := Decrypted(rs, cipher, mac, allow);
    forall m | 0 <= m < |rs|
      ensures |ds[m]| == |rs[m]|
    {
      DecryptedSized(rs[m], cipher, mac, allow);
    }
    DecryptedBytes(rs[k], cipher, mac, allow);
    SameSizedFlatten(ds[..k], rs[..k]);
    assert ds == ds[..k] + ([ds[k]] + ds[k + 1..]);
    FlattenSplit(ds[..k], [ds[k]] + ds[k + 1..]);
    FlattenSplit([ds[k]], ds[k + 1..]);
    FlattenSingle(ds[k]);
    var s := Flatten(ds);
    var at := |Flatten(rs[..k])|;
    assert s[at..] == rs[k] + Flatten(ds[k + 1..]);
    assert s[at..][..4] == rs[k][..4];
    assert s[at..][..4][3] != MAGIC[3];
  }

  const INT_LIMIT: nat := 0x8000_0000

  /** How the scan ends, if it does. */
  datatype Scan = Ended(found: Option<(nat, nat)>) | Endless

  /** The size of the record in front, added up in a signed 32-bit integer. */
  function IntSize(s: Bytes): (n: int)
    requires |s| >= HEADER_SIZE
    ensures -0x8000_0000 <= n < 0x8000_0000 && (RecordSize(s) - n) % 0x1_0000_0000 == 0
  {
    var v := RecordSize(s) % U32_LIMIT;
    if v < INT_LIMIT then v else v - U32_LIMIT
  }

  /** The scan for the last checkpoint record of a segment.  A size that comes
      out negative is larger than any length; one that comes out zero is never
      got past. */
  method FindCheckpoint(s: Bytes) returns (scan: Scan)
    ensures scan == LastCheckpoint(s, 0, None)
  {
    hide IntSize;
    var at := 0;
    var found: Option<(nat, nat)> := None;
    assert s[0..] == s;
    while |s| - at > HEADER_SIZE && s[at..][..4] == MAGIC && 0 <= IntSize(s[at..]) <= |s| - at
      invariant at <= |s| && LastCheckpoint(s, 0, None) == LastCheckpoint(s[at..], at, found)
      decreases |s| - at
    {
      var n: nat := IntSize(s[at..]);
      if n == 0 {
        return Endless;
      }
      if s[at + 52] as int - 0x30 == CHECKPOINT {
        found := Some((at, n));
      }
      assert s[at..][n..] == s[at + n..];
      at := at + n;
    }
    scan := Ended(found);
  }

  function LastCheckpoint(s: Bytes, at: nat, found: Option<(nat, nat)>): (r: Scan)
    decreases |s|
  {
    if |s| <= HEADER_SIZE || s[..4] != MAGIC || !(0 <= IntSize(s) <= |s|) then Ended(found)
    else if IntSize(s) == 0 then Endless
    else
      var n := IntSize(s);
      LastCheckpoint(s[n..], at + n, if s[52] as int - 0x30 == CHECKPOINT then Some((at, n)) else found)
  }

  lemma ScanStep(r: Bytes, item: Item, more: Bytes, at: nat, found: Option<(nat, nat)>)
    requires IsRecord(r, item) && item.Fits() && (item.data != [] || more != []) && |r| < INT_LIMIT
    ensures LastCheckpoint(r + more, at, found)
      == LastCheckpoint(more, at + |r|, if item.kind == CHECKPOINT then Some((at, |r|)) else found)
  {
    hide IsRecord, Size1, Size2, Size3, Decode, Ids, Locations, MAGIC, Body;
    RecordFields(r, item, more);
    var t := r + more;
    assert |t| > HEADER_SIZE && IntSize(t) == |r| by { hide LastCheckpoint; }
    hide RecordSize, IntSize, Item.Fits;
    assert t[|r|..] == more;
    assert t[..4] == MAGIC && t[52] as int - 0x30 == item.kind;
  }

  /** In a segment whose last record is a checkpoint the scan finds that one; a
      checkpoint's payload is never empty. */
  lemma {:induction false} CheckpointFound(rs: seq<Bytes>, items: seq<Item>, at: nat, found: Option<(nat, nat)>)
    requires Holding(rs, items) && rs != []
    requires items[|items| - 1].kind == CHECKPOINT && items[|items| - 1].data != []
    requires forall k :: 0 <= k < |rs| ==> |rs[k]| < INT_LIMIT
    ensures LastCheckpoint(Flatten(rs), at, found)
      == Ended(Some((at + |Flatten(rs[..|rs| - 1])|, |rs[|rs| - 1]|)))
  {
    hide IsRecord, LastCheckpoint, RecordSize, IntSize;
    var n := |rs| - 1;
    var more := Flatten(rs[1..]);
    if n == 0 {
      ScanStep(rs[0], items[0], more, at, found);
      NothingLeft(at + |rs[0]|, Some((at, |rs[0]|)));
    } else {
      HoldingSized(rs, items);
      assert rs[1..][0] == rs[1] && |more| >= |rs[1]|;
      ScanStep(rs[0], items[0], more, at, found);
      var found' := if items[0].kind == CHECKPOINT then Some((at, |rs[0]|)) else found;
      CheckpointFound(rs[1..], items[1..], at + |rs[0]|, found');
      assert rs[1..][..n - 1] == rs[..n][1..];
      assert rs[..n][0] == rs[0];
    }
  }

  lemma NothingLeft(at: nat, found: Option<(nat, nat)>)
    ensures LastCheckpoint([], at, found) == Ended(found)
  {
  }
}
