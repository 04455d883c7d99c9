/** Reassembly of RPC messages from a TCP stream (record marking, section 11 of
    RFC 5531).  What is dispatched depends on the bytes of the stream only, not
    on how reads happened to cut it, and every stream of well-formed records
    yields exactly the messages framed in it. */
module Rpc {
  import opened Bytes

  const MAX_RPC_MSGSIZE: nat := 0x80_0000

  /** The bit of a fragment header that marks a message's last fragment. */
  const LAST: nat := 0x8000_0000

  const NFS_PROGRAM: nat := 100003
  const NFS_V3: nat := 3

  // ------------------------------------------------ numbers in network order

  function Reversed(s: Bytes): (r: Bytes)
    ensures |r| == |s|
  {
    if s == [] then [] else Reversed(s[1..]) + [s[0]]
  }

  function Be32(v: nat): (s: Bytes)
    ensures |s| == 4
  {
    Reversed(Le32(v))
  }

  function FromBe32(s: Bytes): (v: nat)
    requires |s| == 4
  {
    Decode(Reversed(s))
  }

  lemma {:induction false} ReversedTwice(s: Bytes)
    ensures Reversed(Reversed(s)) == s
  {
    if s != [] {
      ReversedTwice(s[1..]);
      ReversedSnoc(Reversed(s[1..]), s[0]);
    }
  }

  lemma {:induction false} ReversedSnoc(s: Bytes, x: Byte)
    ensures Reversed(s + [x]) == [x] + Reversed(s)
  {
    if s == [] {
      assert s + [x] == [x];
    } else {
      ReversedSnoc(s[1..], x);
      assert (s + [x])[1..] == s[1..] + [x];
    }
  }

  lemma BeRoundTrip(v: nat)
    requires v < U32_LIMIT
    ensures FromBe32(Be32(v)) == v
  {
    hide Decode, Le32, Reversed;
    ReversedTwice(Le32(v));
    RoundTrip32(v);
  }

  // ------------------------------------------------ dispatch

  function WordAt(msg: Bytes, at: nat): (v: nat)
    requires at + 4 <= |msg|
  {
    FromBe32(msg[at..at + 4])
  }

  /** Skip one authentication header, or fail. */
  function SkipAuth(msg: Bytes, at: nat): (next: int)
    ensures next < 0 || next > at
  {
    if at + 8 > |msg| then -1
    else
      var size := WordAt(msg, at + 4) + 8;
      if size > MAX_RPC_MSGSIZE then -1 else at + size
  }

  /** What becomes of a complete message: it cannot be processed and the
      connection is closed, the program it calls is not there, or it is a call
      with its arguments. */
  datatype Outcome = Refused | Unavailable(xid: nat) | Call(xid: nat, procedure: nat, args: Bytes)

  function Dispatch(msg: Bytes): (o: Outcome) {
    if |msg| < 24 || WordAt(msg, 4) != 0 || WordAt(msg, 8) != 2 then Refused
    else if WordAt(msg, 12) != NFS_PROGRAM || WordAt(msg, 16) != NFS_V3 then Unavailable(WordAt(msg, 0))
    else
      var a := SkipAuth(msg, 24);
      if a < 0 then Refused
      else
        var b := SkipAuth(msg, a);
        if b < 0 || b > |msg| then Refused else Call(WordAt(msg, 0), WordAt(msg, 20), msg[b..])
  }

  predicate Accepts(msg: Bytes) {
    !Dispatch(msg).Refused?
  }

  /** Words travel with the most significant byte first. */
  lemma BeBytes(v: nat)
    requires v < U32_LIMIT
    ensures var s := Be32(v);
      && s[0] as int == v / 0x100_0000 && s[1] as int == v / 0x1_0000 % 0x100
      && s[2] as int == v / 0x100 % 0x100 && s[3] as int == v % 0x100
  {
    hide Reversed;
    var l := Le32(v);
    assert l[0] as int == v % 0x100 && l[1] as int == v / 0x100 % 0x100;
    assert l[2] as int == v / 0x1_0000 % 0x100 && l[3] as int == v / 0x100_0000;
    ReversedFour(l);
  }

  lemma ReversedFour(s: Bytes)
    requires |s| == 4
    ensures Reversed(s) == [s[3], s[2], s[1], s[0]]
  {
    assert Reversed(s) == Reversed(s[1..]) + [s[0]];
    assert Reversed(s[1..]) == Reversed(s[2..]) + [s[1]] by { assert s[1..][1..] == s[2..]; }
    assert Reversed(s[2..]) == Reversed(s[3..]) + [s[2]] by { assert s[2..][1..] == s[3..]; }
    assert Reversed(s[3..]) == [] + [s[3]] by { assert s[3..][1..] == []; }
  }

  lemma BeWhole(s: Bytes)
    requires |s| == 4
    ensures FromBe32(s) < U32_LIMIT && Be32(FromBe32(s)) == s
  {
    hide Decode, Le32, Reversed;
    Decode32(Reversed(s));
    ReversedTwice(s);
  }

  /** The fixed part of a call. */
  function CallHeader(xid: nat, kind: nat, rpcVersion: nat, program: nat, version: nat, procedure: nat): (s: Bytes)
    ensures |s| == 24
  {
    Be32(xid) + Be32(kind) + Be32(rpcVersion) + Be32(program) + Be32(version) + Be32(procedure)
  }

  /** An authentication header with its body. */
  function Auth(flavor: nat, body: Bytes): (s: Bytes)
    ensures |s| == 8 + |body|
  {
    Be32(flavor) + Be32(|body|) + body
  }

  lemma HeaderWords(xid: nat, kind: nat, rpcVersion: nat, program: nat, version: nat, procedure: nat, rest: Bytes)
    requires xid < U32_LIMIT && kind < U32_LIMIT && rpcVersion < U32_LIMIT && program < U32_LIMIT
    requires version < U32_LIMIT && procedure < U32_LIMIT
    ensures var m := CallHeader(xid, kind, rpcVersion, program, version, procedure) + rest;
      && WordAt(m, 0) == xid && WordAt(m, 4) == kind && WordAt(m, 8) == rpcVersion && WordAt(m, 12) == program
      && WordAt(m, 16) == version && WordAt(m, 20) == procedure
  {
    hide Be32, FromBe32;
    var m := CallHeader(xid, kind, rpcVersion, program, version, procedure) + rest;
    assert m[0..4] == Be32(xid) && m[4..8] == Be32(kind) && m[8..12] == Be32(rpcVersion);
    assert m[12..16] == Be32(program) && m[16..20] == Be32(version) && m[20..24] == Be32(procedure);
    BeRoundTrip(xid);
    BeRoundTrip(kind);
    BeRoundTrip(rpcVersion);
    BeRoundTrip(program);
    BeRoundTrip(version);
    BeRoundTrip(procedure);
  }

  /** Two authentication headers of the lengths they announce, and the arguments. */
  ghost predicate Credentials(rest: Bytes, f1: nat, b1: Bytes, f2: nat, b2: Bytes, args: Bytes) {
    && f1 < U32_LIMIT && f2 < U32_LIMIT && |b1| + 8 <= MAX_RPC_MSGSIZE && |b2| + 8 <= MAX_RPC_MSGSIZE
    && rest == Auth(f1, b1) + Auth(f2, b2) + args
  }

  lemma AuthSkipped(before: Bytes, flavor: nat, body: Bytes, after: Bytes)
    requires |body| + 8 <= MAX_RPC_MSGSIZE
    ensures SkipAuth(before + Auth(flavor, body) + after, |before|) == |before| + 8 + |body|
  {
    hide Be32, FromBe32;
    var m := before + Auth(flavor, body) + after;
    var at := |before|;
    assert m[at + 4..at + 8] == Be32(|body|);
    BeRoundTrip(|body|);
  }

  /** A call that carries two such headers is dispatched with exactly the arguments
      behind them. */
  lemma CallDispatched(xid: nat, procedure: nat, f1: nat, b1: Bytes, f2: nat, b2: Bytes, args: Bytes)
    requires xid < U32_LIMIT && procedure < U32_LIMIT && |b1| + 8 <= MAX_RPC_MSGSIZE && |b2| + 8 <= MAX_RPC_MSGSIZE
    ensures Dispatch(CallHeader(xid, 0, 2, 100003, 3, procedure) + (Auth(f1, b1) + Auth(f2, b2) + args))
      == Call(xid, procedure, args)
  {
    hide Be32, FromBe32, WordAt, SkipAuth, CallHeader, Auth;
    var h := CallHeader(xid, 0, 2, 100003, 3, procedure);
    var m := h + (Auth(f1, b1) + Auth(f2, b2) + args);
    HeaderWords(xid, 0, 2, 100003, 3, procedure, Auth(f1, b1) + Auth(f2, b2) + args);
    assert m == h + Auth(f1, b1) + (Auth(f2, b2) + args);
    AuthSkipped(h, f1, b1, Auth(f2, b2) + args);
    assert m == (h + Auth(f1, b1)) + Auth(f2, b2) + args;
    AuthSkipped(h + Auth(f1, b1), f2, b2, args);
    assert m[|h| + |Auth(f1, b1)| + |Auth(f2, b2)|..] == args;
  }

  /** Exactly what is done with any message of 24 bytes or more: shorter ones are
      refused. */
  lemma DispatchExact(xid: nat, kind: nat, rpcVersion: nat, program: nat, version: nat, procedure: nat, rest: Bytes)
    requires xid < U32_LIMIT && kind < U32_LIMIT && rpcVersion < U32_LIMIT && program < U32_LIMIT
    requires version < U32_LIMIT && procedure < U32_LIMIT
    ensures var o := Dispatch(CallHeader(xid, kind, rpcVersion, program, version, procedure) + rest);
      if kind != 0 || rpcVersion != 2 then o == Refused
      else if program != 100003 || version != 3 then o == Unavailable(xid)
      else
        && (forall f1, b1, f2, b2, args :: Credentials(rest, f1, b1, f2, b2, args) ==> o == Call(xid, procedure, args))
        && (o != Refused ==> exists f1, b1, f2, b2, args :: Credentials(rest, f1, b1, f2, b2, args))
  {
    hide CallHeader, WordAt, SkipAuth, Auth;
    HeaderWords(xid, kind, rpcVersion, program, version, procedure, rest);
    if kind == 0 && rpcVersion == 2 && program == 100003 && version == 3 {
      var h := CallHeader(xid, 0, 2, 100003, 3, procedure);
      var o := Dispatch(h + rest);
      forall f1, b1, f2, b2, args | Credentials(rest, f1, b1, f2, b2, args)
        ensures o == Call(xid, procedure, args)
      {
        CallDispatched(xid, procedure, f1, b1, f2, b2, args);
      }
      if o != Refused {
        var f1, b1, f2, b2, args := TakenApart(h, rest);
      }
    }
  }

  /** What is skipped is an authentication header. */
  lemma AuthRead(m: Bytes, at: nat) returns (flavor: nat, body: Bytes)
    requires 0 <= SkipAuth(m, at) <= |m|
    ensures flavor < U32_LIMIT && |body| + 8 <= MAX_RPC_MSGSIZE && m[at..SkipAuth(m, at)] == Auth(flavor, body)
  {
    hide Be32, FromBe32;
    var next := SkipAuth(m, at);
    flavor, body := FromBe32(m[at..at + 4]), m[at + 8..next];
    BeWhole(m[at..at + 4]);
    BeWhole(m[at + 4..at + 8]);
    assert m[at..next] == m[at..at + 4] + m[at + 4..at + 8] + m[at + 8..next];
  }

  lemma TakenApart(h: Bytes, rest: Bytes) returns (f1: nat, b1: Bytes, f2: nat, b2: Bytes, args: Bytes)
    requires |h| == 24
    requires var a := SkipAuth(h + rest, 24); a >= 0 && 0 <= SkipAuth(h + rest, a) <= |h + rest|
    ensures Credentials(rest, f1, b1, f2, b2, args)
  {
    var m := h + rest;
    var a := SkipAuth(m, 24);
    var b := SkipAuth(m, a);
    assert a <= |m|;
    hide SkipAuth, Auth;
    f1, b1 := AuthRead(m, 24);
    f2, b2 := AuthRead(m, a);
    args := m[b..];
    assert rest == m[24..];
    assert m[24..] == m[24..a] + m[a..b] + m[b..];
  }

  lemma ShortRefused(msg: Bytes)
    requires |msg| < 24
    ensures Dispatch(msg) == Refused
  {
  }

  // ------------------------------------------------ the automaton

  /** How a read of the socket ended. */
  datatype Status = Normal | Again | Eof | Error

  /** A connection: the message so far (with the header bytes read so far behind
      it), the rest of the current fragment, and what has been dispatched. */
  datatype Conn = Conn(open: bool, msgbuf: Bytes, fragLen: nat, hdrBytes: nat, dispatched: seq<Bytes>) {

    predicate Valid() {
      hdrBytes < 4 && hdrBytes <= |msgbuf| && fragLen < U32_LIMIT && (fragLen != 0 ==> hdrBytes == 0)
    }

    /** How many bytes the next read asks for. */
    function Want(): (n: nat)
      requires Valid()
    {
      if fragLen == 0 then 4 - hdrBytes else fragLen % LAST
    }

    predicate TooBig()
      requires Valid()
    {
      Want() > MAX_RPC_MSGSIZE || |msgbuf| + Want() > MAX_RPC_MSGSIZE
    }

    function Closed(): (c: Conn)
      ensures c.Valid() && !c.open
    {
      Conn(false, [], 0, 0, dispatched)
    }

    /** One callback: the socket had bytes, had none, was at its end or failed. */
    function Callback(status: Status, chunk: Bytes, room: Bytes, accepts: Bytes -> bool): (c: Conn)
      requires Valid() && (open ==> |chunk| <= Want())
      ensures c.Valid()
    {
      if !open then this
      else if TooBig() then Closed()
      else if status == Again then this.(msgbuf := msgbuf + room)
      else if status == Error || (status == Eof && |chunk| != Want()) then Closed()
      else Read(chunk, accepts)
    }

    /** One read that returned `chunk`, of at most the length asked for. */
    function Read(chunk: Bytes, accepts: Bytes -> bool): (c: Conn)
      requires Valid() && (open ==> |chunk| <= Want())
      ensures c.Valid()
    {
      if !open then this
      else if TooBig() then Closed()
      else
        var buf := msgbuf + chunk;
        if fragLen == 0 then
          if hdrBytes + |chunk| == 4 then
            HeaderFits(buf[|buf| - 4..]);
            Conn(true, buf[..|buf| - 4], FromBe32(buf[|buf| - 4..]), 0, dispatched)
          else Conn(true, buf, 0, hdrBytes + |chunk|, dispatched)
        else if fragLen - |chunk| == LAST then
          if accepts(buf) then Conn(true, [], 0, 0, dispatched + [buf]) else Closed()
        else Conn(true, buf, fragLen - |chunk|, 0, dispatched)
    }
  }

  lemma HeaderFits(s: Bytes)
    requires |s| == 4
    ensures FromBe32(s) < U32_LIMIT
  {
    hide Decode, Reversed;
    Decode32(Reversed(s));
  }

  const START := Conn(true, [], 0, 0, [])

  /** Do what the next callback does before it has read anything: refuse an
      oversized fragment, or dispatch a message whose last fragment is empty. */
  function Settle(c: Conn, accepts: Bytes -> bool): (c': Conn)
    requires c.Valid()
    ensures c'.Valid()
  {
    c.Read([], accepts)
  }

  /** The stream one byte at a time. */
  function Feed(c: Conn, s: Bytes, accepts: Bytes -> bool): (c': Conn)
    requires c.Valid()
    ensures c'.Valid()
    decreases |s|
  {
    if s == [] then c
    else
      SettledWants(c, accepts);
      Feed(Settle(c, accepts).Read([s[0]], accepts), s[1..], accepts)
  }

  lemma SettledWants(c: Conn, accepts: Bytes -> bool)
    requires c.Valid()
    ensures var d := Settle(c, accepts); d.open ==> d.Want() >= 1 && !d.TooBig()
    ensures Settle(Settle(c, accepts), accepts) == Settle(c, accepts)
  {
    assert c.msgbuf + [] == c.msgbuf;
  }

  // ------------------------------------------------ reads do not matter

  /** Two reads inside one request are one read. */
  lemma ReadJoined(c: Conn, a: Bytes, b: Bytes, accepts: Bytes -> bool)
    requires c.Valid() && c.open && |a| + |b| <= c.Want() && |b| >= 1
    ensures var mid := c.Read(a, accepts);
      (mid.open ==> |b| <= mid.Want()) && mid.Read(b, accepts) == c.Read(a + b, accepts)
  {
    hide FromBe32;
    assert c.msgbuf + (a + b) == (c.msgbuf + a) + b;
  }

  /** A read of several bytes is as many reads of one. */
  lemma {:induction false} ReadIsFeed(c: Conn, chunk: Bytes, accepts: Bytes -> bool)
    requires c.Valid() && (c.open ==> |chunk| <= c.Want())
    ensures Settle(c.Read(chunk, accepts), accepts) == Settle(Feed(c, chunk, accepts), accepts)
    decreases |chunk|
  {
    hide Conn.Read;
    if chunk == [] {
      SettledWants(c, accepts);
    } else if !c.open {
      FeedClosed(c, chunk, accepts);
    } else {
      ReadFirst(c, chunk, accepts);
      ReadIsFeed(c.Read([chunk[0]], accepts), chunk[1..], accepts);
    }
  }

  lemma {:induction false} FeedClosed(c: Conn, s: Bytes, accepts: Bytes -> bool)
    requires c.Valid() && !c.open
    ensures Feed(c, s, accepts) == c && c.Read(s, accepts) == c
    decreases |s|
  {
    if s != [] {
      FeedClosed(c, s[1..], accepts);
    }
  }

  /** A connection that wants more bytes has nothing to settle but its size. */
  lemma SettleWanting(c: Conn, accepts: Bytes -> bool)
    requires c.Valid() && c.open && c.Want() >= 1
    ensures Settle(c, accepts) == if c.TooBig() then c.Closed() else c
  {
    assert c.msgbuf + [] == c.msgbuf;
  }

  lemma ReadFirst(c: Conn, chunk: Bytes, accepts: Bytes -> bool)
    requires c.Valid() && c.open && 1 <= |chunk| <= c.Want()
    ensures Settle(c, accepts).open ==> 1 <= Settle(c, accepts).Want()
    ensures Settle(c, accepts).Read([chunk[0]], accepts) == c.Read([chunk[0]], accepts)
    ensures var d := c.Read([chunk[0]], accepts);
      (d.open ==> |chunk[1..]| <= d.Want())
      && Settle(d.Read(chunk[1..], accepts), accepts) == Settle(c.Read(chunk, accepts), accepts)
  {
    SettleWanting(c, accepts);
    assert chunk == [chunk[0]] + chunk[1..];
    if |chunk| == 1 {
      var d := c.Read([chunk[0]], accepts);
      assert chunk[1..] == [] && d.Read([], accepts) == Settle(d, accepts);
      SettledWants(d, accepts);
      assert chunk == [chunk[0]];
      assert Settle(c, accepts).Read([chunk[0]], accepts) == d;
    } else {
      ReadJoined(c, [chunk[0]], chunk[1..], accepts);
      assert c.TooBig() ==> c.Closed().Read([chunk[0]], accepts) == c.Closed();
    }
  }

  /** Reads as they come, each no longer than what was asked for. */
  ghost predicate Legal(c: Conn, chunks: seq<Bytes>, accepts: Bytes -> bool)
    requires c.Valid()
    decreases |chunks|
  {
    chunks == [] || ((c.open ==> |chunks[0]| <= c.Want()) && Legal(c.Read(chunks[0], accepts), chunks[1..], accepts))
  }

  ghost function Run(c: Conn, chunks: seq<Bytes>, accepts: Bytes -> bool): (c': Conn)
    requires c.Valid() && Legal(c, chunks, accepts)
    ensures c'.Valid()
    decreases |chunks|
  {
    if chunks == [] then c else Run(c.Read(chunks[0], accepts), chunks[1..], accepts)
  }

  function Concat(chunks: seq<Bytes>): (s: Bytes)
    decreases |chunks|
  {
    if chunks == [] then [] else chunks[0] + Concat(chunks[1..])
  }

  lemma {:induction false} FeedConcat(c: Conn, s: Bytes, t: Bytes, accepts: Bytes -> bool)
    requires c.Valid()
    ensures Feed(c, s + t, accepts) == Feed(Feed(c, s, accepts), t, accepts)
    decreases |s|
  {
    hide Conn.Read;
    if s == [] {
      assert s + t == t;
    } else {
      SettledWants(c, accepts);
      FeedConcat(Settle(c, accepts).Read([s[0]], accepts), s[1..], t, accepts);
      assert (s + t)[1..] == s[1..] + t;
    }
  }

  /** Connections that settle alike go on alike. */
  lemma FeedSettled(c: Conn, d: Conn, s: Bytes, accepts: Bytes -> bool)
    requires c.Valid() && d.Valid() && Settle(c, accepts) == Settle(d, accepts)
    ensures Settle(Feed(c, s, accepts), accepts) == Settle(Feed(d, s, accepts), accepts)
  {
    hide Conn.Read;
  }

  lemma {:induction false} RunIsFeed(c: Conn, chunks: seq<Bytes>, accepts: Bytes -> bool)
    requires c.Valid() && Legal(c, chunks, accepts)
    ensures Settle(Run(c, chunks, accepts), accepts) == Settle(Feed(c, Concat(chunks), accepts), accepts)
    decreases |chunks|
  {
    hide Conn.Read;
    if chunks != [] {
      var first, rest := chunks[0], chunks[1..];
      var d := c.Read(first, accepts);
      RunIsFeed(d, rest, accepts);
      ReadIsFeed(c, first, accepts);
      FeedSettled(d, Feed(c, first, accepts), Concat(rest), accepts);
      FeedConcat(c, first, Concat(rest), accepts);
    }
  }

  /** Chunk independence: for any bytes whatsoever, two ways of cutting the same
      stream into reads dispatch the same messages and leave the connection in
      the same state. */
  lemma ChunkIndependent(c: Conn, chunks: seq<Bytes>, chunks': seq<Bytes>, accepts: Bytes -> bool)
    requires c.Valid() && Legal(c, chunks, accepts) && Legal(c, chunks', accepts)
    requires Concat(chunks) == Concat(chunks')
    ensures Settle(Run(c, chunks, accepts), accepts) == Settle(Run(c, chunks', accepts), accepts)
  {
    RunIsFeed(c, chunks, accepts);
    RunIsFeed(c, chunks', accepts);
  }

  // ------------------------------------------------ framed streams

  /** One fragment with its header. */
  function Frame(f: Bytes, last: bool): (s: Bytes)
    requires |f| < LAST
  {
    Be32(|f| + if last then LAST else 0) + f
  }

  predicate Framable(frags: seq<Bytes>) {
    frags != [] && forall k :: 0 <= k < |frags| ==> |frags[k]| < LAST
  }

  /** A message cut into fragments. */
  function Frames(frags: seq<Bytes>): (s: Bytes)
    requires Framable(frags)
    decreases |frags|
  {
    if |frags| == 1 then Frame(frags[0], true) else Frame(frags[0], false) + Frames(frags[1..])
  }

  /** The size limit, exactly: each fragment must leave room for its own four
      header bytes where it starts, and must end within the limit. */
  predicate FragmentsFit(sofar: nat, frags: seq<Bytes>)
    decreases |frags|
  {
    frags == []
    || (sofar + 4 <= MAX_RPC_MSGSIZE && sofar + |frags[0]| <= MAX_RPC_MSGSIZE
        && FragmentsFit(sofar + |frags[0]|, frags[1..]))
  }

  function Between(msgbuf: Bytes, dispatched: seq<Bytes>): (c: Conn)
    ensures c.Valid()
  {
    Conn(true, msgbuf, 0, 0, dispatched)
  }

  lemma ReadHeader(m: Bytes, d: seq<Bytes>, f: Bytes, last: bool, accepts: Bytes -> bool)
    requires |f| < LAST
    ensures Between(m, d).Want() == 4
    ensures var n := |f| + if last then LAST else 0;
      Between(m, d).Read(Be32(n), accepts)
      == if |m| + 4 > MAX_RPC_MSGSIZE then Conn(false, [], 0, 0, d) else Conn(true, m, n, 0, d)
  {
    hide FromBe32, Be32;
    var n := |f| + if last then LAST else 0;
    BeRoundTrip(n);
    var buf := m + Be32(n);
    assert buf[|buf| - 4..] == Be32(n) && buf[..|buf| - 4] == m;
  }

  /** What one fragment does to a connection between fragments. */
  function Framed(m: Bytes, d: seq<Bytes>, f: Bytes, last: bool, accepts: Bytes -> bool): (c: Conn)
    ensures c.Valid()
  {
    if |m| + 4 > MAX_RPC_MSGSIZE || |m| + |f| > MAX_RPC_MSGSIZE || (last && !accepts(m + f))
    then Conn(false, [], 0, 0, d)
    else if last then Between([], d + [m + f])
    else Between(m + f, d)
  }

  lemma ReadBody(m: Bytes, d: seq<Bytes>, f: Bytes, last: bool, accepts: Bytes -> bool)
    requires |f| < LAST && |m| + 4 <= MAX_RPC_MSGSIZE
    ensures var c := Conn(true, m, |f| + (if last then LAST else 0), 0, d);
      c.Valid() && (f != [] || last ==> |f| <= c.Want() && c.Read(f, accepts) == Framed(m, d, f, last, accepts))
  {
    hide FromBe32;
  }

  lemma FeedFrame(m: Bytes, d: seq<Bytes>, f: Bytes, last: bool, accepts: Bytes -> bool)
    requires |f| < LAST
    ensures Settle(Feed(Between(m, d), Frame(f, last), accepts), accepts) == Settle(Framed(m, d, f, last, accepts), accepts)
  {
    hide Conn.Read, FromBe32, Be32, Feed;
    var n := |f| + if last then LAST else 0;
    var c := Between(m, d);
    ReadHeader(m, d, f, last, accepts);
    var after := c.Read(Be32(n), accepts);
    ReadIsFeed(c, Be32(n), accepts);
    FeedConcat(c, Be32(n), f, accepts);
    FeedSettled(after, Feed(c, Be32(n), accepts), f, accepts);
    if |m| + 4 > MAX_RPC_MSGSIZE {
      FeedClosed(after, f, accepts);
    } else {
      ReadBody(m, d, f, last, accepts);
      if f == [] && !last {
        assert m + f == m;
        ReadIsFeed(after, f, accepts);
        SettledWants(after, accepts);
      } else {
        ReadIsFeed(after, f, accepts);
      }
    }
  }

  lemma {:induction false} FeedMessage(m: Bytes, d: seq<Bytes>, frags: seq<Bytes>, accepts: Bytes -> bool)
    requires Framable(frags)
    ensures Settle(Feed(Between(m, d), Frames(frags), accepts), accepts)
         == if FragmentsFit(|m|, frags) && accepts(m + Concat(frags)) then Between([], d + [m + Concat(frags)])
            else Conn(false, [], 0, 0, d)
    decreases |frags|
  {
    hide Conn.Read, FromBe32, Be32, Feed;
    var f, rest := frags[0], frags[1..];
    var c := Between(m, d);
    if |frags| == 1 {
      FeedFrame(m, d, f, true, accepts);
      assert Concat(frags) == f + Concat([]) == f;
      SettleBetween([], d + [m + f], accepts);
      SettleClosed(d, accepts);
    } else {
      FeedFrame(m, d, f, false, accepts);
      FeedConcat(c, Frame(f, false), Frames(rest), accepts);
      FeedSettled(Framed(m, d, f, false, accepts), Feed(c, Frame(f, false), accepts), Frames(rest), accepts);
      FeedClosed(Conn(false, [], 0, 0, d), Frames(rest), accepts);
      SettleClosed(d, accepts);
      FeedMessage(m + f, d, rest, accepts);
      assert (m + f) + Concat(rest) == m + Concat(frags);
    }
  }

  lemma SettleBetween(m: Bytes, d: seq<Bytes>, accepts: Bytes -> bool)
    requires |m| + 4 <= MAX_RPC_MSGSIZE
    ensures Settle(Between(m, d), accepts) == Between(m, d)
  {
    assert m + [] == m;
  }

  lemma SettleClosed(d: seq<Bytes>, accepts: Bytes -> bool)
    ensures Settle(Conn(false, [], 0, 0, d), accepts) == Conn(false, [], 0, 0, d)
  {
  }

  /** A stream of messages, each cut into fragments. */
  function Stream(msgs: seq<seq<Bytes>>): (s: Bytes)
    requires forall k :: 0 <= k < |msgs| ==> Framable(msgs[k])
    decreases |msgs|
  {
    if msgs == [] then [] else Frames(msgs[0]) + Stream(msgs[1..])
  }

  /** What should come of the stream: each message is delivered whole, until one
      is over the limit or cannot be processed, which closes the connection. */
  function Delivered(msgs: seq<seq<Bytes>>, d: seq<Bytes>, accepts: Bytes -> bool): (c: Conn)
    ensures c.Valid()
    decreases |msgs|
  {
    if msgs == [] then Between([], d)
    else if FragmentsFit(0, msgs[0]) && accepts(Concat(msgs[0]))
    then Delivered(msgs[1..], d + [Concat(msgs[0])], accepts)
    else Conn(false, [], 0, 0, d)
  }

  lemma {:induction false} FeedStream(msgs: seq<seq<Bytes>>, d: seq<Bytes>, accepts: Bytes -> bool)
    requires forall k :: 0 <= k < |msgs| ==> Framable(msgs[k])
    ensures Settle(Feed(Between([], d), Stream(msgs), accepts), accepts) == Delivered(msgs, d, accepts)
    decreases |msgs|
  {
    hide Conn.Read, FromBe32, Be32, Feed, Frames;
    var c := Between([], d);
    if msgs == [] {
      SettleBetween([], d, accepts);
      assert Feed(c, [], accepts) == c by { FeedNothing(c, accepts); }
    } else {
      var first, rest := msgs[0], msgs[1..];
      FeedMessage([], d, first, accepts);
      assert [] + Concat(first) == Concat(first);
      var e := Settle(Feed(c, Frames(first), accepts), accepts);
      FeedConcat(c, Frames(first), Stream(rest), accepts);
      SettledWants(Feed(c, Frames(first), accepts), accepts);
      FeedSettled(e, Feed(c, Frames(first), accepts), Stream(rest), accepts);
      if e.open {
        FeedStream(rest, d + [Concat(first)], accepts);
      } else {
        FeedClosed(e, Stream(rest), accepts);
        SettleClosed(d, accepts);
      }
    }
  }

  lemma FeedNothing(c: Conn, accepts: Bytes -> bool)
    requires c.Valid()
    ensures Feed(c, [], accepts) == c
  {
  }

  /** Reassembly: however a framed stream is cut into fragments and however the
      bytes arrive, what is dispatched is exactly what was sent. */
  lemma StreamReassembled(msgs: seq<seq<Bytes>>, chunks: seq<Bytes>, accepts: Bytes -> bool)
    requires forall k :: 0 <= k < |msgs| ==> Framable(msgs[k])
    requires Legal(START, chunks, accepts) && Concat(chunks) == Stream(msgs)
    ensures Settle(Run(START, chunks, accepts), accepts) == Delivered(msgs, [], accepts)
  {
    hide Conn.Read, Feed, Frames, Stream, Delivered, Run, Legal, Concat;
    RunIsFeed(START, chunks, accepts);
    FeedStream(msgs, [], accepts);
  }

  function Messages(msgs: seq<seq<Bytes>>): (ms: seq<Bytes>)
    decreases |msgs|
  {
    if msgs == [] then [] else [Concat(msgs[0])] + Messages(msgs[1..])
  }

  /** All messages are delivered, in order, exactly when each fits and can be
      processed. */
  lemma {:induction false} AllDelivered(msgs: seq<seq<Bytes>>, d: seq<Bytes>, accepts: Bytes -> bool)
    ensures Delivered(msgs, d, accepts) == Between([], d + Messages(msgs))
       <==> forall k :: 0 <= k < |msgs| ==> FragmentsFit(0, msgs[k]) && accepts(Concat(msgs[k]))
    ensures Delivered(msgs, d, accepts).open ==> Delivered(msgs, d, accepts) == Between([], d + Messages(msgs))
    decreases |msgs|
  {
    hide FragmentsFit, Concat;
    if msgs == [] {
      assert d + [] == d;
    } else {
      var first, rest := msgs[0], msgs[1..];
      AllDelivered(rest, d + [Concat(first)], accepts);
      assert d + [Concat(first)] + Messages(rest) == d + Messages(msgs);
      assert forall k :: 0 <= k < |rest| ==> rest[k] == msgs[k + 1];
      assert (forall k :: 0 <= k < |msgs| ==> FragmentsFit(0, msgs[k]) && accepts(Concat(msgs[k])))
        <==> (FragmentsFit(0, first) && accepts(Concat(first))
              && forall k :: 0 <= k < |rest| ==> FragmentsFit(0, rest[k]) && accepts(Concat(rest[k]))) by {
        assert forall k :: 1 <= k < |msgs| ==> msgs[k] == rest[k - 1];
      }
    }
  }

  /** A message with four bytes to spare fits however it is cut. */
  lemma {:induction false} SmallFits(sofar: nat, frags: seq<Bytes>)
    requires sofar + |Concat(frags)| + 4 <= MAX_RPC_MSGSIZE
    ensures FragmentsFit(sofar, frags)
    decreases |frags|
  {
    if frags != [] {
      SmallFits(sofar + |frags[0]|, frags[1..]);
    }
  }

  // ------------------------------------------------ reads that would block

  /** A callback that finds nothing to read leaves the connection as it was
      exactly if it asked for nothing: the room it made stays in the message. */
  lemma AgainExact(c: Conn, room: Bytes, accepts: Bytes -> bool)
    requires c.Valid() && c.open && !c.TooBig() && |room| == c.Want()
    ensures c.Callback(Again, [], room, accepts) == c <==> c.Want() == 0
  {
    if room == [] {
      assert c.msgbuf + room == c.msgbuf;
    }
  }

  /** Inside the last fragment of a message, however the rest of it reads, that
      changes what is dispatched: bytes nobody sent are in it, or the connection
      is closed. */
  lemma AgainInBody(c: Conn, room: Bytes, rest: Bytes, accepts: Bytes -> bool)
    requires c.Valid() && c.open && !c.TooBig() && c.fragLen > LAST && |room| == |rest| == c.Want()
    requires accepts(c.msgbuf + rest)
    ensures var spoilt := c.Callback(Again, [], room, accepts);
      && c.Read(rest, accepts).dispatched == c.dispatched + [c.msgbuf + rest]
      && spoilt.Read(rest, accepts).dispatched in
         [c.dispatched, c.dispatched + [c.msgbuf + room + rest]]
      && spoilt.Read(rest, accepts).dispatched != c.Read(rest, accepts).dispatched
  {
    var n := |c.dispatched|;
    assert |c.msgbuf + room + rest| != |c.msgbuf + rest|;
    assert (c.dispatched + [c.msgbuf + rest])[n] != (c.dispatched + [c.msgbuf + room + rest])[n];
  }

  /** Between two fragments that puts four bytes nobody sent into the message
      that is dispatched. */
  lemma AgainSpoils(m: Bytes, d: seq<Bytes>, room: Bytes, f: Bytes, accepts: Bytes -> bool)
    requires |room| == 4 && |f| < LAST && |m| + 8 <= MAX_RPC_MSGSIZE && |m| + 4 + |f| <= MAX_RPC_MSGSIZE
    requires accepts(m + room + f)
    ensures var c := Between(m, d).Callback(Again, [], room, accepts);
      Settle(Feed(c, Frame(f, true), accepts), accepts) == Between([], d + [m + room + f])
  {
    hide Feed, Frame, Conn.Read;
    assert Between(m, d).Callback(Again, [], room, accepts) == Between(m + room, d);
    FeedFrame(m + room, d, f, true, accepts);
    SettleBetween([], d + [m + room + f], accepts);
  }

  // ------------------------------------------------ replies

  const REPLY_HEADER_SIZE: nat := 24

  /** A reply: one fragment marked last, six words of header, the result. */
  function Reply(xid: nat, result: Bytes): (s: Bytes)
    requires |result| + REPLY_HEADER_SIZE < LAST
  {
    Frame(ReplyMessage(xid, result), true)
  }

  function ReplyMessage(xid: nat, result: Bytes): (s: Bytes)
    ensures |s| == |result| + REPLY_HEADER_SIZE
  {
    Be32(xid) + Be32(1) + Be32(0) + Be32(0) + Be32(0) + Be32(0) + result
  }

  /** Replies decode under the same rules, one after another: to the call's own
      number, the words that say accepted and successful, and the result. */
  lemma ReplyDecodes(xid: nat, result: Bytes, d: seq<Bytes>)
    requires |result| + REPLY_HEADER_SIZE <= MAX_RPC_MSGSIZE
    ensures Settle(Feed(Between([], d), Reply(xid, result), _ => true), _ => true)
         == Between([], d + [Be32(xid) + [0, 0, 0, 1] + Zeros(16) + result])
  {
    hide Conn.Read, Feed, ReplyMessage;
    var m := ReplyMessage(xid, result);
    FeedFrame([], d, m, true, _ => true);
    assert [] + m == m;
    SettleBetween([], d + [m], _ => true);
    ReplyBytes(xid, result);
  }

  lemma ReplyBytes(xid: nat, result: Bytes)
    ensures ReplyMessage(xid, result) == Be32(xid) + [0, 0, 0, 1] + Zeros(16) + result
  {
    BeBytes(0);
    BeBytes(1);
    assert Be32(1) == [0, 0, 0, 1] && Be32(0) == [0, 0, 0, 0];
    hide Be32;
    assert [0, 0, 0, 0] + [0, 0, 0, 0] + [0, 0, 0, 0] + [0, 0, 0, 0] == Zeros(16);
    var w: Bytes := [0, 0, 0, 0];
    assert ReplyMessage(xid, result) == Be32(xid) + [0, 0, 0, 1] + (w + w + w + w) + result;
  }

  // ------------------------------------------------ the connection object

  class RpcConnection {
    var isOpen: bool
    var msgbuf: Bytes
    var fragLen: nat
    var hdrBytes: nat
    ghost var dispatched: seq<Bytes>

    ghost function State(): (c: Conn)
      reads this
    {
      Conn(isOpen, msgbuf, fragLen, hdrBytes, dispatched)
    }

    constructor ()
      ensures State() == START
    {
      isOpen, msgbuf, fragLen, hdrBytes, dispatched := true, [], 0, 0, [];
    }

    method Shutdown()
      modifies this
      ensures State() == old(State()).Closed()
    {
      isOpen, msgbuf, fragLen, hdrBytes := false, [], 0, 0;
    }

    /** One callback on a readable socket: the size is checked, the buffer grown
        by what is asked for (with `room` in it), the socket read, and the buffer
        cut back to what came. */
    method DoRead(status: Status, input: Bytes, room: Bytes) returns (keep: bool)
      requires State().Valid() && isOpen && |input| <= State().Want() && |room| == State().Want()
      modifies this
      ensures State() == old(State()).Callback(status, input, room, Accepts)
      ensures keep == isOpen
    {
      hide FromBe32, Accepts;
      var bytesToRead := if fragLen == 0 then 4 - hdrBytes else fragLen % LAST;
      if bytesToRead > MAX_RPC_MSGSIZE || |msgbuf| + bytesToRead > MAX_RPC_MSGSIZE {
        Shutdown();
        return false;
      }
      var length := |msgbuf|;
      msgbuf := msgbuf + room;
      if status == Again {
        return true;
      }
      if status == Error || (status == Eof && |input| != bytesToRead) {
        Shutdown();
        return false;
      }
      msgbuf := msgbuf[..length] + input;
      if fragLen == 0 {
        hdrBytes := hdrBytes + |input|;
        if hdrBytes == 4 {
          fragLen := FromBe32(msgbuf[|msgbuf| - 4..]);
          msgbuf := msgbuf[..|msgbuf| - 4];
          hdrBytes := 0;
        }
      } else {
        fragLen := fragLen - |input|;
        if fragLen == LAST {
          if !Accepts(msgbuf) {
            Shutdown();
            return false;
          }
          dispatched := dispatched + [msgbuf];
          fragLen := 0;
          msgbuf := [];
        }
      }
      keep := true;
    }
  }
}
