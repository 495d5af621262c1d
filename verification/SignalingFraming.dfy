/** Reassembly of signaling requests from the byte stream: _read_query and _process_query_buffer of
    src/server/signaling_worker.cpp. */
module SignalingFraming {
  import opened Wrappers
  import opened Bytes

  const XHEAD_SIZE := 36
  const MAGIC: U32 := 0xfb20_2202
  const PROCESSED := 65536   // "bytes processed" once the request has been handled

  // xhead_t on a little-endian host: magic_num at 24, body_len at 32.
  function LE32(b: Data, i: nat): U32
    requires i + 4 <= |b|
  {
    (b[i] as int) + (b[i + 1] as int) * 0x100 + (b[i + 2] as int) * 0x1_0000 + (b[i + 3] as int) * 0x100_0000
  }

  function MagicOf(b: Data): U32
    requires |b| >= XHEAD_SIZE
  {
    LE32(b, 24)
  }

  function BodyLen(b: Data): U32
    requires |b| >= XHEAD_SIZE
  {
    LE32(b, 32)
  }

  /** `handled` lists the bodies given to _process_request; `closed` is the connection's end. */
  datatype Conn = Conn(buf: Data, expected: nat, processed: nat, inBody: bool, handled: seq<Data>, closed: bool)

  const FRESH := Conn([], XHEAD_SIZE, 0, false, [], false)

  // Whether _process_request returns 0 for this body with these bytes behind it in the buffer.
  type Handler = (Data, Data) -> bool

  // The text that a pointer to these bytes stands for, the buffer being terminated by a NUL.
  function UpToNul(b: Data): Data {
    if b == [] || b[0] == 0 then [] else [b[0]] + UpToNul(b[1..])
  }

  /** The handler of the source: json::parse is given the pointer, not the length, so the text it accepts or refuses
      goes on behind the body up to the first NUL. */
  function TextHandler(accepts: Data -> bool): Handler { (body, behind) => accepts(UpToNul(body + behind)) }

  // The loop of _process_query_buffer comes to an end, or it does not.
  datatype Outcome = Returns(c: Conn) | Diverges

  predicate HasBody(b: Data) { |b| >= XHEAD_SIZE && |b| >= XHEAD_SIZE + BodyLen(b) }

  function BodyAt(b: Data): Data
    requires HasBody(b)
  {
    b[XHEAD_SIZE..XHEAD_SIZE + BodyLen(b)]
  }

  // What stands behind the body in the buffer.
  function Behind(b: Data): Data
    requires HasBody(b)
  {
    b[XHEAD_SIZE + BodyLen(b)..]
  }

  predicate Accepts(ok: Handler, b: Data)
    requires HasBody(b)
  {
    ok(BodyAt(b), Behind(b))
  }

  // What the two states of a connection know about its fields.
  predicate Sound(c: Conn) {
    if c.inBody then |c.buf| >= XHEAD_SIZE && c.expected == BodyLen(c.buf) && c.processed in {XHEAD_SIZE, PROCESSED}
    else c.expected == XHEAD_SIZE && c.processed == 0
  }

  // ------------------------------------------------------------------- the loop

  predicate Guard(c: Conn) { |c.buf| >= c.expected + c.processed }

  /** One iteration of the loop; `closed` stands for return -1. */
  function Iterate(c: Conn, ok: Handler): (d: Conn)
    requires Sound(c) && Guard(c)
    ensures Sound(d) && d.buf == c.buf
  {
    if !c.inBody then
      if MagicOf(c.buf) != MAGIC then c.(closed := true)
      else c.(inBody := true, processed := XHEAD_SIZE, expected := BodyLen(c.buf))
    else
      var d := c.(handled := c.handled + [BodyAt(c.buf)]);
      if !Accepts(ok, c.buf) then d.(closed := true) else d.(processed := PROCESSED)
  }

  predicate Ended(c: Conn) { c.closed || !Guard(c) }

  // The connection after n iterations, or when the loop has ended before that.
  function Loop(c: Conn, ok: Handler, n: nat): (d: Conn)
    requires Sound(c)
    ensures Sound(d) && d.buf == c.buf
    decreases n
  {
    if n == 0 || Ended(c) then c else Loop(Iterate(c, ok), ok, n - 1)
  }

  ghost predicate EndsWithin(c: Conn, ok: Handler, n: nat)
    requires Sound(c)
  {
    Ended(Loop(c, ok, n))
  }

  /** _process_query_buffer: diverges if no number of iterations ends its loop. */
  ghost function Process(c: Conn, ok: Handler): (o: Outcome)
    requires Sound(c)
    ensures o.Returns? ==> Sound(o.c)
  {
    if exists n: nat :: EndsWithin(c, ok, n) then
      var n: nat :| EndsWithin(c, ok, n);
      Returns(Loop(c, ok, n))
    else Diverges
  }

  lemma {:induction false} EndedStays(c: Conn, ok: Handler, m: nat, n: nat)
    requires Sound(c) && m <= n && EndsWithin(c, ok, m)
    ensures Loop(c, ok, n) == Loop(c, ok, m)
    decreases m
  {
    if m > 0 && !Ended(c) {
      EndedStays(Iterate(c, ok), ok, m - 1, n - 1);
    }
  }

  // The loop ends in one way only.
  lemma EndsIn(c: Conn, ok: Handler, n: nat)
    requires Sound(c) && EndsWithin(c, ok, n)
    ensures Process(c, ok) == Returns(Loop(c, ok, n))
  {
    var m: nat :| EndsWithin(c, ok, m) && Process(c, ok) == Returns(Loop(c, ok, m));
    if m <= n {
      EndedStays(c, ok, m, n);
    } else {
      EndedStays(c, ok, n, m);
    }
  }

  function Repeat(body: Data, n: nat): seq<Data> { seq(n, _ => body) }

  // The request is there, the handler takes it, and the buffer reaches the mark that stands for "done".
  predicate Stuck(c: Conn, ok: Handler) {
    && Sound(c) && c.inBody && !c.closed && |c.buf| >= c.expected + PROCESSED
    && Accepts(ok, c.buf)
  }

  /** A stuck loop makes n iterations for every n, each one giving the same request to the handler again. */
  lemma {:induction false} StuckForEver(c: Conn, ok: Handler, n: nat)
    requires Stuck(c, ok)
    ensures var d := Loop(c, ok, n);
      && Stuck(d, ok) && !Ended(d)
      && d.handled == c.handled + Repeat(BodyAt(c.buf), n)
    decreases n
  {
    if n > 0 {
      var body := BodyAt(c.buf);
      StuckForEver(Iterate(c, ok), ok, n - 1);
      assert [body] + Repeat(body, n - 1) == Repeat(body, n);
      assert c.handled + [body] + Repeat(body, n - 1) == c.handled + ([body] + Repeat(body, n - 1));
    }
  }

  lemma StuckDiverges(c: Conn, ok: Handler)
    requires Stuck(c, ok)
    ensures Process(c, ok) == Diverges
  {
    forall n: nat
      ensures !EndsWithin(c, ok, n)
    {
      StuckForEver(c, ok, n);
    }
  }

  lemma IterationFirst(c: Conn, ok: Handler)
    requires Sound(c) && !Ended(c)
    ensures Process(c, ok) == Process(Iterate(c, ok), ok)
  {
    var d := Iterate(c, ok);
    if m: nat :| EndsWithin(d, ok, m) {
      assert Loop(c, ok, m + 1) == Loop(d, ok, m);
      EndsIn(d, ok, m);
      EndsIn(c, ok, m + 1);
    } else {
      forall n: nat
        ensures !EndsWithin(c, ok, n)
      {
        assert n > 0 ==> Loop(c, ok, n) == Loop(d, ok, n - 1);
        assert n > 0 ==> !EndsWithin(d, ok, n - 1);
      }
    }
  }

  // The loop worked out: in the body state,
  function AfterBody(c: Conn, ok: Handler): Outcome
    requires c.inBody && Sound(c)
  {
    if !Guard(c) then Returns(c)
    else
      var d := c.(handled := c.handled + [BodyAt(c.buf)]);
      if !Accepts(ok, c.buf) then Returns(d.(closed := true))
      else if |c.buf| < c.expected + PROCESSED then Returns(d.(processed := PROCESSED))
      else Diverges
  }

  // and from the start.
  function AfterLoop(c: Conn, ok: Handler): Outcome
    requires Sound(c)
  {
    if c.inBody then AfterBody(c, ok)
    else if |c.buf| < XHEAD_SIZE then Returns(c)
    else if MagicOf(c.buf) != MAGIC then Returns(c.(closed := true))
    else AfterBody(c.(inBody := true, processed := XHEAD_SIZE, expected := BodyLen(c.buf)), ok)
  }

  lemma BodyLoop(c: Conn, ok: Handler)
    requires Sound(c) && c.inBody && !c.closed
    ensures Process(c, ok) == AfterBody(c, ok)
  {
    if !Guard(c) {
      EndsIn(c, ok, 0);
    } else {
      var d := Iterate(c, ok);
      if Ended(d) {
        IterationFirst(c, ok);
        EndsIn(d, ok, 0);
      } else {
        StuckDiverges(c, ok);
      }
    }
  }

  /** The loop ends in at most two iterations, or never. */
  lemma LoopWorkedOut(c: Conn, ok: Handler)
    requires Sound(c) && !c.closed
    ensures Process(c, ok) == AfterLoop(c, ok)
  {
    if c.inBody {
      BodyLoop(c, ok);
    } else if !Guard(c) {
      EndsIn(c, ok, 0);
    } else {
      IterationFirst(c, ok);
      var d := Iterate(c, ok);
      if d.closed {
        EndsIn(d, ok, 0);
      } else {
        BodyLoop(d, ok);
      }
    }
  }

  // ---------------------------------------------------------------- the object

  class TcpConnection {
    var buf: Data
    var expected: nat
    var processed: nat
    var inBody: bool
    ghost var handled: seq<Data>
    ghost var closed: bool

    ghost function View(): Conn
      reads this
    {
      Conn(buf, expected, processed, inBody, handled, closed)
    }

    constructor ()
      ensures View() == FRESH
    {
      buf, expected, processed, inBody, handled, closed := [], XHEAD_SIZE, 0, false, [], false;
    }

    /** The first `most` iterations of _process_query_buffer: the value it returned, or None if the loop
        is still going. */
    method ProcessQueryBuffer(ok: Handler, most: nat) returns (ret: Option<int>)
      requires Sound(View()) && !closed
      modifies `expected, `processed, `inBody, `handled, `closed
      ensures View() == Loop(old(View()), ok, most)
      ensures ret == if !Ended(View()) then None else if closed then Some(-1) else Some(0)
    {
      var left := most;
      while |buf| >= expected + processed && left > 0
        invariant Sound(View()) && !closed
        invariant Loop(View(), ok, left) == Loop(old(View()), ok, most)
        decreases left
      {
        left := left - 1;
        if !inBody {
          if MagicOf(buf) != MAGIC {
            closed := true;
            return Some(-1);
          }
          inBody := true;
          processed := XHEAD_SIZE;
          expected := BodyLen(buf);
        } else {
          var body, behind := BodyAt(buf), Behind(buf);
          handled := handled + [body];
          if !ok(body, behind) {
            closed := true;
            return Some(-1);
          }
          processed := PROCESSED;
        }
      }
      return if |buf| >= expected + processed then None else Some(0);
    }

    /** _read_query with what the socket returned, an empty chunk being the end of the stream or an error. */
    method ReadQuery(chunk: Data, ok: Handler, most: nat) returns (ret: Option<int>)
      requires Sound(View()) && !closed
      modifies this
      ensures chunk == [] ==> View() == old(View()).(closed := true)
      ensures chunk != [] ==> View() == Loop(Appended(old(View()), chunk), ok, most)
      ensures ret == if !Ended(View()) then None else if closed then Some(-1) else Some(0)
    {
      if chunk == [] {
        closed := true;
        return Some(-1);
      }
      SoundAppended(View(), chunk);
      buf := buf + chunk;
      ret := ProcessQueryBuffer(ok, most);
    }
  }

  function Appended(c: Conn, chunk: Data): (d: Conn)
    requires Sound(c)
    ensures Sound(d)
  {
    SoundAppended(c, chunk);
    c.(buf := c.buf + chunk)
  }

  lemma SoundAppended(c: Conn, chunk: Data)
    requires Sound(c)
    ensures Sound(c.(buf := c.buf + chunk))
  {
    if c.inBody {
      SameHeader(c.buf, chunk);
    }
  }

  lemma SameHeader(b: Data, chunk: Data)
    requires |b| >= XHEAD_SIZE
    ensures MagicOf(b + chunk) == MagicOf(b) && BodyLen(b + chunk) == BodyLen(b)
  {
  }

  // One read event.
  ghost function Feed(o: Outcome, chunk: Data, ok: Handler): (r: Outcome)
    requires o.Returns? ==> Sound(o.c)
    ensures r.Returns? ==> Sound(r.c)
  {
    if o.Diverges? || o.c.closed then o
    else if chunk == [] then Returns(o.c.(closed := true))
    else Process(Appended(o.c, chunk), ok)
  }

  ghost function FeedAll(chunks: seq<Data>, ok: Handler): (o: Outcome)
    ensures o.Returns? ==> Sound(o.c)
  {
    if chunks == [] then Returns(FRESH)
    else Feed(FeedAll(chunks[..|chunks| - 1], ok), chunks[|chunks| - 1], ok)
  }

  function Flat(chunks: seq<Data>): Data {
    if chunks == [] then [] else Flat(chunks[..|chunks| - 1]) + chunks[|chunks| - 1]
  }

  // Every read returned something.
  predicate Reads(chunks: seq<Data>) { forall i :: 0 <= i < |chunks| ==> chunks[i] != [] }

  // ------------------------------------------------------------- what decides a run

  // The request has fully arrived,
  predicate Complete(b: Data) { HasBody(b) && MagicOf(b) == MAGIC }

  // and 65500 bytes or more behind it.
  predicate Full(b: Data) { Complete(b) && |b| >= BodyLen(b) + PROCESSED }

  // The bytes received when the request was first complete: after the read that brought its last byte.
  function WhenComplete(chunks: seq<Data>): Data {
    if chunks == [] then []
    else
      var pre := chunks[..|chunks| - 1];
      if Complete(Flat(pre)) then WhenComplete(pre) else Flat(chunks)
  }

  // And when the mark was first reached.
  function WhenFull(chunks: seq<Data>): Data {
    if chunks == [] then []
    else
      var pre := chunks[..|chunks| - 1];
      if Full(Flat(pre)) then WhenFull(pre) else Flat(chunks)
  }

  lemma MoreBytes(b: Data, chunk: Data)
    requires |b| >= XHEAD_SIZE
    ensures MagicOf(b + chunk) == MagicOf(b) && BodyLen(b + chunk) == BodyLen(b)
    ensures Complete(b) ==> Complete(b + chunk) && BodyAt(b + chunk) == BodyAt(b)
    ensures Complete(b) ==> Behind(b + chunk) == Behind(b) + chunk
    ensures Full(b) ==> Full(b + chunk)
  {
    SameHeader(b, chunk);
  }

  // WhenComplete is what a prefix of the reads brought: the first that holds the request.
  lemma {:induction false} FirstComplete(chunks: seq<Data>) returns (n: nat)
    requires Complete(Flat(chunks))
    ensures n < |chunks| && WhenComplete(chunks) == Flat(chunks[..n + 1]) && Complete(WhenComplete(chunks))
    ensures !Complete(Flat(chunks[..n])) && WhenComplete(chunks) <= Flat(chunks)
    decreases |chunks|
  {
    var m := |chunks| - 1;
    if Complete(Flat(chunks[..m])) {
      n := FirstComplete(chunks[..m]);
      assert chunks[..m][..n + 1] == chunks[..n + 1] && chunks[..m][..n] == chunks[..n];
    } else {
      n := m;
      assert chunks[..m + 1] == chunks;
    }
  }

  lemma {:induction false} FirstFull(chunks: seq<Data>) returns (n: nat)
    requires Full(Flat(chunks))
    ensures n < |chunks| && WhenFull(chunks) == Flat(chunks[..n + 1]) && Full(WhenFull(chunks))
    ensures !Full(Flat(chunks[..n])) && WhenFull(chunks) <= Flat(chunks)
    decreases |chunks|
  {
    var m := |chunks| - 1;
    if Full(Flat(chunks[..m])) {
      n := FirstFull(chunks[..m]);
      assert chunks[..m][..n + 1] == chunks[..n + 1] && chunks[..m][..n] == chunks[..n];
    } else {
      n := m;
      assert chunks[..m + 1] == chunks;
    }
  }

  // A prefix that holds the request holds the same body.
  lemma PrefixBody(a: Data, b: Data)
    requires a <= b && Complete(a)
    ensures Complete(b) && BodyAt(a) == BodyAt(b) && Behind(a) <= Behind(b)
  {
    var rest := b[|a|..];
    assert b == a + rest;
    MoreBytes(a, rest);
  }

  // Both answers that matter are given on buffers that hold the request.
  predicate Marks(b: Data, first: Data, mark: Data) {
    && (Complete(b) ==> HasBody(first))
    && (Full(b) ==> HasBody(mark))
  }

  /** What must have happened once the bytes b have arrived, if the request was complete with `first` received and the
      mark was reached with `mark` received. */
  function Told(b: Data, first: Data, mark: Data, ok: Handler): Outcome
    requires Marks(b, first, mark)
  {
    if |b| < XHEAD_SIZE then Returns(FRESH.(buf := b))
    else if MagicOf(b) != MAGIC then Returns(FRESH.(buf := b, closed := true))
    else
      var c := Conn(b, BodyLen(b), XHEAD_SIZE, true, [], false);
      if !Complete(b) then Returns(c)
      else if !Accepts(ok, first) then Returns(c.(handled := [BodyAt(b)], closed := true))
      else if !Full(b) then Returns(c.(handled := [BodyAt(b)], processed := PROCESSED))
      else if !Accepts(ok, mark) then Returns(c.(handled := [BodyAt(b), BodyAt(b)], processed := PROCESSED,
          closed := true))
      else Diverges
  }

  lemma MarksHold(chunks: seq<Data>)
    ensures Marks(Flat(chunks), WhenComplete(chunks), WhenFull(chunks))
  {
    if Complete(Flat(chunks)) {
      var _ := FirstComplete(chunks);
    }
    if Full(Flat(chunks)) {
      var _ := FirstFull(chunks);
    }
    hide WhenComplete, WhenFull;
  }

  // The same outcome, up to the bytes that a closed connection did not read any more.
  predicate Agree(o: Outcome, r: Outcome) {
    o == r || (o.Returns? && r.Returns? && o.c.closed && r.c.closed && o.c.handled == r.c.handled)
  }

  predicate Open(o: Outcome) { o.Returns? && !o.c.closed }

  // One more read of an open connection. The marks move only if they were not set.
  lemma FeedStep(a: Data, first: Data, mark: Data, chunk: Data, first': Data, mark': Data, ok: Handler)
    requires Marks(a, first, mark) && Marks(a + chunk, first', mark') && chunk != []
    requires first' == if Complete(a) then first else a + chunk
    requires mark' == if Full(a) then mark else a + chunk
    requires Open(Told(a, first, mark, ok))
    ensures Sound(Told(a, first, mark, ok).c)
    ensures Feed(Told(a, first, mark, ok), chunk, ok) == Told(a + chunk, first', mark', ok)
  {
    var c := Told(a, first, mark, ok).c;
    if |a| >= XHEAD_SIZE {
      MoreBytes(a, chunk);
    }
    LoopWorkedOut(Appended(c, chunk), ok);
    hide Process;
  }

  // A connection that is closed or caught stays so.
  lemma SettledStays(a: Data, first: Data, mark: Data, chunk: Data, first': Data, mark': Data, ok: Handler)
    requires Marks(a, first, mark) && Marks(a + chunk, first', mark')
    requires Complete(a) ==> first' == first
    requires Full(a) ==> mark' == mark
    requires !Open(Told(a, first, mark, ok))
    ensures Agree(Told(a, first, mark, ok), Told(a + chunk, first', mark', ok))
  {
    MoreBytes(a, chunk);
  }

  lemma AgreeIsTransitive(a: Outcome, b: Outcome, c: Outcome)
    requires Agree(a, b) && Agree(b, c)
    ensures Agree(a, c)
  {
  }

  ghost function Outcomes(chunks: seq<Data>, ok: Handler): Outcome {
    MarksHold(chunks);
    Told(Flat(chunks), WhenComplete(chunks), WhenFull(chunks), ok)
  }

  /** What has happened after any reads is decided by the bytes received, what stood behind the body when it was
      complete, and what stood behind it when the mark was reached. */
  lemma {:induction false} FeedAllIsTold(chunks: seq<Data>, ok: Handler)
    requires Reads(chunks)
    ensures Agree(FeedAll(chunks, ok), Outcomes(chunks, ok))
    decreases |chunks|
  {
    if chunks != [] {
      var pre, chunk := chunks[..|chunks| - 1], chunks[|chunks| - 1];
      FeedAllIsTold(pre, ok);
      MarksHold(pre);
      MarksHold(chunks);
      var a, first, mark := Flat(pre), WhenComplete(pre), WhenFull(pre);
      var first', mark' := WhenComplete(chunks), WhenFull(chunks);
      assert Flat(chunks) == a + chunk;
      assert first' == if Complete(a) then first else a + chunk;
      assert mark' == if Full(a) then mark else a + chunk;
      hide Told, Process, Appended, Marks, WhenComplete, WhenFull, Flat, Complete, Full;
      if Open(Told(a, first, mark, ok)) {
        FeedStep(a, first, mark, chunk, first', mark', ok);
      } else {
        SettledStays(a, first, mark, chunk, first', mark', ok);
        AgreeIsTransitive(FeedAll(pre, ok), Outcomes(pre, ok), Outcomes(chunks, ok));
      }
    }
  }

  // ---------------------------------------------------------------------- results

  /** For every handler and every split into reads: the handler is called on exactly the declared body, not before all
      of it has arrived, once then, and a second time only when 65500 bytes stand behind it. A bad magic number closes
      the connection without reaching it. */
  lemma HandlerGetsTheBody(chunks: seq<Data>, ok: Handler)
    requires Reads(chunks) && FeedAll(chunks, ok).Returns?
    ensures var c, b := FeedAll(chunks, ok).c, Flat(chunks);
      && (!Complete(b) ==> c.handled == [])
      && (Complete(b) && !Full(b) ==> c.handled == [BodyAt(b)])
      && (Full(b) ==> c.closed && (c.handled == [BodyAt(b)] || c.handled == [BodyAt(b), BodyAt(b)]))
      && (|b| >= XHEAD_SIZE && MagicOf(b) != MAGIC ==> c.closed)
      && (!c.closed ==> c.buf == b)
  {
    FeedAllIsTold(chunks, ok);
    MarksHold(chunks);
    hide FeedAll, Flat, WhenComplete, WhenFull;
  }

  /** When the connection is closed: on a bad magic number; if the request is refused with what stood behind it when
      it was complete; or if it is refused the second time. */
  lemma ClosedExactly(chunks: seq<Data>, ok: Handler)
    requires Reads(chunks)
    ensures Marks(Flat(chunks), WhenComplete(chunks), WhenFull(chunks))
    ensures var o, b := FeedAll(chunks, ok), Flat(chunks);
      (o.Returns? && o.c.closed) <==>
        || (|b| >= XHEAD_SIZE && MagicOf(b) != MAGIC)
        || (Complete(b) && !Accepts(ok, WhenComplete(chunks)))
        || (Full(b) && !Accepts(ok, WhenFull(chunks)))
  {
    FeedAllIsTold(chunks, ok);
    MarksHold(chunks);
    hide FeedAll, Flat, WhenComplete, WhenFull;
  }

  /** When the worker is caught in the loop for ever: 65500 bytes or more have arrived behind the request, and it was
      accepted both with what stood behind it when it was complete and with what stood behind it when they had. */
  lemma DivergesExactly(chunks: seq<Data>, ok: Handler)
    requires Reads(chunks)
    ensures Marks(Flat(chunks), WhenComplete(chunks), WhenFull(chunks))
    ensures FeedAll(chunks, ok).Diverges? <==>
      Full(Flat(chunks)) && Accepts(ok, WhenComplete(chunks)) && Accepts(ok, WhenFull(chunks))
  {
    FeedAllIsTold(chunks, ok);
    MarksHold(chunks);
    hide FeedAll, Flat, WhenComplete, WhenFull;
  }

  /** The end of the stream, or an error, closes the connection without another call of the handler. */
  lemma EndOfStreamCloses(chunks: seq<Data>, ok: Handler)
    requires FeedAll(chunks, ok).Returns?
    ensures var o := FeedAll(chunks + [[]], ok);
      o.Returns? && o.c.closed && o.c.handled == FeedAll(chunks, ok).c.handled
  {
    assert (chunks + [[]])[..|chunks|] == chunks;
    hide Process;
  }

  // ------------------------------------------------------------- when reads matter

  ghost predicate Splits(chunks: seq<Data>, b: Data) { Reads(chunks) && Flat(chunks) == b }

  // Every way to cut the bytes into reads ends like reading them at once.
  ghost predicate ChunkingIsIrrelevant(b: Data, ok: Handler) {
    forall chunks :: Splits(chunks, b) ==> Agree(FeedAll(chunks, ok), FeedAll([b], ok))
  }

  // The handler's answer does not change while bytes arrive behind the body.
  predicate SteadyAnswer(b: Data, ok: Handler)
    requires HasBody(b)
  {
    forall t: nat :: t <= |Behind(b)| ==> ok(BodyAt(b), Behind(b)[..t]) == Accepts(ok, b)
  }

  lemma AnswerAt(b: Data, a: Data, ok: Handler)
    requires Complete(b) && SteadyAnswer(b, ok) && a <= b && Complete(a)
    ensures Accepts(ok, a) == Accepts(ok, b)
  {
    PrefixBody(a, b);
    assert Behind(a) == Behind(b)[..|Behind(a)|];
  }

  lemma AtOnce(b: Data)
    requires b != []
    ensures Flat([b]) == b && WhenComplete([b]) == b && WhenFull([b]) == b && Reads([b])
  {
    assert [b][..0] == [];
    assert [] + b == b;
  }

  lemma SteadyIsEnough(b: Data, ok: Handler, chunks: seq<Data>)
    requires Complete(b) && SteadyAnswer(b, ok) && Splits(chunks, b)
    ensures Agree(FeedAll(chunks, ok), FeedAll([b], ok))
  {
    AtOnce(b);
    FeedAllIsTold(chunks, ok);
    FeedAllIsTold([b], ok);
    MarksHold(chunks);
    MarksHold([b]);
    var _ := FirstComplete(chunks);
    AnswerAt(b, WhenComplete(chunks), ok);
    if Full(b) {
      var _ := FirstFull(chunks);
      AnswerAt(b, WhenFull(chunks), ok);
    }
    hide FeedAll, Flat, WhenComplete, WhenFull, SteadyAnswer;
  }

  // Two reads, the first of which ends t bytes behind the body.
  lemma CutBehind(b: Data, t: nat)
    requires Complete(b) && t < |Behind(b)|
    ensures var n := XHEAD_SIZE + BodyLen(b) + t;
      && n < |b| && Splits([b[..n], b[n..]], b)
      && WhenComplete([b[..n], b[n..]]) == b[..n] && Complete(b[..n])
      && BodyAt(b[..n]) == BodyAt(b) && Behind(b[..n]) == Behind(b)[..t]
  {
    var n := XHEAD_SIZE + BodyLen(b) + t;
    var a, rest := b[..n], b[n..];
    assert b == a + rest;
    SameHeader(a, rest);
    MoreBytes(a, rest);
    FlatOf(a, rest, []);
    AtOnce(a);
    assert [a, rest][..1] == [a];
  }

  lemma SteadyIsNeeded(b: Data, ok: Handler, t: nat)
    requires Complete(b) && !Full(b) && ChunkingIsIrrelevant(b, ok) && t <= |Behind(b)|
    ensures ok(BodyAt(b), Behind(b)[..t]) == Accepts(ok, b)
  {
    if t < |Behind(b)| {
      CutBehind(b, t);
      var n := XHEAD_SIZE + BodyLen(b) + t;
      var chunks := [b[..n], b[n..]];
      AtOnce(b);
      assert Splits(chunks, b) && Splits([b], b);
      assert Agree(FeedAll(chunks, ok), FeedAll([b], ok));
      ClosedExactly(chunks, ok);
      ClosedExactly([b], ok);
      DivergesExactly(chunks, ok);
      DivergesExactly([b], ok);
      hide FeedAll, Flat, WhenComplete, WhenFull, ChunkingIsIrrelevant;
    } else {
      assert Behind(b)[..t] == Behind(b);
    }
  }

  /** With fewer than 65500 bytes behind a request, the reads do not matter exactly if the handler answers alike for
      every beginning of what stands behind the body. */
  lemma ChunkingIrrelevantExactly(b: Data, ok: Handler)
    requires Complete(b) && !Full(b)
    ensures ChunkingIsIrrelevant(b, ok) <==> SteadyAnswer(b, ok)
  {
    if SteadyAnswer(b, ok) {
      forall chunks | Splits(chunks, b)
        ensures Agree(FeedAll(chunks, ok), FeedAll([b], ok))
      {
        SteadyIsEnough(b, ok, chunks);
      }
    }
    if ChunkingIsIrrelevant(b, ok) {
      forall t: nat | t <= |Behind(b)|
        ensures ok(BodyAt(b), Behind(b)[..t]) == Accepts(ok, b)
      {
        SteadyIsNeeded(b, ok, t);
      }
    }
  }

  lemma {:induction false} NulEndsText(body: Data, behind: Data)
    requires 0 in body
    ensures UpToNul(body + behind) == UpToNul(body)
  {
    if body[0] != 0 {
      assert (body + behind)[1..] == body[1..] + behind;
      NulEndsText(body[1..], behind);
    }
  }

  /** The handler of the source answers by the body alone if the body holds a NUL. Then, whatever follows, the reads
      do not matter, and the worker is caught exactly if the request is accepted and 65500 bytes follow. */
  lemma NulInBodyDecides(chunks: seq<Data>, accepts: Data -> bool)
    requires Reads(chunks) && Complete(Flat(chunks)) && 0 in BodyAt(Flat(chunks))
    ensures var b, ok := Flat(chunks), TextHandler(accepts);
      && SteadyAnswer(b, ok) && Agree(FeedAll(chunks, ok), FeedAll([b], ok))
      && (FeedAll(chunks, ok).Diverges? <==> accepts(UpToNul(BodyAt(b))) && Full(b))
  {
    var b, ok := Flat(chunks), TextHandler(accepts);
    var body := BodyAt(b);
    forall x: Data
      ensures ok(body, x) == accepts(UpToNul(body))
    {
      NulEndsText(body, x);
    }
    SteadyIsEnough(b, ok, chunks);
    DivergesExactly(chunks, ok);
    var _ := FirstComplete(chunks);
    PrefixBody(WhenComplete(chunks), b);
    if Full(b) {
      var _ := FirstFull(chunks);
      PrefixBody(WhenFull(chunks), b);
    }
    hide FeedAll, Flat, WhenComplete, WhenFull, UpToNul;
  }

  // -------------------------------------------------------------------- witnesses

  // Each read asks for bytes_expected bytes at most.
  ghost predicate WithinExpected(chunks: seq<Data>, ok: Handler) {
    forall i :: 0 <= i < |chunks| ==> ReadAllowed(FeedAll(chunks[..i], ok), chunks[i])
  }

  predicate ReadAllowed(o: Outcome, chunk: Data) { Open(o) && 0 < |chunk| <= o.c.expected }

  // A header that announces a body of n bytes.
  predicate HeaderFor(h: Data, n: nat) { |h| == XHEAD_SIZE && MagicOf(h) == MAGIC && BodyLen(h) == n }

  lemma FlatOf(a: Data, b: Data, c: Data)
    ensures Flat([]) == [] && Flat([a]) == a && Flat([a, b]) == a + b && Flat([a, b, c]) == a + b + c
  {
    assert [a][..0] == [] && [a, b][..1] == [a] && [a, b, c][..2] == [a, b];
    assert [] + a == a;
  }

  // The header with these four bytes of length.
  function HeaderWith(length: Data): Data { Zeros(24) + [0x02, 0x22, 0x20, 0xfb] + Zeros(4) + length }

  // The four bytes of n, lowest first.
  function LittleEndian(n: U32): Data {
    [(n % 0x100) as Byte, (n / 0x100 % 0x100) as Byte, (n / 0x1_0000 % 0x100) as Byte, (n / 0x100_0000) as Byte]
  }

  lemma LittleEndianSum(n: U32)
    ensures n % 0x100 + n / 0x100 % 0x100 * 0x100 + n / 0x1_0000 % 0x100 * 0x1_0000 + n / 0x100_0000 * 0x100_0000 == n
  {
    var a := n / 0x100;
    var b := a / 0x100;
    var c := b / 0x100;
    assert n == 0x100 * a + n % 0x100 && a == 0x100 * b + a % 0x100 && b == 0x100 * c + b % 0x100;
    assert n / 0x1_0000 == b && n / 0x100_0000 == c;
  }

  /** A header announces the number whose little-endian bytes stand in it, whatever number that is. */
  lemma HeaderAnnounces(n: U32)
    ensures HeaderFor(HeaderWith(LittleEndian(n)), n)
  {
    LittleEndianSum(n);
    var h := HeaderWith(LittleEndian(n));
    assert h[24..28] == [0x02, 0x22, 0x20, 0xfb] && h[32..36] == LittleEndian(n);
    assert h[24] == h[24..28][0] && h[25] == h[24..28][1] && h[26] == h[24..28][2] && h[27] == h[24..28][3];
    assert h[32] == h[32..36][0] && h[33] == h[32..36][1] && h[34] == h[32..36][2] && h[35] == h[32..36][3];
    hide HeaderWith;
  }

  lemma HeadersExist()
    ensures HeaderFor(HeaderWith([20, 0, 0, 0]), 20) && HeaderFor(HeaderWith([0, 0, 1, 0]), PROCESSED)
  {
    HeaderAnnounces(20);
    HeaderAnnounces(PROCESSED);
    assert LittleEndian(20) == [20, 0, 0, 0] && LittleEndian(PROCESSED) == [0, 0, 1, 0];
    hide HeaderWith;
  }

  lemma HeaderThen(h: Data, n: nat, rest: Data)
    requires HeaderFor(h, n)
    ensures |h + rest| >= XHEAD_SIZE && MagicOf(h + rest) == MAGIC && BodyLen(h + rest) == n
    ensures |rest| >= n ==> Complete(h + rest) && BodyAt(h + rest) == rest[..n] && Behind(h + rest) == rest[n..]
  {
    SameHeader(h, rest);
  }

  // The first two reads of a request that comes as header and body.
  lemma HeaderAndBody(h: Data, z: Data, ok: Handler)
    requires HeaderFor(h, |z|) && 0 < |z| && ok(z, [])
    ensures FeedAll([], ok) == Returns(FRESH)
    ensures FeedAll([h], ok) == Returns(Conn(h, |z|, XHEAD_SIZE, true, [], false))
    ensures FeedAll([h, z], ok) == Returns(Conn(h + z, |z|, PROCESSED, true, [z], false))
    ensures Complete(h + z) && WhenComplete([h, z]) == h + z
  {
    HeaderThen(h, |z|, z);
    assert z[..|z|] == z && z[|z|..] == [];
    FlatOf(h, z, []);
    assert [h][..0] == [] && [h, z][..1] == [h];
    FeedAllIsTold([], ok);
    FeedAllIsTold([h], ok);
    FeedAllIsTold([h, z], ok);
    MarksHold([h, z]);
    hide FeedAll, Flat;
  }

  lemma PrefixesOf(a: Data, b: Data, c: Data)
    ensures [a, b, c][..0] == [] && [a, b, c][..1] == [a] && [a, b, c][..2] == [a, b]
  {
  }

  /** Three reads that the code makes: a header, its body of 65536 bytes, which is accepted, and 65536 bytes more. If
      the request is accepted again, the third read never returns; if not, it closes the connection, after two calls.
      */
  lemma ThirdRead(h: Data, z: Data, more: Data, ok: Handler)
    requires HeaderFor(h, PROCESSED) && |z| == |more| == PROCESSED && ok(z, [])
    ensures WithinExpected([h, z, more], ok)
    ensures var o := FeedAll([h, z, more], ok);
      if ok(z, more) then o.Diverges? else o.Returns? && o.c.closed && o.c.handled == [z, z]
  {
    HeaderAndBody(h, z, ok);
    PrefixesOf(h, z, more);
    HeaderThen(h, PROCESSED, z);
    HeaderThen(h, PROCESSED, z + more);
    FlatOf(h, z, more);
    assert h + z + more == h + (z + more) && (z + more)[..PROCESSED] == z && (z + more)[PROCESSED..] == more;
    assert z[..PROCESSED] == z && z[PROCESSED..] == [];
    assert WhenComplete([h, z, more]) == h + z;
    assert WhenFull([h, z, more]) == h + z + more;
    hide FeedAll, Flat, WhenComplete, WhenFull, Behind, BodyAt;
    FeedAllIsTold([h, z, more], ok);
    MarksHold([h, z, more]);
  }

  /** The reads matter: a short request that is accepted alone and refused with one more byte behind it stays open if
      that byte comes in a read of its own and is closed if it comes with the end of the header, the same bytes both
      times. */
  lemma ReadsMatter(h: Data, z: Data, x: Byte, ok: Handler)
    requires HeaderFor(h, |z|) && 0 < |z| <= 34 && ok(z, []) && !ok(z, [x])
    ensures var calm, hasty := [h, z, [x]], [h[..35], h[35..] + z + [x]];
      && Flat(calm) == Flat(hasty) && WithinExpected(calm, ok) && WithinExpected(hasty, ok)
      && Open(FeedAll(calm, ok)) && FeedAll(hasty, ok).Returns? && FeedAll(hasty, ok).c.closed
  {
    Calm(h, z, x, ok);
    Hasty(h, z, x, ok);
  }

  lemma Calm(h: Data, z: Data, x: Byte, ok: Handler)
    requires HeaderFor(h, |z|) && 0 < |z| <= 34 && ok(z, [])
    ensures var calm := [h, z, [x]];
      Flat(calm) == h + (z + [x]) && WithinExpected(calm, ok) && Open(FeedAll(calm, ok))
  {
    var calm := [h, z, [x]];
    HeaderAndBody(h, z, ok);
    PrefixesOf(h, z, [x]);
    HeaderThen(h, |z|, z);
    HeaderThen(h, |z|, z + [x]);
    FlatOf(h, z, [x]);
    assert h + z + [x] == h + (z + [x]);
    assert z[..|z|] == z && z[|z|..] == [];
    assert WhenComplete(calm) == h + z;
    hide FeedAll, Flat, WhenComplete, WhenFull, Behind, BodyAt;
    FeedAllIsTold(calm, ok);
    MarksHold(calm);
  }

  lemma Hasty(h: Data, z: Data, x: Byte, ok: Handler)
    requires HeaderFor(h, |z|) && 0 < |z| <= 34 && !ok(z, [x])
    ensures var hasty := [h[..35], h[35..] + z + [x]];
      && Flat(hasty) == h + (z + [x]) && WithinExpected(hasty, ok)
      && FeedAll(hasty, ok).Returns? && FeedAll(hasty, ok).c.closed
  {
    var a, rest := h[..35], h[35..] + z + [x];
    var hasty := [a, rest];
    FlatOf(a, rest, []);
    assert a + rest == h + (z + [x]);
    HeaderThen(h, |z|, z + [x]);
    assert (z + [x])[..|z|] == z && (z + [x])[|z|..] == [x];
    assert hasty[..0] == [] && hasty[..1] == [a];
    FeedAllIsTold([], ok);
    FeedAllIsTold([a], ok);
    FeedAllIsTold(hasty, ok);
    MarksHold(hasty);
    assert WhenComplete(hasty) == a + rest;
    hide FeedAll, Flat, WhenFull;
  }

  lemma {:induction false} TextWithoutNul(b: Data)
    requires 0 !in b
    ensures UpToNul(b) == b
  {
    if b != [] {
      TextWithoutNul(b[1..]);
      assert [b[0]] + b[1..] == b;
    }
  }

  /** And so they do for the handler of the source: the text of a request without NUL is read on behind its body. */
  lemma ReadsMatterForText(z: Data, x: Byte, accepts: Data -> bool)
    requires |z| == 20 && 0 !in z && x != 0 && accepts(z) && !accepts(z + [x])
    ensures var h, ok := HeaderWith([20, 0, 0, 0]), TextHandler(accepts);
      var calm, hasty := [h, z, [x]], [h[..35], h[35..] + z + [x]];
      && Flat(calm) == Flat(hasty) && WithinExpected(calm, ok) && WithinExpected(hasty, ok)
      && Open(FeedAll(calm, ok)) && FeedAll(hasty, ok).Returns? && FeedAll(hasty, ok).c.closed
  {
    HeadersExist();
    TextWithoutNul(z);
    TextWithoutNul(z + [x]);
    assert z + [] == z;
    hide FeedAll, Flat, UpToNul, HeaderWith;
    ReadsMatter(HeaderWith([20, 0, 0, 0]), z, x, TextHandler(accepts));
  }
}
