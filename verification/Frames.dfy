/**
 The local control protocol: frames on the wire (internal/control/protocol.go), the master's output
 writers (internal/control/server.go) and the client's receive loop (internal/control/client.go).

 JSON is a parameter: all that matters is that a result's text is short and free of control bytes.
 */
module Frames {
  import opened Base64
  import opened Failures
  import opened TransferCodec

  type Bytes = seq<Byte>

  const VERSION: Byte := 1
  const MAX_PAYLOAD := 65536

  const REQUEST: Byte := 1
  const STDOUT: Byte := 2
  const STDERR: Byte := 3
  const RESULT: Byte := 4
  const ERROR: Byte := 7

  // ---- Frames on the wire ----

  datatype Frame = Frame(kind: Byte, payload: Bytes) {
    /** What writeFrame is willing to write. */
    predicate Valid() {
      REQUEST <= kind <= ERROR && |payload| <= MAX_PAYLOAD
    }

    predicate IsOutput() {
      Valid() && (kind == STDOUT || kind == STDERR)
    }
  }

  function BigEndian(n: nat): Bytes
    requires n <= MAX_PAYLOAD
  {
    [n / 16777216, n / 65536 % 256, n / 256 % 256, n % 256]
  }

  function Uint32(a: Byte, b: Byte, c: Byte, d: Byte): nat {
    a * 16777216 + b * 65536 + c * 256 + d
  }

  function Header(kind: Byte, length: nat): Bytes
    requires length <= MAX_PAYLOAD
  {
    [VERSION, kind] + BigEndian(length)
  }

  function Wire(f: Frame): Bytes
    requires f.Valid()
  {
    Header(f.kind, |f.payload|) + f.payload
  }

  /** What a reader makes of the rest of a stream: a frame, a protocol error, or an early end. */
  datatype Parsed = Parsed(frame: Frame, rest: Bytes) | Invalid | TooShort

  predicate GoodHeader(s: Bytes)
    requires |s| >= 6
  {
    s[0] == VERSION && REQUEST <= s[1] <= ERROR && Uint32(s[2], s[3], s[4], s[5]) <= MAX_PAYLOAD
  }

  function Parse(s: Bytes): Parsed {
    if |s| < 6 then
      TooShort
    else if !GoodHeader(s) then
      Invalid
    else
      var n := 6 + Uint32(s[2], s[3], s[4], s[5]);
      if |s| < n then TooShort else Parsed(Frame(s[1], s[6..n]), s[n..])
  }

  lemma LengthIsReadBack(n: nat)
    requires n <= MAX_PAYLOAD
    ensures var b := BigEndian(n); Uint32(b[0], b[1], b[2], b[3]) == n && b[0] == 0 && b[1] <= 1
  {
  }

  lemma LengthIsUnique(a: Byte, b: Byte, c: Byte, d: Byte)
    requires Uint32(a, b, c, d) <= MAX_PAYLOAD
    ensures BigEndian(Uint32(a, b, c, d)) == [a, b, c, d]
  {
    var n := Uint32(a, b, c, d);
    assert n == 256 * (a * 65536 + b * 256 + c) + d;
    assert n / 256 == 256 * (a * 256 + b) + c;
  }

  /** A written frame is read back, whatever follows it. */
  lemma FrameIsReadBack(f: Frame, rest: Bytes)
    requires f.Valid()
    ensures Parse(Wire(f) + rest) == Parsed(f, rest)
  {
    var s := Wire(f) + rest;
    LengthIsReadBack(|f.payload|);
    assert s[..6] == Header(f.kind, |f.payload|);
    assert s[0] == s[..6][0] && s[1] == s[..6][1] && s[2] == s[..6][2] && s[3] == s[..6][3] && s[4] == s[..6][4]
        && s[5] == s[..6][5];
    assert s[6..6 + |f.payload|] == f.payload && s[6 + |f.payload|..] == rest;
  }

  /** The format has no second spelling: whatever is read as a frame is what writing it produces. */
  lemma OnlyWrittenFramesAreRead(s: Bytes)
    requires Parse(s).Parsed?
    ensures var r := Parse(s); r.frame.Valid() && s == Wire(r.frame) + r.rest
  {
    LengthIsUnique(s[2], s[3], s[4], s[5]);
    var n := 6 + Uint32(s[2], s[3], s[4], s[5]);
    assert s[..6] == Header(s[1], n - 6);
    assert s == s[..6] + s[6..n] + s[n..];
  }

  predicate AllOutput(frames: seq<Frame>) {
    forall i :: 0 <= i < |frames| ==> frames[i].IsOutput()
  }

  function Stream(frames: seq<Frame>): Bytes
    requires AllOutput(frames)
  {
    if frames == [] then [] else Wire(frames[0]) + Stream(frames[1..])
  }

  /** The concatenated payloads of one kind. */
  function Carried(frames: seq<Frame>, kind: Byte): Bytes {
    if frames == [] then []
    else (if frames[0].kind == kind then frames[0].payload else []) + Carried(frames[1..], kind)
  }

  lemma {:induction false} StreamAppend(frames: seq<Frame>, f: Frame)
    requires AllOutput(frames) && f.IsOutput()
    ensures Stream(frames + [f]) == Stream(frames) + Wire(f)
  {
    if frames == [] {
      assert [f][1..] == [] && [] + [f] == [f];
    } else {
      assert (frames + [f])[0] == frames[0] && (frames + [f])[1..] == frames[1..] + [f];
      StreamAppend(frames[1..], f);
    }
  }

  lemma {:induction false} CarriedAppend(frames: seq<Frame>, f: Frame, kind: Byte)
    ensures Carried(frames + [f], kind) == Carried(frames, kind) + (if f.kind == kind then f.payload else [])
  {
    if frames == [] {
      assert [f][1..] == [] && [] + [f] == [f];
    } else {
      assert (frames + [f])[0] == frames[0] && (frames + [f])[1..] == frames[1..] + [f];
      CarriedAppend(frames[1..], f, kind);
      Associates(if frames[0].kind == kind then frames[0].payload else [], Carried(frames[1..], kind),
                 if f.kind == kind then f.payload else []);
    }
  }

  // ---- The master's side ----

  /** The master's end of a connection. Its Write may be short, fail after a part, or misreport. After a
      failure it takes nothing more until its deadline is renewed. */
  class Outlet {
    var sent: Bytes
    var broken: bool
    var faulted: bool       // some Write has failed

    method Write(p: Bytes) returns (n: int, ok: bool)
      modifies this
      ensures old(broken) ==> !ok && sent == old(sent)
      ensures ok && 0 < n <= |p| ==> sent == old(sent) + p[..n]
      ensures old(sent) <= sent <= old(sent) + p
      ensures broken == (old(broken) || (p != [] && !(ok && 0 < n <= |p|)))
      ensures faulted == (old(faulted) || (p != [] && !(ok && 0 < n <= |p|)))
    {
      var taken: int := *;
      taken := if broken || taken < 0 || taken > |p| then 0 else taken;
      n, ok := *, *;
      ok := ok && !broken;
      n := if ok && 0 < n <= |p| then taken else n;
      sent := sent + p[..taken];
      if p != [] && !(ok && 0 < n <= |p|) {
        broken, faulted := true, true;
      }
    }
  }

  lemma PartOfParts(base: Bytes, a: Bytes, b: Bytes, now: Bytes)
    requires base + a <= now <= base + a + b
    ensures base <= now <= base + (a + b)
  {
    assert base + a + b == base + (a + b);
    assert now[..|base|] == (base + a)[..|base|] == base;
  }

  /** writeAll: a count that makes no progress, or claims too much, is an error. */
  method WriteBytes(w: Outlet, data: Bytes) returns (ok: bool)
    modifies w
    ensures ok ==> w.sent == old(w.sent) + data && w.broken == old(w.broken) && w.faulted == old(w.faulted)
    ensures old(w.broken) && data != [] ==> !ok && w.sent == old(w.sent)
    ensures !ok ==> w.broken && w.faulted
    ensures old(w.sent) <= w.sent <= old(w.sent) + data
  {
    var rest := data;
    ghost var done: Bytes := [];
    while |rest| > 0
      invariant done + rest == data && w.sent == old(w.sent) + done
      invariant w.broken == old(w.broken) && w.faulted == old(w.faulted) && (old(w.broken) ==> done == [])
      decreases |rest|
    {
      var n, fine := w.Write(rest);
      PartOfParts(old(w.sent), done, rest, w.sent);
      if !fine || n <= 0 || n > |rest| {
        return false;
      }
      assert done + rest == (done + rest[..n]) + rest[n..];
      done, rest := done + rest[..n], rest[n..];
    }
    return true;
  }

  /** writeFrame. */
  method WriteFrame(w: Outlet, f: Frame) returns (ok: bool)
    modifies w
    ensures !f.Valid() ==> !ok && w.sent == old(w.sent) && w.broken == old(w.broken) && w.faulted == old(w.faulted)
    ensures f.Valid() ==> old(w.sent) <= w.sent <= old(w.sent) + Wire(f) && (!ok ==> w.broken && w.faulted)
    ensures ok ==> w.sent == old(w.sent) + Wire(f) && w.broken == old(w.broken) && w.faulted == old(w.faulted)
    ensures old(w.broken) ==> !ok && w.sent == old(w.sent)
  {
    if !f.Valid() {
      return false;
    }
    var header := Header(f.kind, |f.payload|);
    ok := WriteBytes(w, header);
    assert old(w.sent) + header + f.payload == old(w.sent) + Wire(f);
    if ok {
      ok := WriteBytes(w, f.payload);
      PartOfParts(old(w.sent), header, f.payload, w.sent);
    }
  }

  lemma PartSent(base: Bytes, now: Bytes, wire: Bytes)
    requires base <= now <= base + wire
    ensures now == base + now[|base|..] && now[|base|..] <= wire
  {
    assert now[|base|..] <= (base + wire)[|base|..] == wire;
  }

  lemma FrameSent(start: Bytes, frames: seq<Frame>, f: Frame)
    requires AllOutput(frames) && f.IsOutput()
    ensures AllOutput(frames + [f]) && start + Stream(frames) + [] + Wire(f) == start + Stream(frames + [f]) + []
  {
    StreamAppend(frames, f);
    Associates(start, Stream(frames), Wire(f));
  }

  /** Data of which a part is done. */
  ghost predicate Parts(data: Bytes, done: Bytes, rest: Bytes) {
    data == done + rest
  }

  lemma NextPart(before: Bytes, data: Bytes, done: Bytes, rest: Bytes, n: nat)
    requires Parts(data, done, rest) && n <= |rest|
    ensures data[..|data| - |rest|] == done
    ensures Parts(data, done + rest[..n], rest[n..])
    ensures before + done + rest[..n] == before + (done + rest[..n])
  {
  }

  /** What a failed write of an output frame may leave behind. */
  ghost predicate Part(torn: Bytes) {
    exists f: Frame :: f.IsOutput() && torn <= Wire(f)
  }

  /** What a command's two output writers share: the connection, the frames written whole, and what a
      failed write has left behind them. */
  class Output {
    const conn: Outlet
    ghost const start: Bytes
    ghost var frames: seq<Frame>
    ghost var torn: Bytes
    var cancelled: bool

    constructor (conn: Outlet)
      ensures Valid() && this.conn == conn && start == conn.sent && frames == [] && !cancelled
    {
      this.conn, start, frames, torn, cancelled := conn, conn.sent, [], [], false;
      assert [] <= Wire(Frame(STDOUT, []));
      new;
      assert Part(torn);
    }

    ghost predicate Valid()
      reads this, conn
    {
      && AllOutput(frames)
      && conn.sent == start + Stream(frames) + torn
      && Part(torn)
      && (torn != [] ==> conn.broken && cancelled)
      && (cancelled ==> conn.faulted)
    }

    /** One frame, under the write lock. */
    method Put(f: Frame) returns (ok: bool)
      requires Valid() && f.IsOutput()
      modifies this, conn
      ensures Valid()
      ensures frames == if ok then old(frames) + [f] else old(frames)
      ensures cancelled == (old(cancelled) || !ok)
      ensures ok ==> conn.faulted == old(conn.faulted)
    {
      ok := WriteFrame(conn, f);
      if ok {
        FrameSent(start, frames, f);
        frames := frames + [f];
      } else {
        cancelled := true;
        if torn == [] {
          ghost var base := start + Stream(frames);
          PartSent(base + [], conn.sent, Wire(f));
          torn := conn.sent[|base|..];
        }
      }
    }

    /** Frames of the other writer, any number of which may come between two of this one. */
    method OtherWrites(kind: Byte)
      requires Valid() && (kind == STDOUT || kind == STDERR)
      modifies this, conn
      ensures Valid() && (old(cancelled) ==> cancelled)
      ensures forall k :: k != kind ==> Carried(frames, k) == old(Carried(frames, k))
    {
      var n: int := *;
      while n > 0
        invariant Valid() && (old(cancelled) ==> cancelled)
        invariant forall k :: k != kind ==> Carried(frames, k) == old(Carried(frames, k))
      {
        var payload: Bytes := *;
        if |payload| <= MAX_PAYLOAD {
          var f := Frame(kind, payload);
          forall k ensures k != kind ==> Carried(frames + [f], k) == Carried(frames, k) {
            CarriedAppend(frames, f, k);
          }
          var _ := Put(f);
        }
        n := n - 1;
      }
    }

    /** One turn of the loop of framedWriter.Write. */
    method PutChunk(kind: Byte, chunk: Bytes) returns (ok: bool)
      requires Valid() && (kind == STDOUT || kind == STDERR) && |chunk| <= MAX_PAYLOAD
      modifies this, conn
      ensures Valid() && (!ok || old(cancelled) ==> cancelled)
      ensures Carried(frames, kind) == old(Carried(frames, kind)) + (if ok then chunk else [])
    {
      OtherWrites(STDOUT + STDERR - kind);
      var f := Frame(kind, chunk);
      CarriedAppend(frames, f, kind);
      ok := Put(f);
    }

    /** framedWriter.Write: the data in frames of at most 64 KiB. The bytes it claims to have written are
        the bytes that have gone out under its kind, whatever the other writer does meanwhile. */
    method Write(kind: Byte, data: Bytes) returns (n: nat, ok: bool)
      requires Valid() && (kind == STDOUT || kind == STDERR)
      modifies this, conn
      ensures Valid() && n <= |data| && (ok <==> n == |data|)
      ensures Carried(frames, kind) == old(Carried(frames, kind)) + data[..n]
      ensures !ok || old(cancelled) ==> cancelled
    {
      var rest := data;
      ghost var before, done: Bytes := Carried(frames, kind), [];
      while |rest| > 0
        invariant Valid() && Parts(data, done, rest)
        invariant Carried(frames, kind) == before + done
        invariant old(cancelled) ==> cancelled
        decreases |rest|
      {
        var n := if |rest| > MAX_PAYLOAD then MAX_PAYLOAD else |rest|;
        NextPart(before, data, done, rest, n);
        var fine := PutChunk(kind, rest[..n]);
        if !fine {
          return |data| - |rest|, false;
        }
        done, rest := done + rest[..n], rest[n..];
      }
      return |data|, true;
    }
  }

  /** The end of handle: with a renewed deadline, the result frame. */
  method Answer(conn: Outlet, payload: Bytes)
    modifies conn
    ensures |payload| <= MAX_PAYLOAD ==> old(conn.sent) <= conn.sent <= old(conn.sent) + Wire(Frame(RESULT, payload))
    ensures |payload| > MAX_PAYLOAD ==> conn.sent == old(conn.sent)
    ensures |payload| <= MAX_PAYLOAD && !conn.broken ==> conn.sent == old(conn.sent) + Wire(Frame(RESULT, payload))
    ensures conn.faulted == (old(conn.faulted) || conn.broken)
  {
    conn.broken := false;
    var _ := WriteFrame(conn, Frame(RESULT, payload));
  }

  // ---- The client's side ----

  /** The client's end: rest is what it could still receive. A successful Read returns something. */
  class Peer {
    var rest: Bytes
    var failed: bool        // some Read has failed

    method Read(limit: nat) returns (data: Bytes, ok: bool)
      requires limit > 0
      modifies this
      ensures data + rest == old(rest) && |data| <= limit
      ensures ok ==> data != []
      ensures failed == (old(failed) || !ok)
    {
      var n: int := *;
      n := if 0 <= n <= limit && n <= |rest| then n else 0;
      data, rest := rest[..n], rest[n..];
      ok := *;
      ok := ok && data != [];
      failed := failed || !ok;
    }
  }

  /** io.ReadFull. */
  method ReadFull(src: Peer, n: nat) returns (data: Bytes, ok: bool)
    modifies src
    ensures data + src.rest == old(src.rest)
    ensures |data| <= n && (ok <==> |data| == n) && (!ok ==> src.failed)
    ensures old(src.failed) ==> src.failed
  {
    data, ok := [], true;
    while |data| < n && ok
      invariant data + src.rest == old(src.rest) && |data| <= n
      invariant (ok ==> src.failed == old(src.failed)) && (!ok || old(src.failed) ==> src.failed)
      decreases n - |data|, ok
    {
      var more;
      more, ok := src.Read(n - |data|);
      assert data + (more + src.rest) == data + more + src.rest;
      data := data + more;
    }
    ok := |data| == n;
  }

  /** readFrame: a frame exactly when the stream starts with one and it arrives. */
  method ReadFrame(src: Peer) returns (frame: Option<Frame>)
    modifies src
    ensures frame.Some? ==> Parse(old(src.rest)) == Parsed(frame.value, src.rest)
    ensures frame.Some? ==> frame.value.Valid() && |src.rest| < |old(src.rest)|
    ensures frame.None? ==> src.failed || Parse(old(src.rest)).Invalid?
    ensures old(src.failed) ==> src.failed
  {
    ghost var s := src.rest;
    var header, full := ReadFull(src, 6);
    if !full {
      return None;
    }
    assert s[..6] == header;
    if !GoodHeader(header) {
      return None;
    }
    var payload;
    payload, full := ReadFull(src, Uint32(header[2], header[3], header[4], header[5]));
    if !full {
      return None;
    }
    assert s == header + (payload + src.rest);
    assert s[..6] == header && s[6..6 + |payload|] == payload && s[6 + |payload|..] == src.rest;
    return Some(Frame(header[1], payload));
  }

  // ---- The receive loop ----

  /** Go's int on the platforms the program is built for. */
  type Int64 = x: int | -0x8000_0000_0000_0000 <= x < 0x8000_0000_0000_0000

  datatype Result = Result(exitCode: Int64, category: string) {
    predicate Succeeds() {
      category == ""
    }

    /** What an executor can answer: no category, or a known one. */
    predicate Answerable() {
      category == "" || category in CATEGORIES
    }
  }

  type Decoder = Bytes -> Option<Result>

  const MAX_UINT32 := 4294967295

  const CATEGORIES := {
    "not-started", "identity-mismatch", "persist-mismatch", "queue-full", "timeout", "canceled", "cleanup-failed",
    "remote-state-unknown", "unavailable"}

  predicate Acceptable(r: Result) {
    0 <= r.exitCode <= MAX_UINT32 && r.Answerable()
  }

  function AsText(payload: Bytes): string {
    seq(|payload|, i requires 0 <= i < |payload| => payload[i] as char)
  }

  /** How invokeConn ends. Uncertain stands for every error that carries remote-state-unknown, Interrupted
      for the bare error of the command's context. */
  datatype Outcome = Returned(result: Result) | Refused(category: string) | Interrupted | BadProtocol | Uncertain

  /** What has reached one writer: a part of its stream and, unless something was dropped, all of it. */
  ghost predicate Delivered(base: Bytes, frames: seq<Frame>, kind: Byte, data: Bytes, whole: bool) {
    base <= data <= base + Carried(frames, kind) && (whole ==> data == base + Carried(frames, kind))
  }

  /** One more frame, of which n bytes have reached this writer. */
  lemma Delivers(base: Bytes, before: Bytes, now: Bytes, frames: seq<Frame>, f: Frame, kind: Byte, n: nat, whole: bool)
    requires Delivered(base, frames, kind, before, whole)
    requires n <= |f.payload| && (n > 0 ==> f.kind == kind && whole)
    requires now == before + f.payload[..n]
    ensures Delivered(base, frames + [f], kind, now, whole && (f.kind == kind ==> n == |f.payload|))
  {
    CarriedAppend(frames, f, kind);
    var c := Carried(frames, kind);
    Associates(base, c, if f.kind == kind then f.payload else []);
    if n > 0 {
      assert base + c + f.payload[..n] <= base + c + f.payload;
    } else {
      assert now == before;
    }
  }

  /** The command's context at the client. It is alive for a number of looks. */
  class Context {
    const patience: nat
    var looks: nat

    constructor (patience: nat)
      ensures this.patience == patience && !Over()
    {
      this.patience, looks := patience, 0;
    }

    predicate Over()
      reads this
    {
      looks > patience
    }

    method Ended() returns (ended: bool)
      modifies this
      ensures looks == old(looks) + 1 && ended == Over()
    {
      looks := looks + 1;
      ended := looks > patience;
    }
  }

  /** Hands one output frame to its writer and waits for the write or for the context: when both have come,
      either may be taken. */
  method DeliverFrame(f: Frame, ctx: Context, out: Sink, err: Sink) returns (written: bool, ghost n: nat)
    requires f.IsOutput() && out != err
    modifies ctx, out, err
    ensures n <= |f.payload| && (written ==> n == |f.payload|)
    ensures out.data == old(out.data) + (if f.kind == STDOUT then f.payload[..n] else [])
    ensures err.data == old(err.data) + (if f.kind == STDERR then f.payload[..n] else [])
    ensures !written ==> ctx.Over() || out.flawed || err.flawed
    ensures (old(ctx.Over()) ==> ctx.Over()) && (old(out.flawed) ==> out.flawed) && (old(err.flawed) ==> err.flawed)
  {
    var writer := if f.kind == STDERR then err else out;
    var taken, failure := writer.Write(f.payload);
    var over := ctx.Ended();
    var pickContext: bool := *;
    n := taken;
    written := !(over && pickContext) && failure.Written? && taken == |f.payload|;
  }

  /** One output frame: dropped after cancellation, otherwise written. */
  method HandleOutput(f: Frame, cancelled: bool, ctx: Context, out: Sink, err: Sink,
                      ghost outBase: Bytes, ghost errBase: Bytes, ghost frames: seq<Frame>, ghost whole: bool)
    returns (written: bool)
    requires f.IsOutput() && out != err && (whole || cancelled)
    requires Delivered(outBase, frames, STDOUT, out.data, whole) && Delivered(errBase, frames, STDERR, err.data, whole)
    modifies ctx, out, err
    ensures cancelled ==> !written
    ensures Delivered(outBase, frames + [f], STDOUT, out.data, whole && written)
    ensures Delivered(errBase, frames + [f], STDERR, err.data, whole && written)
    ensures !cancelled && !written ==> ctx.Over() || out.flawed || err.flawed
    ensures (old(ctx.Over()) ==> ctx.Over()) && (old(out.flawed) ==> out.flawed) && (old(err.flawed) ==> err.flawed)
  {
    ghost var n, before, before' := 0, out.data, err.data;
    written := false;
    if !cancelled {
      written, n := DeliverFrame(f, ctx, out, err);
    }
    Delivers(outBase, before, out.data, frames, f, STDOUT, if f.kind == STDOUT then n else 0, whole);
    Delivers(errBase, before', err.data, frames, f, STDERR, if f.kind == STDERR then n else 0, whole);
  }

  /** What invokeConn makes of a frame that ends its loop. */
  function Conclude(f: Frame, cancelled: bool, decode: Decoder): (r: Outcome)
    ensures r.Returned? ==> f.kind == RESULT && decode(f.payload) == Some(r.result)
    ensures r.Returned? ==> !(r.result.Succeeds() && cancelled)
    ensures r.Refused? <==> f.kind == ERROR && AsText(f.payload) in CATEGORIES
    ensures r.Refused? ==> r.category == AsText(f.payload)
    ensures r.Interrupted? ==> cancelled && f.kind == RESULT
    ensures !r.Uncertain?
  {
    if f.kind == RESULT then
      match decode(f.payload)
      case None => BadProtocol
      case Some(result) =>
        if !Acceptable(result) then BadProtocol
        else if result.Succeeds() && cancelled then Interrupted
        else Returned(result)
    else if f.kind == ERROR && AsText(f.payload) in CATEGORIES then
      Refused(AsText(f.payload))
    else
      BadProtocol
  }

  /** Something at the client has gone wrong, or its context is over. */
  predicate Disturbed(conn: Peer, ctx: Context, out: Sink, err: Sink)
    reads conn, ctx, out, err
  {
    conn.failed || ctx.Over() || out.flawed || err.flawed
  }

  /** invokeConn after the call has been checked. frames are the output frames it has read, left is what it
      could still receive behind them, last is the frame that ended its loop. That frame decides, or there is
      none and the outcome is uncertain; an undisturbed client finds one unless the stream is invalid. */
  method InvokeConn(conn: Peer, requestSent: bool, ctx: Context, decode: Decoder, out: Sink, err: Sink)
    returns (outcome: Outcome, ghost frames: seq<Frame>, ghost left: Bytes, ghost last: Option<Frame>)
    requires out != err
    modifies conn, ctx, out, err
    ensures AllOutput(frames) && old(conn.rest) == Stream(frames) + left
    ensures Delivered(old(out.data), frames, STDOUT, out.data, outcome.Returned? && outcome.result.Succeeds())
    ensures Delivered(old(err.data), frames, STDERR, err.data, outcome.Returned? && outcome.result.Succeeds())
    ensures outcome.Uncertain? <==> last.None?
    ensures last.None? ==> !requestSent || Disturbed(conn, ctx, out, err) || Parse(left).Invalid?
    ensures last.Some? ==> last.value.Valid() && !last.value.IsOutput() && left == Wire(last.value) + conn.rest
    ensures last.Some? ==> requestSent && outcome == Conclude(last.value, ctx.Over(), decode)
  {
    frames, last, left := [], None, conn.rest;
    if !requestSent {
      return Uncertain, frames, left, last;
    }
    ghost var dropped := false;
    while true
      invariant AllOutput(frames) && (dropped ==> ctx.Over()) && left == conn.rest
      invariant Delivered(old(out.data), frames, STDOUT, out.data, !dropped)
      invariant Delivered(old(err.data), frames, STDERR, err.data, !dropped)
      invariant old(conn.rest) == Stream(frames) + conn.rest
      decreases |conn.rest|
    {
      var read := ReadFrame(conn);
      if read.None? {
        return Uncertain, frames, left, None;
      }
      var f := read.value;
      OnlyWrittenFramesAreRead(left);
      Associates(Stream(frames), Wire(f), conn.rest);
      var cancelled := ctx.Ended();
      if !f.IsOutput() {
        return Conclude(f, cancelled, decode), frames, left, Some(f);
      }
      var written := HandleOutput(f, cancelled, ctx, out, err, old(out.data), old(err.data), frames, !dropped);
      StreamAppend(frames, f);
      frames, left := frames + [f], conn.rest;
      if !cancelled && !written {
        return Uncertain, frames, left, None;
      }
      dropped := dropped || !written;
    }
  }

  // ---- From the executor's writes to the caller's writers ----

  /** A result's JSON is short and free of control bytes. */
  predicate PlainText(payload: Bytes) {
    2 <= |payload| <= 250 && VERSION !in payload
  }

  type Encoder = Result -> Bytes

  /** What is taken from the JSON library: the results that an executor can answer are written as plain
      text and read back. Module ResultJson shows that their JSON is such a pair. */
  ghost predicate Marshals(encode: Encoder, decode: Decoder) {
    forall r: Result :: r.Answerable() ==> PlainText(encode(r)) && decode(encode(r)) == Some(r)
  }

  lemma NoFrameInsideResult(payload: Bytes, q: nat)
    requires PlainText(payload) && 1 <= q <= 6 + |payload|
    ensures !Parse(Wire(Frame(RESULT, payload))[q..]).Parsed?
  {
    var r := Wire(Frame(RESULT, payload));
    LengthIsReadBack(|payload|);
    if q < |r| {
      assert r[q..][0] == r[q] != VERSION;
    }
  }

  lemma ResultStart(payload: Bytes)
    requires PlainText(payload)
    ensures Wire(Frame(RESULT, payload))[..5] == [1, 4, 0, 0, 0]
  {
    LengthIsReadBack(|payload|);
    var w := Wire(Frame(RESULT, payload));
    assert w[..5] == [w[0], w[1], w[2], w[3], w[4]];
  }

  /** A header that was torn off and completed by the start of a result frame reads as a length that is
      too large, or larger than what follows, or as one octet of garbage. */
  lemma TornHeader(f: Frame, torn: Bytes, payload: Bytes)
    requires f.IsOutput() && PlainText(payload)
    requires torn <= Wire(f) && 1 <= |torn| < 6
    ensures var r := Parse(torn + Wire(Frame(RESULT, payload)));
      r.Parsed? ==> r.frame.kind != RESULT && !Parse(r.rest).Parsed?
  {
    var h := Header(f.kind, |f.payload|);
    LengthIsReadBack(|f.payload|);
    assert torn == Wire(f)[..|torn|] == h[..|torn|];
    ResultStart(payload);
    CompletedHeader(h, torn, payload);
  }

  lemma CompletedHeader(h: Bytes, torn: Bytes, payload: Bytes)
    requires PlainText(payload) && Wire(Frame(RESULT, payload))[..5] == [1, 4, 0, 0, 0]
    requires |h| == 6 && h[0] == VERSION && (h[1] == STDOUT || h[1] == STDERR) && h[2] == 0 && h[3] <= 1
    requires 1 <= |torn| < 6 && torn == h[..|torn|]
    ensures var r := Parse(torn + Wire(Frame(RESULT, payload)));
      r.Parsed? ==> r.frame.kind != RESULT && !Parse(r.rest).Parsed?
  {
    var result := Wire(Frame(RESULT, payload));
    var s := torn + result;
    var start := result[..5];
    assert forall i :: 0 <= i < 5 ==> result[i] == start[i];
    if |torn| == 5 {
      assert s[4] == h[4] && s[5] == 1 && s[2] == 0 && s[3] == h[3];
      NoFrameInsideResult(payload, 2);
      if Parse(s).Parsed? {
        assert s[7..] == result[2..];
      }
    } else if |torn| == 4 {
      assert s[2] == 0 && s[3] == h[3] && s[4] == 1 && s[5] == 4;
    } else if |torn| == 3 {
      assert s[2] == 0 && s[3] == 1 && s[4] == 4 && s[5] == 0;
    } else {
      assert s[2] == 1 || (s[2] == 4 && s[1] == 1);
    }
  }

  /** A payload that was torn off and completed by bytes of a result frame. */
  lemma TornPayload(f: Frame, torn: Bytes, payload: Bytes)
    requires f.IsOutput() && PlainText(payload)
    requires torn < Wire(f) && 6 <= |torn|
    ensures var r := Parse(torn + Wire(Frame(RESULT, payload)));
      r.Parsed? ==> r.frame.kind != RESULT && !Parse(r.rest).Parsed?
  {
    var result := Wire(Frame(RESULT, payload));
    var s := torn + result;
    LengthIsReadBack(|f.payload|);
    assert forall i :: 0 <= i < 6 ==> s[i] == torn[i] == Header(f.kind, |f.payload|)[i];
    var q := 6 + |f.payload| - |torn|;
    if q <= |result| {
      assert s[6 + |f.payload|..] == result[q..];
      NoFrameInsideResult(payload, q);
    }
  }

  lemma FirstFrameIsRead(frames: seq<Frame>, tail: Bytes)
    requires AllOutput(frames) && frames != []
    ensures Parse(Stream(frames) + tail) == Parsed(frames[0], Stream(frames[1..]) + tail)
  {
    FrameIsReadBack(frames[0], Stream(frames[1..]) + tail);
    Associates(Wire(frames[0]), Stream(frames[1..]), tail);
  }

  lemma SomeFrameIsRead(frames: seq<Frame>, answer: Bytes, rest: Bytes)
    requires AllOutput(frames) && |answer| <= MAX_PAYLOAD
    ensures Parse(Stream(frames) + (Wire(Frame(RESULT, answer)) + rest)).Parsed?
  {
    var tail := Wire(Frame(RESULT, answer)) + rest;
    if frames == [] {
      FrameIsReadBack(Frame(RESULT, answer), rest);
      assert [] + tail == tail;
    } else {
      FirstFrameIsRead(frames, tail);
    }
  }

  /** After a torn frame no result is found at all. */
  lemma NoResultAfterTornFrame(f: Frame, torn: Bytes, payload: Bytes, read: seq<Frame>, answer: Bytes, rest: Bytes)
    requires f.IsOutput() && torn < Wire(f) && torn != []
    requires AllOutput(read) && PlainText(payload) && |answer| <= MAX_PAYLOAD
    ensures torn + Wire(Frame(RESULT, payload)) != Stream(read) + (Wire(Frame(RESULT, answer)) + rest)
  {
    if |torn| < 6 {
      TornHeader(f, torn, payload);
    } else {
      TornPayload(f, torn, payload);
    }
    var tail := Wire(Frame(RESULT, answer)) + rest;
    if read == [] {
      FrameIsReadBack(Frame(RESULT, answer), rest);
      assert [] + tail == tail;
    } else {
      FirstFrameIsRead(read, tail);
      SomeFrameIsRead(read[1..], answer, rest);
    }
  }

  /** Both streams start with the same frame, or at most one of them starts with an output frame. */
  lemma SameFirstFrame(sent: seq<Frame>, a: Bytes, read: seq<Frame>, answer: Bytes, rest: Bytes)
    requires AllOutput(sent) && AllOutput(read) && |answer| <= MAX_PAYLOAD && sent != []
    requires Stream(sent) + a == Stream(read) + (Wire(Frame(RESULT, answer)) + rest)
    ensures read != [] && read[0] == sent[0]
    ensures Stream(sent[1..]) + a == Stream(read[1..]) + (Wire(Frame(RESULT, answer)) + rest)
  {
    var tail := Wire(Frame(RESULT, answer)) + rest;
    FrameIsReadBack(Frame(RESULT, answer), rest);
    assert [] + tail == tail;
    FirstFrameIsRead(sent, a);
    if read != [] {
      FirstFrameIsRead(read, tail);
    }
  }

  lemma {:induction false} NoResultAfterTornStream(sent: seq<Frame>, f: Frame, torn: Bytes, payload: Bytes,
                                                   read: seq<Frame>, answer: Bytes, rest: Bytes)
    requires f.IsOutput() && torn < Wire(f) && torn != []
    requires AllOutput(sent) && AllOutput(read) && PlainText(payload) && |answer| <= MAX_PAYLOAD
    ensures Stream(sent) + (torn + Wire(Frame(RESULT, payload))) != Stream(read) + (Wire(Frame(RESULT, answer)) + rest)
    decreases |sent|
  {
    var a, b := torn + Wire(Frame(RESULT, payload)), Stream(read) + (Wire(Frame(RESULT, answer)) + rest);
    if sent == [] {
      assert [] + a == a;
      NoResultAfterTornFrame(f, torn, payload, read, answer, rest);
    } else if Stream(sent) + a == b {
      SameFirstFrame(sent, a, read, answer, rest);
      NoResultAfterTornStream(sent[1..], f, torn, payload, read[1..], answer, rest);
    }
  }

  lemma {:induction false} SameFrames(sent: seq<Frame>, payload: Bytes, read: seq<Frame>, answer: Bytes, rest: Bytes)
    requires AllOutput(sent) && AllOutput(read) && |payload| <= MAX_PAYLOAD && |answer| <= MAX_PAYLOAD
    requires Stream(sent) + Wire(Frame(RESULT, payload)) == Stream(read) + (Wire(Frame(RESULT, answer)) + rest)
    ensures answer == payload && read == sent
    decreases |sent|
  {
    var wire, tail := Wire(Frame(RESULT, payload)), Wire(Frame(RESULT, answer)) + rest;
    if sent == [] {
      FrameIsReadBack(Frame(RESULT, payload), []);
      FrameIsReadBack(Frame(RESULT, answer), rest);
      assert [] + wire == wire + [] && [] + tail == tail;
      if read != [] {
        FirstFrameIsRead(read, tail);
      }
    } else {
      SameFirstFrame(sent, wire, read, answer, rest);
      SameFrames(sent[1..], payload, read[1..], answer, rest);
      assert read == [read[0]] + read[1..] && sent == [sent[0]] + sent[1..];
    }
  }

  /** Whatever a failed write has left in front of it, the only result a reader can find is the one that
      was written. Nothing in front of it means that exactly the written frames are read as well. */
  lemma OnlyTheResultIsFound(sent: seq<Frame>, torn: Bytes, payload: Bytes,
                             read: seq<Frame>, answer: Bytes, rest: Bytes)
    requires AllOutput(sent) && AllOutput(read) && Part(torn) && PlainText(payload) && |answer| <= MAX_PAYLOAD
    requires Stream(sent) + (torn + Wire(Frame(RESULT, payload))) == Stream(read) + (Wire(Frame(RESULT, answer)) + rest)
    ensures answer == payload && (torn == [] ==> read == sent)
  {
    var wire := Wire(Frame(RESULT, payload));
    if torn == [] {
      assert torn + wire == wire;
      SameFrames(sent, payload, read, answer, rest);
    } else {
      var f: Frame :| f.IsOutput() && torn <= Wire(f);
      if torn == Wire(f) {
        StreamAppend(sent, f);
        Associates(Stream(sent), torn, wire);
        SameFrames(sent + [f], payload, read, answer, rest);
      } else {
        NoResultAfterTornStream(sent, f, torn, payload, read, answer, rest);
      }
    }
  }

  /** The writes that are left of one writer's calls, the first of them perhaps in part. */
  function AfterFrame(calls: seq<Bytes>): (Bytes, seq<Bytes>)
    requires calls != []
  {
    var data := calls[0];
    if |data| <= MAX_PAYLOAD then (data, calls[1..]) else (data[..MAX_PAYLOAD], [data[MAX_PAYLOAD..]] + calls[1..])
  }

  lemma FrameComesFirst(calls: seq<Bytes>)
    requires calls != []
    ensures var (chunk, rest) := AfterFrame(calls);
      && |chunk| <= MAX_PAYLOAD && Flatten(calls) == chunk + Flatten(rest)
      && |Flatten(rest)| + |rest| < |Flatten(calls)| + |calls|
  {
    var data, tail := calls[0], calls[1..];
    if |data| > MAX_PAYLOAD {
      var rest := [data[MAX_PAYLOAD..]] + tail;
      assert rest[1..] == tail;
      Associates(data[..MAX_PAYLOAD], data[MAX_PAYLOAD..], Flatten(tail));
      assert data == data[..MAX_PAYLOAD] + data[MAX_PAYLOAD..];
    }
  }

  /** The next frame of one of two concurrent writers. An empty write puts no frame. */
  method PutNext(output: Output, kind: Byte, calls: seq<Bytes>) returns (ok: bool, rest: seq<Bytes>)
    requires output.Valid() && (kind == STDOUT || kind == STDERR) && calls != []
    modifies output, output.conn
    ensures output.Valid() && (!ok || old(output.cancelled) ==> output.cancelled)
    ensures |Flatten(rest)| + |rest| < |Flatten(calls)| + |calls|
    ensures calls[0] == [] ==> output.frames == old(output.frames)
    ensures ok ==> Carried(output.frames, kind) + Flatten(rest) == old(Carried(output.frames, kind)) + Flatten(calls)
    ensures forall k :: k != kind ==> Carried(output.frames, k) == old(Carried(output.frames, k))
  {
    FrameComesFirst(calls);
    var (chunk, left) := AfterFrame(calls);
    rest := left;
    if chunk == [] {
      assert chunk + Flatten(rest) == Flatten(rest);
      return true, rest;
    }
    var f := Frame(kind, chunk);
    forall k ensures Carried(output.frames + [f], k) == Carried(output.frames, k) + (if kind == k then chunk else []) {
      CarriedAppend(output.frames, f, k);
    }
    Associates(Carried(output.frames, kind), chunk, Flatten(rest));
    ok := output.Put(f);
  }

  /** The executor's calls on both writers, frame by frame in any interleaving, up to the first failure, and
      its verdict: its exit code with its own category, or with that of a failed write. */
  method Execute(output: Output, out: seq<Bytes>, err: seq<Bytes>, exitCode: Int64, verdict: string, failure: string)
    returns (result: Result)
    requires output.Valid() && (verdict == "" || verdict in CATEGORIES) && failure in CATEGORIES
    modifies output, output.conn
    ensures output.Valid() && result.Answerable()
    ensures result.exitCode == exitCode
    ensures result.category == if output.cancelled && verdict == "" then failure else verdict
    ensures result.Succeeds() ==>
      && Carried(output.frames, STDOUT) == old(Carried(output.frames, STDOUT)) + Flatten(out)
      && Carried(output.frames, STDERR) == old(Carried(output.frames, STDERR)) + Flatten(err)
  {
    var o, e, ok := out, err, true;
    while ok && (o != [] || e != [])
      invariant output.Valid() && (!ok ==> output.cancelled)
      invariant ok ==> Carried(output.frames, STDOUT) + Flatten(o) == old(Carried(output.frames, STDOUT)) + Flatten(out)
      invariant ok ==> Carried(output.frames, STDERR) + Flatten(e) == old(Carried(output.frames, STDERR)) + Flatten(err)
      decreases |Flatten(o)| + |o| + |Flatten(e)| + |e|, ok
    {
      var first: bool := *;
      if o != [] && (first || e == []) {
        ok, o := PutNext(output, STDOUT, o);
      } else {
        ok, e := PutNext(output, STDERR, e);
      }
    }
    result := Result(exitCode, if output.cancelled && verdict == "" then failure else verdict);
  }

  /** The executor's exit code and category; a fault of the connection may have turned success into failure. */
  predicate VerdictOf(result: Result, exitCode: Int64, verdict: string, failure: string, faulted: bool) {
    && result.exitCode == exitCode
    && (result.category == verdict || (verdict == "" && result.category == failure && faulted))
  }

  /** One command on the master's side, and what it leaves on the connection: torn is empty unless the
      result reports a failure, and without a fault the frames are followed by the result. */
  method RunJob(server: Outlet, out: seq<Bytes>, err: seq<Bytes>, exitCode: Int64, verdict: string, failure: string,
                encode: Encoder, ghost decode: Decoder)
    returns (result: Result, ghost frames: seq<Frame>, ghost torn: Bytes)
    requires Marshals(encode, decode)
    requires server.sent == [] && (verdict == "" || verdict in CATEGORIES) && failure in CATEGORIES
    modifies server
    ensures result.Answerable() && VerdictOf(result, exitCode, verdict, failure, server.faulted)
    ensures AllOutput(frames) && Part(torn) && (torn != [] ==> !result.Succeeds() && server.faulted)
    ensures result.Succeeds() ==> Carried(frames, STDOUT) == Flatten(out) && Carried(frames, STDERR) == Flatten(err)
    ensures PlainText(encode(result)) && server.sent <= Stream(frames) + (torn + Wire(Frame(RESULT, encode(result))))
    ensures !server.faulted ==> server.sent == Stream(frames) + Wire(Frame(RESULT, encode(result)))
  {
    var output := new Output(server);
    result := Execute(output, out, err, exitCode, verdict, failure);
    frames, torn := output.frames, output.torn;
    assert [] + Stream(frames) == Stream(frames) && Stream(frames) + [] == Stream(frames);
    assert [] + Flatten(out) == Flatten(out) && [] + Flatten(err) == Flatten(err);
    var payload := encode(result);
    Associates(Stream(frames), torn, Wire(Frame(RESULT, payload)));
    Answer(server, payload);
  }

  lemma PrefixOfStream(received: Bytes, sent: Bytes, whole: Bytes)
    requires received <= sent <= whole
    ensures whole == received + whole[|received|..]
  {
    assert whole[..|received|] == sent[..|received|] == received;
  }

  /** Wherever a reader of whole output frames has got to, the next frame is there: output, or the result. */
  lemma {:induction false} ResultIsReached(sent: seq<Frame>, payload: Bytes, read: seq<Frame>, left: Bytes)
    requires AllOutput(sent) && AllOutput(read) && |payload| <= MAX_PAYLOAD
    requires Stream(sent) + Wire(Frame(RESULT, payload)) == Stream(read) + left
    ensures var r := Parse(left); r.Parsed? && (r.frame.IsOutput() || r.frame == Frame(RESULT, payload))
    decreases |sent|
  {
    var wire := Wire(Frame(RESULT, payload));
    FrameIsReadBack(Frame(RESULT, payload), []);
    assert [] + wire == wire + [] && [] + left == left;
    if sent != [] {
      FirstFrameIsRead(sent, wire);
    }
    if read != [] {
      FirstFrameIsRead(read, left);
      ResultIsReached(sent[1..], payload, read[1..], left);
    }
  }

  /** The frame that ends an undisturbed reader's loop is the result. */
  lemma LastIsTheResult(sent: seq<Frame>, payload: Bytes, read: seq<Frame>, last: Frame, rest: Bytes)
    requires AllOutput(sent) && AllOutput(read) && |payload| <= MAX_PAYLOAD && last.Valid() && !last.IsOutput()
    requires Stream(sent) + Wire(Frame(RESULT, payload)) == Stream(read) + (Wire(last) + rest)
    ensures last == Frame(RESULT, payload)
  {
    ResultIsReached(sent, payload, read, Wire(last) + rest);
    FrameIsReadBack(last, rest);
  }

  /** From the executor's calls to the caller's writers, over a connection that delivers so many octets and may
      break anywhere: a result that invokeConn returns is the executor's and, if it is a success, each writer
      has received exactly what the executor wrote to it, in order. Where nothing breaks, the executor's verdict
      is returned. The executor is taken to report a failed write. */
  method RunOverConnection(server: Outlet, client: Peer, ctx: Context, arrived: nat, outCalls: seq<Bytes>,
                           errCalls: seq<Bytes>, exitCode: Int64, verdict: string, failure: string,
                           encode: Encoder, decode: Decoder, out: Sink, err: Sink)
    returns (answer: Outcome, ghost sent: seq<Frame>)
    requires Marshals(encode, decode)
    requires out != err && server.sent == [] && (verdict == "" || verdict in CATEGORIES) && failure in CATEGORIES
    modifies server, client, ctx, out, err
    ensures answer.Returned? ==> VerdictOf(answer.result, exitCode, verdict, failure, server.faulted)
    ensures answer.Returned? && answer.result.Succeeds() ==>
      out.data == old(out.data) + Flatten(outCalls) && err.data == old(err.data) + Flatten(errCalls)
    ensures AllOutput(sent)
    ensures !server.faulted ==> server.sent == Stream(sent) + Wire(Frame(RESULT, encode(Result(exitCode, verdict))))
    ensures !server.faulted && arrived >= |server.sent| && !Disturbed(client, ctx, out, err) ==>
      answer == if 0 <= exitCode <= MAX_UINT32 then Returned(Result(exitCode, verdict)) else BadProtocol
  {
    ghost var torn, read, left, last;
    var result;
    result, sent, torn := RunJob(server, outCalls, errCalls, exitCode, verdict, failure, encode, decode);
    client.rest := if arrived <= |server.sent| then server.sent[..arrived] else server.sent;
    ghost var received := client.rest;
    answer, read, left, last := InvokeConn(client, true, ctx, decode, out, err);
    if last.Some? && last.value.kind == RESULT {
      OnlyThatResult(sent, torn, encode(result), received, server.sent, read, last.value.payload, client.rest);
    }
    if !server.faulted && arrived >= |server.sent| && !Disturbed(client, ctx, out, err) {
      ResultIsReached(sent, encode(result), read, left);
      if last.Some? {
        LastIsTheResult(sent, encode(result), read, last.value, client.rest);
      }
    }
  }

  /** The same for what has arrived of the stream. */
  lemma OnlyThatResult(sent: seq<Frame>, torn: Bytes, payload: Bytes, received: Bytes, wire: Bytes,
                       read: seq<Frame>, answer: Bytes, rest: Bytes)
    requires AllOutput(sent) && AllOutput(read) && Part(torn) && PlainText(payload) && |answer| <= MAX_PAYLOAD
    requires received <= wire <= Stream(sent) + (torn + Wire(Frame(RESULT, payload)))
    requires received == Stream(read) + (Wire(Frame(RESULT, answer)) + rest)
    ensures answer == payload && (torn == [] ==> read == sent)
  {
    var whole := Stream(sent) + (torn + Wire(Frame(RESULT, payload)));
    var last := Wire(Frame(RESULT, answer));
    PrefixOfStream(received, wire, whole);
    var lost := whole[|received|..];
    Associates(Stream(read), last + rest, lost);
    Associates(last, rest, lost);
    OnlyTheResultIsFound(sent, torn, payload, read, answer, rest + lost);
  }
}
