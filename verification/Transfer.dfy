/**
 Verified transfer with an atomic commit (internal/remote/upload.go, download.go, commit_unix.go and
 scripts/control.ps1, upload.ps1, download.ps1).

 SHA-256 is taken to be injective: a digest is named by what it is the digest of. The remote host and
 the network choose every outcome: an exchange that fails may still have had its effect.
 */
module Transfer {
  import opened Failures
  import opened Base64
  import opened TransferCodec

  type Bytes = seq<Byte>

  datatype Digest = Sha256(of: Bytes)

  /** The control record that the remote side reports about what it has written or read. */
  datatype Record = Record(id: nat, bytes: int, sha: Digest)

  /** The two remote files an upload is about. */
  datatype Files = Files(stage: Option<Bytes>, destination: Option<Bytes>)

  // ---- scripts/control.ps1 ----

  datatype Expected = Expected(sha: Digest, bytes: int, force: bool)

  /** What can go wrong inside the finalizer on its own: an exception, or a refused move. */
  datatype Fault = NoFault | Throws | MoveRefused

  /** Re-hashes the stage and moves it onto the destination, which it replaces only when forced. */
  function ControlScript(fs: Files, expected: Expected, fault: Fault): (r: (Files, int)) {
    if fs.stage.None? then (fs, 2)
    else if fault.Throws? then (fs, 1)
    else if Sha256(fs.stage.value) != expected.sha || |fs.stage.value| != expected.bytes then (fs, 3)
    else if fault.MoveRefused? || (fs.destination.Some? && !expected.force) then (fs, 4)
    else (Files(None, fs.stage), 0)
  }

  /** Running the finalizer took the files from before to after and exited with this code. */
  ghost predicate RanTo(before: Files, expected: Expected, after: Files, code: int) {
    exists fault ::
      ControlScript(before, expected, fault).0 == after && ControlScript(before, expected, fault).1 == code
  }

  lemma RunsTo(before: Files, expected: Expected, fault: Fault)
    ensures RanTo(before, expected, ControlScript(before, expected, fault).0, ControlScript(before, expected, fault).1)
  {
  }

  /** Exit code zero means that the destination now holds exactly the expected bytes and, unless forced,
      was absent before. Any other code means that nothing has moved. */
  lemma FinalizerCommitsExactly(before: Files, expected: Expected, after: Files, code: int)
    requires RanTo(before, expected, after, code)
    ensures code == 0 ==> before.stage == Some(expected.sha.of) && |expected.sha.of| == expected.bytes
    ensures code == 0 ==> after == Files(None, before.stage) && (before.destination.Some? ==> expected.force)
    ensures code != 0 ==> after == before
    ensures code in {0, 1, 2, 3, 4} && (code == 2 <==> before.stage.None?)
    ensures code in {3, 4} ==>
      (code == 3 <==> before.stage != Some(expected.sha.of) || |expected.sha.of| != expected.bytes)
  {
  }

  /** A finalizer that meets no trouble of its own commits whenever it is allowed to. */
  lemma FinalizerCommitsWheneverItMay(before: Files, expected: Expected)
    ensures ControlScript(before, expected, NoFault).1 == 0 <==>
      && before.stage == Some(expected.sha.of) && |expected.sha.of| == expected.bytes
      && (before.destination.Some? ==> expected.force)
  {
  }

  // ---- The remote host as an upload sees it ----

  /** Whether the start of the receiver's session was confirmed, and its stage by then. */
  datatype StartOutcome = StartOutcome(confirmed: bool, stage: Option<Bytes>)

  /** What came of waiting for the receiver: nothing was asked, no answer came, or its exit code and whether
      its stderr was empty. */
  datatype Receipt = Unasked | NoAnswer | Exited(code: int, quiet: bool)

  /** What came of one exchange with the finalizer's shell. */
  datatype Talk = Talk(ok: bool, code: int, acknowledged: bool, quiet: bool)

  class Host {
    var files: Files
    var looks: nat                     // how often the stream's context has been looked at
    var sendFailed: bool               // a Send exchange has failed
    var receipt: Receipt               // what the client learned of the receiver's exit
    var started: bool                  // the start of the receiver was confirmed
    var sent: Bytes                    // the receiver's input so far
    var exited: bool                   // the receiver's exit code has been received
    var closed: bool                   // the receiver's session has been closed
    var deleted: bool                  // and its shell is known to be gone
    var reported: Option<Record>       // what the receiver told the client
    var finalizer: Option<Expected>    // the finalizer that was dispatched
    var ran: Option<int>               // its exit code, once it has run
    var confirmed: bool                // the start of its session was confirmed
    var talks: seq<Talk>               // the exchanges with its shell
    var cleaned: bool                  // removal of the stage was dispatched
    var removed: bool                  // and confirmed

    constructor (files: Files)
      ensures Untouched() && this.files == files
    {
      this.files := files;
      looks, sendFailed, receipt := 0, false, Unasked;
      started, sent, exited, closed, deleted := false, [], false, false, false;
      reported, finalizer, ran, confirmed, talks, cleaned, removed := None, None, None, false, [], false, false;
    }

    ghost predicate Untouched()
      reads this
    {
      && looks == 0 && !sendFailed && receipt.Unasked?
      && sent == [] && !exited && !closed && !deleted && reported.None? && Quiet()
    }

    /** Nothing of the commit or the clean-up has been dispatched. */
    ghost predicate Quiet()
      reads this
    {
      finalizer.None? && ran.None? && !confirmed && talks == [] && !cleaned && !removed
    }

    /** streamCtx.Err(): the context is alive for so many looks. */
    method StreamOver(patience: nat) returns (over: bool)
      modifies this`looks
      ensures looks == old(looks) + 1 && (over <==> looks > patience)
    {
      looks := looks + 1;
      over := looks > patience;
    }

    /** The receiver can write no more. */
    predicate Stopped()
      reads this
    {
      exited || deleted
    }

    /** A live receiver may do anything to its stage, and to nothing else. */
    method ReceiverActs()
      modifies this`files
      ensures files.destination == old(files).destination
      ensures Stopped() ==> files == old(files)
    {
      if !Stopped() {
        var stage: Option<Bytes> := *;
        files := files.(stage := stage);
      }
    }

    /** The start of the receiver, and what it has made of its stage by then. A start that is not
        confirmed may still have happened. */
    method StartReceiver(start: StartOutcome)
      requires !Stopped()
      modifies this`files, this`started
      ensures started == start.confirmed && files == old(files).(stage := start.stage)
    {
      files := files.(stage := start.stage);
      started := start.confirmed;
    }

    /** One Send exchange. When it fails its input may or may not have arrived. */
    method SendInput(data: Bytes) returns (ok: bool)
      modifies this`files, this`sent, this`sendFailed
      ensures files.destination == old(files).destination
      ensures ok ==> sent == old(sent) + data
      ensures sendFailed == (old(sendFailed) || !ok)
    {
      ReceiverActs();
      var arrived: bool;
      ok, arrived := *, *;
      sendFailed := sendFailed || !ok;
      if ok || arrived {
        sent := sent + data;
      }
    }

    /** The receiver's exit code, whether its stderr is empty, and its record if it parses. */
    method ReceiveRecord() returns (ok: bool, code: int, quiet: bool, record: Option<Record>)
      modifies this`files, this`reported, this`receipt, this`exited
      ensures files.destination == old(files).destination
      ensures reported == record && exited == (old(exited) || ok)
      ensures receipt == if ok then Exited(code, quiet) else NoAnswer
    {
      ReceiverActs();
      ok, code, quiet, record := *, *, *, *;
      reported, exited, receipt := record, exited || ok, if ok then Exited(code, quiet) else NoAnswer;
    }

    /** Closes the receiver's session. A second close reports success without asking the server. */
    method CloseReceiver() returns (ok: bool)
      modifies this`files, this`closed, this`deleted
      ensures closed && files.destination == old(files).destination
      ensures if old(closed) then ok && deleted == old(deleted) else deleted == (old(deleted) || ok)
    {
      ReceiverActs();
      if closed {
        return true;
      }
      ok := *;
      closed, deleted := true, deleted || ok;
    }

    /** Runs the dispatched finalizer unless it has run. */
    method RunFinalizer()
      requires finalizer.Some?
      modifies this`files, this`ran
      ensures ran.Some?
      ensures old(ran).Some? ==> ran == old(ran) && files == old(files)
      ensures old(ran).None? ==> RanTo(old(files), finalizer.value, files, ran.value)
    {
      if ran.None? {
        var fault: Fault := *;
        RunsTo(files, finalizer.value, fault);
        var r := ControlScript(files, finalizer.value, fault);
        files, ran := r.0, Some(r.1);
      }
    }

    method StartFinalizer(expected: Expected) returns (ok: bool)
      requires deleted && Quiet()
      modifies this`files, this`ran, this`finalizer, this`confirmed
      ensures finalizer == Some(expected) && confirmed == ok
      ensures ran.None? ==> files == old(files)
      ensures ran.Some? ==> RanTo(old(files), expected, files, ran.value)
    {
      finalizer := Some(expected);
      var runs: bool;
      ok, runs := *, *;
      confirmed := ok;
      if runs {
        RunFinalizer();
      }
    }

    /** Any later exchange with the finalizer's shell: meanwhile the finalizer may run. A received exit
        code is its own, and it acknowledges only a commit. */
    method TalkToFinalizer(awaitExit: bool) returns (ok: bool, code: int, acknowledged: bool, quiet: bool)
      requires finalizer.Some?
      modifies this`files, this`ran, this`talks
      ensures talks == old(talks) + [Talk(ok, code, acknowledged, quiet)]
      ensures old(ran).Some? ==> ran == old(ran) && files == old(files)
      ensures ran.None? ==> files == old(files)
      ensures old(ran).None? && ran.Some? ==> RanTo(old(files), finalizer.value, files, ran.value)
      ensures awaitExit && ok ==> ran == Some(code)
      ensures acknowledged ==> code == 0
    {
      var runs: bool;
      ok, quiet, acknowledged, runs := *, *, *, *;
      if runs || (awaitExit && ok) {
        RunFinalizer();
      }
      code := if ran.Some? then ran.value else 0;
      acknowledged := acknowledged && code == 0;
      talks := talks + [Talk(ok, code, acknowledged, quiet)];
    }

    /** cleanupRemoteStage: the short session that deletes the stage. It must not meet a receiver that
        may still write, nor a finalizer that may still run. */
    method CleanupStage() returns (ok: bool)
      requires Stopped() && (finalizer.Some? ==> ran.Some?)
      modifies this`files, this`cleaned, this`removed
      ensures cleaned && removed == ok && files.destination == old(files).destination
      ensures ok ==> files.stage.None?
    {
      cleaned := true;
      var done: bool;
      ok, done := *, *;
      removed := ok;
      if ok || done {
        files := files.(stage := None);
      }
    }
  }

  // ---- Committing ----

  /** An error, and whether errors.As finds a FinalizationUnknownError in it. */
  datatype UploadError = Nil | Failed(unknown: bool) {
    /** errors.Join with an ordinary error. */
    function Plus(failed: bool): UploadError {
      if failed then Failed(Failed? && unknown) else this
    }
  }

  /** The end of input was taken, and the finalizer's exit code was received. */
  predicate GotExit(talks: seq<Talk>) {
    |talks| >= 2 && talks[0].ok && talks[1].ok
  }

  /** The finalizer has answered with code zero, its acknowledgement and no errors. */
  predicate Acknowledged(talks: seq<Talk>) {
    GotExit(talks) && talks[1].code == 0 && talks[1].acknowledged && talks[1].quiet
  }

  /** The finalizer has answered with another code. */
  predicate Declined(talks: seq<Talk>) {
    GotExit(talks) && talks[1].code != 0
  }

  /** The finalizer's session between its start and its close. */
  method AwaitFinalizer(host: Host) returns (committed: bool, err: UploadError)
    requires host.finalizer.Some? && host.talks == []
    modifies host`files, host`ran, host`talks
    ensures old(host.ran).Some? ==> host.ran == old(host.ran) && host.files == old(host.files)
    ensures host.ran.None? ==> host.files == old(host.files)
    ensures old(host.ran).None? && host.ran.Some? ==>
      RanTo(old(host.files), host.finalizer.value, host.files, host.ran.value)
    ensures 1 <= |host.talks| <= 2 && (|host.talks| == 2 <==> host.talks[0].ok)
    ensures committed <==> Acknowledged(host.talks)
    ensures err.Nil? <==> committed
    ensures err.Failed? ==> (err.unknown <==> !Declined(host.talks))
    ensures committed ==> host.ran == Some(0)
    ensures Declined(host.talks) ==> host.ran.Some? && host.ran.value != 0
  {
    var sent, _, _, _ := host.TalkToFinalizer(false);
    if !sent {
      return false, Failed(true);
    }
    var ok, code, acknowledged, quiet := host.TalkToFinalizer(true);
    if !ok {
      return false, Failed(true);
    }
    if code != 0 {
      return false, Failed(false);
    }
    if !acknowledged || !quiet {
      return false, Failed(true);
    }
    return true, Nil;
  }

  /** What the caller of dispatchFinalizer is told, from what the finalizer's session has answered. */
  ghost predicate Told(host: Host, committed: bool, err: UploadError)
    reads host
  {
    && (host.confirmed ==> 2 <= |host.talks| <= 3 && (|host.talks| == 3 <==> host.talks[0].ok))
    && (committed <==> host.confirmed && Acknowledged(host.talks))
    && (!committed ==> err.Failed?)
    && (err.Failed? && host.finalizer.None? ==> !err.unknown)
    && (err.Failed? && host.finalizer.Some? ==>
          (err.unknown <==> !committed && !(host.confirmed && Declined(host.talks))))
  }

  /** dispatchFinalizer. Committed means moved; a plain failure means that nothing has moved and nothing
      will; only an unknown finalization leaves both open. */
  method DispatchFinalizer(host: Host, expected: Expected, buildable: bool)
    returns (committed: bool, err: UploadError)
    requires host.deleted && host.Quiet()
    modifies host`files, host`ran, host`finalizer, host`confirmed, host`talks
    ensures host.finalizer == if buildable then Some(expected) else None
    ensures host.ran.None? ==> host.files == old(host.files)
    ensures host.ran.Some? ==> buildable && RanTo(old(host.files), expected, host.files, host.ran.value)
    ensures Told(host, committed, err)
    ensures committed ==> host.ran == Some(0) && (err.Nil? <==> host.talks[2].ok)
    ensures !committed && !err.unknown ==> !buildable || (host.ran.Some? && host.ran.value != 0)
  {
    if !buildable {
      return false, Failed(false);
    }
    var ok := host.StartFinalizer(expected);
    if !ok {
      return false, Failed(true);
    }
    committed, err := AwaitFinalizer(host);
    var closed, _, _, _ := host.TalkToFinalizer(false);
    err := err.Plus(!closed);
  }

  // ---- scripts/upload.ps1 ----

  /** Where a text line ends: before the first CR or LF, or with the text. */
  function LineLength(s: Bytes): (i: nat)
    ensures i <= |s| && NoNewlines(s[..i])
    ensures i < |s| ==> s[i] == CR || s[i] == LF
  {
    if s == [] || s[0] == CR || s[0] == LF then
      0
    else
      var i := LineLength(s[1..]);
      assert s[..i + 1] == [s[0]] + s[1..][..i];
      i + 1
  }

  /** The stage a receiver writes from its whole input: text lines, of which it skips the empty ones and
      decodes the others. */
  function ReceiverStage(input: Bytes): Option<Bytes>
    decreases |input|
  {
    if input == [] then
      Some([])
    else
      var i := LineLength(input);
      var next :=
        if i == |input| then i
        else if input[i] == CR && i + 1 < |input| && input[i + 1] == LF then i + 2
        else i + 1;
      match ReceiverStage(input[next..])
      case None => None
      case Some(rest) =>
        if i == 0 then
          Some(rest)
        else
          match DecodeGroups(input[..i])
          case None => None
          case Some(bytes) => Some(bytes + rest)
  }

  lemma {:induction false} LineLengthOf(line: Bytes, rest: Bytes)
    requires NoNewlines(line)
    ensures LineLength(line + CRLF + rest) == |line|
  {
    var s := line + CRLF + rest;
    if line == [] {
      assert s[0] == CR;
    } else {
      assert s[1..] == line[1..] + CRLF + rest;
      LineLengthOf(line[1..], rest);
    }
  }

  lemma ReceiverReadsLine(chunk: Bytes, rest: Bytes)
    requires chunk != [] && ReceiverStage(rest).Some?
    ensures ReceiverStage(Encode(chunk) + CRLF + rest) == Some(chunk + ReceiverStage(rest).value)
  {
    var line := Encode(chunk);
    EncodeShape(chunk);
    GroupsRoundTrip(chunk);
    LineLengthOf(line, rest);
    var s := line + CRLF + rest;
    assert s[..|line|] == line && s[|line| + 2..] == rest && s[|line|] == CR && s[|line| + 1] == LF;
  }

  predicate NonemptyChunks(chunks: seq<Bytes>) {
    forall i :: 0 <= i < |chunks| ==> chunks[i] != []
  }

  /** What upload sends is written back as the file, so that an honest receiver's record agrees. */
  lemma {:induction false} ReceiverRebuildsTheFile(chunks: seq<Bytes>)
    requires NonemptyChunks(chunks)
    ensures ReceiverStage(Terminated(EncodeAll(chunks))) == Some(Flatten(chunks))
  {
    if chunks != [] {
      ReceiverRebuildsTheFile(chunks[1..]);
      var lines := EncodeAll(chunks);
      assert lines[0] == Encode(chunks[0]) && lines[1..] == EncodeAll(chunks[1..]);
      ReceiverReadsLine(chunks[0], Terminated(EncodeAll(chunks[1..])));
    }
  }

  lemma {:induction false} OneMoreChunk(chunks: seq<Bytes>, chunk: Bytes)
    ensures Terminated(EncodeAll(chunks + [chunk])) == Terminated(EncodeAll(chunks)) + (Encode(chunk) + CRLF)
    ensures Flatten(chunks + [chunk]) == Flatten(chunks) + chunk
  {
    if chunks == [] {
      assert chunks + [chunk] == [chunk];
      assert EncodeAll([chunk]) == [Encode(chunk)] && EncodeAll([chunk])[1..] == [];
      assert Flatten([chunk]) == chunk + [];
    } else {
      assert (chunks + [chunk])[0] == chunks[0] && (chunks + [chunk])[1..] == chunks[1..] + [chunk];
      OneMoreChunk(chunks[1..], chunk);
    }
  }

  // ---- Uploading ----

  /** Sends one more chunk as a line. */
  method SendChunk(host: Host, chunk: Bytes, ghost chunks: seq<Bytes>) returns (ok: bool)
    requires host.sent == Terminated(EncodeAll(chunks))
    modifies host`files, host`sent, host`sendFailed
    ensures host.files.destination == old(host.files.destination)
    ensures ok ==> host.sent == Terminated(EncodeAll(chunks + [chunk]))
    ensures host.sendFailed == (old(host.sendFailed) || !ok)
    ensures Flatten(chunks + [chunk]) == Flatten(chunks) + chunk
  {
    OneMoreChunk(chunks, chunk);
    ok := host.SendInput(Encode(chunk) + CRLF);
  }

  /** Nothing has kept the source from being sent: its context, a Send exchange or a read. */
  predicate Streamed(host: Host, src: Reader, patience: nat)
    reads host, src
  {
    host.looks <= patience && !host.sendFailed && !src.failed
  }

  /** The chunk loop and the end of input. The context is alive for a number of looks; it can end at any time,
      by the receiver's early exit too. */
  method StreamSource(host: Host, src: Reader, limit: nat, patience: nat)
    returns (ok: bool, hashed: Bytes, total: int, ghost chunks: seq<Bytes>)
    requires host.sent == [] && host.looks == 0 && !host.sendFailed && src.Opened()
    modifies host`files, host`looks, host`sent, host`sendFailed, src
    ensures host.files.destination == old(host.files.destination)
    ensures NonemptyChunks(chunks) && forall i :: 0 <= i < |chunks| ==> |chunks[i]| <= limit
    ensures total == |hashed|
    ensures ok <==> Streamed(host, src, patience)
    ensures src.ended ==> ok || host.sendFailed
    ensures ok ==> src.ended
    ensures ok ==> hashed == Flatten(chunks) == old(src.rest) && host.sent == Terminated(EncodeAll(chunks))
  {
    hashed, total, chunks, ok := [], 0, [], false;
    while true
      invariant host.files.destination == old(host.files.destination)
      invariant NonemptyChunks(chunks) && forall i :: 0 <= i < |chunks| ==> |chunks[i]| <= limit
      invariant host.sent == Terminated(EncodeAll(chunks))
      invariant total == |hashed| && hashed == Flatten(chunks) && hashed + src.rest == old(src.rest)
      invariant Streamed(host, src, patience) && !src.ended
      decreases patience - host.looks
    {
      var over := host.StreamOver(patience);
      if over {
        return;
      }
      ghost var before := src.rest;
      var chunk, end := src.Read(limit);
      if |chunk| > 0 {
        hashed := hashed + chunk;
        var sent := SendChunk(host, chunk, chunks);
        if !sent {
          return false, [], 0, chunks;
        }
        total := total + |chunk|;
        Associates(Flatten(chunks), chunk, src.rest);
        chunks := chunks + [chunk];
      } else {
        assert src.rest == before;
      }
      if end.EOF? {
        break;
      }
      if end.ReadFailed? {
        return;
      }
    }
    assert hashed + [] == hashed;
    ok := host.SendInput([]);
    assert host.sent + [] == host.sent;
  }

  /** readRecord accepts only a record with the expected id. */
  function ReadRecord(record: Option<Record>, id: nat): Option<Record> {
    if record.Some? && record.value.id == id then record else None
  }

  /** What is known about the source: its size when opened, and whether it still looks the same at the end. */
  datatype Source = Source(initialSize: int, sameFile: bool)

  /** The result's fields; artifact says that the stage is listed as left behind. */
  datatype TransferResult = TransferResult(bytes: int, sha: Option<Digest>, committed: bool, artifact: bool)

  const NOTHING := TransferResult(0, None, false, false)

  /** What has become of the destination when the caller is told that the expected bytes are committed,
      or is given an error. */
  ghost predicate Settled(before: Option<Bytes>, expected: Expected, host: Host, committed: bool, err: UploadError)
    reads host
  {
    && Told(host, committed, err)
    && (host.finalizer.Some? ==> host.finalizer.value == expected && host.deleted)
    && (host.ran.None? ==> host.files.destination == before)
    && (host.ran.Some? ==> host.finalizer.Some?)
    && (host.ran.Some? && host.ran.value != 0 ==> host.files.destination == before)
    && (host.ran == Some(0) ==> host.files.destination == Some(expected.sha.of) && (before.Some? ==> expected.force))
    && (committed ==> host.ran == Some(0))
    && (!committed ==> err.Failed?)
    && (!committed && !err.unknown ==> (host.finalizer.None? || (host.ran.Some? && host.ran.value != 0)))
    && (err.Failed? && err.unknown ==> !committed && host.finalizer.Some?)
  }

  /** The source is what it was when it was opened, and the receiver has exited well with a record of all of
      the source's bytes. */
  predicate Verified(host: Host, info: Source, id: nat, source: Bytes)
    reads host
  {
    && info.sameFile && |source| == info.initialSize
    && host.receipt == Exited(0, true)
    && host.reported == Some(Record(id, |source|, Sha256(source)))
  }

  /** The finalizer is dispatched exactly when the source was sent and verified and the receiver's shell is
      known to be gone, and what the caller is told about the source's bytes is so. */
  ghost predicate CommitSafety(before: Option<Bytes>, source: Bytes, id: nat, force: bool, buildable: bool,
                               info: Source, host: Host, result: TransferResult, err: UploadError)
    reads host
  {
    && Settled(before, Expected(Sha256(source), |source|, force), host, result.committed, err)
    && (host.finalizer.Some? <==> Verified(host, info, id, source) && host.deleted && buildable)
    && (host.finalizer.Some? ==> ReceiverStage(host.sent) == Some(source))
    && (result.committed ==> result.bytes == |source| && result.sha == Some(Sha256(source)))
  }

  /** Awaits the receiver's record and compares it with what was streamed. */
  method VerifyStage(host: Host, info: Source, id: nat, hashed: Bytes, total: int) returns (verified: bool)
    requires total == |hashed|
    modifies host`files, host`reported, host`receipt, host`exited
    ensures host.files.destination == old(host.files.destination)
    ensures verified <==> Verified(host, info, id, hashed)
    ensures !host.receipt.Unasked? && (host.receipt.Exited? ==> host.exited)
  {
    var received, code, quiet, reported := host.ReceiveRecord();
    if !received || code != 0 || !quiet {
      return false;
    }
    if !info.sameFile || total != info.initialSize {
      return false;
    }
    var record := ReadRecord(reported, id);
    return record.Some? && record.value.bytes == total && record.value.sha == Sha256(hashed);
  }

  /** Tears the receiver down and, only when that is confirmed, dispatches the finalizer. */
  method CommitStage(host: Host, expected: Expected, buildable: bool) returns (committed: bool, err: UploadError)
    requires host.exited && !host.closed && !host.deleted && host.Quiet()
    modifies host`files, host`closed, host`deleted, host`ran, host`finalizer, host`confirmed, host`talks
    ensures host.closed && Settled(old(host.files.destination), expected, host, committed, err)
    ensures host.finalizer.Some? <==> host.deleted && buildable
  {
    var closed := host.CloseReceiver();
    if !closed {
      return false, Failed(false);
    }
    ghost var before := host.files;
    committed, err := DispatchFinalizer(host, expected, buildable);
    if host.ran.Some? {
      FinalizerCommitsExactly(before, expected, host.files, host.ran.value);
    }
  }

  lemma NothingCommitted(before: Option<Bytes>, source: Bytes, id: nat, force: bool, buildable: bool, info: Source,
                         host: Host)
    requires host.Quiet() && host.files.destination == before && !Verified(host, info, id, source)
    ensures CommitSafety(before, source, id, force, buildable, info, host, NOTHING, Failed(false))
  {
  }

  /** What is sent and verified may be committed. */
  method CommitVerified(host: Host, info: Source, source: Bytes, id: nat, force: bool, buildable: bool)
    returns (result: TransferResult, err: UploadError)
    requires host.exited && !host.closed && !host.deleted && host.Quiet()
    requires Verified(host, info, id, source) && ReceiverStage(host.sent) == Some(source)
    modifies host`files, host`closed, host`deleted, host`ran, host`finalizer, host`confirmed, host`talks
    ensures CommitSafety(old(host.files.destination), source, id, force, buildable, info, host, result, err)
    ensures host.closed && !result.artifact
  {
    var sha := Sha256(source);
    var committed;
    committed, err := CommitStage(host, Expected(sha, |source|, force), buildable);
    result := TransferResult(|source|, Some(sha), committed, false);
  }

  /** Sends the source and has the receiver's record verified. */
  method StreamAndVerify(host: Host, src: Reader, info: Source, limit: nat, patience: nat, id: nat)
    returns (verified: bool, hashed: Bytes, ghost chunks: seq<Bytes>)
    requires host.Untouched() && src.Opened()
    modifies host`files, host`looks, host`sent, host`sendFailed, host`reported, host`receipt, host`exited, src
    ensures host.files.destination == old(host.files.destination)
    ensures verified <==> Verified(host, info, id, old(src.rest))
    ensures verified ==> hashed == old(src.rest) && ReceiverStage(host.sent) == Some(hashed) && host.exited
    ensures host.receipt.Unasked? <==> !Streamed(host, src, patience)
    ensures src.ended ==> Streamed(host, src, patience) || host.sendFailed
    ensures forall i :: 0 <= i < |chunks| ==> |chunks[i]| <= limit
  {
    var streamed, total;
    streamed, hashed, total, chunks := StreamSource(host, src, limit, patience);
    if !streamed {
      return false, hashed, chunks;
    }
    ReceiverRebuildsTheFile(chunks);
    verified := VerifyStage(host, info, id, hashed, total);
  }

  /** The body of uploadLanes between the start of the receiver and the deferred clean-up. */
  method StreamThenCommit(host: Host, src: Reader, info: Source, limit: nat, patience: nat, id: nat, force: bool,
                          buildable: bool) returns (result: TransferResult, err: UploadError, ghost chunks: seq<Bytes>)
    requires host.started && host.Untouched() && src.Opened()
    modifies host, src
    ensures CommitSafety(old(host.files.destination), old(src.rest), id, force, buildable, info, host, result, err)
    ensures host.receipt.Unasked? <==> !Streamed(host, src, patience)
    ensures src.ended ==> Streamed(host, src, patience) || host.sendFailed
    ensures host.closed <==> Verified(host, info, id, old(src.rest))
    ensures host.started && !result.artifact && !host.cleaned && !host.removed && (host.deleted ==> host.closed)
    ensures (host.closed ==> host.exited) && (result.committed ==> host.closed)
    ensures forall i :: 0 <= i < |chunks| ==> |chunks[i]| <= limit
  {
    var verified, hashed;
    verified, hashed, chunks := StreamAndVerify(host, src, info, limit, patience, id);
    if !verified {
      NothingCommitted(host.files.destination, old(src.rest), id, force, buildable, info, host);
      return NOTHING, Failed(false), chunks;
    }
    result, err := CommitVerified(host, info, hashed, id, force, buildable);
  }

  /** The deferred clean-up of uploadLanes. The stage is listed exactly when nothing was committed and its
      removal is not confirmed; its removal is dispatched exactly after a plain failure whose receiver is
      known to be gone. */
  method CleanUp(host: Host, committed: bool, err: UploadError) returns (artifact: bool, err': UploadError)
    requires host.closed ==> host.exited
    requires host.deleted ==> host.closed
    requires committed ==> host.closed
    requires !committed ==> err.Failed?
    requires err.Failed? && !err.unknown && !committed ==> host.finalizer.Some? ==> host.ran.Some?
    requires !host.cleaned && !host.removed
    modifies host`files, host`closed, host`deleted, host`cleaned, host`removed
    ensures host.files.destination == old(host.files.destination)
    ensures old(host.closed) ==> host.deleted == old(host.deleted)
    ensures committed ==> err' == err
    ensures err.Failed? ==> err'.Failed? && err'.unknown == err.unknown
    ensures artifact <==> !committed && !host.removed
    ensures host.cleaned <==> !committed && !err.unknown && (old(host.closed) || host.deleted)
    ensures host.removed ==> host.files.stage.None?
  {
    var closed := host.CloseReceiver();
    err' := err.Plus(!closed);
    if !closed {
      return !committed, err';
    }
    artifact := err.Failed? && !committed;
    if artifact && !err.unknown {
      var removed := host.CleanupStage();
      artifact := !removed;
      err' := err.Plus(!removed);
    }
  }

  /** The destination is as it was, or holds the source's bytes where that is allowed. */
  predicate OldOrNew(before: Option<Bytes>, source: Bytes, force: bool, now: Option<Bytes>) {
    now == before || (now == Some(source) && (before.Some? ==> force))
  }

  /** An unknown finalization has two outcomes, even if the finalizer runs only later. */
  lemma UnknownHasTwoOutcomes(before: Option<Bytes>, source: Bytes, force: bool, host: Host, err: UploadError)
    requires Settled(before, Expected(Sha256(source), |source|, force), host, false, err) && err.unknown
    ensures OldOrNew(before, source, force, host.files.destination)
    ensures host.ran.None? ==> forall after, code :: RanTo(host.files, host.finalizer.value, after, code) ==>
      OldOrNew(before, source, force, after.destination)
  {
    forall after, code | RanTo(host.files, host.finalizer.value, after, code)
      ensures host.ran.None? ==> OldOrNew(before, source, force, after.destination)
    {
      FinalizerCommitsExactly(host.files, host.finalizer.value, after, code);
    }
  }

  /** The chunk size for an envelope of this overhead: the largest that fits, up to the cap. */
  method EnvelopeLimit(overhead: nat) returns (limit: Option<nat>)
    ensures limit.None? <==> UploadLen(overhead, 1) > MAX_ENVELOPE
    ensures limit.Some? ==> forall n: nat :: n <= limit.value ==> UploadLen(overhead, n) <= MAX_ENVELOPE
    ensures limit.Some? && limit.value != UPLOAD_CHUNK ==>
      limit.value < UPLOAD_CHUNK && UploadLen(overhead, limit.value + 1) > MAX_ENVELOPE
  {
    var builder: Builder := n => Some(UploadLen(overhead, n));
    UploadBuilderIsSearchable(overhead, builder);
    limit := UploadChunkLimit(builder);
    if limit.Some? {
      forall n: nat | n <= limit.value ensures UploadLen(overhead, n) <= MAX_ENVELOPE {
        assert builder(n) == Some(UploadLen(overhead, n));
      }
      assert builder(limit.value + 1) == Some(UploadLen(overhead, limit.value + 1));
    }
  }

  /** uploadLanes, with an envelope of this overhead around each chunk. A stage that is left behind is
      reported once the receiver has started and a chunk size has been found, and only then. */
  method Upload(host: Host, start: StartOutcome, src: Reader, info: Source, overhead: nat, patience: nat, id: nat,
                force: bool, buildable: bool)
    returns (result: TransferResult, err: UploadError, ghost chunks: seq<Bytes>)
    requires host.Untouched() && src.Opened()
    modifies host, src
    ensures CommitSafety(old(host.files.destination), old(src.rest), id, force, buildable, info, host, result, err)
    ensures Ready(start, overhead) ==>
      && (host.receipt.Unasked? <==> !Streamed(host, src, patience))
      && (src.ended ==> Streamed(host, src, patience) || host.sendFailed)
      && (result.artifact <==> !result.committed && !host.removed)
      && (host.cleaned <==>
            !result.committed && !err.unknown && (Verified(host, info, id, old(src.rest)) || host.deleted))
    ensures host.removed ==> host.files.stage.None?
    ensures !Ready(start, overhead) ==> result == NOTHING && !host.cleaned && host.receipt.Unasked?
    ensures !start.confirmed ==> host.files == old(host.files).(stage := start.stage)
    ensures forall i :: 0 <= i < |chunks| ==> UploadLen(overhead, |chunks[i]|) <= MAX_ENVELOPE
  {
    chunks := [];
    host.StartReceiver(start);
    if !start.confirmed {
      return NOTHING, Failed(false), [];
    }
    var limit := EnvelopeLimit(overhead);
    if limit.None? {
      var _ := host.CloseReceiver();
      return NOTHING, Failed(false), [];
    }
    result, err, chunks := StreamThenCommit(host, src, info, limit.value, patience, id, force, buildable);
    var artifact;
    artifact, err := CleanUp(host, result.committed, err);
    result := result.(artifact := artifact);
  }

  /** The receiver has started, and one byte fits the envelope. */
  predicate Ready(start: StartOutcome, overhead: nat) {
    start.confirmed && UploadLen(overhead, 1) <= MAX_ENVELOPE
  }

  /** A run that leaves a stage behind and does not report it: the reply to the start of the receiver is
      lost after the receiver has created its stage. */
  method UnreportedStage(host: Host, src: Reader, info: Source, id: nat)
    returns (result: TransferResult, err: UploadError)
    requires host.Untouched() && src.Opened()
    modifies host, src
    ensures err.Failed? && !result.artifact && host.files.stage == Some([])
  {
    ghost var chunks;
    result, err, chunks := Upload(host, StartOutcome(false, Some([])), src, info, 0, 0, id, false, true);
  }
}
