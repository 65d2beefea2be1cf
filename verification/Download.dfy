/**
 Verified download (internal/remote/download.go, commit_unix.go and scripts/download.ps1).

 Names on the local disk lead to files, so that a hard link and a rename differ as they do in the
 source. The session's stdout reaches the copier through a pipe whose fragments are arbitrary.
 */
module Download {
  import opened Failures
  import opened Base64
  import opened TransferCodec
  import opened Transfer

  // ---- scripts/download.ps1 ----

  predicate SentBlocks(blocks: seq<Bytes>) {
    forall i :: 0 <= i < |blocks| ==> 0 < |blocks[i]| <= SENDER_BLOCK
  }

  /** The sender's loop: whatever sizes its reads have, the lines and the record are those of the file. */
  method SenderScript(id: nat, file: Bytes) returns (output: Bytes, record: Record, ghost blocks: seq<Bytes>)
    ensures SentBlocks(blocks) && Flatten(blocks) == file
    ensures output == Terminated(EncodeAll(blocks))
    ensures record == Record(id, |file|, Sha256(file))
  {
    var rest, hashed, count := file, [], 0;
    output, blocks := [], [];
    while rest != []
      invariant SentBlocks(blocks) && Flatten(blocks) == hashed
      invariant output == Terminated(EncodeAll(blocks))
      invariant hashed + rest == file && count == |hashed|
      decreases |rest|
    {
      var n: int := *;
      n := if 0 < n <= |rest| && n <= SENDER_BLOCK then n else 1;
      var block := rest[..n];
      OneMoreChunk(blocks, block);
      blocks := blocks + [block];
      hashed, count, output := hashed + block, count + n, output + (Encode(block) + CRLF);
      rest := rest[n..];
    }
    assert hashed + [] == hashed;
    record := Record(id, count, Sha256(hashed));
  }

  // ---- The local disk ----

  type Names = map<string, Sink>

  /** The two directories differ in these names only. */
  ghost predicate SameExcept(before: Names, after: Names, changed: set<string>) {
    forall name :: name !in changed ==>
      && (name in before <==> name in after)
      && (name in before ==> before[name] == after[name])
  }

  /** commitStage wants two different names. */
  predicate Committable(stage: string, destination: string) {
    stage != "" && destination != "" && stage != destination
  }

  class Disk {
    var names: Names
    var failed: bool        // some call other than a removal has failed
    var removals: seq<string>

    /** The content behind a name. */
    ghost function Content(name: string): Option<Bytes>
      reads this, names.Values
    {
      if name in names then Some(names[name].data) else None
    }

    /** createStage: an exclusively created empty file. */
    method CreateStage(stage: string) returns (ok: bool, file: Sink)
      modifies this
      ensures fresh(file) && file.data == [] && !file.misbehaved
      ensures ok ==> stage !in old(names)
      ensures failed == (old(failed) || !ok)
      ensures names == if ok then old(names)[stage := file] else old(names)
    {
      file := new Sink();
      ok := *;
      ok := ok && stage !in names;
      failed := failed || !ok;
      if ok {
        names := names[stage := file];
      }
    }

    /** os.Link: a second name, which must be new. */
    method Link(from: string, to: string) returns (ok: bool)
      modifies this
      ensures ok ==> from in old(names) && to !in old(names)
      ensures failed == (old(failed) || !ok)
      ensures names == if ok then old(names)[to := old(names)[from]] else old(names)
    {
      ok := *;
      ok := ok && from in names && to !in names;
      failed := failed || !ok;
      if ok {
        names := names[to := names[from]];
      }
    }

    /** os.Rename: replaces whatever had the new name. */
    method Rename(from: string, to: string) returns (ok: bool)
      requires from != to
      modifies this
      ensures ok ==> from in old(names)
      ensures failed == (old(failed) || !ok)
      ensures names == if ok then old(names)[to := old(names)[from]] - {from} else old(names)
    {
      ok := *;
      ok := ok && from in names;
      failed := failed || !ok;
      if ok {
        names := names[to := names[from]] - {from};
      }
    }

    /** Sync of the stage. */
    method Sync() returns (ok: bool)
      modifies this`failed
      ensures failed == (old(failed) || !ok)
    {
      ok := *;
      failed := failed || !ok;
    }

    /** os.Remove. */
    method Remove(name: string)
      modifies this`names, this`removals
      ensures names == old(names) || names == old(names) - {name}
      ensures removals == old(removals) + [name]
    {
      removals := removals + [name];
      var ok: bool := *;
      if ok {
        names := names - {name};
      }
    }

    /** commitStage. */
    method CommitStage(stage: string, destination: string, force: bool) returns (ok: bool)
      modifies this
      ensures ok ==> stage in old(names) && destination in names && names[destination] == old(names)[stage]
      ensures ok && !force ==> destination !in old(names)
      ensures ok ==> stage != destination && SameExcept(old(names), names, {destination, stage})
      ensures !ok ==> names == old(names)
      ensures ok ==> Committable(stage, destination) && failed == old(failed) && (stage in names <==> !force)
      ensures !ok && Committable(stage, destination) ==> failed
      ensures old(failed) ==> failed
    {
      if stage == "" || destination == "" || stage == destination {
        return false;
      }
      if force {
        ok := Rename(stage, destination);
      } else {
        ok := Link(stage, destination);
      }
    }
  }

  // ---- The remote sender as a download sees it ----

  /** What came of reading the control record. */
  datatype Fetch = NotFetched | FetchFailed | Fetched(code: int)

  class Sender {
    var metadata: bool              // its control record may exist
    var attempted: bool             // its start was tried
    var started: bool               // and confirmed
    var sendFailed: bool            // its end of input was not confirmed
    var receipt: Receipt            // what the client learned of its exit
    var exited: bool                // its exit code has been received
    var closed: bool
    var closeOk: bool               // the last close was confirmed
    var fetch: Fetch
    var fetched: Option<Record>     // what reading the control record returned
    var cleaned: bool               // removal of the record was dispatched
    var removed: bool               // and confirmed

    predicate Fresh()
      reads this
    {
      !attempted && !started && !sendFailed && receipt.Unasked? && !exited && !closed && fetch.NotFetched?
      && fetched.None? && !cleaned && !removed
    }

    method Acts()
      modifies this`metadata
      ensures exited ==> metadata == old(metadata)
    {
      var present: bool := *;
      metadata := if exited then metadata else present;
    }

    method Start() returns (ok: bool)
      modifies this`metadata, this`attempted, this`started
      ensures attempted && started == ok
    {
      Acts();
      ok := *;
      attempted, started := true, ok;
    }

    method SendEndOfInput() returns (ok: bool)
      modifies this`metadata, this`sendFailed
      ensures exited ==> metadata == old(metadata)
      ensures sendFailed == (old(sendFailed) || !ok)
    {
      Acts();
      ok := *;
      sendFailed := sendFailed || !ok;
    }

    method Receive() returns (ok: bool, code: int, quiet: bool)
      modifies this`metadata, this`receipt, this`exited
      ensures exited == (old(exited) || ok)
      ensures receipt == if ok then Exited(code, quiet) else NoAnswer
    {
      Acts();
      ok, code, quiet := *, *, *;
      exited, receipt := exited || ok, if ok then Exited(code, quiet) else NoAnswer;
    }

    /** A second close reports success without asking the server. */
    method Close() returns (ok: bool)
      modifies this`metadata, this`closed, this`closeOk
      ensures closed && (old(closed) ==> ok) && closeOk == ok
      ensures exited ==> metadata == old(metadata)
    {
      Acts();
      ok := *;
      ok := ok || closed;
      closed, closeOk := true, ok;
    }

    method ReadRecordBack() returns (ok: bool, code: int, record: Option<Record>)
      modifies this`fetch, this`fetched
      ensures fetched == record && fetch == if ok then Fetched(code) else FetchFailed
    {
      ok, code, record := *, *, *;
      fetched, fetch := record, if ok then Fetched(code) else FetchFailed;
    }

    /** cleanupRemoteStage for the control record, which the sender must be unable to write again. */
    method CleanupRecord() returns (ok: bool)
      requires exited
      modifies this`metadata, this`cleaned, this`removed
      ensures ok ==> !metadata
      ensures cleaned && removed == ok
    {
      var done: bool;
      ok, done := *, *;
      cleaned, removed := true, ok;
      metadata := metadata && !(ok || done);
    }
  }

  // ---- Downloading ----

  /** The three counts and two digests that must agree before the commit. */
  predicate Agree(count: nat, sum: Digest, copied: nat, record: Record) {
    count == copied && count == record.bytes && sum == record.sha
  }

  /** A sender that reads the file as it is, over a stream that arrives whole, passes every check. */
  lemma HonestSenderPasses(id: nat, file: Bytes, blocks: seq<Bytes>, data: Bytes, total: nat, ok: bool, intact: bool)
    requires SentBlocks(blocks) && Flatten(blocks) == file
    requires CopyReport(CopySpec(Terminated(EncodeAll(blocks)), MAX_LINE), [], data, total, ok, intact)
    requires ok || intact
    ensures ok && data == file && Agree(|data|, Sha256(data), total, Record(id, |file|, Sha256(file)))
  {
    SenderLinesAreCopied(blocks);
    assert [] + file == file;
  }

  /** The sender was given its end of input and has exited well. */
  predicate SentWell(sender: Sender)
    reads sender
  {
    !sender.sendFailed && sender.receipt == Exited(0, true)
  }

  /** The control record was read, and is about these bytes. */
  predicate RecordAgrees(sender: Sender, id: nat, data: Bytes)
    reads sender
  {
    sender.fetch == Fetched(0) && sender.fetched == Some(Record(id, |data|, Sha256(data)))
  }

  /** Receives and decodes the file. done says that the sender has finished well and its stream is decoded. */
  method ReceiveFile(file: Sink, sender: Sender, pipe: Reader) returns (done: bool, copied: nat)
    requires !sender.closed && !sender.sendFailed && file.data == [] && !file.misbehaved
    modifies file, pipe, sender`metadata, sender`sendFailed, sender`receipt, sender`exited, sender`closed
    modifies sender`closeOk
    ensures done ==> sender.exited && !sender.closed && SentWell(sender)
    ensures done ==> CopySpec(old(pipe.rest), MAX_LINE) == Copied(file.data, true) && copied == |file.data|
    ensures SentWell(sender) && CopySpec(old(pipe.rest), MAX_LINE).ok && pipe.Sound() && !file.misbehaved ==> done
    ensures !sender.receipt.Unasked?
    ensures sender.sendFailed || !CopySpec(old(pipe.rest), MAX_LINE).ok ==> sender.closed
  {
    var sent := sender.SendEndOfInput();
    if !sent {
      var _ := sender.Close();
    }
    var ok;
    copied, ok := CopyBase64Lines(file, pipe, MAX_LINE);
    if !ok {
      var _ := sender.Close();
    }
    var received, code, quiet := sender.Receive();
    done := sent && ok && received && code == 0 && quiet;
    assert [] + CopySpec(old(pipe.rest), MAX_LINE).bytes == CopySpec(old(pipe.rest), MAX_LINE).bytes;
  }

  /** The part of downloadLanes between the start of the sender and its deferred clean-up. What was decoded is
      committed exactly when the sender has finished well, its record agrees and no call on the disk fails. */
  method ReceiveThenCommit(disk: Disk, file: Sink, sender: Sender, pipe: Reader, stage: string, destination: string,
                           force: bool, id: nat) returns (result: TransferResult, done: bool)
    requires !sender.closed && !sender.sendFailed && sender.fetch.NotFetched? && !sender.cleaned && !sender.removed
    requires stage in disk.names && disk.names[stage] == file && file.data == [] && !file.misbehaved
    modifies disk, file, sender, pipe
    ensures done ==> sender.exited && !sender.closed && SentWell(sender)
    ensures SentWell(sender) && CopySpec(old(pipe.rest), MAX_LINE).ok && pipe.Sound() && !file.misbehaved ==> done
    ensures sender.started == old(sender.started) && sender.attempted == old(sender.attempted)
    ensures !result.artifact && !sender.cleaned && !sender.removed
    ensures done <==> !sender.fetch.NotFetched?
    ensures result.committed ==> done && RecordAgrees(sender, id, file.data) && Committable(stage, destination)
    ensures done && RecordAgrees(sender, id, file.data) && Committable(stage, destination) && !disk.failed ==>
      result.committed
    ensures result.committed ==> disk.failed == old(disk.failed)
    ensures sender.sendFailed || !CopySpec(old(pipe.rest), MAX_LINE).ok ==> sender.closed
    ensures result.committed ==> CopySpec(old(pipe.rest), MAX_LINE) == Copied(file.data, true)
    ensures result.committed ==> result.bytes == |file.data| && result.sha == Some(Sha256(file.data))
    ensures result.committed ==> stage != destination && destination in disk.names && disk.names[destination] == file
    ensures result.committed ==> SameExcept(old(disk.names), disk.names, {destination, stage})
    ensures result.committed && !force ==> destination !in old(disk.names)
    ensures !result.committed ==> disk.names == old(disk.names)
  {
    result := NOTHING;
    var copied;
    done, copied := ReceiveFile(file, sender, pipe);
    if !done {
      return;
    }
    var fetched, rc, control := sender.ReadRecordBack();
    if !fetched || rc != 0 {
      return;
    }
    var record := ReadRecord(control, id);
    if record.None? {
      return;
    }
    var synced := disk.Sync();
    if !synced {
      return;
    }
    var count, sum := |file.data|, Sha256(file.data);
    if !Agree(count, sum, copied, record.value) {
      return;
    }
    var committed := disk.CommitStage(stage, destination, force);
    if committed {
      result := TransferResult(count, Some(sum), true, false);
    }
  }

  /** The deferred clean-up of the sender: whether its control record is listed as left behind, and
      whether anything failed. The record is removed exactly after a close that was confirmed, of a sender that has
      finished well, and listed exactly when its removal is not confirmed. */
  method CleanUpSender(sender: Sender, done: bool) returns (artifact: bool, failed: bool)
    requires done ==> sender.exited
    requires !sender.cleaned && !sender.removed
    modifies sender`metadata, sender`closed, sender`closeOk, sender`cleaned, sender`removed
    ensures artifact <==> !sender.removed
    ensures sender.cleaned <==> sender.closeOk && done
    ensures sender.removed ==> sender.cleaned
    ensures failed <==> !sender.closeOk || (done && !sender.removed)
    ensures !artifact ==> !sender.metadata
  {
    var closed := sender.Close();
    if !closed {
      return true, true;
    }
    if !done {
      return true, false;
    }
    var removed := sender.CleanupRecord();
    return !removed, !removed;
  }

  /** downloadLanes once the stage exists. */
  method DownloadToStage(disk: Disk, file: Sink, sender: Sender, pipe: Reader, stage: string, destination: string,
                         force: bool, id: nat) returns (result: TransferResult, failed: bool)
    requires sender.Fresh()
    requires stage in disk.names && disk.names[stage] == file && file.data == [] && !file.misbehaved
    modifies disk, file, sender, pipe
    ensures result.committed ==> destination in disk.names && disk.names[destination] == file && stage != destination
    ensures result.committed ==> CopySpec(old(pipe.rest), MAX_LINE) == Copied(file.data, true)
    ensures result.committed ==> SentWell(sender) && RecordAgrees(sender, id, file.data)
    ensures result.committed ==> result.bytes == |file.data| && result.sha == Some(Sha256(file.data))
    ensures result.committed && !force ==> destination !in old(disk.names)
    ensures result.committed ==> SameExcept(old(disk.names), disk.names, {destination, stage})
    ensures !result.committed ==> disk.names == old(disk.names)
    ensures failed <==> !result.committed || result.artifact
    ensures result.artifact <==> sender.started && !sender.removed
    ensures sender.started && !result.artifact ==> !sender.metadata
    ensures sender.attempted
  {
    result, failed := NOTHING, true;
    var started := sender.Start();
    if started {
      var done, artifact, uncleaned;
      result, done := ReceiveThenCommit(disk, file, sender, pipe, stage, destination, force, id);
      artifact, uncleaned := CleanUpSender(sender, done);
      failed := !result.committed || uncleaned;
      result := result.(artifact := artifact);
    }
  }

  /** downloadLanes. A record that tells the truth about a file lets only that file be committed, whatever
      the stream carried. prepared stands for the checks and the exchange before the stage is created. */
  method DownloadFile(disk: Disk, sender: Sender, pipe: Reader, prepared: bool, stage: string, destination: string,
                      force: bool, id: nat) returns (result: TransferResult, failed: bool)
    requires sender.Fresh()
    modifies disk, sender, pipe
    ensures result.committed ==> disk.Content(destination).Some? && var data := disk.Content(destination).value;
      && CopySpec(old(pipe.rest), MAX_LINE) == Copied(data, true)
      && SentWell(sender) && RecordAgrees(sender, id, data)
      && result.bytes == |data| && result.sha == Some(Sha256(data))
    ensures result.committed ==> forall file: Bytes ::
      sender.fetched == Some(Record(id, |file|, Sha256(file))) ==> disk.Content(destination) == Some(file)
    ensures result.committed && !force ==> destination !in old(disk.names)
    ensures SameExcept(old(disk.names), disk.names, {destination, stage})
    ensures !result.committed ==> SameExcept(old(disk.names), disk.names, {stage})
    ensures failed <==> !result.committed || result.artifact
    ensures result.artifact <==> sender.started && !sender.removed
    ensures sender.started && !result.artifact ==> !sender.metadata
    ensures sender.attempted ==> prepared && stage !in old(disk.names)
    ensures prepared && !disk.failed ==> sender.attempted
    ensures sender.attempted ==> stage in disk.removals
  {
    result, failed := NOTHING, true;
    if !prepared {
      return;
    }
    var created, file := disk.CreateStage(stage);
    if !created {
      return;
    }
    result, failed := DownloadToStage(disk, file, sender, pipe, stage, destination, force, id);
    disk.Remove(stage);
  }
}
