/**
 Base64 line framing and chunk sizing (internal/remote/transfer_codec.go).

 CopySpec is the meaning of a whole stream. CopyBase64Lines is proved to compute it whatever the sizes
 of the fragments its reader returns, under the buffer limit of bufio.Scanner.
 */
module TransferCodec {
  import opened Failures
  import opened Base64

  const CRLF: seq<Byte> := [CR, LF]

  // ---- The meaning of a stream ----

  /** The index of the first CR, or the length. */
  function FirstCR(s: seq<Byte>): (i: nat)
    ensures i <= |s|
    ensures i < |s| ==> s[i] == CR
    ensures CR !in s[..i]
  {
    if s == [] then
      0
    else if s[0] == CR then
      0
    else
      var i := FirstCR(s[1..]);
      assert s[..i + 1] == [s[0]] + s[1..][..i];
      i + 1
  }

  /** The stream begins with a CR-free line of at most maxLine bytes and its CR LF. */
  predicate BeginsWithLine(s: seq<Byte>, maxLine: nat) {
    var i := FirstCR(s);
    i + 1 < |s| && s[i + 1] == LF && i <= maxLine
  }

  /** The decoded bytes up to the first bad line, and whether there is none. */
  datatype Copied = Copied(bytes: seq<Byte>, ok: bool)

  function CopySpec(s: seq<Byte>, maxLine: nat): Copied {
    if s == [] then
      Copied([], true)
    else if !BeginsWithLine(s, maxLine) then
      Copied([], false)
    else
      var i := FirstCR(s);
      match Decode(s[..i])
      case None => Copied([], false)
      case Some(bytes) =>
        var rest := CopySpec(s[i + 2..], maxLine);
        Copied(bytes + rest.bytes, rest.ok)
  }

  /** The accepted language: well-formed lines, each with its terminator. */
  function Terminated(lines: seq<seq<Byte>>): seq<Byte> {
    if lines == [] then [] else lines[0] + CRLF + Terminated(lines[1..])
  }

  function Decoded(lines: seq<seq<Byte>>): seq<Byte> {
    if lines == [] then
      []
    else
      (match Decode(lines[0]) case Some(bytes) => bytes case None => []) + Decoded(lines[1..])
  }

  predicate GoodLine(line: seq<Byte>, maxLine: nat) {
    FirstCR(line) == |line| <= maxLine && Decode(line).Some?
  }

  predicate GoodLines(lines: seq<seq<Byte>>, maxLine: nat) {
    forall i :: 0 <= i < |lines| ==> GoodLine(lines[i], maxLine)
  }

  lemma {:induction false} FirstCRAfter(line: seq<Byte>, rest: seq<Byte>)
    requires FirstCR(line) == |line|
    ensures FirstCR(line + CRLF + rest) == |line|
  {
    var s := line + CRLF + rest;
    if line == [] {
      assert s[0] == CR;
    } else {
      assert s[1..] == line[1..] + CRLF + rest;
      FirstCRAfter(line[1..], rest);
    }
  }

  lemma {:induction false} BeforeFirstCR(s: seq<Byte>)
    ensures FirstCR(s[..FirstCR(s)]) == FirstCR(s)
  {
    if s != [] && s[0] != CR {
      BeforeFirstCR(s[1..]);
      assert s[..FirstCR(s)][1..] == s[1..][..FirstCR(s[1..])];
    }
  }

  lemma LineIsRead(line: seq<Byte>, rest: seq<Byte>, maxLine: nat)
    requires GoodLine(line, maxLine)
    ensures CopySpec(line + CRLF + rest, maxLine)
         == Copied(Decode(line).value + CopySpec(rest, maxLine).bytes, CopySpec(rest, maxLine).ok)
  {
    var s := line + CRLF + rest;
    FirstCRAfter(line, rest);
    assert s[..|line|] == line && s[|line| + 2..] == rest && s[|line| + 1] == LF;
  }

  lemma {:induction false} LinesAreAccepted(lines: seq<seq<Byte>>, maxLine: nat)
    requires GoodLines(lines, maxLine)
    ensures CopySpec(Terminated(lines), maxLine) == Copied(Decoded(lines), true)
  {
    if lines != [] {
      LinesAreAccepted(lines[1..], maxLine);
      LineIsRead(lines[0], Terminated(lines[1..]), maxLine);
    }
  }

  lemma FirstLineIsGood(s: seq<Byte>, maxLine: nat)
    requires s != [] && CopySpec(s, maxLine).ok
    ensures var i := FirstCR(s);
      i + 2 <= |s| && GoodLine(s[..i], maxLine) && s == s[..i] + CRLF + s[i + 2..] && CopySpec(s[i + 2..], maxLine).ok
  {
    BeforeFirstCR(s);
  }

  lemma {:induction false} AcceptedHasLines(s: seq<Byte>, maxLine: nat) returns (lines: seq<seq<Byte>>)
    requires CopySpec(s, maxLine).ok
    ensures GoodLines(lines, maxLine) && Terminated(lines) == s
  {
    if s == [] {
      lines := [];
    } else {
      FirstLineIsGood(s, maxLine);
      var line, tail := s[..FirstCR(s)], s[FirstCR(s) + 2..];
      var rest := AcceptedHasLines(tail, maxLine);
      lines := [line] + rest;
      assert lines[1..] == rest;
    }
  }

  /** Exactly the concatenations of good lines are accepted, and what is copied is what they decode to. */
  lemma AcceptedLanguage(s: seq<Byte>, maxLine: nat)
    ensures CopySpec(s, maxLine).ok <==>
      exists lines: seq<seq<Byte>> :: GoodLines(lines, maxLine) && Terminated(lines) == s
    ensures forall lines: seq<seq<Byte>> :: GoodLines(lines, maxLine) && Terminated(lines) == s ==>
      CopySpec(s, maxLine).bytes == Decoded(lines)
  {
    if CopySpec(s, maxLine).ok {
      var lines := AcceptedHasLines(s, maxLine);
    }
    forall lines: seq<seq<Byte>> | GoodLines(lines, maxLine) && Terminated(lines) == s
      ensures CopySpec(s, maxLine) == Copied(Decoded(lines), true)
    {
      LinesAreAccepted(lines, maxLine);
    }
  }

  // ---- Splitting what has been buffered ----

  datatype Split = Token(advance: nat, line: seq<Byte>) | NeedMore | Bad

  function SplitSpec(data: seq<Byte>, atEOF: bool, maxLine: nat): Split {
    var i := FirstCR(data);
    if i + 1 < |data| then
      if data[i + 1] == LF && i <= maxLine then Token(i + 2, data[..i]) else Bad
    else if i < |data| then
      if atEOF then Bad else NeedMore
    else if atEOF then
      if data == [] then NeedMore else Bad
    else
      if |data| > maxLine then Bad else NeedMore
  }

  /** splitCRLFLines. */
  method SplitCRLFLines(data: seq<Byte>, atEOF: bool, maxLine: nat) returns (r: Split)
    ensures r == SplitSpec(data, atEOF, maxLine)
  {
    for i := 0 to |data|
      invariant FirstCR(data) >= i
    {
      NotBeforeCR(data, i);
      if data[i] == CR {
        if i + 1 < |data| {
          if data[i + 1] == LF {
            if i > maxLine {
              return Bad;
            }
            return Token(i + 2, data[..i]);
          }
          return Bad;
        }
        if !atEOF {
          return NeedMore;
        }
        return Bad;
      }
    }
    if atEOF {
      return if |data| == 0 then NeedMore else Bad;
    }
    return if |data| > maxLine then Bad else NeedMore;
  }

  lemma {:induction false} NotBeforeCR(s: seq<Byte>, i: nat)
    requires i < |s| && i <= FirstCR(s)
    ensures s[i] == CR <==> FirstCR(s) == i
  {
    if i > 0 {
      NotBeforeCR(s[1..], i - 1);
    }
  }

  lemma {:induction false} FirstCRInPrefix(held: seq<Byte>, rest: seq<Byte>)
    ensures var i := FirstCR(held); if i < |held| then FirstCR(held + rest) == i else FirstCR(held + rest) >= i
  {
    var s := held + rest;
    if held != [] && held[0] != CR {
      assert s[1..] == held[1..] + rest;
      FirstCRInPrefix(held[1..], rest);
    }
  }

  /** Looking at a part of the stream never misleads: a token is the stream's first line, and a
      rejection means that the stream does not begin with a line. */
  lemma SplitIsSound(held: seq<Byte>, rest: seq<Byte>, atEOF: bool, maxLine: nat)
    ensures var s, r := held + rest, SplitSpec(held, atEOF, maxLine);
      match r
      case Token(n, line) =>
        && BeginsWithLine(s, maxLine) && n <= |held| && n == FirstCR(s) + 2 && line == s[..FirstCR(s)]
        && held[n..] + rest == s[n..]
      case Bad => (atEOF ==> rest == []) ==> s != [] && !BeginsWithLine(s, maxLine)
      case NeedMore =>
        && (atEOF && rest == [] ==> s == [])
        && (|held| >= maxLine + 2 ==> s != [] && !BeginsWithLine(s, maxLine))
  {
    FirstCRInPrefix(held, rest);
    var s := held + rest;
    var i := FirstCR(held);
    if i < |held| {
      assert s[..i] == held[..i];
    }
  }

  // ---- Copying ----

  datatype End = More | EOF | ReadFailed

  /** An io.Reader. It fragments its content as it likes, may fail, and may return nothing for a while. */
  class Reader {
    var rest: seq<Byte>
    var idle: nat           // consecutive empty reads
    var failed: bool
    var ended: bool         // the end of the stream has been reported

    method Read(limit: nat) returns (data: seq<Byte>, end: End)
      modifies this
      ensures data + rest == old(rest) && |data| <= limit
      ensures end.EOF? ==> rest == []
      ensures failed == (old(failed) || end.ReadFailed?)
      ensures ended == (old(ended) || end.EOF?)
      ensures idle == if data == [] && end.More? then old(idle) + 1 else 0
    {
      var n: int := *;
      n := if 0 <= n <= limit && n <= |rest| then n else 0;
      data, rest := rest[..n], rest[n..];
      end := *;
      if end.EOF? && rest != [] {
        end := More;
      }
      failed, ended := failed || end.ReadFailed?, ended || end.EOF?;
      idle := if data == [] && end.More? then idle + 1 else 0;
    }

    /** Just opened: no read has failed or found the end. */
    predicate Opened()
      reads this
    {
      !failed && !ended
    }

    /** The reader has kept io.Reader's contract and its stream is intact. */
    predicate Sound()
      reads this
    {
      !failed && idle <= MAX_EMPTY_READS
    }
  }

  datatype WriteError = Written | ShortWrite | WriteFailed

  /** An io.Writer that may take part of the data. flawed records that some Write has not taken all of its
      data without an error, misbehaved the outcomes writeAll gives up on. */
  class Sink {
    var data: seq<Byte>
    var flawed: bool
    var misbehaved: bool

    constructor ()
      ensures data == [] && !flawed && !misbehaved
    {
      data, flawed, misbehaved := [], false, false;
    }

    method Write(p: seq<Byte>) returns (n: nat, err: WriteError)
      modifies this
      ensures n <= |p| && data == old(data) + p[..n]
      ensures flawed == (old(flawed) || !err.Written? || n < |p|)
      ensures misbehaved == (old(misbehaved)
        || err.WriteFailed? || (err.Written? && n < |p|) || (err.ShortWrite? && n == 0))
    {
      var taken: int := *;
      n := if 0 <= taken <= |p| then taken else |p|;
      err := *;
      data := data + p[..n];
      flawed := flawed || !err.Written? || n < |p|;
      misbehaved := misbehaved || err.WriteFailed? || (err.Written? && n < |p|) || (err.ShortWrite? && n == 0);
    }
  }

  /** writeAll: retries short writes that made progress. */
  method WriteAll(w: Sink, p: seq<Byte>) returns (ok: bool)
    requires p != []
    modifies w
    ensures ok ==> w.data == old(w.data) + p && w.misbehaved == old(w.misbehaved)
    ensures !ok ==> w.misbehaved
    ensures old(w.data) <= w.data <= old(w.data) + p
  {
    var q := p;
    while |q| > 0
      invariant w.data + q == old(w.data) + p && old(w.data) <= w.data
      invariant w.misbehaved == old(w.misbehaved)
      decreases |q|
    {
      var n, err := w.Write(q);
      assert q == q[..n] + q[n..];
      if n > 0 {
        q := q[n..];
      }
      if err.Written? {
        return |q| == 0;
      }
      if n == 0 || !err.ShortWrite? {
        return false;
      }
    }
    return true;
  }

  const MAX_EMPTY_READS := 100
  const INITIAL_BUFFER := 64

  datatype ScanError = Fine | AtEOF | Malformed | TooLong | NoProgress | Unreadable

  /** bufio.Scanner with the source's split function and buffer: start is where the held bytes begin in
      the buffer of the given size. */
  class Scanner {
    const src: Reader
    const maxLine: nat
    const maxToken: nat
    var start: nat
    var held: seq<Byte>
    var size: nat
    var err: ScanError
    var token: seq<Byte>

    constructor (src: Reader, maxLine: nat)
      ensures Valid() && err == Fine && this.src == src && this.maxLine == maxLine && Remaining() == src.rest
    {
      this.src, this.maxLine, maxToken := src, maxLine, maxLine + 2;
      start, held, size, err, token := 0, [], INITIAL_BUFFER, Fine, [];
    }

    ghost predicate Valid()
      reads this, src
    {
      && maxToken == maxLine + 2
      && start + |held| <= size && size > 0
      && (err.AtEOF? ==> src.rest == [])
      && (err.Unreadable? ==> src.failed)
      && (err.NoProgress? ==> src.idle > MAX_EMPTY_READS)
    }

    /** What is left of the stream. */
    ghost function Remaining(): seq<Byte>
      reads this, src
    {
      held + src.rest
    }

    /** No line has been found bad yet. */
    predicate Open()
      reads this
    {
      !err.Malformed? && !err.TooLong?
    }

    method SetErr(e: ScanError)
      modifies this`err
      ensures err == if old(err).Fine? || old(err).AtEOF? then e else old(err)
    {
      if err.Fine? || err.AtEOF? {
        err := e;
      }
    }

    /** Reads once more, skipping over empty reads as long as the scanner has patience. */
    method Fill()
      requires Valid() && err.Fine? && start + |held| < size
      modifies this`held, this`err, src
      ensures Valid() && Remaining() == old(Remaining())
      ensures err.Fine? || err.AtEOF? || err.Unreadable? || err.NoProgress?
      ensures err.Fine? ==> |src.rest| < |old(src.rest)|
      ensures |src.rest| <= |old(src.rest)|
    {
      var empty := 0;
      while true
        invariant Valid() && err.Fine?
        invariant held == old(held) && src.rest == old(src.rest)
        invariant empty <= MAX_EMPTY_READS && src.idle >= empty
        decreases MAX_EMPTY_READS + 1 - empty
      {
        var data, end := src.Read(size - (start + |held|));
        held := held + data;
        assert held + src.rest == old(held) + (data + src.rest);
        if end.EOF? {
          SetErr(AtEOF);
          return;
        }
        if end.ReadFailed? {
          SetErr(Unreadable);
          return;
        }
        if |data| > 0 {
          return;
        }
        assert held == old(held) && src.rest == old(src.rest);
        empty := empty + 1;
        if empty > MAX_EMPTY_READS {
          SetErr(NoProgress);
          return;
        }
      }
    }

    /** Shifts or grows the buffer. Fails when it is full at its limit. */
    method MakeRoom() returns (ok: bool)
      requires Valid() && err.Fine?
      modifies this`start, this`size, this`err
      ensures Valid() && held == old(held) && Remaining() == old(Remaining())
      ensures ok ==> err.Fine? && start + |held| < size
      ensures !ok ==> err.TooLong? && |held| >= maxLine + 2
    {
      if start > 0 && (start + |held| == size || start > size / 2) {
        start := 0;
      }
      if start + |held| == size {
        if size >= maxToken {
          SetErr(TooLong);
          return false;
        }
        size := if size * 2 < maxToken then size * 2 else maxToken;
        start := 0;
      }
      return true;
    }

    /** Tries to split a line off the held bytes: more, no line yet, or bad. */
    method TakeLine() returns (more: bool, bad: bool)
      requires Valid() && Open() && (held != [] || !err.Fine?)
      modifies this
      ensures Valid() && !(more && bad)
      ensures more ==> var s := old(Remaining());
        && Open() && BeginsWithLine(s, maxLine) && token == s[..FirstCR(s)] && Remaining() == s[FirstCR(s) + 2..]
      ensures bad ==> !err.Fine? && !err.AtEOF?
      ensures bad && src.Sound() ==> old(Remaining()) != [] && !BeginsWithLine(old(Remaining()), maxLine)
      ensures !more && !bad ==> unchanged(this) && SplitSpec(held, !err.Fine?, maxLine).NeedMore?
      ensures !more && !bad && err.AtEOF? ==> Remaining() == []
    {
      var r := SplitCRLFLines(held, !err.Fine?, maxLine);
      SplitIsSound(held, src.rest, !err.Fine?, maxLine);
      match r {
        case Bad =>
          SetErr(Malformed);
          return false, true;
        case Token(n, line) =>
          held, start, token := held[n..], start + n, line;
          return true, false;
        case NeedMore =>
          return false, false;
      }
    }

    /** The next line, or the reason why there is none. */
    method Scan() returns (more: bool)
      requires Valid() && Open()
      modifies this, src
      ensures Valid() && (more ==> Open())
      ensures more ==> var s := old(Remaining());
        && BeginsWithLine(s, maxLine) && token == s[..FirstCR(s)] && Remaining() == s[FirstCR(s) + 2..]
      ensures !more && err.AtEOF? ==> old(Remaining()) == []
      ensures !more && !err.AtEOF? && src.Sound() ==>
        old(Remaining()) != [] && !BeginsWithLine(old(Remaining()), maxLine)
    {
      while true
        invariant Valid() && Open() && Remaining() == old(Remaining())
        decreases |src.rest|, if err.Fine? then 1 else 0
      {
        if |held| > 0 || !err.Fine? {
          var bad;
          more, bad := TakeLine();
          if more || bad {
            return;
          }
        }
        if !err.Fine? {
          held, start := [], 0;
          return false;
        }
        SplitIsSound(held, src.rest, false, maxLine);
        var ok := MakeRoom();
        if !ok {
          return false;
        }
        Fill();
      }
    }
  }

  /** Decodes and writes one line. */
  method CopyLine(dst: Sink, line: seq<Byte>) returns (n: nat, ok: bool)
    modifies dst
    ensures ok ==> Decode(line).Some? && dst.data == old(dst.data) + Decode(line).value && n == |Decode(line).value|
    ensures Decode(line).None? ==> dst.data == old(dst.data)
    ensures !ok && Decode(line).Some? ==>
      dst.misbehaved && old(dst.data) <= dst.data <= old(dst.data) + Decode(line).value
  {
    match Decode(line) {
      case None =>
        return 0, false;
      case Some(bytes) =>
        ok := true;
        if |bytes| > 0 {
          ok := WriteAll(dst, bytes);
        }
        return |bytes|, ok;
    }
  }

  /** The stream continues with a line that decodes. */
  predicate Continues(s: seq<Byte>, maxLine: nat) {
    s != [] && BeginsWithLine(s, maxLine) && Decode(s[..FirstCR(s)]).Some?
  }

  lemma CopyUnfolds(s: seq<Byte>, maxLine: nat)
    ensures !Continues(s, maxLine) ==> CopySpec(s, maxLine) == Copied([], s == [])
    ensures Continues(s, maxLine) ==>
      var bytes, rest := Decode(s[..FirstCR(s)]).value, CopySpec(s[FirstCR(s) + 2..], maxLine);
      && CopySpec(s, maxLine) == Copied(bytes + rest.bytes, rest.ok)
      && bytes <= CopySpec(s, maxLine).bytes
  {
  }

  /** One turn of the loop of copyBase64Lines. */
  method CopyNext(scanner: Scanner, dst: Sink) returns (more: bool, n: nat, ok: bool, ghost bytes: seq<Byte>)
    requires scanner.Valid() && scanner.Open()
    modifies scanner, scanner.src, dst
    ensures scanner.Valid()
    ensures more ==> var s := old(scanner.Remaining());
      && scanner.Open() && Continues(s, scanner.maxLine) && scanner.Remaining() == s[FirstCR(s) + 2..]
      && bytes == Decode(s[..FirstCR(s)]).value && dst.data == old(dst.data) + bytes && n == |bytes|
    ensures !more && ok ==> old(scanner.Remaining()) == [] && dst.data == old(dst.data)
    ensures !more && !ok ==>
      var s := old(scanner.Remaining());
      && (scanner.src.Sound() && !dst.misbehaved ==>
            s != [] && !Continues(s, scanner.maxLine) && dst.data == old(dst.data))
      && old(dst.data) <= dst.data <= old(dst.data) + CopySpec(s, scanner.maxLine).bytes
  {
    ghost var s := scanner.Remaining();
    CopyUnfolds(s, scanner.maxLine);
    bytes := [];
    more := scanner.Scan();
    if !more {
      return false, 0, scanner.err.AtEOF?, bytes;
    }
    n, ok := CopyLine(dst, scanner.token);
    more := ok;
    if ok {
      bytes := Decode(scanner.token).value;
    }
  }

  /** What a copy leaves behind. With intact streams, the verdict, the bytes and the count of the whole
      stream; otherwise no wrong success, and nothing but a prefix of those bytes. */
  ghost predicate CopyReport(spec: Copied, base: seq<Byte>, data: seq<Byte>, total: nat, ok: bool, intact: bool) {
    && (ok || intact ==> ok == spec.ok && data == base + spec.bytes && total == |spec.bytes|)
    && base <= data <= base + spec.bytes
  }

  /** copyBase64Lines: the report is that of CopySpec on the whole stream, however the reader fragments
      it, when the reader is sound and the writer does not misbehave. */
  method CopyBase64Lines(dst: Sink, src: Reader, maxLine: int) returns (total: nat, ok: bool)
    modifies dst, src
    ensures maxLine <= 0 ==> !ok && total == 0 && dst.data == old(dst.data)
    ensures maxLine > 0 ==> CopyReport(CopySpec(old(src.rest), maxLine), old(dst.data), dst.data, total, ok,
                                       src.Sound() && !dst.misbehaved)
  {
    if maxLine <= 0 {
      return 0, false;
    }
    total := 0;
    ghost var base, spec := dst.data, CopySpec(src.rest, maxLine);
    ghost var written: seq<Byte> := [];
    var scanner := new Scanner(src, maxLine);
    CopyStarts(spec, base, scanner.Remaining(), maxLine);
    while true
      invariant fresh(scanner) && scanner.src == src && scanner.maxLine == maxLine
      invariant scanner.Valid() && scanner.Open()
      invariant CopyProgress(spec, base, written, scanner.Remaining(), maxLine, dst.data, total)
      decreases |scanner.Remaining()|
    {
      ghost var s, bytes, data := scanner.Remaining(), [], dst.data;
      var more, n;
      more, n, ok, bytes := CopyNext(scanner, dst);
      if !more {
        StopReports(spec, base, written, s, maxLine, data, dst.data, total, ok, src.Sound() && !dst.misbehaved);
        return;
      }
      ProgressAdvances(spec, base, written, s, maxLine, data, total, bytes);
      written := written + bytes;
      total := total + n;
    }
  }

  lemma Associates(a: seq<Byte>, b: seq<Byte>, c: seq<Byte>)
    ensures (a + b) + c == a + (b + c)
  {
  }

  /** What has been written and counted so far, and that the rest of the stream has the rest of the whole
      stream's meaning. */
  ghost predicate CopyProgress(spec: Copied, base: seq<Byte>, written: seq<Byte>, s: seq<Byte>, maxLine: nat,
                               data: seq<Byte>, total: nat) {
    && spec == Copied(written + CopySpec(s, maxLine).bytes, CopySpec(s, maxLine).ok)
    && data == base + written && total == |written|
  }

  lemma CopyStarts(spec: Copied, base: seq<Byte>, s: seq<Byte>, maxLine: nat)
    requires spec == CopySpec(s, maxLine)
    ensures CopyProgress(spec, base, [], s, maxLine, base, 0)
  {
    assert [] + spec.bytes == spec.bytes && base + [] == base;
  }

  lemma ProgressAdvances(spec: Copied, base: seq<Byte>, written: seq<Byte>, s: seq<Byte>, maxLine: nat,
                         data: seq<Byte>, total: nat, bytes: seq<Byte>)
    requires CopyProgress(spec, base, written, s, maxLine, data, total)
    requires Continues(s, maxLine) && bytes == Decode(s[..FirstCR(s)]).value
    ensures CopyProgress(spec, base, written + bytes, s[FirstCR(s) + 2..], maxLine, data + bytes, total + |bytes|)
  {
    CopyUnfolds(s, maxLine);
    Associates(written, bytes, CopySpec(s[FirstCR(s) + 2..], maxLine).bytes);
    Associates(base, written, bytes);
  }

  lemma StopReports(spec: Copied, base: seq<Byte>, written: seq<Byte>, s: seq<Byte>, maxLine: nat,
                    before: seq<Byte>, data: seq<Byte>, total: nat, ok: bool, intact: bool)
    requires CopyProgress(spec, base, written, s, maxLine, before, total)
    requires ok ==> s == [] && data == before
    requires !ok && intact ==> s != [] && !Continues(s, maxLine) && data == before
    requires before <= data <= before + CopySpec(s, maxLine).bytes
    ensures CopyReport(spec, base, data, total, ok, intact)
  {
    CopyUnfolds(s, maxLine);
    Associates(base, written, CopySpec(s, maxLine).bytes);
  }

  // ---- Sent lines ----

  /** The longest raw block of the remote sender, and the line limit of the local receiver. */
  const SENDER_BLOCK := 24576
  const MAX_LINE := 32768

  function EncodeAll(blocks: seq<seq<Byte>>): seq<seq<Byte>> {
    if blocks == [] then [] else [Encode(blocks[0])] + EncodeAll(blocks[1..])
  }

  function Flatten(blocks: seq<seq<Byte>>): seq<Byte> {
    if blocks == [] then [] else blocks[0] + Flatten(blocks[1..])
  }

  lemma NoCRToFind(s: seq<Byte>)
    requires NoNewlines(s)
    ensures FirstCR(s) == |s|
  {
  }

  lemma SentLineIsGood(block: seq<Byte>)
    requires |block| <= SENDER_BLOCK
    ensures GoodLine(Encode(block), MAX_LINE) && Decode(Encode(block)) == Some(block)
  {
    EncodeShape(block);
    NoCRToFind(Encode(block));
    SenderBlockIsTight(block);
    RoundTrip(block);
  }

  /** Whatever blocks the sender reads from the file, copying its lines rebuilds the file. */
  lemma {:induction false} SenderLinesAreCopied(blocks: seq<seq<Byte>>)
    requires forall i :: 0 <= i < |blocks| ==> |blocks[i]| <= SENDER_BLOCK
    ensures CopySpec(Terminated(EncodeAll(blocks)), MAX_LINE) == Copied(Flatten(blocks), true)
  {
    if blocks != [] {
      var line := Encode(blocks[0]);
      SenderLinesAreCopied(blocks[1..]);
      SentLineIsGood(blocks[0]);
      LineIsRead(line, Terminated(EncodeAll(blocks[1..])), MAX_LINE);
    }
  }

  /** The two limits fit exactly: one more byte in a block would make its line too long. */
  lemma SenderBlockIsTight(block: seq<Byte>)
    ensures |Encode(block)| <= MAX_LINE <==> |block| <= SENDER_BLOCK
  {
    EncodeShape(block);
  }

  // ---- Chunk sizes ----

  /** What a builder makes of n raw bytes: a message length, or an error. */
  type Builder = nat -> Option<nat>

  ghost predicate NeverFails(builder: Builder) {
    forall n: nat :: builder(n).Some?
  }

  ghost predicate Monotone(builder: Builder)
    requires NeverFails(builder)
  {
    forall m: nat, n: nat :: m <= n ==> builder(m).value <= builder(n).value
  }

  ghost predicate NeverShrinks(builder: Builder)
    requires NeverFails(builder)
  {
    forall n: nat :: n <= builder(n).value
  }

  /** chunkSize: a binary search. Every builder gets a size that fits or none. A monotone builder that
      never shrinks its input gets the largest size that fits, and none only if one byte is too much. */
  method ChunkSize(maxEnvelope: int, builder: Builder) returns (size: Option<nat>)
    ensures size.Some? ==> size.value >= 1 && builder(size.value).Some? && builder(size.value).value <= maxEnvelope
    ensures maxEnvelope <= 0 || builder(0).None? ==> size.None?
    ensures NeverFails(builder) && Monotone(builder) && NeverShrinks(builder) ==>
      && (size.None? <==> builder(1).value > maxEnvelope)
      && (size.Some? ==> forall n: nat :: builder(n).value <= maxEnvelope <==> n <= size.value)
  {
    if maxEnvelope <= 0 {
      return None;
    }
    if builder(0).None? {
      return None;
    }
    var one := builder(1);
    if one.None? || one.value > maxEnvelope {
      return None;
    }
    var lo, hi := 1, maxEnvelope;
    while lo < hi
      invariant 1 <= lo <= hi <= maxEnvelope
      invariant builder(lo).Some? && builder(lo).value <= maxEnvelope
      invariant NeverFails(builder) && Monotone(builder) ==>
        forall n: nat :: hi < n <= maxEnvelope ==> builder(n).value > maxEnvelope
    {
      var mid := (lo + hi + 1) / 2;
      var built := builder(mid);
      if built.None? {
        return None;
      }
      if built.value <= maxEnvelope {
        lo := mid;
      } else {
        hi := mid - 1;
      }
    }
    return Some(lo);
  }

  const MAX_ENVELOPE := 153600
  const UPLOAD_CHUNK := 32768

  /** The limit of an upload: every chunk up to it fits the envelope and, unless the upload's own cap
      decides, no larger one does. */
  method UploadChunkLimit(builder: Builder) returns (limit: Option<nat>)
    requires NeverFails(builder) && Monotone(builder) && NeverShrinks(builder)
    ensures limit.None? <==> builder(1).value > MAX_ENVELOPE
    ensures limit.Some? ==> 1 <= limit.value <= UPLOAD_CHUNK
    ensures limit.Some? ==> forall n: nat :: n <= limit.value ==> builder(n).value <= MAX_ENVELOPE
    ensures limit.Some? && limit.value < UPLOAD_CHUNK ==> builder(limit.value + 1).value > MAX_ENVELOPE
  {
    limit := ChunkSize(MAX_ENVELOPE, builder);
    if limit.Some? && limit.value > UPLOAD_CHUNK {
      limit := Some(UPLOAD_CHUNK);
    }
  }

  /** The length of the upload's message: an envelope around the Base64 of a Base64 line with CR LF. */
  function UploadLen(overhead: nat, n: nat): nat {
    overhead + EncodedLen(EncodedLen(n) + 2)
  }

  lemma EncodedLenGrows(m: nat, n: nat)
    requires m <= n
    ensures EncodedLen(m) <= EncodedLen(n) && n <= EncodedLen(n)
  {
  }

  lemma UploadLenGrows(overhead: nat, m: nat, n: nat)
    requires m <= n
    ensures UploadLen(overhead, m) <= UploadLen(overhead, n) && n <= UploadLen(overhead, n)
  {
    EncodedLenGrows(m, n);
    EncodedLenGrows(EncodedLen(m) + 2, EncodedLen(n) + 2);
  }

  /** The upload's builder has the properties the search needs. */
  lemma UploadBuilderIsSearchable(overhead: nat, builder: Builder)
    requires forall n: nat :: builder(n) == Some(UploadLen(overhead, n))
    ensures NeverFails(builder) && Monotone(builder) && NeverShrinks(builder)
  {
    forall m: nat, n: nat | m <= n
      ensures builder(m).value <= builder(n).value && n <= builder(n).value
    {
      UploadLenGrows(overhead, m, n);
    }
    forall n: nat ensures n <= builder(n).value {
      UploadLenGrows(overhead, n, n);
    }
  }
}
