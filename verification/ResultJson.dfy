/**
 The JSON of a command's result, as the master writes it (writeJSONFrame in internal/control/protocol.go
 for the Result type). Its reader here accepts just what is written.
 */
module ResultJson {
  import opened Base64
  import opened Failures
  import opened Frames
  import T = Text
  import TransferCodec

  const OPEN := "{\"ExitCode\":"
  const SEPARATOR := ",\"Category\":\""
  const CLOSE := "\"}"

  function Json(r: Result): string {
    OPEN + T.SignedDecimal(r.exitCode) + SEPARATOR + (r.category + CLOSE)
  }

  function Octet(c: char): Byte {
    if c as int < 256 then c as int else 63
  }

  function Octets(s: string): Bytes {
    seq(|s|, i requires 0 <= i < |s| => Octet(s[i]))
  }

  function Encode(r: Result): Bytes {
    Octets(Json(r))
  }

  function ParseJson(s: string): Option<Result> {
    if !(OPEN <= s) then
      None
    else
      match T.Cut(s[|OPEN|..], SEPARATOR)
      case NotFound => None
      case Found(digits, tail) =>
        if |tail| < |CLOSE| || tail[|tail| - |CLOSE|..] != CLOSE then
          None
        else
          match T.Atoi(digits)
          case None => None
          case Some(n) =>
            if -0x8000_0000_0000_0000 <= n < 0x8000_0000_0000_0000 then Some(Result(n, tail[..|tail| - |CLOSE|]))
            else None
  }

  function Decode(payload: Bytes): Option<Result> {
    ParseJson(AsText(payload))
  }

  predicate Printable(s: string) {
    forall i :: 0 <= i < |s| ==> ' ' <= s[i] <= '~'
  }

  lemma OctetsAreText(s: string)
    requires Printable(s)
    ensures AsText(Octets(s)) == s && VERSION !in Octets(s)
  {
  }

  lemma CategoryIsPlain(category: string)
    requires category == "" || category in CATEGORIES
    ensures Printable(category) && |category| <= 20
  {
  }

  lemma JsonIsPlain(r: Result)
    requires r.Answerable()
    ensures Printable(Json(r)) && 2 <= |Json(r)| <= 250
  {
    CategoryIsPlain(r.category);
    T.SignedDecimalIsShort(r.exitCode);
  }

  lemma DigitsHaveNoComma(n: int)
    ensures ',' !in T.SignedDecimal(n)
  {
  }

  lemma Opened(open: string, digits: string, separator: string, tail: string)
    ensures var s := open + digits + separator + tail; open <= s && s[|open|..] == digits + separator + tail
  {
  }

  lemma Closed(category: string, close: string)
    ensures var s := category + close; s[|s| - |close|..] == close && s[..|s| - |close|] == category
  {
  }

  lemma JsonIsRead(r: Result)
    ensures ParseJson(Json(r)) == Some(r)
  {
    var digits, tail := T.SignedDecimal(r.exitCode), r.category + CLOSE;
    DigitsHaveNoComma(r.exitCode);
    T.CutAt(digits, SEPARATOR, tail);
    Opened(OPEN, digits, SEPARATOR, tail);
    Closed(r.category, CLOSE);
    T.AtoiReadsSigned(r.exitCode);
  }

  /** What the frame protocol takes from its JSON library holds of this pair. */
  lemma JsonMarshals()
    ensures Marshals(Encode, Decode)
  {
    forall r: Result | r.Answerable() ensures PlainText(Encode(r)) && Decode(Encode(r)) == Some(r) {
      JsonIsPlain(r);
      OctetsAreText(Json(r));
      JsonIsRead(r);
    }
  }

  /** The end-to-end result with this JSON. */
  method RunWithJson(server: Outlet, client: Peer, ctx: Context, arrived: nat, outCalls: seq<Bytes>,
                     errCalls: seq<Bytes>, exitCode: Int64, verdict: string, failure: string,
                     out: TransferCodec.Sink, err: TransferCodec.Sink)
    returns (answer: Outcome, ghost sent: seq<Frame>)
    requires out != err && server.sent == [] && (verdict == "" || verdict in CATEGORIES) && failure in CATEGORIES
    modifies server, client, ctx, out, err
    ensures answer.Returned? ==> VerdictOf(answer.result, exitCode, verdict, failure, server.faulted)
    ensures answer.Returned? && answer.result.Succeeds() ==>
      && out.data == old(out.data) + TransferCodec.Flatten(outCalls)
      && err.data == old(err.data) + TransferCodec.Flatten(errCalls)
    ensures AllOutput(sent)
    ensures !server.faulted ==> var payload := Encode(Result(exitCode, verdict));
      |payload| <= MAX_PAYLOAD && server.sent == Stream(sent) + Wire(Frame(RESULT, payload))
    ensures !server.faulted && arrived >= |server.sent| && !Disturbed(client, ctx, out, err) ==>
      answer == if 0 <= exitCode <= MAX_UINT32 then Returned(Result(exitCode, verdict)) else BadProtocol
  {
    JsonMarshals();
    answer, sent := RunOverConnection(server, client, ctx, arrived, outCalls, errCalls, exitCode, verdict, failure,
                                      Encode, Decode, out, err);
  }
}
