/**
 Sealed WinRM messages (internal/remote/sealing.go; [MS-WSMV] section 2.2.9.1).

 The security session and mime.ParseMediaType are parameters. Octets are characters.
 */
module Sealing {
  import opened Failures
  import opened Text

  const PROTOCOL := "application/HTTP-SPNEGO-session-encrypted"
  const BOUNDARY := "Encrypted Boundary"
  const MAX_RESPONSE := 4194304
  const CRLF := "\r\n"
  const OCTETS := "Content-Type: application/octet-stream"

  type Wrapper = string -> Option<(string, string)>

  type Unwrapper = (string, string) -> Option<string>

  /** What mime.ParseMediaType returns for a Content-Type. */
  datatype MediaType = MediaType(ok: bool, typ: string, protocol: string, boundary: string)

  predicate AcceptedType(mt: MediaType) {
    && mt.ok && mt.typ == "multipart/encrypted" && mt.protocol == PROTOCOL
    && 0 < |mt.boundary| <= 70 && '\r' !in mt.boundary && '\n' !in mt.boundary
  }

  // ---- The parts of a message ----

  function Marker(boundary: string): string {
    "--" + boundary + CRLF
  }

  function End(boundary: string): string {
    "--" + boundary + "--" + CRLF
  }

  /** The length of the signature, in little endian. */
  function SignatureLength(): string {
    [16 as char, 0 as char, 0 as char, 0 as char]
  }

  datatype Message = Message(header: string, line: string, signature: string, sealed: string) {
    function Payload(): string {
      line + CRLF + (SignatureLength() + signature + sealed)
    }

    function Inner(boundary: string): string {
      header + Marker(boundary) + Payload()
    }

    function Bytes(boundary: string): string {
      Marker(boundary) + Inner(boundary) + End(boundary)
    }

    /** The separators are where a reader looks for them first. */
    predicate WellPlaced(boundary: string) {
      && |signature| == 16
      && IndexOf(Inner(boundary), Marker(boundary)) == |header|
      && IndexOf(Payload(), CRLF) == |line|
    }
  }

  function Uint32(s: string): nat
    requires |s| >= 4
  {
    s[0] as int + 256 * (s[1] as int) + 65536 * (s[2] as int) + 16777216 * (s[3] as int)
  }

  lemma LeastFirst(a: nat, rest: nat)
    requires a < 256
    ensures (a + 256 * rest) % 256 == a && (a + 256 * rest) / 256 == rest
  {
  }

  /** The signature length is read with its least octet first. */
  lemma LengthIsLittleEndian(s: string)
    requires |s| >= 4 && forall i :: 0 <= i < 4 ==> s[i] as int < 256
    ensures var n := Uint32(s);
      && n % 256 == s[0] as int && n / 256 % 256 == s[1] as int
      && n / 256 / 256 % 256 == s[2] as int && n / 256 / 256 / 256 == s[3] as int
  {
    var a: nat, b: nat, c: nat, d: nat := s[0] as int, s[1] as int, s[2] as int, s[3] as int;
    LeastFirst(c, d);
    LeastFirst(b, c + 256 * d);
    LeastFirst(a, b + 256 * (c + 256 * d));
  }

  // ---- Markers cannot overlap ----

  predicate HasPrefix(s: string, prefix: string) {
    |prefix| <= |s| && s[..|prefix|] == prefix
  }

  predicate HasSuffix(s: string, suffix: string) {
    |suffix| <= |s| && s[|s| - |suffix|..] == suffix
  }

  /** A body that starts with the marker and ends with the end marker has room for both. */
  lemma MarkersDoNotOverlap(body: string, boundary: string)
    requires '\r' !in boundary && '\n' !in boundary
    requires HasPrefix(body, Marker(boundary)) && HasSuffix(body, End(boundary))
    ensures |body| >= |Marker(boundary)| + |End(boundary)|
  {
    var m, e := Marker(boundary), End(boundary);
    var p, b := |body| - |e|, |boundary|;
    assert forall i :: 0 <= i < b + 4 ==> e[i] != '\r' && e[i] != '\n';
    assert forall i :: p <= i < |body| ==> body[i] == e[i - p];
    assert body[b + 2] == m[b + 2] == '\r' && body[b + 3] == m[b + 3] == '\n';
  }

  /** The check of the boundary is needed: with CR and LF inside it, the two can share octets, and slicing
      between them would be out of range. */
  lemma LineBreakInBoundaryOverlaps()
    ensures var boundary, body := "\r\n--", "--\r\n--\r\n----\r\n";
      && HasPrefix(body, Marker(boundary)) && HasSuffix(body, End(boundary))
      && |body| < |Marker(boundary)| + |End(boundary)|
  {
  }

  // ---- Taking a message apart ----

  /** The signature and the ciphertext of a data part. */
  function OpenedData(data: string): Option<(string, string)> {
    if |data| < 20 || Uint32(data[..4]) != 16 then None else Some((data[4..20], data[20..]))
  }

  function OpenedPayload(header: string, payload: string): Option<Message> {
    match Cut(payload, CRLF)
    case NotFound => None
    case Found(line, data) =>
      match OpenedData(data)
      case None => None
      case Some((signature, sealed)) => Some(Message(header, line, signature, sealed))
  }

  function OpenedInner(inner: string, boundary: string): Option<Message> {
    match Cut(inner, Marker(boundary))
    case NotFound => None
    case Found(header, payload) => OpenedPayload(header, payload)
  }

  /** The reslicing of unsealMessage. */
  function Opened(body: string, boundary: string): Option<Message>
    requires '\r' !in boundary && '\n' !in boundary
  {
    var m, e := Marker(boundary), End(boundary);
    if !HasPrefix(body, m) || !HasSuffix(body, e) then
      None
    else
      MarkersDoNotOverlap(body, boundary);
      OpenedInner(body[|m|..|body| - |e|], boundary)
  }

  lemma DataIsPutTogether(data: string)
    requires OpenedData(data).Some?
    ensures var (signature, sealed) := OpenedData(data).value;
      |signature| == 16 && data == SignatureLength() + signature + sealed
  {
    var s := data[..4];
    assert s[3] as int == 0 && s[2] as int == 0 && s[1] as int == 0;
    assert s == [s[0], s[1], s[2], s[3]] == SignatureLength();
    assert data == s + data[4..20] + data[20..];
  }

  lemma DataIsOpened(signature: string, sealed: string)
    requires |signature| == 16
    ensures OpenedData(SignatureLength() + signature + sealed) == Some((signature, sealed))
  {
    var data := SignatureLength() + signature + sealed;
    assert data[..4] == SignatureLength() && data[4..20] == signature && data[20..] == sealed;
  }

  /** What is taken apart is put together again. */
  lemma OpenedIsTheBody(body: string, boundary: string)
    requires '\r' !in boundary && '\n' !in boundary
    requires Opened(body, boundary).Some?
    ensures var m := Opened(body, boundary).value; m.WellPlaced(boundary) && m.Bytes(boundary) == body
  {
    var m, e := Marker(boundary), End(boundary);
    MarkersDoNotOverlap(body, boundary);
    var inner := body[|m|..|body| - |e|];
    assert body == body[..|m|] + inner + body[|body| - |e|..];
    CutPieces(inner, m);
    var payload := Cut(inner, m).after;
    CutPieces(payload, CRLF);
    DataIsPutTogether(Cut(payload, CRLF).after);
  }

  lemma Enclosed(a: string, b: string, c: string)
    ensures var s := a + b + c; HasPrefix(s, a) && HasSuffix(s, c) && s[|a|..|s| - |c|] == b
  {
  }

  /** And the other way: a well-placed message is found in its bytes, whatever its ciphertext contains. */
  lemma BytesAreOpened(msg: Message, boundary: string)
    requires '\r' !in boundary && '\n' !in boundary
    requires msg.WellPlaced(boundary)
    ensures Opened(msg.Bytes(boundary), boundary) == Some(msg)
  {
    Enclosed(Marker(boundary), msg.Inner(boundary), End(boundary));
    CutAtFirst(msg.header, Marker(boundary), msg.Payload());
    CutAtFirst(msg.line, CRLF, SignatureLength() + msg.signature + msg.sealed);
    DataIsOpened(msg.signature, msg.sealed);
  }

  // ---- The header lines ----

  /** What the lines seen so far have said: the declared length, or -1, and whether the protocol was named. */
  datatype Declared = Declared(length: int, protocol: bool)

  function DeclaredParam(d: Declared, param: string): Option<Declared> {
    match Cut(TrimSpace(param), "=")
    case NotFound => Some(d)
    case Found(key, value) =>
      if key != "Length" then
        Some(d)
      else
        match Atoi(value)
        case None => None
        case Some(n) => Some(d.(length := n))
  }

  function DeclaredParams(d: Declared, params: seq<string>): Option<Declared>
    decreases |params|
  {
    if params == [] then
      Some(d)
    else
      match DeclaredParam(d, params[0])
      case None => None
      case Some(next) => DeclaredParams(next, params[1..])
  }

  const CONTENT_LABEL := "Content-Type: "
  const CONTENT_TYPE := CONTENT_LABEL + PROTOCOL
  const ORIGINAL := "OriginalContent:"

  function DeclaredLine(d: Declared, raw: string): Option<Declared> {
    var line := TrimSpace(raw);
    var named := d.(protocol := d.protocol || line == CONTENT_TYPE);
    if HasPrefix(line, ORIGINAL) then DeclaredParams(named, Split(line, ";")) else Some(named)
  }

  function DeclaredLines(d: Declared, lines: seq<string>): Option<Declared>
    decreases |lines|
  {
    if lines == [] then
      Some(d)
    else
      match DeclaredLine(d, lines[0])
      case None => None
      case Some(next) => DeclaredLines(next, lines[1..])
  }

  /** The plaintext length that an acceptable header declares. */
  function DeclaredLength(header: string): Option<nat> {
    match DeclaredLines(Declared(-1, false), Split(header, CRLF))
    case None => None
    case Some(d) => if d.protocol && 0 <= d.length <= MAX_RESPONSE then Some(d.length) else None
  }

  /** The checks on a message that has been taken apart. */
  function Verified(unwrap: Unwrapper, msg: Message): Option<string> {
    match (DeclaredLength(msg.header), unwrap(msg.sealed, msg.signature))
    case (Some(length), Some(plain)) => if TrimSpace(msg.line) == OCTETS && |plain| == length then Some(plain) else None
    case _ => None
  }

  function Judged(unwrap: Unwrapper, msg: Option<Message>): Option<string> {
    match msg
    case None => None
    case Some(m) => Verified(unwrap, m)
  }

  /** The meaning of unsealing. */
  function Unsealed(unwrap: Unwrapper, body: string, mt: MediaType): Option<string> {
    if !AcceptedType(mt) || |body| > MAX_RESPONSE then None else Judged(unwrap, Opened(body, mt.boundary))
  }

  // ---- sealMessage and unsealMessage ----

  /** The loop over the parameters of one line. */
  method ScanParams(start: Declared, line: string) returns (r: Option<Declared>)
    ensures r == DeclaredParams(start, Split(line, ";"))
  {
    var params, d := Split(line, ";"), start;
    for i := 0 to |params|
      invariant DeclaredParams(d, params[i..]) == DeclaredParams(start, params)
    {
      assert params[i..][1..] == params[i + 1..];
      match Cut(TrimSpace(params[i]), "=") {
        case NotFound =>
        case Found(key, value) =>
          if key == "Length" {
            var n := Atoi(value);
            if n.None? {
              return None;
            }
            d := d.(length := n.value);
          }
      }
    }
    return Some(d);
  }

  /** The loop over the header lines, and the check of what they have declared. */
  method ScanHeader(header: string) returns (length: Option<nat>)
    ensures length == DeclaredLength(header)
  {
    var lines, d := Split(header, CRLF), Declared(-1, false);
    for i := 0 to |lines|
      invariant DeclaredLines(d, lines[i..]) == DeclaredLines(Declared(-1, false), lines)
    {
      assert lines[i..][1..] == lines[i + 1..];
      var line := TrimSpace(lines[i]);
      if line == CONTENT_TYPE {
        d := d.(protocol := true);
      }
      if HasPrefix(line, ORIGINAL) {
        var next := ScanParams(d, line);
        if next.None? {
          return None;
        }
        d := next.value;
      }
    }
    return if d.protocol && 0 <= d.length <= MAX_RESPONSE then Some(d.length) else None;
  }

  /** unsealMessage after the second marker. */
  method UnsealPayload(unwrap: Unwrapper, header: string, payload: string, length: nat) returns (plain: Option<string>)
    requires DeclaredLength(header) == Some(length)
    ensures plain == Judged(unwrap, OpenedPayload(header, payload))
  {
    var rest := Cut(payload, CRLF);
    if rest.NotFound? || TrimSpace(rest.before) != OCTETS || |rest.after| < 20 {
      return None;
    }
    var data := rest.after;
    if Uint32(data[..4]) != 16 {
      return None;
    }
    plain := unwrap(data[20..], data[4..20]);
    if plain.Some? && |plain.value| != length {
      return None;
    }
  }

  /** unsealMessage between the outer markers. */
  method UnsealInner(unwrap: Unwrapper, body: string, boundary: string) returns (plain: Option<string>)
    ensures plain == Judged(unwrap, OpenedInner(body, boundary))
  {
    var split := Cut(body, Marker(boundary));
    if split.NotFound? {
      return None;
    }
    var length := ScanHeader(split.before);
    if length.None? {
      return None;
    }
    plain := UnsealPayload(unwrap, split.before, split.after, length.value);
  }

  lemma OpenedBetween(body: string, boundary: string, inner: string)
    requires '\r' !in boundary && '\n' !in boundary
    requires body == Marker(boundary) + inner + End(boundary)
    ensures Opened(body, boundary) == OpenedInner(inner, boundary)
  {
    Enclosed(Marker(boundary), inner, End(boundary));
  }

  /** unsealMessage. Every slice is in range, whatever the body. */
  method UnsealMessage(unwrap: Unwrapper, body: string, mt: MediaType) returns (plain: Option<string>)
    ensures plain == Unsealed(unwrap, body, mt)
  {
    if !AcceptedType(mt) || |body| > MAX_RESPONSE {
      return None;
    }
    var marker, end := Marker(mt.boundary), End(mt.boundary);
    if !HasPrefix(body, marker) || !HasSuffix(body, end) {
      return None;
    }
    MarkersDoNotOverlap(body, mt.boundary);
    var inner := body[|marker|..|body| - |end|];
    assert body == body[..|marker|] + inner + body[|body| - |end|..];
    OpenedBetween(body, mt.boundary, inner);
    plain := UnsealInner(unwrap, inner, mt.boundary);
  }

  const TYPE_KEY := ORIGINAL + " type"
  const TYPE_VALUE := "application/soap+xml"
  const CHARSET_KEY := "charset"
  const CHARSET_VALUE := "UTF-8"
  const LENGTH_KEY := "Length"

  /** The second header line of a message with a plaintext of n octets. */
  function OriginalLine(n: nat): string {
    TYPE_KEY + "=" + TYPE_VALUE + ";" + (CHARSET_KEY + "=" + CHARSET_VALUE + ";" + (LENGTH_KEY + "=" + Decimal(n)))
  }

  /** The header lines. */
  function HeaderFor(n: nat): string {
    "\t" + CONTENT_TYPE + CRLF + ("\t" + OriginalLine(n) + CRLF + "")
  }

  function SealedMessage(n: nat, signature: string, sealed: string): Message {
    Message(HeaderFor(n), "\t" + OCTETS, signature, sealed)
  }

  lemma Appended(m: string, h: string, l: string, s: string, g: string, x: string, e: string)
    ensures m + h + m + l + s + g + x + e == m + (h + m + (l + (s + g + x))) + e
  {
    assert m + h + m + l + s + g + x == m + (h + m + (l + (s + g + x)));
  }

  /** sealMessage. */
  method SealMessage(wrap: Wrapper, plain: string) returns (body: Option<string>)
    ensures body.Some? <==> wrap(plain).Some? && |wrap(plain).value.1| == 16
    ensures body.Some? ==>
      body.value == SealedMessage(|plain|, wrap(plain).value.1, wrap(plain).value.0).Bytes(BOUNDARY)
  {
    var wrapped := wrap(plain);
    if wrapped.None? {
      return None;
    }
    var (sealed, signature) := wrapped.value;
    if |signature| != 16 {
      return None;
    }
    var marker, header, line := Marker(BOUNDARY), HeaderFor(|plain|), "\t" + OCTETS + CRLF;
    var buffer := marker + header + marker + line;
    buffer := buffer + SignatureLength();
    buffer := buffer + signature;
    buffer := buffer + sealed;
    buffer := buffer + End(BOUNDARY);
    Appended(marker, header, line, SignatureLength(), signature, sealed, End(BOUNDARY));
    return Some(buffer);
  }

  // ---- The round trip ----

  /** No two dashes in a row, and no dash at the end. */
  ghost predicate SingleDashes(s: string) {
    forall i: nat :: Dash(s, i) ==> i + 1 < |s| && !Dash(s, i + 1)
  }

  predicate Dash(s: string, i: nat) {
    i < |s| && s[i] == '-'
  }

  lemma NoSecondDash(s: string, before: string, i: nat)
    requires SingleDashes(before) && before <= s && i < |before| && Dash(s, i)
    ensures i + 1 < |before| && !Dash(s, i + 1)
  {
    assert s[..|before|] == before;
    assert Dash(before, i);
    assert !Dash(before, i + 1);
  }

  lemma MarkerDashes(s: string, boundary: string, i: nat)
    requires At(s, Marker(boundary), i)
    ensures Dash(s, i) && Dash(s, i + 1)
  {
    var m := s[i..i + |Marker(boundary)|];
    assert m[0] == s[i] && m[1] == s[i + 1];
  }

  lemma MarkerComesFirst(before: string, boundary: string, after: string)
    requires SingleDashes(before)
    ensures IndexOf(before + Marker(boundary) + after, Marker(boundary)) == |before|
  {
    var m := Marker(boundary);
    var s := before + m + after;
    assert s[|before|..|before| + |m|] == m;
    assert At(s, m, |before|);
    forall j: nat | j < |before| ensures !At(s, m, j) {
      if At(s, m, j) {
        MarkerDashes(s, boundary, j);
        NoSecondDash(s, before, j);
      }
    }
  }

  lemma SingleDashesJoin(a: string, b: string)
    requires SingleDashes(a) && SingleDashes(b)
    ensures SingleDashes(a + b)
  {
    forall i: nat | Dash(a + b, i) ensures i + 1 < |a + b| && !Dash(a + b, i + 1) {
      if i < |a| {
        NoSecondDash(a + b, a, i);
      } else {
        assert Dash(b, i - |a|) && !Dash(b, i - |a| + 1);
      }
    }
  }

  /** Text that no separator of the header can split, and that keeps its ends when it is trimmed. */
  ghost predicate Plain(s: string) {
    && s != "" && !IsSpace(s[0]) && !IsSpace(s[|s| - 1])
    && '\r' !in s && ';' !in s && '=' !in s
    && SingleDashes(s)
  }

  lemma LabelIsPlain()
    ensures CONTENT_LABEL != "" && !IsSpace(CONTENT_LABEL[0]) && '\r' !in CONTENT_LABEL && SingleDashes(CONTENT_LABEL)
  {
  }

  lemma ProtocolHasSingleDashes()
    ensures SingleDashes(PROTOCOL)
  {
  }

  lemma ProtocolHasNoSeparators()
    ensures ';' !in PROTOCOL && '=' !in PROTOCOL
  {
  }

  lemma ProtocolIsPlain()
    ensures Plain(PROTOCOL)
  {
    ProtocolHasSingleDashes();
    ProtocolHasNoSeparators();
  }

  lemma TypeKeyIsPlain()
    ensures Plain(TYPE_KEY)
  {
  }

  lemma TypeValueIsPlain()
    ensures Plain(TYPE_VALUE)
  {
  }

  lemma CharsetIsPlain()
    ensures Plain(CHARSET_KEY) && Plain(CHARSET_VALUE) && Plain(LENGTH_KEY)
  {
  }

  lemma DigitsArePlain(n: nat)
    ensures Plain(Decimal(n))
  {
  }

  lemma HeaderHasSingleDashes(n: nat)
    ensures SingleDashes(HeaderFor(n))
  {
    LabelIsPlain();
    ProtocolIsPlain();
    TypeKeyIsPlain();
    TypeValueIsPlain();
    CharsetIsPlain();
    DigitsArePlain(n);
    var length := LENGTH_KEY + "=" + Decimal(n);
    SingleDashesJoin(LENGTH_KEY, "=");
    SingleDashesJoin(LENGTH_KEY + "=", Decimal(n));
    var charset := CHARSET_KEY + "=" + CHARSET_VALUE + ";";
    SingleDashesJoin(CHARSET_KEY, "=");
    SingleDashesJoin(CHARSET_KEY + "=", CHARSET_VALUE);
    SingleDashesJoin(CHARSET_KEY + "=" + CHARSET_VALUE, ";");
    var typ := TYPE_KEY + "=" + TYPE_VALUE + ";";
    SingleDashesJoin(TYPE_KEY, "=");
    SingleDashesJoin(TYPE_KEY + "=", TYPE_VALUE);
    SingleDashesJoin(TYPE_KEY + "=" + TYPE_VALUE, ";");
    SingleDashesJoin(charset, length);
    SingleDashesJoin(typ, charset + length);
    SingleDashesJoin("\t", OriginalLine(n));
    SingleDashesJoin("\t" + OriginalLine(n), CRLF);
    SingleDashesJoin(CONTENT_LABEL, PROTOCOL);
    SingleDashesJoin("\t", CONTENT_TYPE);
    SingleDashesJoin("\t" + CONTENT_TYPE, CRLF);
    SingleDashesJoin("\t" + OriginalLine(n) + CRLF, "");
    SingleDashesJoin("\t" + CONTENT_TYPE + CRLF, "\t" + OriginalLine(n) + CRLF + "");
  }

  // The header is read back line by line.

  const NOTHING := Declared(-1, false)

  /** A parameter whose key is not Length changes nothing; Length sets the length. */
  lemma ParamIsRead(d: Declared, key: string, value: string)
    requires Plain(key) && Plain(value)
    ensures key != LENGTH_KEY ==> DeclaredParam(d, key + "=" + value) == Some(d)
    ensures key == LENGTH_KEY && Atoi(value).Some? ==>
      DeclaredParam(d, key + "=" + value) == Some(d.(length := Atoi(value).value))
  {
    TrimIndented(key + "=" + value);
    CutAt(key, "=", value);
  }

  lemma OriginalParams(n: nat)
    ensures Split(OriginalLine(n), ";")
         == [TYPE_KEY + "=" + TYPE_VALUE, CHARSET_KEY + "=" + CHARSET_VALUE, LENGTH_KEY + "=" + Decimal(n)]
  {
    TypeKeyIsPlain();
    TypeValueIsPlain();
    CharsetIsPlain();
    DigitsArePlain(n);
    var a, b, c := TYPE_KEY + "=" + TYPE_VALUE, CHARSET_KEY + "=" + CHARSET_VALUE, LENGTH_KEY + "=" + Decimal(n);
    SplitFirst(a, ";", b + ";" + c);
    SplitFirst(b, ";", c);
    NothingToCut(c, ";");
  }

  lemma FirstLineIsRead()
    ensures DeclaredLine(NOTHING, "\t" + CONTENT_TYPE) == Some(Declared(-1, true))
    ensures '\r' !in "\t" + CONTENT_TYPE
  {
    LabelIsPlain();
    ProtocolIsPlain();
    TrimIndented(CONTENT_TYPE);
    assert CONTENT_TYPE[0] != ORIGINAL[0];
  }

  lemma OriginalLineIsPlain(n: nat)
    ensures var s := OriginalLine(n); s != "" && !IsSpace(s[0]) && !IsSpace(s[|s| - 1]) && '\r' !in s
    ensures HasPrefix(OriginalLine(n), ORIGINAL) && OriginalLine(n) != CONTENT_TYPE
  {
    TypeKeyIsPlain();
    TypeValueIsPlain();
    CharsetIsPlain();
    DigitsArePlain(n);
    assert OriginalLine(n)[0] == TYPE_KEY[0] != CONTENT_TYPE[0];
    assert OriginalLine(n)[..|ORIGINAL|] == TYPE_KEY[..|ORIGINAL|] == ORIGINAL;
  }

  lemma SecondLineIsRead(n: nat)
    requires n <= MAX_RESPONSE
    ensures DeclaredLine(Declared(-1, true), "\t" + OriginalLine(n)) == Some(Declared(n, true))
    ensures '\r' !in "\t" + OriginalLine(n)
  {
    OriginalLineIsPlain(n);
    TrimIndented(OriginalLine(n));
    OriginalParams(n);
    TypeKeyIsPlain();
    TypeValueIsPlain();
    CharsetIsPlain();
    DigitsArePlain(n);
    var d := Declared(-1, true);
    ParamIsRead(d, TYPE_KEY, TYPE_VALUE);
    ParamIsRead(d, CHARSET_KEY, CHARSET_VALUE);
    AtoiReads(n);
    ParamIsRead(d, LENGTH_KEY, Decimal(n));
    ThreeParams(d, TYPE_KEY + "=" + TYPE_VALUE, CHARSET_KEY + "=" + CHARSET_VALUE, LENGTH_KEY + "=" + Decimal(n));
  }

  lemma ThreeParams(d: Declared, a: string, b: string, c: string)
    requires DeclaredParam(d, a) == Some(d) && DeclaredParam(d, b) == Some(d)
    ensures DeclaredParams(d, [a, b, c]) == DeclaredParam(d, c)
  {
    assert [a, b, c][1..] == [b, c] && [b, c][1..] == [c] && [c][1..] == [];
    assert DeclaredParams(d, [c]) == DeclaredParam(d, c);
    assert DeclaredParams(d, [b, c]) == DeclaredParams(d, [c]);
  }

  lemma ThreeLines(a: string, b: string, n: nat)
    requires DeclaredLine(NOTHING, a) == Some(Declared(-1, true))
    requires DeclaredLine(Declared(-1, true), b) == Some(Declared(n, true))
    ensures DeclaredLines(NOTHING, [a, b, ""]) == Some(Declared(n, true))
  {
    assert [a, b, ""][1..] == [b, ""] && [b, ""][1..] == [""] && [""][1..] == [];
    var d := Declared(n, true);
    assert TrimSpace("") == "" && CONTENT_TYPE != "" && ORIGINAL[0] == 'O';
    assert DeclaredLine(d, "") == Some(d);
    assert DeclaredLines(d, [""]) == Some(d);
    assert DeclaredLines(Declared(-1, true), [b, ""]) == Some(d);
  }

  /** The length in a written header is read back. */
  lemma HeaderIsRead(n: nat)
    requires n <= MAX_RESPONSE
    ensures DeclaredLength(HeaderFor(n)) == Some(n)
  {
    var a, b := "\t" + CONTENT_TYPE, "\t" + OriginalLine(n);
    FirstLineIsRead();
    SecondLineIsRead(n);
    SplitFirst(a, CRLF, b + CRLF + "");
    SplitFirst(b, CRLF, "");
    NothingToCut("", CRLF);
    ThreeLines(a, b, n);
    assert Split(HeaderFor(n), CRLF) == [a] + ([b] + [""]) == [a, b, ""];
  }

  lemma OctetsLine()
    ensures TrimSpace("\t" + OCTETS) == OCTETS && '\r' !in "\t" + OCTETS
  {
    TrimIndented(OCTETS);
  }

  /** What sealMessage lays out is well placed under any boundary, whatever the signature and ciphertext. */
  lemma SealedIsWellPlaced(n: nat, signature: string, sealed: string, boundary: string)
    requires |signature| == 16
    ensures SealedMessage(n, signature, sealed).WellPlaced(boundary)
  {
    var msg := SealedMessage(n, signature, sealed);
    HeaderHasSingleDashes(n);
    MarkerComesFirst(msg.header, boundary, msg.Payload());
    OctetsLine();
    CutAt(msg.line, CRLF, SignatureLength() + msg.signature + msg.sealed);
  }

  /** Unsealing undoes sealing for every plaintext within bounds, every ciphertext and every accepted
      boundary, given a session whose Unwrap undoes the peer's Wrap. */
  lemma SealedIsUnsealed(wrap: Wrapper, unwrap: Unwrapper, plain: string, mt: MediaType)
    requires AcceptedType(mt) && |plain| <= MAX_RESPONSE
    requires wrap(plain).Some? && |wrap(plain).value.1| == 16
    requires unwrap(wrap(plain).value.0, wrap(plain).value.1) == Some(plain)
    ensures var body := SealedMessage(|plain|, wrap(plain).value.1, wrap(plain).value.0).Bytes(mt.boundary);
      Unsealed(unwrap, body, mt) == if |body| <= MAX_RESPONSE then Some(plain) else None
  {
    var (sealed, signature) := wrap(plain).value;
    SealedIsWellPlaced(|plain|, signature, sealed, mt.boundary);
    BytesAreOpened(SealedMessage(|plain|, signature, sealed), mt.boundary);
    HeaderIsRead(|plain|);
    OctetsLine();
  }

  /** A message whose bytes these are and whose parts are good, for this plaintext. */
  ghost predicate Unseals(msg: Message, unwrap: Unwrapper, body: string, boundary: string, plain: string) {
    && msg.WellPlaced(boundary) && msg.Bytes(boundary) == body
    && TrimSpace(msg.line) == OCTETS && DeclaredLength(msg.header) == Some(|plain|)
    && unwrap(msg.sealed, msg.signature) == Some(plain)
  }

  lemma OpenedUnsealsIff(unwrap: Unwrapper, body: string, boundary: string, plain: string)
    requires '\r' !in boundary && '\n' !in boundary
    ensures Judged(unwrap, Opened(body, boundary)) == Some(plain) <==>
      exists msg :: Unseals(msg, unwrap, body, boundary, plain)
  {
    if Opened(body, boundary).Some? {
      OpenedIsTheBody(body, boundary);
    }
    forall msg: Message | msg.WellPlaced(boundary) && msg.Bytes(boundary) == body
      ensures Opened(body, boundary) == Some(msg)
    {
      BytesAreOpened(msg, boundary);
    }
    if Judged(unwrap, Opened(body, boundary)) == Some(plain) {
      assert Unseals(Opened(body, boundary).value, unwrap, body, boundary, plain);
    }
  }

  /** Exactly the well-placed messages with a good header, line, signature and length are unsealed, under the
      sealed media type with a boundary of 1 to 70 characters without line breaks. */
  lemma UnsealedIff(unwrap: Unwrapper, body: string, mt: MediaType, plain: string)
    ensures Unsealed(unwrap, body, mt) == Some(plain) <==>
      && mt.ok && mt.typ == "multipart/encrypted" && mt.protocol == "application/HTTP-SPNEGO-session-encrypted"
      && 1 <= |mt.boundary| <= 70 && '\r' !in mt.boundary && '\n' !in mt.boundary
      && |body| <= MAX_RESPONSE && exists msg :: Unseals(msg, unwrap, body, mt.boundary, plain)
  {
    if AcceptedType(mt) {
      OpenedUnsealsIff(unwrap, body, mt.boundary, plain);
    }
  }
}
