/**
 The parts of Go's bytes, strings and strconv packages that the codecs use, on octet strings: each
 character stands for one octet.
 */
module Text {
  import opened Failures

  predicate At(s: string, sep: string, i: nat) {
    i + |sep| <= |s| && s[i..i + |sep|] == sep
  }

  lemma AtStarts(s: string, sep: string, i: nat)
    requires sep != "" && At(s, sep, i)
    ensures s[i] == sep[0]
  {
    assert s[i..i + |sep|][0] == s[i];
  }

  lemma AtInTail(s: string, sep: string, i: nat)
    requires s != "" && i > 0
    ensures At(s, sep, i) <==> At(s[1..], sep, i - 1)
  {
    if i + |sep| <= |s| {
      assert s[i..i + |sep|] == s[1..][i - 1..i - 1 + |sep|];
    }
  }

  /** The first place where sep occurs, or -1. */
  function IndexOf(s: string, sep: string): (i: int)
    ensures i >= 0 ==> At(s, sep, i) && forall j: nat :: j < i ==> !At(s, sep, j)
    ensures i < 0 ==> i == -1 && forall j: nat :: !At(s, sep, j)
  {
    if At(s, sep, 0) then
      0
    else if s == "" then
      -1
    else
      var i := IndexOf(s[1..], sep);
      assert forall j: nat :: 0 < j ==> (At(s, sep, j) <==> At(s[1..], sep, j - 1)) by {
        forall j: nat | 0 < j ensures At(s, sep, j) <==> At(s[1..], sep, j - 1) {
          AtInTail(s, sep, j);
        }
      }
      if i < 0 then -1 else i + 1
  }

  /** bytes.Cut: what is before and after the first sep. */
  datatype Pieces = Found(before: string, after: string) | NotFound

  function Cut(s: string, sep: string): Pieces {
    var i := IndexOf(s, sep);
    if i < 0 then NotFound else Found(s[..i], s[i + |sep|..])
  }

  lemma CutAtFirst(before: string, sep: string, after: string)
    requires IndexOf(before + sep + after, sep) == |before|
    ensures Cut(before + sep + after, sep) == Found(before, after)
  {
    var s := before + sep + after;
    assert s[..|before|] == before && s[|before| + |sep|..] == after;
  }

  lemma CutPieces(s: string, sep: string)
    requires Cut(s, sep).Found?
    ensures var c := Cut(s, sep); s == c.before + sep + c.after && IndexOf(s, sep) == |c.before|
  {
    var i := IndexOf(s, sep);
    assert s == s[..i] + s[i..i + |sep|] + s[i + |sep|..];
  }

  /** Text in front of a separator is cut off there when the separator cannot begin inside the text. */
  lemma CutAt(before: string, sep: string, after: string)
    requires sep != "" && sep[0] !in before
    ensures IndexOf(before + sep + after, sep) == |before|
    ensures Cut(before + sep + after, sep) == Found(before, after)
  {
    var s := before + sep + after;
    assert s[|before|..|before| + |sep|] == sep;
    forall j: nat | j < |before| ensures !At(s, sep, j) {
      assert s[j] == before[j];
      if At(s, sep, j) {
        AtStarts(s, sep, j);
      }
    }
    assert At(s, sep, |before|);
    CutAtFirst(before, sep, after);
  }

  lemma NothingToCut(s: string, sep: string)
    requires sep != "" && sep[0] !in s
    ensures Cut(s, sep) == NotFound
  {
    if IndexOf(s, sep) >= 0 {
      AtStarts(s, sep, IndexOf(s, sep));
    }
  }

  /** strings.Split. */
  function Split(s: string, sep: string): (parts: seq<string>)
    requires sep != ""
    ensures parts != []
    decreases |s|
  {
    match Cut(s, sep)
    case NotFound => [s]
    case Found(before, after) => [before] + Split(after, sep)
  }

  lemma SplitFirst(before: string, sep: string, after: string)
    requires sep != "" && sep[0] !in before
    ensures Split(before + sep + after, sep) == [before] + Split(after, sep)
  {
    CutAt(before, sep, after);
  }

  predicate IsSpace(c: char) {
    c == ' ' || '\t' <= c <= '\r'
  }

  function TrimLeft(s: string): string {
    if s != "" && IsSpace(s[0]) then TrimLeft(s[1..]) else s
  }

  function TrimRight(s: string): string {
    if s != "" && IsSpace(s[|s| - 1]) then TrimRight(s[..|s| - 1]) else s
  }

  /** strings.TrimSpace. */
  function TrimSpace(s: string): string {
    TrimRight(TrimLeft(s))
  }

  lemma TrimIndented(s: string)
    requires s != "" && !IsSpace(s[0]) && !IsSpace(s[|s| - 1])
    ensures TrimSpace("\t" + s) == s && TrimSpace(s) == s
  {
    assert ("\t" + s)[1..] == s;
    assert TrimLeft("\t" + s) == TrimLeft(s) == s;
  }

  predicate IsDigit(c: char) {
    '0' <= c <= '9'
  }

  predicate AllDigits(s: string) {
    forall i :: 0 <= i < |s| ==> IsDigit(s[i])
  }

  function Value(digits: string): nat
    requires AllDigits(digits)
  {
    if digits == "" then 0 else 10 * Value(digits[..|digits| - 1]) + (digits[|digits| - 1] as int - '0' as int)
  }

  const MAX_INT := 9223372036854775807

  function Signed(negative: bool, digits: string): Option<int> {
    if digits == "" || !AllDigits(digits) then None
    else
      var n: int := if negative then -(Value(digits) as int) else Value(digits);
      if -MAX_INT - 1 <= n <= MAX_INT then Some(n) else None
  }

  /** strconv.Atoi. */
  function Atoi(s: string): Option<int> {
    if s != "" && (s[0] == '-' || s[0] == '+') then Signed(s[0] == '-', s[1..]) else Signed(false, s)
  }

  /** The %d verb for a length. */
  function Decimal(n: nat): (s: string)
    ensures s != "" && AllDigits(s)
  {
    if n < 10 then [('0' as int + n) as char] else Decimal(n / 10) + [('0' as int + n % 10) as char]
  }

  lemma {:induction false} DecimalIsRead(n: nat)
    ensures Value(Decimal(n)) == n
  {
    if n < 10 {
      assert Decimal(n)[..0] == "";
    } else {
      DecimalIsRead(n / 10);
      assert Decimal(n)[..|Decimal(n)| - 1] == Decimal(n / 10);
    }
  }

  lemma AtoiReads(n: nat)
    requires n <= MAX_INT
    ensures Atoi(Decimal(n)) == Some(n)
  {
    DecimalIsRead(n);
    assert IsDigit(Decimal(n)[0]);
  }

  /** The %d verb for any int. */
  function SignedDecimal(n: int): (s: string)
    ensures s != ""
  {
    if n < 0 then "-" + Decimal(-n) else Decimal(n)
  }

  lemma AtoiReadsSigned(n: int)
    requires -MAX_INT - 1 <= n <= MAX_INT
    ensures Atoi(SignedDecimal(n)) == Some(n)
  {
    if n < 0 {
      DecimalIsRead(-n);
      assert SignedDecimal(n)[1..] == Decimal(-n);
    } else {
      AtoiReads(n);
    }
  }

  function Pow10(k: nat): nat {
    if k == 0 then 1 else 10 * Pow10(k - 1)
  }

  lemma {:induction false} DecimalIsShort(n: nat, k: nat)
    requires k > 0 && n < Pow10(k)
    ensures |Decimal(n)| <= k
    decreases k
  {
    if n >= 10 {
      DecimalIsShort(n / 10, k - 1);
    }
  }

  lemma SignedDecimalIsShort(n: int)
    requires -MAX_INT - 1 <= n <= MAX_INT
    ensures |SignedDecimal(n)| <= 20
  {
    assert Pow10(10) == 10000000000;
    assert Pow10(19) == 10000000000000000000;
    DecimalIsShort(if n < 0 then -n else n, 19);
  }
}
