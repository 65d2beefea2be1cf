/**
 The command text inside a CDATA section (internal/remote/session.go; XML 1.0 section 2.7).
 */
module Cdata {
  import opened Failures
  import opened Text

  const OPEN := "<![CDATA["
  const CLOSE := "]]>"
  const SPLIT_CLOSE := "]]]]><![CDATA[>"

  /** strings.ReplaceAll. */
  function ReplaceAll(s: string, pattern: string, replacement: string): string
    requires pattern != ""
    decreases |s|
  {
    match Cut(s, pattern)
    case NotFound => s
    case Found(before, after) => before + replacement + ReplaceAll(after, pattern, replacement)
  }

  function Escape(command: string): string {
    ReplaceAll(command, CLOSE, SPLIT_CLOSE)
  }

  /** An XML reader on consecutive CDATA sections: each ends at the first CLOSE after its OPEN, and their
      contents are joined. */
  function ReadSections(doc: string): Option<string>
    decreases |doc|
  {
    if doc == "" then
      Some("")
    else if !(OPEN <= doc) then
      None
    else
      match Cut(doc[|OPEN|..], CLOSE)
      case NotFound => None
      case Found(content, after) =>
        match ReadSections(after)
        case None => None
        case Some(rest) => Some(content + rest)
  }

  lemma CloseText(s: string, j: nat)
    requires At(s, CLOSE, j)
    ensures s[j + 2] == '>'
  {
    assert s[j..j + 3][2] == s[j + 2];
  }

  /** Only its brackets can precede the > of a CLOSE, so none can reach into a following "]]". */
  lemma CloseEndsHere(s: string, n: nat)
    requires n + 3 <= |s| && s[n] == ']' && s[n + 1] == ']' && s[n + 2] == '>'
    requires forall j: nat :: j + 3 <= n ==> !At(s, CLOSE, j)
    ensures IndexOf(s, CLOSE) == n
  {
    assert s[n..n + 3] == CLOSE;
    assert At(s, CLOSE, n);
    forall j: nat | j < n ensures !At(s, CLOSE, j) {
      if At(s, CLOSE, j) {
        CloseText(s, j);
      }
    }
  }

  lemma Behind(open: string, content: string, close: string, after: string)
    ensures var doc := open + content + close + after; open <= doc && doc[|open|..] == content + close + after
  {
  }

  lemma CloseComesFirst(content: string, after: string)
    requires IndexOf(content, CLOSE) == -1
    ensures Cut(content + CLOSE + after, CLOSE) == Found(content, after)
  {
    var tail := content + CLOSE + after;
    forall j: nat | j + 3 <= |content| ensures !At(tail, CLOSE, j) {
      assert tail[j..j + 3] == content[j..j + 3];
      assert !At(content, CLOSE, j);
    }
    CloseEndsHere(tail, |content|);
    CutAtFirst(content, CLOSE, after);
  }

  lemma OneSection(open: string, doc: string, content: string, after: string)
    requires open == OPEN && open <= doc && Cut(doc[|open|..], CLOSE) == Found(content, after)
    requires ReadSections(after).Some?
    ensures ReadSections(doc) == Some(content + ReadSections(after).value)
  {
  }

  /** One section is read whatever brackets its content ends in. */
  lemma SectionIsRead(content: string, after: string)
    requires IndexOf(content, CLOSE) == -1
    requires ReadSections(after).Some?
    ensures ReadSections(OPEN + content + CLOSE + after) == Some(content + ReadSections(after).value)
  {
    CloseComesFirst(content, after);
    Behind(OPEN, content, CLOSE, after);
    OneSection(OPEN, OPEN + content + CLOSE + after, content, after);
  }

  lemma InFront(before: string, after: string, j: nat)
    requires At(before + "]]", CLOSE, j)
    ensures j < |before| && At(before + CLOSE + after, CLOSE, j)
  {
    CloseText(before + "]]", j);
    assert (before + CLOSE + after)[j..j + 3] == (before + "]]")[j..j + 3];
  }

  lemma NoCloseInFront(before: string, after: string)
    requires IndexOf(before + CLOSE + after, CLOSE) == |before|
    ensures IndexOf(before + "]]", CLOSE) == -1
  {
    if IndexOf(before + "]]", CLOSE) >= 0 {
      InFront(before, after, IndexOf(before + "]]", CLOSE));
    }
  }

  lemma EscapeAfterBracket(s: string)
    ensures Escape(">" + s) == ">" + Escape(s)
  {
    var t := ">" + s;
    assert t[1..] == s && t[0] == '>';
    assert !At(t, CLOSE, 0) by {
      if At(t, CLOSE, 0) {
        AtStarts(t, CLOSE, 0);
      }
    }
    var i := IndexOf(s, CLOSE);
    assert IndexOf(t, CLOSE) == if i < 0 then -1 else i + 1;
    if i >= 0 {
      assert t[..i + 1] == ">" + s[..i] && t[i + 4..] == s[i + 3..];
      Bracketed(s[..i], SPLIT_CLOSE, Escape(s[i + 3..]));
    }
  }

  lemma Bracketed(a: string, b: string, c: string)
    ensures (">" + a) + b + c == ">" + (a + b + c)
  {
  }

  lemma SplitLayout(open: string, close: string, a: string, e: string)
    ensures open + (a + ("]]" + close + open + ">") + e) + close
         == open + (a + "]]") + close + (open + (">" + e) + close)
  {
    assert a + ("]]" + close + open + ">") + e == (a + "]]") + close + (open + (">" + e));
  }

  lemma SplitContent(before: string, after: string)
    ensures (before + "]]") + (">" + after) == before + CLOSE + after
  {
  }

  lemma NothingAfter(s: string)
    ensures s + "" == s
  {
  }

  lemma SplitCloseIs()
    ensures SPLIT_CLOSE == "]]" + CLOSE + OPEN + ">"
  {
  }

  /** Every command is read back from its escaped section, with any brackets before > or at its end. */
  lemma {:induction false} EscapeIsInverted(command: string)
    ensures ReadSections(OPEN + Escape(command) + CLOSE) == Some(command)
    decreases |command|
  {
    match Cut(command, CLOSE) {
      case NotFound =>
        SectionIsRead(command, "");
        NothingAfter(command);
        NothingAfter(OPEN + command + CLOSE);
      case Found(before, after) =>
        CutPieces(command, CLOSE);
        var content, next := before + "]]", ">" + after;
        var rest := OPEN + Escape(next) + CLOSE;
        EscapeIsInverted(next);
        EscapeAfterBracket(after);
        NoCloseInFront(before, after);
        SectionIsRead(content, rest);
        SplitCloseIs();
        SplitLayout(OPEN, CLOSE, before, Escape(after));
        SplitContent(before, after);
    }
  }

  /** Every section costs its OPEN and CLOSE. */
  lemma {:induction false} SectionsAreShorter(doc: string)
    requires doc != "" && ReadSections(doc).Some?
    ensures |ReadSections(doc).value| + |OPEN| + |CLOSE| <= |doc|
    decreases |doc|
  {
    CutPieces(doc[|OPEN|..], CLOSE);
    var after := Cut(doc[|OPEN|..], CLOSE).after;
    if after != "" {
      SectionsAreShorter(after);
    }
  }

  lemma FirstCloseStaysFirst(command: string)
    requires IndexOf(command, CLOSE) >= 0
    ensures IndexOf(command + CLOSE, CLOSE) == IndexOf(command, CLOSE)
  {
    var i, tail := IndexOf(command, CLOSE), command + CLOSE;
    assert tail[i..i + 3] == command[i..i + 3] == CLOSE && At(tail, CLOSE, i);
    forall j: nat | j < i ensures !At(tail, CLOSE, j) {
      assert !At(command, CLOSE, j);
      assert tail[j..j + 3] == command[j..j + 3];
    }
  }

  lemma ReadAfterClose(open: string, doc: string, content: string, after: string)
    requires open == OPEN && open <= doc && Cut(doc[|open|..], CLOSE) == Found(content, after)
    ensures ReadSections(doc).Some? ==>
      ReadSections(after).Some? && ReadSections(doc).value == content + ReadSections(after).value
  {
  }

  lemma UnescapedIsCutShort(command: string)
    requires IndexOf(command, CLOSE) >= 0
    ensures ReadSections(OPEN + command + CLOSE) != Some(command)
  {
    var i, tail := IndexOf(command, CLOSE), command + CLOSE;
    FirstCloseStaysFirst(command);
    Behind(OPEN, command, CLOSE, "");
    NothingAfter(OPEN + command + CLOSE);
    NothingAfter(tail);
    var after := tail[i + 3..];
    ReadAfterClose(OPEN, OPEN + command + CLOSE, tail[..i], after);
    if ReadSections(after).Some? {
      SectionsAreShorter(after);
    }
  }

  /** The escape is needed exactly for the commands that contain CLOSE: without it every other command
      is read back as it is, and none of those is. */
  lemma UnescapedIsReadIff(command: string)
    ensures ReadSections(OPEN + command + CLOSE) == Some(command) <==> IndexOf(command, CLOSE) == -1
  {
    if IndexOf(command, CLOSE) < 0 {
      SectionIsRead(command, "");
      NothingAfter(command);
      NothingAfter(OPEN + command + CLOSE);
    } else {
      UnescapedIsCutShort(command);
    }
  }
}
