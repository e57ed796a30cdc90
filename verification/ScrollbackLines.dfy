/** What becomes of text, line ends and escape sequences in the scrollback. */
module ScrollbackLines {
  import opened Common
  import opened Scrollback

  // -------------------------------------------------------------------- text

  predicate Printable(text: Bytes) {
    forall c :: c in text ==> c >= 0x20 || c == TAB
  }

  /** As much of a line as is kept. */
  function Cut(line: Bytes): Bytes {
    if |line| <= 64 * 1024 then line else line[..64 * 1024]
  }

  /** Printable bytes go to the end of the line, in order, until it is full. */
  lemma {:induction false} TextIsKept(b: Buf, text: Bytes, rest: Bytes)
    requires Printable(text) && |b.cur| <= MAX_LINE_BYTES
    ensures Run(b, text + rest) == Run(b.(cur := Cut(b.cur + text)), rest)
    decreases |text|
  {
    hide Run;
    if text == [] {
      assert text + rest == rest && b.cur + text == b.cur;
    } else {
      var b', tail := b.(cur := Cut(b.cur + [text[0]])), text[1..];
      assert text[0] in text && forall c :: c in tail ==> c in text;
      PlainStep(b, text[0], tail + rest);
      assert [text[0]] + (tail + rest) == text + rest;
      TextIsKept(b', tail, rest);
      CutAgain(b.cur, text);
    }
  }

  lemma PlainStep(b: Buf, c: Byte, rest: Bytes)
    requires (c >= 0x20 || c == TAB) && |b.cur| <= MAX_LINE_BYTES
    ensures Run(b, [c] + rest) == Run(b.(cur := Cut(b.cur + [c])), rest)
  {
    assert ([c] + rest)[..1] == [c] && ([c] + rest)[1..] == rest;
    assert |b.cur| == MAX_LINE_BYTES ==> (b.cur + [c])[..MAX_LINE_BYTES] == b.cur;
    assert b == b.(cur := b.cur);
  }

  lemma CutAgain(cur: Bytes, text: Bytes)
    requires text != [] && |cur| <= MAX_LINE_BYTES
    ensures Cut(Cut(cur + [text[0]]) + text[1..]) == Cut(cur + text)
  {
    assert cur + [text[0]] + text[1..] == cur + text;
    if |cur| == MAX_LINE_BYTES {
      assert Cut(cur + [text[0]]) == cur;
      assert (cur + text[1..])[..MAX_LINE_BYTES] == cur == (cur + text)[..MAX_LINE_BYTES];
    }
  }

  /** A line feed, with or without a carriage return before it, ends the line and starts an empty one. */
  lemma LineEnds(b: Buf, crlf: bool, rest: Bytes)
    ensures Run(b, LineEnd(crlf) + rest) == Run(Buf(b.history + [b.cur], [], b.pending), rest)
  {
    var d := LineEnd(crlf) + rest;
    if crlf {
      assert d[..1] == [CR] && d[1..] == [LF] + rest;
    }
    assert ([LF] + rest)[..1] == [LF] && ([LF] + rest)[1..] == rest;
  }

  function LineEnd(crlf: bool): Bytes {
    if crlf then [CR, LF] else [LF]
  }

  /** A text as it comes: each line with its end. */
  function Document(lines: seq<(Bytes, bool)>): Bytes {
    if lines == [] then [] else lines[0].0 + LineEnd(lines[0].1) + Document(lines[1..])
  }

  /** The lines of a text, each as far as it is kept. */
  function CutAll(lines: seq<(Bytes, bool)>): (kept: seq<Bytes>)
    ensures |kept| == |lines| && forall i :: 0 <= i < |lines| ==> kept[i] == Cut(lines[i].0)
  {
    if lines == [] then [] else [Cut(lines[0].0)] + CutAll(lines[1..])
  }

  /** From an empty buffer, a text of printable lines gives these lines, and what follows the last end is being written. */
  lemma LinesAreKept(lines: seq<(Bytes, bool)>, last: Bytes)
    requires (forall l :: l in lines ==> Printable(l.0)) && Printable(last)
    ensures Feed(EMPTY, Document(lines) + last) == Buf(CutAll(lines), Cut(last), [])
  {
    DocumentRuns(EMPTY, lines, last);
    assert [] + (Document(lines) + last) == Document(lines) + last;
    assert [] + CutAll(lines) == CutAll(lines) && [] + last == last && last + [] == last;
    var b := Buf(CutAll(lines), [], []);
    TextIsKept(b, last, []);
    assert Run(b.(cur := Cut(last)), []) == b.(cur := Cut(last));
  }

  lemma {:induction false} DocumentRuns(b: Buf, lines: seq<(Bytes, bool)>, last: Bytes)
    requires b.cur == [] && forall l :: l in lines ==> Printable(l.0)
    ensures Run(b, Document(lines) + last) == Run(b.(history := b.history + CutAll(lines)), last)
    decreases |lines|
  {
    hide Run, Printable, Cut, LineEnd;
    if lines == [] {
      assert Document(lines) + last == last && b.history + CutAll(lines) == b.history;
    } else {
      hide Document, CutAll;
      DocumentHead(b.history, lines, last);
      assert lines[0] in lines && forall l :: l in lines[1..] ==> l in lines;
      LineRuns(b, lines[0].0, lines[0].1, Document(lines[1..]) + last);
      DocumentRuns(b.(history := b.history + [Cut(lines[0].0)]), lines[1..], last);
    }
  }

  lemma DocumentHead(history: seq<Bytes>, lines: seq<(Bytes, bool)>, last: Bytes)
    requires lines != []
    ensures Document(lines) + last == lines[0].0 + LineEnd(lines[0].1) + (Document(lines[1..]) + last)
    ensures history + CutAll(lines) == history + [Cut(lines[0].0)] + CutAll(lines[1..])
  {
    hide Cut, LineEnd;
    Assoc(lines[0].0 + LineEnd(lines[0].1), Document(lines[1..]), last);
    Assoc(history, [Cut(lines[0].0)], CutAll(lines[1..]));
  }

  lemma LineRuns(b: Buf, line: Bytes, crlf: bool, rest: Bytes)
    requires b.cur == [] && Printable(line)
    ensures Run(b, line + LineEnd(crlf) + rest) == Run(b.(history := b.history + [Cut(line)]), rest)
  {
    hide Run, Printable;
    assert line + LineEnd(crlf) + rest == line + (LineEnd(crlf) + rest) && [] + line == line;
    TextIsKept(b, line, LineEnd(crlf) + rest);
    LineEnds(b.(cur := Cut(line)), crlf, rest);
  }

  // ------------------------------------------------------------- other controls

  /** A carriage return that no line feed follows starts the line over. */
  lemma ReturnClears(b: Buf, rest: Bytes)
    requires rest != [] ==> rest[0] != LF
    ensures Run(b, [CR] + rest) == Run(b.(cur := []), rest)
  {
    assert ([CR] + rest)[..1] == [CR] && ([CR] + rest)[1..] == rest;
  }

  /** Other control bytes leave nothing. */
  lemma ControlsVanish(b: Buf, c: Byte, rest: Bytes)
    requires c < 0x20 && c !in {TAB, LF, CR, ESC}
    ensures Run(b, [c] + rest) == Run(b, rest)
  {
    assert ([c] + rest)[..1] == [c] && ([c] + rest)[1..] == rest;
  }

  // -------------------------------------------------------- escape sequences

  /** Parameter and intermediate bytes. */
  predicate Params(p: Bytes) {
    forall c :: c in p ==> c < 0x40 || c > 0x7e
  }

  function Csi(params: Bytes, final: Byte): Bytes {
    [ESC, '[' as int] + params + [final]
  }

  /** The text of an operating system command ends at BEL or at ESC \. */
  function Osc(text: Bytes, bel: bool): Bytes {
    [ESC, ']' as int] + text + if bel then [BEL] else [ESC, '\\' as int]
  }

  lemma {:induction false} CsiFinds(d: Bytes, j: nat, k: nat)
    requires j <= k < |d| && 0x40 <= d[k] <= 0x7e && forall i :: j <= i < k ==> d[i] < 0x40 || d[i] > 0x7e
    ensures CsiEnd(d, j) == Some(k + 1)
    decreases k - j
  {
    if j < k { CsiFinds(d, j + 1, k); }
  }

  lemma {:induction false} OscFinds(d: Bytes, j: nat, k: nat)
    requires j <= k < |d| && forall i :: j <= i < k ==> d[i] != BEL && d[i] != ESC
    ensures d[k] == BEL ==> OscEnd(d, j) == Some(k + 1)
    ensures d[k] == ESC && k + 1 < |d| && d[k + 1] == '\\' as int ==> OscEnd(d, j) == Some(k + 2)
    decreases k - j
  {
    if j < k { OscFinds(d, j + 1, k); }
  }

  lemma {:induction false} CsiMisses(d: Bytes, j: nat)
    requires j <= |d| && forall i :: j <= i < |d| ==> d[i] < 0x40 || d[i] > 0x7e
    ensures CsiEnd(d, j) == None
    decreases |d| - j
  {
    if j < |d| { CsiMisses(d, j + 1); }
  }

  lemma {:induction false} OscMisses(d: Bytes, j: nat)
    requires j <= |d| && forall i :: j <= i < |d| ==> d[i] != BEL && d[i] != ESC
    ensures OscEnd(d, j) == None
    decreases |d| - j
  {
    if j < |d| { OscMisses(d, j + 1); }
  }

  /** Where the sequences end, whatever follows. */
  lemma SequencesEnd(params: Bytes, final: Byte, text: Bytes, bel: bool, c: Byte, rest: Bytes)
    requires Params(params) && 0x40 <= final <= 0x7e && BEL !in text && ESC !in text
    requires c != '[' as int && c != ']' as int
    ensures EscLen(Csi(params, final) + rest) == Some(|Csi(params, final)|)
    ensures EscLen(Osc(text, bel) + rest) == Some(|Osc(text, bel)|)
    ensures EscLen([ESC, c] + rest) == Some(2)
  {
    var d := Csi(params, final) + rest;
    forall i | 2 <= i < 2 + |params| ensures d[i] < 0x40 || d[i] > 0x7e {
      assert d[i] == params[i - 2] && params[i - 2] in params;
    }
    CsiFinds(d, 2, 2 + |params|);
    var e := Osc(text, bel) + rest;
    forall i | 2 <= i < 2 + |text| ensures e[i] != BEL && e[i] != ESC {
      assert e[i] == text[i - 2];
    }
    OscFinds(e, 2, 2 + |text|);
  }

  /** A sequence that is not all there yet waits, whole, for the next chunk. */
  lemma UnfinishedWaits(b: Buf, params: Bytes, text: Bytes)
    requires Params(params) && BEL !in text && ESC !in text && b.pending == []
    ensures Feed(b, [ESC]) == b.(pending := [ESC])
    ensures Feed(b, [ESC, '[' as int] + params) == b.(pending := [ESC, '[' as int] + params)
    ensures Feed(b, [ESC, ']' as int] + text) == b.(pending := [ESC, ']' as int] + text)
  {
    var d, e := [ESC, '[' as int] + params, [ESC, ']' as int] + text;
    forall i | 2 <= i < |d| ensures d[i] < 0x40 || d[i] > 0x7e {
      assert d[i] == params[i - 2] && params[i - 2] in params;
    }
    CsiMisses(d, 2);
    forall i | 2 <= i < |e| ensures e[i] != BEL && e[i] != ESC {
      assert e[i] == text[i - 2];
    }
    OscMisses(e, 2);
    assert [] + d == d && [] + e == e && [] + [ESC] == [ESC];
  }

  lemma EscapeStep(b: Buf, s: Bytes, rest: Bytes)
    requires s != [] && s[0] == ESC && EscLen(s + rest) == Some(|s|)
    ensures Run(b, s + rest) == Run(Escape(b, s), rest)
  {
    hide EscLen, Escape;
    assert (s + rest)[..|s|] == s && (s + rest)[|s|..] == rest;
  }

  /** Colours and styles stay in the line, where they came, if they fit. */
  lemma StylesAreKept(b: Buf, params: Bytes, rest: Bytes)
    requires Params(params)
    ensures var s := Csi(params, 'm' as int);
            Run(b, s + rest) == Run(if |b.cur| + |s| <= 64 * 1024 then b.(cur := b.cur + s) else b, rest)
  {
    var s := Csi(params, 'm' as int);
    SequencesEnd(params, 'm' as int, [], true, 'M' as int, rest);
    hide EscLen, Run;
    EscapeStep(b, s, rest);
  }

  /** Moving to another row ends a line that has anything on it. */
  lemma MovesEndTheLine(b: Buf, params: Bytes, final: char, rest: Bytes)
    requires Params(params) && final in {'A', 'F', 'H'}
    ensures var moved := if b.cur == [] then b else Buf(b.history + [b.cur], [], b.pending);
            && Run(b, Csi(params, final as int) + rest) == Run(moved, rest)
            && Run(b, [ESC, 'M' as int] + rest) == Run(moved, rest)
  {
    SequencesEnd(params, final as int, [], true, 'M' as int, rest);
    hide EscLen, Run;
    EscapeStep(b, Csi(params, final as int), rest);
    EscapeStep(b, [ESC, 'M' as int], rest);
  }

  /** All other sequences leave nothing. */
  lemma OtherSequencesVanish(b: Buf, params: Bytes, final: Byte, text: Bytes, bel: bool, c: Byte, rest: Bytes)
    requires Params(params) && 0x40 <= final <= 0x7e && final !in {'m' as int, 'A' as int, 'F' as int, 'H' as int}
    requires BEL !in text && ESC !in text && c !in {'[' as int, ']' as int, 'M' as int}
    ensures Run(b, Csi(params, final) + rest) == Run(b, rest)
    ensures Run(b, Osc(text, bel) + rest) == Run(b, rest)
    ensures Run(b, [ESC, c] + rest) == Run(b, rest)
  {
    SequencesEnd(params, final, text, bel, c, rest);
    hide EscLen, Run;
    EscapeStep(b, Csi(params, final), rest);
    EscapeStep(b, Osc(text, bel), rest);
    EscapeStep(b, [ESC, c], rest);
  }
}
