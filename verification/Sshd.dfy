/** Turning the ForceCommand drop-in on, and backing out of it, without hurting the sshd configuration. */
module Sshd {
  import opened Common
  import opened Text

  const CONFIG_DIR := "/etc/ssh/sshd_config.d"
  const ALL_CONF := "/*.conf"
  const INCLUDE_LINE := "Include " + CONFIG_DIR + ALL_CONF
  const MAX_SCAN_TOKEN: nat := 64 * 1024

  // -------------------------------------------------------------------- lines

  /** s cut at every newline. */
  function Split(s: string): (r: seq<string>)
    ensures r != []
  {
    if s == "" then [""]
    else if s[0] == '\n' then [""] + Split(s[1..])
    else
      var rest := Split(s[1..]);
      [[s[0]] + rest[0]] + rest[1..]
  }

  lemma {:induction false} JoinSplit(s: string)
    ensures Join(Split(s), "\n") == s
  {
    if s != "" {
      JoinSplit(s[1..]);
      var rest := Split(s[1..]);
      if s[0] == '\n' {
        assert ([""] + rest)[1..] == rest;
      } else {
        var all := [[s[0]] + rest[0]] + rest[1..];
        assert all[1..] == rest[1..];
        JoinFirst([s[0]], rest);
      }
      assert s == [s[0]] + s[1..];
    }
  }

  lemma JoinFirst(c: string, parts: seq<string>)
    requires parts != []
    ensures Join([c + parts[0]] + parts[1..], "\n") == c + Join(parts, "\n")
  {
    var all := [c + parts[0]] + parts[1..];
    assert all[1..] == parts[1..];
    if |parts| > 1 {
      assert c + parts[0] + "\n" + Join(parts[1..], "\n") == c + (parts[0] + "\n" + Join(parts[1..], "\n"));
    }
  }

  lemma {:induction false} SplitFirstLine(line: string, rest: string)
    requires '\n' !in line
    ensures Split(line + "\n" + rest) == [line] + Split(rest)
    decreases |line|
  {
    if line == "" {
      assert line + "\n" + rest == "\n" + rest && ("\n" + rest)[1..] == rest;
    } else {
      var tail := line[1..];
      assert (line + "\n" + rest)[1..] == tail + "\n" + rest;
      SplitFirstLine(tail, rest);
      assert [line[0]] + tail == line;
    }
  }

  lemma {:induction false} SplitLastLine(line: string)
    requires '\n' !in line
    ensures Split(line) == [line]
    decreases |line|
  {
    if line != "" {
      SplitLastLine(line[1..]);
      assert [line[0]] + line[1..] == line;
    }
  }

  function TrimLeft(s: string): string {
    if s != "" && IsSpace(s[0]) then TrimLeft(s[1..]) else s
  }

  function TrimRight(s: string): string {
    if s != "" && IsSpace(s[|s| - 1]) then TrimRight(s[..|s| - 1]) else s
  }

  function TrimSpace(s: string): string {
    TrimRight(TrimLeft(s))
  }

  // ------------------------------------------------------------ the directive

  function Utf8Len(c: char): nat {
    if c < '\U{80}' then 1 else if c < '\U{800}' then 2 else if c < '\U{10000}' then 3 else 4
  }

  function ByteLen(s: string): nat {
    if s == "" then 0 else Utf8Len(s[0]) + ByteLen(s[1..])
  }

  function Lower(c: char): char {
    if 'A' <= c <= 'Z' then c - 'A' + 'a' else c
  }

  predicate IsInclude(word: string) {
    |word| == 7 && forall k :: 0 <= k < 7 ==> Lower(word[k]) == "include"[k]
  }

  /** The line is an Include that covers the drop-in directory. */
  predicate Covers(line: string) {
    var trimmed := TrimSpace(line);
    && trimmed != "" && trimmed[0] != '#'
    && var fields := Fields(trimmed);
       |fields| >= 2 && IsInclude(fields[0])
       && exists k :: 1 <= k < |fields| && (fields[k] == CONFIG_DIR + ALL_CONF || fields[k] == CONFIG_DIR + "/*")
  }

  /** Some line covers the directory, before any line too long for the scanner. */
  predicate Includes(lines: seq<string>) {
    lines != [] && ByteLen(lines[0]) < MAX_SCAN_TOKEN && (Covers(lines[0]) || Includes(lines[1..]))
  }

  method IncludesDropinDir(content: string) returns (r: bool)
    ensures r <==> Includes(Split(content))
  {
    hide Covers, ByteLen;
    var lines := Split(content);
    var i := 0;
    assert lines[0..] == lines;
    while i < |lines| && ByteLen(lines[i]) < MAX_SCAN_TOKEN
      invariant 0 <= i <= |lines|
      invariant Includes(lines) <==> Includes(lines[i..])
    {
      assert lines[i..][1..] == lines[i + 1..] && lines[i..][0] == lines[i];
      var covered := LineCovers(lines[i]);
      if covered { return true; }
      i := i + 1;
    }
    return false;
  }

  method LineCovers(line: string) returns (r: bool)
    ensures r <==> Covers(line)
  {
    var trimmed := TrimSpace(line);
    if trimmed == "" || trimmed[0] == '#' { return false; }
    var fields := Fields(trimmed);
    if |fields| < 2 || !IsInclude(fields[0]) { return false; }
    for k := 1 to |fields|
      invariant forall j :: 1 <= j < k ==> !(fields[j] == CONFIG_DIR + ALL_CONF || fields[j] == CONFIG_DIR + "/*")
    {
      if fields[k] == CONFIG_DIR + ALL_CONF || fields[k] == CONFIG_DIR + "/*" { return true; }
    }
    return false;
  }

  lemma TrimWords(word: string, arg: string)
    requires IsWord(word) && IsWord(arg)
    ensures var line := word + " " + arg; TrimSpace(line) == line && Fields(line) == [word, arg]
  {
    var line := word + " " + arg;
    assert line[0] == word[0] && word[0] in word;
    assert line[|line| - 1] == arg[|arg| - 1] && arg[|arg| - 1] in arg;
    FieldsOfJoin([word, arg]);
    assert [word, arg][1..] == [arg];
  }

  lemma IncludeCovers(word: string, arg: string)
    requires IsWord(word) && IsWord(arg) && IsInclude(word) && arg == CONFIG_DIR + ALL_CONF
    ensures Covers(word + " " + arg)
  {
    hide TrimSpace, Fields, IsWord;
    TrimWords(word, arg);
    var line := word + " " + arg;
    assert line[0] == word[0] && Lower(word[0]) == "include"[0];
    assert Fields(line)[1] == arg;
  }

  /** Visible ASCII only. */
  predicate Plain(s: string) {
    forall c :: c in s ==> '!' <= c <= '~'
  }

  lemma PlainWord(a: string, b: string)
    requires Plain(a) && Plain(b) && a != ""
    ensures IsWord(a) && IsWord(a + b) && Plain(a + b) && '\n' !in a + b
  {
  }

  lemma PlainDir()
    ensures Plain(CONFIG_DIR) && CONFIG_DIR != "" && |CONFIG_DIR| == 22
  {
  }

  lemma PlainRest()
    ensures Plain("Include") && IsInclude("Include") && Plain(ALL_CONF) && |ALL_CONF| == 7 && |"Include "| == 8
    ensures "Include " == "Include" + " "
  {
  }

  lemma DirectiveParts()
    ensures INCLUDE_LINE == "Include" + " " + (CONFIG_DIR + ALL_CONF) && |INCLUDE_LINE| == 37
  {
    hide CONFIG_DIR, ALL_CONF;
    PlainDir();
    PlainRest();
    Assoc("Include ", CONFIG_DIR, ALL_CONF);
  }

  lemma IncludeLineParts()
    ensures TrimSpace(INCLUDE_LINE) == INCLUDE_LINE && '\n' !in INCLUDE_LINE
    ensures Covers(INCLUDE_LINE) && ByteLen(INCLUDE_LINE) < MAX_SCAN_TOKEN
  {
    hide TrimSpace, Fields, IsWord, Covers, IsInclude, ByteLen, INCLUDE_LINE, CONFIG_DIR, ALL_CONF, Plain;
    PlainDir();
    PlainRest();
    DirectiveParts();
    PlainWord(CONFIG_DIR, ALL_CONF);
    PlainWord("Include", "");
    Assoc("Include", "", "");
    TrimWords("Include", CONFIG_DIR + ALL_CONF);
    IncludeCovers("Include", CONFIG_DIR + ALL_CONF);
    ShortLine(INCLUDE_LINE);
  }

  lemma {:induction false} ShortLine(s: string)
    ensures ByteLen(s) <= 4 * |s|
  {
    if s != "" { ShortLine(s[1..]); }
  }

  // ---------------------------------------------------- which lines cover it

  lemma {:induction false} JoinedEnds(words: seq<string>)
    requires words != [] && AllWords(words)
    ensures words[0] in words && words[0] != ""
    ensures var s := Join(words, " "); s != "" && s[0] == words[0][0] && !IsSpace(s[0]) && !IsSpace(s[|s| - 1])
    decreases |words|
  {
    hide IsSpace;
    assert words[0] in words && IsWord(words[0]);
    assert words[0][0] in words[0] && words[0][|words[0]| - 1] in words[0];
    if |words| > 1 { JoinedEnds(words[1..]); }
  }

  /** The word is "include", in capitals, small letters or a mixture. */
  lemma AnyCase(word: string)
    ensures IsInclude(word) <==> |word| == 7 && forall k :: 0 <= k < 7 ==> word[k] == "include"[k] || word[k] == "INCLUDE"[k]
  {
    if |word| == 7 {
      assert forall k :: 0 <= k < 7 ==> (Lower(word[k]) == "include"[k] <==> word[k] == "include"[k] || word[k] == "INCLUDE"[k]);
    }
  }

  /**
   A line of words covers the directory when the first is Include, in any case, and a later one names every file of
   the directory or every .conf in it: no other keyword, no other directory and nothing commented out does.
   */
  lemma CoversByWords(words: seq<string>)
    requires words != [] && AllWords(words)
    ensures Covers(Join(words, " ")) <==>
      && |words[0]| == 7 && (forall k :: 0 <= k < 7 ==> words[0][k] == "include"[k] || words[0][k] == "INCLUDE"[k])
      && ("/etc/ssh/sshd_config.d/*.conf" in words[1..] || "/etc/ssh/sshd_config.d/*" in words[1..])
  {
    var line := Join(words, " ");
    JoinedEnds(words);
    FieldsOfJoin(words);
    Spelled();
    AnyCase(words[0]);
    assert TrimSpace(line) == line;
    hide IsWord, Fields, TrimSpace, CONFIG_DIR, ALL_CONF;
    assert IsInclude(words[0]) ==> Lower(words[0][0]) == "include"[0];
    assert forall w :: w in words[1..] <==> exists k :: 1 <= k < |words| && words[k] == w;
  }

  lemma Spelled()
    ensures CONFIG_DIR + ALL_CONF == "/etc/ssh/sshd_config.d/*.conf" && CONFIG_DIR + "/*" == "/etc/ssh/sshd_config.d/*"
  {
  }

  ghost predicate Blank(s: string) {
    forall c :: c in s ==> IsSpace(c)
  }

  lemma {:induction false} LeftPadding(pad: string, s: string)
    requires Blank(pad)
    ensures TrimLeft(pad + s) == TrimLeft(s)
    decreases |pad|
  {
    hide IsSpace;
    if pad == "" {
      assert pad + s == s;
    } else {
      assert pad[0] in pad && (pad + s)[1..] == pad[1..] + s;
      LeftPadding(pad[1..], s);
    }
  }

  lemma {:induction false} RightPadding(s: string, pad: string)
    requires Blank(pad)
    ensures TrimRight(s + pad) == TrimRight(s)
    decreases |pad|
  {
    hide IsSpace;
    if pad == "" {
      assert s + pad == s;
    } else {
      assert pad[|pad| - 1] in pad && (s + pad)[..|s + pad| - 1] == s + pad[..|pad| - 1];
      RightPadding(s, pad[..|pad| - 1]);
    }
  }

  lemma {:induction false} LeftThenPadding(s: string, pad: string)
    requires Blank(pad)
    ensures TrimRight(TrimLeft(s + pad)) == TrimRight(TrimLeft(s))
    decreases |s|
  {
    hide IsSpace;
    if s != "" && IsSpace(s[0]) {
      assert (s + pad)[1..] == s[1..] + pad;
      LeftThenPadding(s[1..], pad);
    } else if s == "" {
      LeftPadding(pad, "");
      assert s + pad == pad + "";
    } else {
      RightPadding(s, pad);
    }
  }

  /** White space around a line makes no difference. */
  lemma PaddingIsIgnored(before: string, line: string, after: string)
    requires Blank(before) && Blank(after)
    ensures Covers(before + line + after) <==> Covers(line)
  {
    hide TrimLeft, TrimRight, Fields;
    Assoc(before, line, after);
    LeftPadding(before, line + after);
    LeftThenPadding(line, after);
  }

  /** A line that starts with # covers nothing. */
  lemma CommentsCoverNothing(text: string)
    ensures !Covers("#" + text)
  {
    var line := "#" + text;
    assert TrimLeft(line) == line;
    FirstStays(line);
  }

  lemma {:induction false} FirstStays(s: string)
    requires s != "" && !IsSpace(s[0])
    ensures TrimRight(s) != "" && TrimRight(s)[0] == s[0]
    decreases |s|
  {
    hide IsSpace;
    if |s| > 1 && IsSpace(s[|s| - 1]) { FirstStays(s[..|s| - 1]); }
  }

  /** The file includes the directory when a line covers it and that line and all before it are under 64 KiB. */
  lemma {:induction false} IncludesMeans(lines: seq<string>)
    ensures Includes(lines) <==>
      exists n :: 0 <= n < |lines| && Covers(lines[n]) && forall k :: 0 <= k <= n ==> ByteLen(lines[k]) < 65536
    decreases |lines|
  {
    hide Covers, ByteLen;
    if lines != [] {
      var rest := lines[1..];
      IncludesMeans(rest);
      assert forall k :: 0 <= k < |rest| ==> rest[k] == lines[k + 1];
      if Covers(lines[0]) && ByteLen(lines[0]) < 65536 {
        assert forall k :: 0 <= k <= 0 ==> ByteLen(lines[k]) < 65536;
      } else if n :| 0 <= n < |rest| && Covers(rest[n]) && forall k :: 0 <= k <= n ==> ByteLen(rest[k]) < 65536 {
        if ByteLen(lines[0]) < 65536 { LaterLine(lines, n); }
      }
      if n :| 0 <= n < |lines| && Covers(lines[n]) && forall k :: 0 <= k <= n ==> ByteLen(lines[k]) < 65536 {
        if n > 0 { EarlierLine(lines, n); }
      }
    }
  }

  lemma LaterLine(lines: seq<string>, n: nat)
    requires n + 1 < |lines| && Covers(lines[1..][n]) && ByteLen(lines[0]) < 65536
    requires forall k :: 0 <= k <= n ==> ByteLen(lines[1..][k]) < 65536
    ensures exists m :: 0 <= m < |lines| && Covers(lines[m]) && forall k :: 0 <= k <= m ==> ByteLen(lines[k]) < 65536
  {
    hide Covers, ByteLen;
    forall k | 0 <= k <= n + 1 ensures ByteLen(lines[k]) < 65536 {
      assert k > 0 ==> lines[k] == lines[1..][k - 1];
    }
    assert Covers(lines[n + 1]);
  }

  lemma EarlierLine(lines: seq<string>, n: nat)
    requires 0 < n < |lines| && Covers(lines[n]) && forall k :: 0 <= k <= n ==> ByteLen(lines[k]) < 65536
    ensures exists m :: 0 <= m < |lines[1..]| && Covers(lines[1..][m]) && forall k :: 0 <= k <= m ==> ByteLen(lines[1..][k]) < 65536
  {
    hide Covers, ByteLen;
    assert lines[1..][n - 1] == lines[n];
  }

  /** A character takes as many bytes as UTF-8 gives it, section 3 of RFC 3629. */
  lemma {:induction false} BytesInAll(a: string, c: char, b: string)
    ensures ByteLen(a + [c] + b) == ByteLen(a) + ByteLen(b)
      + if c as int <= 0x7F then 1 else if c as int <= 0x7FF then 2 else if c as int <= 0xFFFF then 3 else 4
    ensures ByteLen("") == 0
    decreases |a|
  {
    if a == "" {
      assert a + [c] + b == [c] + b && ([c] + b)[1..] == b;
    } else {
      assert (a + [c] + b)[1..] == a[1..] + [c] + b;
      BytesInAll(a[1..], c, b);
    }
  }

  // ---------------------------------------------------------- adding, removing

  function Prepended(content: string): string {
    INCLUDE_LINE + "\n" + content
  }

  /** The lines but for the first that is the directive. */
  function WithoutFirst(lines: seq<string>): seq<string> {
    if lines == [] then []
    else if TrimSpace(lines[0]) == INCLUDE_LINE then lines[1..]
    else [lines[0]] + WithoutFirst(lines[1..])
  }

  method WithoutIncludeLine(content: string) returns (r: string)
    ensures r == Join(WithoutFirst(Split(content)), "\n")
  {
    hide TrimSpace, WithoutFirst, Split, Join, INCLUDE_LINE;
    var lines := Split(content);
    var out: seq<string> := [];
    var removed := false;
    NothingLeft(lines);
    for i := 0 to |lines|
      invariant out + (if removed then lines[i..] else WithoutFirst(lines[i..])) == WithoutFirst(lines)
    {
      OneLine(lines, i);
      if !removed && TrimSpace(lines[i]) == INCLUDE_LINE {
        removed := true;
        continue;
      }
      Assoc(out, [lines[i]], if removed then lines[i + 1..] else WithoutFirst(lines[i + 1..]));
      out := out + [lines[i]];
    }
    return Join(out, "\n");
  }

  lemma OneLine(lines: seq<string>, i: nat)
    requires i < |lines|
    ensures lines[i..] == [lines[i]] + lines[i + 1..]
    ensures WithoutFirst(lines[i..])
         == if TrimSpace(lines[i]) == INCLUDE_LINE then lines[i + 1..] else [lines[i]] + WithoutFirst(lines[i + 1..])
  {
    hide TrimSpace, INCLUDE_LINE;
    assert lines[i..][1..] == lines[i + 1..];
  }

  lemma NothingLeft(lines: seq<string>)
    ensures lines[0..] == lines && [] + WithoutFirst(lines) == WithoutFirst(lines)
    ensures lines[|lines|..] == [] == WithoutFirst(lines[|lines|..])
    ensures forall out: seq<string> :: out + [] == out
  {
  }

  /** Only the first directive goes, wherever it stands, and a file without one stays as it is. */
  lemma {:induction false} TakesFirstDirective(before: seq<string>, after: seq<string>)
    requires forall l :: l in before ==> TrimSpace(l) != INCLUDE_LINE
    ensures WithoutFirst(before + after)
         == before + if after != [] && TrimSpace(after[0]) == INCLUDE_LINE then after[1..] else WithoutFirst(after)
    ensures WithoutFirst(before) == before
    decreases |before|
  {
    hide TrimSpace, INCLUDE_LINE;
    if before == [] {
      assert before + after == after;
      Assoc<string>([], [], WithoutFirst(after));
    } else {
      assert before[0] in before && (before + after)[1..] == before[1..] + after;
      TakesFirstDirective(before[1..], after);
    }
  }

  /** Taking the directive out again gives back every file, byte for byte. */
  lemma RemoveUndoesPrepend(content: string)
    ensures Join(WithoutFirst(Split(Prepended(content))), "\n") == content
  {
    IncludeLineParts();
    SplitFirstLine(INCLUDE_LINE, content);
    JoinSplit(content);
    assert ([INCLUDE_LINE] + Split(content))[1..] == Split(content);
  }

  /** With the directive on top the directory is covered, whatever follows. */
  lemma PrependedIncludes(content: string)
    ensures Includes(Split(Prepended(content)))
  {
    IncludeLineParts();
    SplitFirstLine(INCLUDE_LINE, content);
    hide Covers;
  }

  // ------------------------------------------------------------------ command

  /** How a file write goes: in full, not at all, or stopping after k characters of the new content. */
  datatype Write = Written | NotOpened | Partial(k: nat)

  function AfterWrite(was: Option<string>, data: string, w: Write): Option<string> {
    match w
    case Written => Some(data)
    case NotOpened => was
    case Partial(k) => Some(data[..Min(k, |data|)])
  }

  /** What the system calls of one run give. */
  datatype Plan = Plan(
    root: bool, dirExists: bool, statConf: bool, readMain: bool, writeMain: Write, writeConf: Write,
    valid: bool, removeConf: bool, rereadMain: bool, rewriteMain: Write)

  datatype Result = Enabled | Refused | MainNotWritten | ConfNotWritten | Rejected

  /** The main file after a run that did not go through: put back, unless a call that puts it back fails. */
  function AfterTakingBack(was: Option<string>, plan: Plan): Option<string> {
    if was.None? || Includes(Split(was.value)) then was
    else if !plan.rereadMain then Some(Prepended(was.value))
    else AfterWrite(Some(Prepended(was.value)), was.value, plan.rewriteMain)
  }

  class Files {
    /** The text of the drop-in. */
    const body: string
    var main: Option<string>
    var conf: Option<string>

    constructor (body: string, main: Option<string>, conf: Option<string>)
      ensures this.body == body && this.main == main && this.conf == conf
    {
      this.body, this.main, this.conf := body, main, conf;
    }

    /** Enabled before, or by hand: nothing is missing. */
    predicate Complete()
      reads this
    {
      conf.Some? && (main.Some? ==> Includes(Split(main.value)))
    }

    method RemoveIncludeLine(reread: bool, w: Write)
      modifies this`main
      ensures main == if old(main).Some? && reread then AfterWrite(old(main), Join(WithoutFirst(Split(old(main).value)), "\n"), w) else old(main)
    {
      if main.None? || !reread {
        return;
      }
      var data := WithoutIncludeLine(main.value);
      main := AfterWrite(main, data, w);
    }

    /** Adds the directive when it is missing. */
    method EnsureInclude(plan: Plan) returns (r: Result, added: bool)
      modifies this`main
      ensures r == Enabled || (r == MainNotWritten && !added) || (r == Refused && !added && main == old(main))
      ensures r == Refused <==> old(main).Some? && !plan.readMain
      ensures r == Enabled ==> (added <==> old(main).Some? && !Includes(Split(old(main).value)))
      ensures r == Enabled ==> main == if added then Some(Prepended(old(main).value)) else old(main)
      ensures r == MainNotWritten ==> old(main).Some? && !Includes(Split(old(main).value)) && plan.writeMain != Written
      ensures r == MainNotWritten ==> main == AfterWrite(old(main), Prepended(old(main).value), plan.writeMain)
    {
      added := false;
      if main.Some? {
        if !plan.readMain { return Refused, false; }
        var has := IncludesDropinDir(main.value);
        if !has {
          main := AfterWrite(main, Prepended(main.value), plan.writeMain);
          if plan.writeMain != Written { return MainNotWritten, false; }
          return Enabled, true;
        }
      }
      return Enabled, false;
    }

    /** A rejected configuration is taken back exactly when the calls that take it back work. */
    method Enable(plan: Plan) returns (r: Result)
      modifies this
      ensures r == Refused ==> main == old(main) && conf == old(conf)
      ensures r == Refused <==> !plan.root || !plan.dirExists || !plan.statConf || (old(main).Some? && !plan.readMain)
      ensures r == Enabled || r == Rejected ==> (r == Enabled <==> plan.valid) && (old(conf).Some? || plan.writeConf == Written)
      ensures r == Enabled ==> Complete()
      ensures r == Enabled ==> conf == if old(conf).Some? then old(conf) else Some(body)
      ensures r == Enabled ==> main == OneRun(old(main))
      ensures r == Rejected ==> (conf == old(conf) <==> old(conf).Some? || plan.removeConf)
      ensures r == Rejected || r == ConfNotWritten ==> (main == old(main) <==>
        old(main).None? || Includes(Split(old(main).value)) || (plan.rereadMain && WritesAll(plan.rewriteMain, old(main).value)))
      ensures r == Rejected ==> conf == if old(conf).Some? then old(conf) else if plan.removeConf then None else Some(body)
      ensures r == Rejected || r == ConfNotWritten ==> main == AfterTakingBack(old(main), plan)
      ensures r == ConfNotWritten ==> conf == AfterWrite(old(conf), body, plan.writeConf)
      ensures r == ConfNotWritten ==> (conf == old(conf) <==> plan.writeConf == NotOpened)
      ensures r == ConfNotWritten ==> old(conf).None? && plan.writeConf != Written
      ensures r == MainNotWritten ==> conf == old(conf) && old(main).Some? && plan.writeMain != Written
      ensures r == MainNotWritten ==> !Includes(Split(old(main).value))
      ensures r == MainNotWritten ==> main == AfterWrite(old(main), Prepended(old(main).value), plan.writeMain)
      ensures old(Complete()) ==> main == old(main) && conf == old(conf)
    {
      hide Includes, INCLUDE_LINE;
      if !plan.root || !plan.dirExists || !plan.statConf { return Refused; }
      var confExists := conf.Some?;
      var wroteConf := false;
      var added;
      r, added := EnsureInclude(plan);
      if r != Enabled { return; }
      if !confExists {
        conf := AfterWrite(conf, body, plan.writeConf);
        if plan.writeConf != Written {
          if added { TakeBack(old(main).value, plan); }
          return ConfNotWritten;
        }
        wroteConf := true;
      }
      if !plan.valid {
        if wroteConf && plan.removeConf { conf := None; }
        if added { TakeBack(old(main).value, plan); }
        return Rejected;
      }
      if added { PrependedIncludes(old(main).value); }
      return Enabled;
    }

    method TakeBack(ghost was: string, plan: Plan)
      requires main == Some(Prepended(was))
      modifies this`main
      ensures main == Some(was) <==> plan.rereadMain && WritesAll(plan.rewriteMain, was)
      ensures main == if plan.rereadMain then AfterWrite(Some(Prepended(was)), was, plan.rewriteMain) else Some(Prepended(was))
    {
      RemoveUndoesPrepend(was);
      hide Split, WithoutFirst, Join, INCLUDE_LINE;
      RemoveIncludeLine(plan.rereadMain, plan.rewriteMain);
      Longer(was, if plan.rewriteMain.Partial? then plan.rewriteMain.k else 0);
    }

    /** After a run that succeeded, no later run changes either file, however it ends. */
    method EnableAgain(first: Plan, second: Plan) returns (r1: Result, r2: Result)
      modifies this
      ensures r1 == Enabled ==> Complete() && (r2 == Enabled || r2 == Rejected || r2 == Refused)
      ensures r1 == Enabled ==> conf == if old(conf).Some? then old(conf) else Some(body)
      ensures r1 == Enabled ==> main == OneRun(old(main))
    {
      hide Includes;
      r1 := Enable(first);
      r2 := Enable(second);
    }
  }

  /** What the main file is after a run that succeeds. */
  function OneRun(main: Option<string>): Option<string> {
    if main.Some? && !Includes(Split(main.value)) then Some(Prepended(main.value)) else main
  }

  lemma Longer(was: string, k: nat)
    ensures Prepended(was) != was
    ensures was[..Min(k, |was|)] == was <==> k >= |was|
  {
    hide INCLUDE_LINE;
    assert |Prepended(was)| == |INCLUDE_LINE| + 1 + |was|;
    assert |was[..Min(k, |was|)]| == Min(k, |was|);
  }

  predicate WritesAll(w: Write, data: string) {
    w == Written || (w.Partial? && w.k >= |data|)
  }

  /** Nothing keeps a run of Enable from getting as far as the drop-in. */
  predicate GetsToDropIn(main: Option<string>, plan: Plan) {
    && plan.root && plan.dirExists && plan.statConf
    && (main.Some? ==> plan.readMain && (Includes(Split(main.value)) || plan.writeMain == Written))
  }

  /** A write of the drop-in that stops half way leaves a piece of it behind, which the next run takes for an admin's. */
  method HalfWrittenDropIn(files: Files, plan: Plan, next: Plan, k: nat)
    requires files.conf == None && k < |files.body|
    requires GetsToDropIn(files.main, plan) && plan.writeConf == Partial(k)
    modifies files
    ensures files.conf == Some(files.body[..k]) && files.conf != Some(files.body)
  {
    hide Includes, INCLUDE_LINE;
    assert |files.body[..k]| == k;
    var r := files.Enable(plan);
    var r2 := files.Enable(next);
  }
}
