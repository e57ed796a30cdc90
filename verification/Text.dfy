/** Words, lines and the order of strings. */
module Text {
  /** What Unicode, and so Go, calls white space. */
  predicate IsSpace(c: char) {
    || '\t' <= c <= '\r' || c == ' ' || c == '\U{85}' || c == '\U{A0}' || c == '\U{1680}'
    || '\U{2000}' <= c <= '\U{200A}' || c == '\U{2028}' || c == '\U{2029}' || c == '\U{202F}' || c == '\U{205F}' || c == '\U{3000}'
  }

  predicate IsWord(w: string) {
    w != "" && forall c :: c in w ==> !IsSpace(c)
  }

  predicate AllWords(ws: seq<string>) {
    forall w :: w in ws ==> IsWord(w)
  }

  /** The words of s when `word` has been read just before it. */
  function FieldsFrom(word: string, s: string): (r: seq<string>)
    requires word == "" || IsWord(word)
    ensures AllWords(r)
    decreases |s|
  {
    if s == "" then if word == "" then [] else [word]
    else if IsSpace(s[0]) then (if word == "" then [] else [word]) + FieldsFrom("", s[1..])
    else FieldsFrom(word + [s[0]], s[1..])
  }

  function Fields(s: string): seq<string> {
    FieldsFrom("", s)
  }

  function Join(parts: seq<string>, sep: string): string {
    if parts == [] then ""
    else if |parts| == 1 then parts[0]
    else parts[0] + sep + Join(parts[1..], sep)
  }

  lemma {:induction false} WordThenRest(word: string, w: string, rest: string)
    requires IsWord(word + w) || word + w == ""
    ensures word == "" || IsWord(word)
    ensures FieldsFrom(word, w + rest) == FieldsFrom(word + w, rest)
    decreases |w|
  {
    assert forall c :: c in word ==> c in word + w;
    if w == "" {
      assert word + w == word && w + rest == rest;
    } else {
      assert w[0] in word + w;
      assert word + [w[0]] + w[1..] == word + w;
      WordThenRest(word + [w[0]], w[1..], rest);
      assert (w + rest)[1..] == w[1..] + rest;
    }
  }

  /** Words joined by single spaces are the words they were. */
  lemma {:induction false} FieldsOfJoin(ws: seq<string>)
    requires AllWords(ws)
    ensures Fields(Join(ws, " ")) == ws
    decreases |ws|
  {
    if |ws| == 1 {
      WordThenRest("", ws[0], "");
      assert "" + ws[0] == ws[0] && ws[0] + "" == ws[0];
    } else if |ws| > 1 {
      var rest := Join(ws[1..], " ");
      assert IsWord(ws[0]);
      assert ws[0] + " " + rest == ws[0] + (" " + rest) && "" + ws[0] == ws[0];
      WordThenRest("", ws[0], " " + rest);
      assert (" " + rest)[1..] == rest;
      FieldsOfJoin(ws[1..]);
    }
  }

  // -------------------------------------------------------------------- order

  predicate StrLe(a: string, b: string) {
    a == "" || (b != "" && (a[0] < b[0] || (a[0] == b[0] && StrLe(a[1..], b[1..]))))
  }

  lemma {:induction false} StrLeTotal(a: string, b: string)
    ensures StrLe(a, b) || StrLe(b, a)
    ensures StrLe(a, b) && StrLe(b, a) ==> a == b
    decreases |a|
  {
    if a != "" && b != "" && a[0] == b[0] {
      StrLeTotal(a[1..], b[1..]);
      assert a == [a[0]] + a[1..] && b == [b[0]] + b[1..];
    }
  }

  lemma {:induction false} StrLeTransitive(a: string, b: string, c: string)
    requires StrLe(a, b) && StrLe(b, c)
    ensures StrLe(a, c)
    decreases |a|
  {
    if a != "" && b != "" && c != "" && a[0] == b[0] == c[0] {
      StrLeTransitive(a[1..], b[1..], c[1..]);
    }
  }

  /** Strings are told apart at the first place where they differ; a start of a string comes before it. */
  lemma {:induction false} StrLeDecides(common: string, a: string, b: string)
    requires a != "" ==> b != "" && a[0] < b[0]
    ensures StrLe(common + a, common + b)
    ensures StrLe(common + b, common + a) ==> a == b == ""
    decreases |common|
  {
    if common == "" {
      assert common + a == a && common + b == b;
    } else {
      assert (common + a)[1..] == common[1..] + a && (common + b)[1..] == common[1..] + b;
      StrLeDecides(common[1..], a, b);
    }
  }

  /** Any white space, as much as there is, parts words; at the ends it counts for nothing. */
  lemma {:induction false} FieldsAppend(word: string, a: string, space: char, b: string)
    requires IsSpace(space) && (word == "" || IsWord(word))
    ensures FieldsFrom(word, a + [space] + b) == FieldsFrom(word, a) + Fields(b)
    decreases |a|
  {
    if a == "" {
      assert a + [space] + b == [space] + b && ([space] + b)[1..] == b;
    } else {
      assert (a + [space] + b)[1..] == a[1..] + [space] + b;
      if IsSpace(a[0]) {
        FieldsAppend("", a[1..], space, b);
        assert FieldsFrom(word, a) == (if word == "" then [] else [word]) + FieldsFrom("", a[1..]);
      } else {
        FieldsAppend(word + [a[0]], a[1..], space, b);
      }
    }
  }

  /** In ASCII the white space is the blank and the five controls from TAB to CR. */
  lemma AsciiSpaces(c: char)
    requires c < '\U{80}'
    ensures IsSpace(c) <==> c in " \t\n\r" || c == '\U{0B}' || c == '\U{0C}'
  {
  }
}
