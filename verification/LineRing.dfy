/** The bounded buffer behind `tail -n`: the last N lines of a recording's output. */
module LineRing {
  import opened Common

  const LF: Byte := 10

  // ------------------------------------------------------------ specification

  /** The terminated lines of s, without their LF, and the unterminated rest. */
  datatype Text = Text(done: seq<Bytes>, partial: Bytes)

  function Split(s: Bytes): Text {
    if s == [] then Text([], [])
    else
      var t, c := Split(s[..|s| - 1]), s[|s| - 1];
      if c == LF then Text(t.done + [t.partial], []) else Text(t.done, t.partial + [c])
  }

  function Terminated(done: seq<Bytes>): (r: seq<Bytes>)
    ensures |r| == |done|
  {
    seq(|done|, i requires 0 <= i < |done| => done[i] + [LF])
  }

  /** The logical lines of s: each terminated line with its LF, then a non-empty unterminated one. */
  function Lines(s: Bytes): seq<Bytes> {
    var t := Split(s);
    Terminated(t.done) + (if t.partial == [] then [] else [t.partial])
  }

  predicate IsLine(l: Bytes, terminated: bool) {
    && l != []
    && (forall i :: 0 <= i < |l| - 1 ==> l[i] != LF)
    && (l[|l| - 1] == LF <==> terminated)
  }

  lemma {:induction false} SplitShape(s: Bytes)
    ensures LF !in Split(s).partial
    ensures forall l :: l in Split(s).done ==> LF !in l
    ensures Concat(Terminated(Split(s).done)) + Split(s).partial == s
  {
    if s != [] {
      var front, c := s[..|s| - 1], s[|s| - 1];
      SplitShape(front);
      var t := Split(front);
      if c == LF {
        assert Terminated(t.done + [t.partial]) == Terminated(t.done) + [t.partial + [LF]];
        ConcatSnoc(Terminated(t.done), t.partial + [LF]);
      }
      assert s == front + [c];
      Assoc(Concat(Terminated(t.done)), t.partial, [c]);
    }
  }

  /** Lines cuts s, without loss, after each LF and nowhere else. */
  lemma LinesAreLines(s: Bytes)
    ensures Concat(Lines(s)) == s
    ensures forall i :: 0 <= i < |Lines(s)| - 1 ==> IsLine(Lines(s)[i], true)
    ensures Lines(s) != [] ==> IsLine(Lines(s)[|Lines(s)| - 1], s[|s| - 1] == LF)
  {
    hide Split;
    SplitShape(s);
    var t := Split(s);
    var whole := Terminated(t.done);
    ConcatSnoc(whole, t.partial);
    assert Concat(whole) + [] == Concat(whole) && whole + [] == whole;
    forall i | 0 <= i < |t.done| ensures IsLine(whole[i], true) {
      assert t.done[i] in t.done;
    }
    if t.partial == [] && t.done != [] {
      assert Concat(whole) == s && whole == whole[..|whole| - 1] + [whole[|whole| - 1]];
      ConcatSnoc(whole[..|whole| - 1], whole[|whole| - 1]);
    }
  }

  lemma {:induction false} SplitAppend(s: Bytes, t: Bytes)
    requires LF !in t
    ensures Split(s + t) == Text(Split(s).done, Split(s).partial + t)
  {
    if t == [] {
      assert s + t == s;
    } else {
      var front, c := t[..|t| - 1], t[|t| - 1];
      SplitAppend(s, front);
      assert (s + t)[..|s + t| - 1] == s + front;
      assert Split(s).partial + t == Split(s).partial + front + [c];
    }
  }

  lemma SplitLF(s: Bytes)
    ensures Split(s + [LF]) == Text(Split(s).done + [Split(s).partial], [])
  {
    assert (s + [LF])[..|s|] == s;
  }

  // ------------------------------------------------------------------ the ring

  function Slot(start: nat, i: nat, n: nat): (k: nat)
    requires start < n && i <= n
    ensures k < n && k == if start + i < n then start + i else start + i - n
  {
    WrapOnce(start + i, n);
    (start + i) % n
  }

  lemma WrapOnce(x: nat, n: nat)
    requires 0 < n && x < 2 * n
    ensures x % n == if x < n then x else x - n
  {
    if x >= n {
      assert x == (x - n) + n;
      assert (x - n) / n == 0;
    }
  }

  function Held(slots: seq<Bytes>, start: nat, count: nat): (r: seq<Bytes>)
    requires start < |slots| && count <= |slots|
    ensures |r| == count
  {
    seq(count, i requires 0 <= i < count => slots[Slot(start, i, |slots|)])
  }

  class Ring {
    const n: nat
    const lines: array<Bytes>
    var start: nat
    var count: nat
    var partial: Bytes
    ghost var fed: Bytes

    ghost predicate Shape()
      reads this
    {
      1 <= n == lines.Length && start < n && count <= n && (count < n ==> start == 0)
    }

    ghost predicate Valid()
      reads this, lines
    {
      && Shape()
      && Held(lines[..], start, count) == LastN(Split(fed).done, n)
      && partial == Split(fed).partial
    }

    constructor (n: int)
      ensures Valid() && fed == [] && this.n == (if n < 1 then 1 else n) && fresh(lines)
    {
      var size: nat := if n < 1 then 1 else n;
      this.n := size;
      lines := new Bytes[size](_ => []);
      start, count, partial, fed := 0, 0, [], [];
    }

    /** Holds on to one more terminated line, and lets go of the oldest when full. */
    method PushLine(line: Bytes)
      requires Shape()
      modifies this`start, this`count, lines
      ensures Shape()
      ensures Held(lines[..], start, count) == LastN(old(Held(lines[..], start, count)) + [line], n)
    {
      if count < n {
        lines[Slot(start, count, n)] := line;
        count := count + 1;
        assert Held(lines[..], start, count) == old(Held(lines[..], start, count)) + [line];
      } else {
        lines[start] := line;
        start := Slot(start, 1, n);
        assert Held(lines[..], start, count) == old(Held(lines[..], start, count))[1..] + [line];
      }
    }

    /** Feeds one output event, however it cuts the lines. */
    method Add(data: Bytes)
      requires Valid()
      modifies this, lines
      ensures Valid() && fed == old(fed) + data
    {
      var s := data;
      assert fed + data == old(fed) + data;
      while true
        invariant Valid() && fed + s == old(fed) + data
        decreases |s|
      {
        var i := IndexByte(s, LF);
        if i.None? {
          SplitAppend(fed, s);
          partial := partial + s;
          fed := fed + s;
          return;
        }
        var head := s[..i.value];
        SplitAppend(fed, head);
        SplitLF(fed + head);
        assert fed + s == (fed + head + [LF]) + s[i.value + 1..];
        LastNSnoc(Split(fed).done, [partial + head], n);
        partial := partial + head;
        PushLine(partial);
        partial := [];
        fed := fed + head + [LF];
        s := s[i.value + 1..];
      }
    }

    /** The last n logical lines of everything fed, whatever the events were. */
    method String() returns (b: Bytes)
      requires Valid()
      ensures b == Concat(LastN(Lines(fed), n))
    {
      b := [];
      var skip := 0;
      if |partial| > 0 && count == n {
        skip := 1;
      }
      ghost var held := Held(lines[..], start, count);
      for i := skip to count
        invariant b == Concat(Terminated(held[skip..i]))
      {
        TerminatedSnoc(held, skip, i);
        b := b + lines[Slot(start, i, n)];
        b := b + [LF];
      }
      LastLines(Split(fed), n, skip);
      assert held[skip..count] == held[skip..];
      Assoc(b, [], []);
      if |partial| > 0 {
        b := b + partial;
      }
    }
  }

  function IndexByte(s: Bytes, c: Byte): (i: Option<nat>)
    ensures i.None? ==> c !in s
    ensures i.Some? ==> i.value < |s| && s[i.value] == c && c !in s[..i.value]
  {
    if s == [] then None
    else if s[0] == c then Some(0)
    else
      match IndexByte(s[1..], c)
      case None => None
      case Some(k) =>
        assert s[..k + 1] == [s[0]] + s[1..][..k];
        Some(k + 1)
  }

  lemma TerminatedSnoc(held: seq<Bytes>, skip: nat, i: nat)
    requires skip <= i < |held|
    ensures Concat(Terminated(held[skip..i + 1])) == Concat(Terminated(held[skip..i])) + held[i] + [LF]
  {
    assert Terminated(held[skip..i + 1]) == Terminated(held[skip..i]) + [held[i] + [LF]];
    ConcatSnoc(Terminated(held[skip..i]), held[i] + [LF]);
    Assoc(Concat(Terminated(held[skip..i])), held[i], [LF]);
  }

  /** Dropping the oldest held line when a partial one needs its place leaves the last n lines. */
  lemma LastLines(t: Text, n: nat, skip: nat)
    requires n >= 1 && skip == (if t.partial != [] && |LastN(t.done, n)| == n then 1 else 0)
    ensures skip <= |LastN(t.done, n)|
    ensures var lines := Terminated(t.done) + (if t.partial == [] then [] else [t.partial]);
            Concat(LastN(lines, n)) == Concat(Terminated(LastN(t.done, n)[skip..])) + t.partial
  {
    var kept := LastN(t.done, n)[skip..];
    var lines := Terminated(t.done) + (if t.partial == [] then [] else [t.partial]);
    ConcatSnoc(Terminated(kept), t.partial);
    if t.partial == [] {
      assert LastN(lines, n) == Terminated(kept);
    } else {
      assert LastN(lines, n) == Terminated(kept) + [t.partial];
    }
  }
}
