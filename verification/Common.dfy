/** Bytes, options and the few sequence functions every other module uses. */
module Common {

  type Byte = b: int | 0 <= b < 256

  type Bytes = seq<Byte>

  datatype Option<+T> = None | Some(value: T)

  function Min(a: int, b: int): int {
    if a < b then a else b
  }

  function Concat<T>(parts: seq<seq<T>>): seq<T> {
    if parts == [] then [] else parts[0] + Concat(parts[1..])
  }

  lemma {:induction false} ConcatAppend<T>(a: seq<seq<T>>, b: seq<seq<T>>)
    ensures Concat(a + b) == Concat(a) + Concat(b)
  {
    if a == [] {
      assert a + b == b;
    } else {
      assert (a + b)[1..] == a[1..] + b;
      ConcatAppend(a[1..], b);
    }
  }

  lemma ConcatSnoc<T>(a: seq<seq<T>>, x: seq<T>)
    ensures Concat(a + [x]) == Concat(a) + x
  {
    ConcatAppend(a, [x]);
    assert Concat([x]) == x + Concat<T>([]);
  }

  /** The last n elements of s, or all of it when it is shorter. */
  function LastN<T>(s: seq<T>, n: nat): (r: seq<T>)
    ensures |r| == Min(|s|, n)
  {
    if |s| <= n then s else s[|s| - n..]
  }

  lemma LastNSnoc<T>(s: seq<T>, t: seq<T>, n: nat)
    ensures LastN(LastN(s, n) + t, n) == LastN(s + t, n)
  {
  }

  /** Handing over the next piece of s changes nothing in what has come plus what is coming. */
  lemma MovePiece<T>(come: seq<T>, s: seq<T>, i: nat, n: nat, later: seq<T>)
    requires i + n <= |s|
    ensures (come + s[i..i + n]) + (s[i + n..] + later) == come + (s[i..] + later)
  {
    assert s[i..] == s[i..i + n] + s[i + n..];
  }

  /** The same when the piece is taken from a copy that agrees with s up to `end`. */
  lemma MoveCopied<T>(come: seq<T>, s: seq<T>, copy: seq<T>, i: nat, n: nat, end: nat, later: seq<T>)
    requires i + n <= end <= |s| && s[..end] <= copy
    ensures (come + copy[i..i + n]) + (s[i + n..end] + later) == come + (s[i..end] + later)
  {
    assert copy[i..i + n] == s[..end][i..i + n] == s[i..i + n];
    assert s[i..end] == s[i..i + n] + s[i + n..end];
  }

  lemma Assoc<T>(a: seq<T>, b: seq<T>, c: seq<T>)
    ensures a + (b + c) == (a + b) + c
    ensures [] + c == c && a + [] == a
  {
  }
}
