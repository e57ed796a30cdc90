/** Files as a crash sees them: what a name refers to now, and what it may turn out to refer to on disk. */
module FileSystem {
  import opened Common

  // -------------------------------------------------------------------- names

  /** The part of a name from its last dot on. */
  function Ext(name: string): string {
    if name == "" then ""
    else
      var last, front := name[|name| - 1], name[..|name| - 1];
      if last == '.' then "." else if Ext(front) == "" then "" else Ext(front) + [last]
  }

  lemma {:induction false} ExtAfterDot(a: string, b: string)
    requires '.' !in b
    ensures Ext(a + "." + b) == "." + b
  {
    var name := a + "." + b;
    if b == "" {
      assert name[|name| - 1] == '.';
    } else {
      var b' := b[..|b| - 1];
      assert name[..|name| - 1] == a + "." + b';
      ExtAfterDot(a, b');
      assert "." + b' + [b[|b| - 1]] == "." + b;
    }
  }

  const CAST_EXT := ".cast"

  /** What a listing of the central store takes for a recording. */
  predicate CastsIn(name: string) {
    Ext(name) == CAST_EXT
  }

  /** What a sweep takes for a finished recording. */
  predicate Ingestible(name: string) {
    !("." <= name) && Ext(name) == CAST_EXT
  }

  function TempName(name: string, digits: string): string {
    "." + name + ".tmp-" + digits
  }

  predicate AllDigits(s: string) {
    forall c :: c in s ==> '0' <= c <= '9'
  }

  /** The name of a file being written is never taken for a recording, whatever the final name. */
  lemma TempIsNoRecording(name: string, digits: string)
    requires AllDigits(digits)
    ensures !CastsIn(TempName(name, digits)) && !Ingestible(TempName(name, digits))
  {
    var rest := "tmp-" + digits;
    assert TempName(name, digits) == "." + name + "." + rest;
    ExtAfterDot("." + name, rest);
    assert ("." + rest)[1] == 't';
  }

  /** A recording's name ends in .cast; a sweep passes over one that also starts with a dot. */
  lemma WhatIsTaken(stem: string, ext: string)
    requires '.' !in ext
    ensures CastsIn(stem + "." + ext) <==> ext == "cast"
    ensures Ingestible(stem + "." + ext) <==> ext == "cast" && stem != "" && stem[0] != '.'
    ensures !CastsIn(ext) && !Ingestible(ext)
  {
    ExtAfterDot(stem, ext);
    NoExt(ext);
    var name := stem + "." + ext;
    assert name[0] == if stem == "" then '.' else stem[0];
    assert "." + ext == CAST_EXT <==> ext == "cast" by {
      assert ("." + ext)[1..] == ext && CAST_EXT[1..] == "cast";
    }
    assert "." <= name <==> name[0] == '.';
  }

  lemma {:induction false} NoExt(name: string)
    requires '.' !in name
    ensures Ext(name) == ""
    decreases |name|
  {
    if name != "" { NoExt(name[..|name| - 1]); }
  }

  /** The last element of a path. */
  function Base(path: string): string {
    if path == "" then "."
    else if path[|path| - 1] == '/' then if |path| == 1 then "/" else Base(path[..|path| - 1])
    else LastElement(path)
  }

  function LastElement(path: string): (r: string)
    ensures '/' !in r
  {
    if path == "" || path[|path| - 1] == '/' then "" else LastElement(path[..|path| - 1]) + [path[|path| - 1]]
  }

  /** Slashes at the end of a path do not count, and nothing before the last element does. */
  lemma BaseOfPath(dir: string, name: string, slashes: nat)
    requires '/' !in name && name != "" && (dir == "" || dir[|dir| - 1] == '/')
    ensures Base(dir + name + seq(slashes, _ => '/')) == name
  {
    var path := dir + name + seq(slashes, _ => '/');
    if slashes == 0 {
      assert path == dir + name && path[|path| - 1] == name[|name| - 1];
      LastElementOf(dir, name);
    } else {
      assert path[..|path| - 1] == dir + name + seq(slashes - 1, _ => '/');
      BaseOfPath(dir, name, slashes - 1);
    }
  }

  /** A path of slashes is the root; no path at all is the directory one is in. */
  lemma {:induction false} BaseOfNothing(slashes: nat)
    requires slashes > 0
    ensures Base(seq(slashes, _ => '/')) == "/" && Base("") == "."
  {
    var path := seq(slashes, _ => '/');
    if slashes > 1 {
      assert path[..slashes - 1] == seq(slashes - 1, _ => '/');
      BaseOfNothing(slashes - 1);
    } else {
      assert path == "/";
    }
  }

  lemma {:induction false} LastElementOf(dir: string, name: string)
    requires '/' !in name && (dir == "" || dir[|dir| - 1] == '/')
    ensures LastElement(dir + name) == name
    decreases |name|
  {
    if name == "" {
      assert dir + name == dir;
    } else {
      var front := name[..|name| - 1];
      assert (dir + name)[..|dir + name| - 1] == dir + front;
      LastElementOf(dir, front);
    }
  }

  /** A name that is safe to file under is one element, and no way up or across. */
  lemma SafeMeans(s: string)
    ensures SafeComponent(s) <==> s != "" && s != "." && s != ".." && '/' !in s && '\\' !in s
  {
    if s != "" && '/' !in s {
      BaseOfPath("", s, 0);
      assert "" + s + seq(0, _ => '/') == s;
    }
  }

  predicate SafeComponent(s: string) {
    s != "" && s != "." && s != ".." && '/' !in s && '\\' !in s && Base(s) == s
  }

  // -------------------------------------------------------------- file system

  type Ino = nat

  datatype Dir = Local(home: string) | Store(user: string)

  datatype Path = Path(dir: Dir, name: string)

  datatype Node = Node(data: Bytes, synced: bool)

  /** `stale` holds what names referred to before, while the directory may not have reached the disk since. */
  datatype Fs = Fs(cur: map<Path, Ino>, stale: map<Path, set<Option<Ino>>>, node: map<Ino, Node>)

  function Cur(fs: Fs, p: Path): Option<Ino> {
    if p in fs.cur then Some(fs.cur[p]) else None
  }

  /** Everything a name may refer to after a crash. */
  function May(fs: Fs, p: Path): set<Option<Ino>> {
    (if p in fs.stale then fs.stale[p] else {}) + {Cur(fs, p)}
  }

  function SetEntry(fs: Fs, p: Path, v: Option<Ino>): Fs {
    fs.(cur := if v.Some? then fs.cur[p := v.value] else fs.cur - {p}, stale := fs.stale[p := May(fs, p)])
  }

  function SetNode(fs: Fs, i: Ino, n: Node): Fs {
    fs.(node := fs.node[i := n])
  }

  /** The new name takes the file and the old one goes: two entries, which a crash may keep or lose separately. */
  function Rename(fs: Fs, a: Path, b: Path): Fs {
    SetEntry(SetEntry(fs, b, Cur(fs, a)), a, None)
  }

  function SyncDir(fs: Fs, d: Dir): Fs {
    fs.(stale := map p | p in fs.stale && p.dir != d :: fs.stale[p])
  }

  /** What a crash leaves of a name when it has the choice `pick`. */
  function Chosen(fs: Fs, pick: map<Path, Option<Ino>>, p: Path): (v: Option<Ino>)
    ensures v in May(fs, p)
  {
    if p in pick && pick[p] in May(fs, p) then pick[p] else Cur(fs, p)
  }

  /** A crash: every name is one of the things it may be, and data never synced may be anything. */
  function Crash(fs: Fs, pick: map<Path, Option<Ino>>, junk: map<Ino, Bytes>): Fs {
    Fs(
      map p | p in fs.cur.Keys + fs.stale.Keys && Chosen(fs, pick, p).Some? :: Chosen(fs, pick, p).value,
      map[],
      map i | i in fs.node :: Node(if !fs.node[i].synced && i in junk then junk[i] else fs.node[i].data, true))
  }

  lemma MayAfterSet(fs: Fs, p: Path, v: Option<Ino>, q: Path)
    ensures May(SetEntry(fs, p, v), q) == if q == p then May(fs, p) + {v} else May(fs, q)
    ensures Cur(SetEntry(fs, p, v), q) == if q == p then v else Cur(fs, q)
    ensures SetEntry(fs, p, v).node == fs.node
  {
  }

  lemma MayAfterSync(fs: Fs, d: Dir, q: Path)
    ensures May(SyncDir(fs, d), q) == if q.dir == d then {Cur(fs, q)} else May(fs, q)
    ensures Cur(SyncDir(fs, d), q) == Cur(fs, q) && SyncDir(fs, d).node == fs.node && SyncDir(fs, d).cur == fs.cur
  {
  }

  lemma MayAfterCrash(fs: Fs, pick: map<Path, Option<Ino>>, junk: map<Ino, Bytes>, q: Path)
    ensures Cur(Crash(fs, pick, junk), q) == Chosen(fs, pick, q)
    ensures May(Crash(fs, pick, junk), q) == {Chosen(fs, pick, q)} <= May(fs, q)
  {
  }

  /** Synced data survives; a choice that a crash can make is one it does make. */
  lemma CrashKeepsSynced(fs: Fs, pick: map<Path, Option<Ino>>, junk: map<Ino, Bytes>, i: Ino)
    requires i in fs.node && fs.node[i].synced
    ensures i in Crash(fs, pick, junk).node && Crash(fs, pick, junk).node[i] == fs.node[i]
  {
  }

  /** And a crash may do its worst: any name any of the things it may be, and data never synced any bytes. */
  lemma CrashIsFree(fs: Fs, pick: map<Path, Option<Ino>>, junk: map<Ino, Bytes>)
    requires forall p :: p in pick ==> pick[p] in May(fs, p)
    ensures var z := Crash(fs, pick, junk);
            && (forall p :: p in pick ==> Cur(z, p) == pick[p])
            && (forall p :: p !in pick ==> Cur(z, p) == Cur(fs, p))
            && (forall i :: i in fs.node && i in junk && !fs.node[i].synced ==> z.node[i].data == junk[i])
  {
    forall p ensures Cur(Crash(fs, pick, junk), p) == Chosen(fs, pick, p) {
      MayAfterCrash(fs, pick, junk, p);
    }
  }

  /** A rename moves the file; until the directory is synced a crash may bring back either name as it was. */
  lemma RenameMoves(fs: Fs, a: Path, b: Path)
    requires a != b
    ensures Cur(Rename(fs, a, b), b) == Cur(fs, a) && Cur(Rename(fs, a, b), a) == None
    ensures May(Rename(fs, a, b), b) == May(fs, b) + {Cur(fs, a)} && May(Rename(fs, a, b), a) == May(fs, a) + {None}
    ensures forall p :: p != a && p != b ==> Cur(Rename(fs, a, b), p) == Cur(fs, p) && May(Rename(fs, a, b), p) == May(fs, p)
    ensures Rename(fs, a, b).node == fs.node
  {
    var z := SetEntry(fs, b, Cur(fs, a));
    forall p
      ensures Cur(Rename(fs, a, b), p) == if p == a then None else if p == b then Cur(fs, a) else Cur(fs, p)
      ensures May(Rename(fs, a, b), p) == if p == a then May(fs, a) + {None} else if p == b then May(fs, b) + {Cur(fs, a)} else May(fs, p)
    {
      MayAfterSet(fs, b, Cur(fs, a), p);
      MayAfterSet(z, a, None, p);
    }
  }
}
