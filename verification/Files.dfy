/** The flat file map and the operations on it, as functions of the map. */
module Files {
  import opened Common
  import opened Paths

  newtype byte = x: int | 0 <= x < 256

  /** dir is the ModeDir bit, bits all the others. */
  datatype Mode = Mode(dir: bool, bits: nat)

  datatype Entry = Entry(mode: Mode, data: seq<byte>, mtime: int)

  type Files = map<string, Entry>

  const DefaultDir := Mode(false, 0x1ED)   // 0o755

  datatype Res = Res(err: Option<Error>, files: Files)

  /** perm & ModePerm, with ModeDir set or cleared. */
  function DirMode(m: Mode): Mode { Mode(true, m.bits % 512) }
  function FileMode(m: Mode): Mode { Mode(false, m.bits % 512) }

  function NewDir(m: Mode, now: int): Entry { Entry(DirMode(m), [], now) }

  predicate IsDirIn(t: Files, p: string) {
    p in t && t[p].mode.dir
  }

  // ----- mkdir and mkdirAll -----

  function MkdirRes(t: Files, p: string, m: Mode, now: int): Res {
    if p in t then Res(Some(Exist), t)
    else if Dir(p) != "." && Dir(p) !in t then Res(Some(NotExist), t)
    else if Dir(p) != "." && !t[Dir(p)].mode.dir then Res(Some(NotDir), t)
    else Res(None, t[p := NewDir(m, now)])
  }

  /** mkdirAll stops at index i of p: a separator, or the end. */
  predicate AtStop(p: string, i: nat)
    requires i <= |p|
  {
    i == |p| || p[i] == '/'
  }

  function MkdirStep(t: Files, q: string, e: Entry): Res {
    if q !in t then Res(None, t[q := e])
    else if t[q].mode.dir then Res(None, t)
    else Res(Some(NotDir), t)
  }

  /** mkdirAll after its loop has looked at the indices 1..i. */
  function MkdirAllTo(t: Files, p: string, i: nat, e: Entry): Res
    requires i <= |p|
  {
    if i == 0 then Res(None, t)
    else
      var r := MkdirAllTo(t, p, i - 1, e);
      if r.err.Some? || !AtStop(p, i) then r
      else MkdirStep(r.files, p[..i], e)
  }

  function MkdirAllRes(t: Files, p: string, m: Mode, now: int): Res {
    MkdirAllTo(t, p, |p|, NewDir(m, now))
  }

  // ----- The other operations -----

  function EnsureParents(t: Files, p: string, now: int): Res {
    if Dir(p) == "." then Res(None, t) else MkdirAllRes(t, Dir(p), DefaultDir, now)
  }

  function AddFileRes(t: Files, p: string, data: seq<byte>, m: Mode, now: int): Res {
    if !ValidPath(p) then Res(Some(Invalid), t)
    else
      var r := EnsureParents(t, p, now);
      if r.err.Some? then r
      else if IsDirIn(r.files, p) then Res(Some(IsDir), r.files)
      else Res(None, r.files[p := Entry(FileMode(m), data, now)])
  }

  function Subtree(t: Files, p: string): set<string> {
    set q | q in t && Within(p, q)
  }

  function RemoveTree(t: Files, p: string): Files {
    t - Subtree(t, p)
  }

  predicate HasDescendants(t: Files, p: string) {
    exists q :: q in t && Under(p, q)
  }

  function RemoveRes(t: Files, p: string): Res {
    if p !in t then Res(Some(NotExist), t)
    else if t[p].mode.dir && HasDescendants(t, p) then Res(Some(NotEmpty), t)
    else Res(None, t - {p})
  }

  datatype WriteMode = Append | Overwrite | ReadOnly

  function Written(w: WriteMode, was: seq<byte>, data: seq<byte>): seq<byte> {
    if w == Append then was + data else data
  }

  function WriteFileRes(t: Files, w: WriteMode, create: bool, p: string, data: seq<byte>, m: Mode, now: int): Res {
    if w == ReadOnly then Res(Some(Permission), t)
    else if p !in t then
      if !create then Res(Some(NotExist), t)
      else Res(None, t[p := Entry(Mode(false, m.bits), data, now)])
    else Res(None, t[p := Entry(t[p].mode, Written(w, t[p].data, data), now)])
  }

  // ----- Rename -----

  /** Where a path within from lands when from becomes to. */
  function Rebase(from: string, to: string, p: string): string
    requires Within(from, p)
  {
    to + p[|from|..]
  }

  function Moved(t: Files, from: string, p: string, now: int): Entry
    requires p in t
  {
    if p == from then t[p].(mtime := now) else t[p]
  }

  /** The keys that a rename carries along: all of the subtree for a directory. */
  function Carried(t: Files, from: string): set<string>
    requires from in t
  {
    if t[from].mode.dir then Subtree(t, from) else {from}
  }

  lemma {:induction false} RebaseInjective(from: string, to: string, s: set<string>)
    requires forall p :: p in s ==> Within(from, p)
    ensures forall p, q :: p in s && q in s && Rebase(from, to, p) == Rebase(from, to, q) ==> p == q
  {
    forall p, q | p in s && q in s && Rebase(from, to, p) == Rebase(from, to, q) ensures p == q {
      RebaseInverse(from, to, p);
      RebaseInverse(from, to, q);
    }
  }

  /** The one-shot prefix rewrite of the subtree at from onto to. */
  function RenameFiles(t: Files, from: string, to: string, now: int): Files
    requires from in t
  {
    RebaseInjective(from, to, Carried(t, from));
    (t - Carried(t, from)) + map p | p in Carried(t, from) :: Rebase(from, to, p) := Moved(t, from, p, now)
  }

  function RenameRes(t: Files, from: string, to: string, now: int): Res {
    if from !in t then Res(Some(NotExist), t)
    else if from == to then Res(None, t - Carried(t, from))
    else Res(None, RenameFiles(t, from, to, now))
  }

  lemma {:induction false} RebaseInverse(from: string, to: string, p: string)
    requires Within(from, p)
    ensures Within(to, Rebase(from, to, p))
    ensures Rebase(to, from, Rebase(from, to, p)) == p
  {
    assert Rebase(from, to, p)[|to|..] == p[|from|..];
    if p != from {
      assert p[|from|] == '/';
      assert to + "/" <= Rebase(from, to, p);
    }
  }

  lemma {:induction false} RebaseUnder(from: string, to: string, p: string, q: string)
    requires Within(from, p) && Within(from, q)
    ensures Under(Rebase(from, to, p), Rebase(from, to, q)) <==> Under(p, q)
  {
    assert p == from + p[|from|..] && q == from + q[|from|..];
    assert Rebase(from, to, p) + "/" == to + (p[|from|..] + "/");
    assert p + "/" == from + (p[|from|..] + "/");
    PrefixCancel(to, p[|from|..] + "/", q[|from|..]);
    PrefixCancel(from, p[|from|..] + "/", q[|from|..]);
  }

  /** A path cannot lie within two incomparable ones. */
  lemma {:induction false} WithinComparable(a: string, b: string, p: string)
    requires Within(a, p) && Within(b, p)
    ensures Within(a, b) || Within(b, a)
  {
    if |a| < |b| {
      assert p[|a|] == '/';
      assert a + "/" <= p[..|b|] == b;
    } else if |b| < |a| {
      assert p[|b|] == '/';
      assert b + "/" <= p[..|a|] == a;
    } else {
      assert p[..|a|] == a && p[..|b|] == b;
    }
  }
}
