/** Copying a directory's entries into the map of a new sub-filesystem. */
module SubMap {
  import opened Files
  import opened FileMaps
  import SubFs

  /** One round of copyFilesToSubFS. */
  method CopyOne(from: FileMap<string>, to: FileMap<string>, d: string, p: string, ghost pending: set<string>)
    requires from.Valid() && to.Valid() && from != to && IsDirIn(from.Contents(), d)
    requires p in from.at && p in pending && to.Contents() == SubFs.SubPart(from.Contents(), d, pending)
    modifies to
    ensures to.Valid() && to.Stays()
    ensures to.Contents() == SubFs.SubPart(old(from.Contents()), d, pending - {p})
    ensures from.Valid() && from.Contents() == old(from.Contents())
  {
    SubFs.SubPartStep(from.Contents(), d, pending, p);
    if d + "/" <= p {
      to.Import(from, p, p[|d| + 1..]);
    }
    from.Framed();
  }

  method StoreRoot(from: FileMap<string>, to: FileMap<string>, d: string)
    requires from.Valid() && to.Valid() && from != to && IsDirIn(from.Contents(), d)
    requires to.Contents().Keys == {"."}
    modifies to
    ensures to.Valid() && to.Stays()
    ensures var e := old(from.Contents())[d]; to.Contents() == map["." := Entry(Mode(true, e.mode.bits), [], e.mtime)]
    ensures from.Valid() && from.Contents() == old(from.Contents())
  {
    to.Store(".", [], Mode(true, from.at[d].mode.bits), from.at[d].mtime);
    from.Framed();
  }

  /** The loop of copyFilesToSubFS, over the keys in any order. */
  method CopyBelow(from: FileMap<string>, to: FileMap<string>, d: string)
    requires from.Valid() && to.Valid() && from != to && IsDirIn(from.Contents(), d)
    requires to.Contents() == SubFs.SubPart(from.Contents(), d, from.at.Keys)
    modifies to
    ensures to.Valid() && to.Stays()
    ensures to.Contents() == SubFs.SubPart(old(from.Contents()), d, {})
  {
    ghost var t := from.Contents();
    var pending := from.at.Keys;
    while pending != {}
      invariant from.Valid() && from.Contents() == t && to.Valid() && to.Stays()
      invariant pending <= from.at.Keys && to.Contents() == SubFs.SubPart(t, d, pending)
      decreases pending
    {
      var p :| p in pending;
      CopyOne(from, to, d, p, pending);
      pending := pending - {p};
    }
  }

  method CopyFiles(from: FileMap<string>, to: FileMap<string>, d: string)
    requires from.Valid() && to.Valid() && from != to && IsDirIn(from.Contents(), d)
    requires to.Contents().Keys == {"."}
    modifies to
    ensures to.Valid() && to.Stays()
    ensures to.Contents() == SubFs.SubFiles(old(from.Contents()), d)
  {
    SubFs.SubPartEnds(from.Contents(), d);
    StoreRoot(from, to, d);
    CopyBelow(from, to, d);
  }

  /** The map of a new filesystem, beside from. */
  method NewRootMap(from: FileMap<string>, now: int) returns (to: FileMap<string>)
    requires from.Valid()
    ensures to.Valid() && fresh(to) && to != from && to.Contents().Keys == {"."}
    ensures (forall n :: n in to.nodes.Keys ==> fresh(n)) && (forall b :: b in to.buffers.Keys ==> fresh(b))
    ensures from.Valid() && from.Contents() == old(from.Contents())
  {
    to := new FileMap();
    to.Store(".", [], DirMode(DefaultDir), now);
    from.Framed();
  }

  /** The map of a new sub-filesystem, which shares neither nodes nor buffers. */
  method SubMapOf(from: FileMap<string>, d: string, now: int) returns (to: FileMap<string>)
    requires from.Valid() && IsDirIn(from.Contents(), d)
    ensures to.Valid() && fresh(to)
    ensures (forall n :: n in to.nodes.Keys ==> fresh(n)) && (forall b :: b in to.buffers.Keys ==> fresh(b))
    ensures to.Contents() == SubFs.SubFiles(old(from.Contents()), d)
  {
    to := NewRootMap(from, now);
    label made:
    CopyFiles(from, to, d);
    forall n | n in to.nodes.Keys ensures fresh(n) { assert fresh@made(n) || n in old@made(to.nodes).Keys; }
    forall b | b in to.buffers.Keys ensures fresh(b) { assert fresh@made(b) || b in old@made(to.buffers).Keys; }
  }
}
