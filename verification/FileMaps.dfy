/** The map from path to node that a filesystem stores its files in. */
module FileMaps {
  import opened Files
  import opened Nodes

  lemma {:induction false} MinusPut<K, V>(m: map<K, V>, k: K, v: V)
    ensures (m - {k})[k := v] == m[k := v]
  {
  }

  lemma {:induction false} MinusAbsent<K, V>(m: map<K, V>, k: K)
    requires k !in m
    ensures m - {k} == m
  {
  }

  lemma {:induction false} PutMinus<K, V>(m: map<K, V>, k: K, v: V, p: K)
    ensures var r := m[k := v] - {p};
      r.Keys == m.Keys + {k} - {p} && (k in r ==> r[k] == v) && forall x :: x in r && x != k ==> x in m && r[x] == m[x]
  {
  }

  lemma {:induction false} IsPut<K, V>(m: map<K, V>, t: map<K, V>, k: K)
    requires k in m && m.Keys == t.Keys + {k}
    requires forall x :: x in t && x != k ==> m[x] == t[x]
    ensures m == t[k := m[k]]
  {
  }

  /** Keys other than the touched ones lead where they led. */
  ghost predicate Kept<K, V>(m: map<K, V>, m': map<K, V>, touched: iset<K>) {
    forall q :: q in m && q !in touched ==> q in m' && m'[q] == m[q]
  }

  lemma {:induction false} KeptPut<K, V>(m: map<K, V>, k: K, v: V, touched: iset<K>)
    requires k in touched || k !in m
    ensures Kept(m, m[k := v], touched)
  {
  }

  lemma {:induction false} KeptMinus<K, V>(m: map<K, V>, k: K, touched: iset<K>)
    requires k in touched
    ensures Kept(m, m - {k}, touched)
  {
  }

  lemma {:induction false} KeptOn<K, V>(m: map<K, V>, m': map<K, V>, m'': map<K, V>, touched: iset<K>)
    requires Kept(m, m', touched) && Kept(m', m'', touched)
    ensures Kept(m, m'', touched)
  {
  }

  /** What m has under k is not stored any more. */
  ghost predicate Lost<K>(m: map<K, MapFile>, nodes: map<MapFile, K>, k: K) {
    k in m ==> m[k] !in nodes.Keys
  }

  ghost predicate LostAll<K>(m: map<K, MapFile>, nodes: map<MapFile, K>, ks: iset<K>) {
    forall k :: k in ks ==> Lost(m, nodes, k)
  }

  class FileMap<K(==)> {
    var at: map<K, MapFile>
    ghost var nodes: map<MapFile, K>
    ghost var buffers: map<array<byte>, MapFile>

    /** Every key has a node of its own, which leads back to it, and every node a buffer of its
        own, which leads back to it. nodes are exactly those that are stored. */
    ghost predicate Valid()
      reads this, nodes.Keys
    {
      && (forall p :: p in at ==>
            && at[p] in nodes.Keys && nodes[at[p]] == p && at[p].Valid()
            && at[p].buf in buffers.Keys && buffers[at[p].buf] == at[p])
      && Exact()
    }

    ghost predicate Exact()
      reads this
    {
      && (forall n :: n in nodes.Keys ==> nodes[n] in at && at[nodes[n]] == n)
      && (forall b :: b in buffers.Keys ==> buffers[b] in nodes.Keys)
    }

    ghost function Contents(): (t: map<K, Entry>)
      requires Valid()
      reads this, nodes.Keys, buffers.Keys
      ensures t.Keys == at.Keys
    {
      map p | p in at :: at[p].AsEntry()
    }

    /** A node never changes its key, and one that is gone never comes back: what is stored
        was stored under the same key before, or is new. A buffer stays with its node. */
    twostate predicate Stays()
      reads this
    {
      && (forall n :: n in nodes.Keys ==> fresh(n) || (n in old(nodes).Keys && nodes[n] == old(nodes)[n]))
      && (forall b :: b in buffers.Keys ==> fresh(b) || (b in old(buffers).Keys && buffers[b] == old(buffers)[b]))
    }

    twostate predicate Shrinks()
      reads this
    {
      && (forall n :: n in nodes.Keys ==> n in old(nodes).Keys && nodes[n] == old(nodes)[n])
      && (forall b :: b in buffers.Keys ==> b in old(buffers).Keys && buffers[b] == old(buffers)[b])
    }

    /** A key that leads elsewhere now, or nowhere, has lost its node. */
    twostate lemma {:induction false} LostIff(p: K)
      requires old(Valid()) && Valid() && Stays()
      ensures Lost(old(at), nodes, p) <==> (p in old(at) && p in at ==> at[p] != old(at)[p])
    {
    }

    /** What happens elsewhere leaves the map alone. */
    twostate lemma {:induction false} Framed()
      requires old(Valid()) && unchanged(this)
      requires forall n :: n in old(nodes.Keys) ==> unchanged(n)
      requires forall b :: b in old(buffers.Keys) ==> unchanged(b)
      ensures Valid() && Contents() == old(Contents())
    {
    }

    constructor ()
      ensures Valid() && nodes == map[] && buffers == map[] && at == map[] && Contents() == map[]
    {
      at, nodes, buffers := map[], map[], map[];
    }

    method Link(p: K, n: MapFile)
      requires Valid() && p !in at && n.Valid() && n !in nodes.Keys && n.buf !in buffers.Keys
      modifies this
      ensures Valid() && nodes == old(nodes)[n := p] && buffers == old(buffers)[n.buf := n] && at == old(at)[p := n]
      ensures Contents() == old(Contents())[p := n.AsEntry()]
    {
      at, nodes, buffers := at[p := n], nodes[n := p], buffers[n.buf := n];
      Linked(p);
      LinkedContents(p);
    }

    twostate lemma {:induction false} Linked(p: K)
      requires old(Valid()) && p !in old(at) && p in at && at == old(at)[p := at[p]] && at[p].Valid()
      requires at[p] !in old(nodes).Keys && at[p].buf !in old(buffers).Keys
      requires nodes == old(nodes)[at[p] := p] && buffers == old(buffers)[at[p].buf := at[p]]
      requires forall n :: n in old(nodes.Keys) ==> unchanged(n)
      ensures Valid()
    {
    }

    twostate lemma {:induction false} LinkedContents(p: K)
      requires old(Valid()) && Valid() && p !in old(at) && p in at && at == old(at)[p := at[p]]
      requires forall n :: n in old(nodes.Keys) ==> unchanged(n)
      requires forall b :: b in old(buffers.Keys) ==> unchanged(b)
      ensures Contents() == old(Contents())[p := at[p].AsEntry()]
    {
      assert forall q :: q in old(at) ==> at[q].AsEntry() == old(at[q].AsEntry());
      IsPut(Contents(), old(Contents()), p);
    }

    /** No buffer belongs to n any more. */
    ghost method Purge(n: MapFile)
      modifies this`buffers
      ensures forall b :: b in old(buffers) ==> (b in buffers.Keys <==> old(buffers)[b] != n)
      ensures forall b :: b in buffers.Keys ==> b in old(buffers).Keys && buffers[b] == old(buffers)[b] != n
    {
      buffers := map b | b in buffers && buffers[b] != n :: buffers[b];
    }

    twostate lemma {:induction false} Unlinked(p: K)
      requires old(Valid()) && p in old(at) && at == old(at) - {p} && nodes == old(nodes) - {old(at)[p]}
      requires forall b :: b in old(buffers) && old(buffers)[b] != old(at)[p] ==>
        b in buffers && buffers[b] == old(buffers)[b]
      requires forall b :: b in buffers.Keys ==> b in old(buffers).Keys && buffers[b] == old(buffers)[b] != old(at)[p]
      requires forall n :: n in old(nodes.Keys) ==> unchanged(n)
      requires forall b :: b in old(buffers.Keys) ==> unchanged(b)
      ensures Valid() && Contents() == old(Contents()) - {p}
    {
      assert forall q :: q in at ==> at[q].AsEntry() == old(at[q].AsEntry());
    }

    /** delete(m.files, p) */
    method Delete(p: K)
      requires Valid()
      modifies this
      ensures Valid() && Contents() == old(Contents()) - {p} && at == old(at) - {p}
      ensures Stays() && Shrinks()
      ensures p in old(at) ==> old(at)[p] !in nodes.Keys && old(at[p].buf) !in buffers.Keys
    {
      if p in at {
        Purge(at[p]);
        at, nodes := at - {p}, nodes - {at[p]};
        Unlinked(p);
      } else {
        MinusAbsent(at, p);
        MinusAbsent(Contents(), p);
      }
    }

    /** m.files[p] = n, for a node that is nowhere in the map. */
    method Put(p: K, n: MapFile)
      requires Valid() && n.Valid() && n !in nodes.Keys && n.buf !in buffers.Keys
      modifies this
      ensures Valid() && at == old(at)[p := n] && Contents() == old(Contents())[p := n.AsEntry()]
      ensures forall x :: x in nodes.Keys && x != n ==> x in old(nodes).Keys && nodes[x] == old(nodes)[x]
      ensures forall b :: b in buffers.Keys && b != n.buf ==> b in old(buffers).Keys && buffers[b] == old(buffers)[b]
      ensures p in old(at) ==> old(at)[p] !in nodes.Keys && old(at[p].buf) !in buffers.Keys
    {
      MinusPut(Contents(), p, n.AsEntry());
      MinusPut(at, p, n);
      Delete(p);
      Link(p, n);
    }

    /** m.files[p] = &MapFile{...} */
    method Store(p: K, data: seq<byte>, mode: Mode, now: int)
      requires Valid()
      modifies this
      ensures Valid() && Contents() == old(Contents())[p := Entry(mode, data, now)]
      ensures p in at && fresh(at[p]) && fresh(at[p].buf) && at == old(at)[p := at[p]]
      ensures Stays() && Lost(old(at), nodes, p)
    {
      ghost var t := Contents();
      var n := new MapFile(data, mode, now);
      Framed();
      Put(p, n);
      assert Contents() == t[p := n.AsEntry()];
    }

    /** A copy of the file under p, stored nowhere yet. */
    method Copied(p: K, mtime: int) returns (n: MapFile)
      requires Valid() && p in at
      ensures Valid() && fresh(n) && fresh(n.buf) && n.Valid()
      ensures Contents() == old(Contents()) && n.AsEntry() == Contents()[p].(mtime := mtime)
    {
      n := new MapFile.Clone(at[p], mtime);
    }

    /** A copy of the file under p, stored under k. */
    method CopyTo(p: K, k: K, mtime: int)
      requires Valid() && p in at
      modifies this
      ensures Valid() && Contents() == old(Contents())[k := old(Contents())[p].(mtime := mtime)]
      ensures Stays() && Lost(old(at), nodes, k) && k in at && at == old(at)[k := at[k]]
    {
      ghost var t := Contents();
      var n := Copied(p, mtime);
      Put(k, n);
      assert Contents() == t[k := n.AsEntry()];
    }

    /** A copy of another map's file, stored under p. */
    method Import(from: FileMap<K>, q: K, p: K)
      requires Valid() && from.Valid() && from != this && q in from.at
      modifies this
      ensures Valid() && Stays()
      ensures Contents() == old(Contents())[p := old(from.Contents()[q])]
    {
      ghost var e := from.Contents()[q];
      assert e.(mtime := from.at[q].mtime) == e;
      ghost var t := Contents();
      var n := from.Copied(q, from.at[q].mtime);
      Framed();
      Put(p, n);
      assert Contents() == t[p := e];
    }

    /** The file under p copied to k, then deleted under p. */
    method MoveTo(p: K, k: K)
      requires Valid() && p in at
      modifies this
      ensures Valid() && at.Keys == old(at.Keys) + {k} - {p} && Stays()
      ensures Lost(old(at), nodes, p) && Lost(old(at), nodes, k) && Kept(old(at), at, iset{p, k})
      ensures Contents() == old(Contents())[k := old(Contents())[p]] - {p}
    {
      ghost var t, was := Contents(), at;
      assert t[p].(mtime := at[p].mtime) == t[p];
      CopyTo(p, k, at[p].mtime);
      assert Contents() == t[k := t[p]];
      PutMinus(was, k, at[k], p);
      Delete(p);
    }

    /** All is well but for the node under p, which may have taken a new buffer. */
    ghost predicate ValidBut(p: K)
      reads this, nodes.Keys
    {
      && p in at
      && (forall q :: q in at ==>
           && at[q] in nodes.Keys && nodes[at[q]] == q && at[q].Valid()
           && (q != p ==> at[q].buf in buffers.Keys && buffers[at[q].buf] == at[q])
           && (q == p && at[q].buf in buffers.Keys ==> buffers[at[q].buf] == at[p]))
      && Exact()
    }

    /** The entry under p has changed, the others still are what they were in t. */
    ghost method Refresh(p: K, t: map<K, Entry>)
      requires ValidBut(p) && t.Keys == at.Keys
      requires forall q :: q in at && q != p ==> at[q].AsEntry() == t[q]
      modifies this`buffers
      ensures Valid() && buffers == old(buffers)[at[p].buf := at[p]]
      ensures Contents() == t[p := at[p].AsEntry()]
    {
      buffers := buffers[at[p].buf := at[p]];
      Refreshed(p);
      IsPut(Contents(), t, p);
    }

    twostate lemma {:induction false} Refreshed(p: K)
      requires old(ValidBut(p)) && at == old(at) && nodes == old(nodes)
      requires buffers == old(buffers)[at[p].buf := at[p]]
      requires forall n :: n in nodes.Keys ==> unchanged(n) && unchanged(n.buf)
      ensures Valid() && forall q :: q in at ==> at[q].AsEntry() == old(at[q].AsEntry())
    {
    }

    /** Writing to one node leaves the others alone. */
    twostate lemma {:induction false} OthersKept(p: K)
      requires old(Valid()) && p in at && at == old(at) && nodes == old(nodes) && buffers == old(buffers)
      requires at[p].Valid() && (at[p].buf == old(at[p].buf) || fresh(at[p].buf))
      requires forall n :: n in old(nodes.Keys) && n != at[p] ==> unchanged(n)
      requires forall b :: b in old(buffers.Keys) && b != old(at[p].buf) ==> unchanged(b)
      ensures ValidBut(p)
      ensures forall q :: q in at && q != p ==> at[q].AsEntry() == old(at[q].AsEntry())
    {
    }

    method AppendNode(p: K, data: seq<byte>, now: int)
      requires Valid() && p in at
      modifies at[p], at[p].buf
      ensures ValidBut(p) && at[p].AsEntry() == Entry(old(at[p].mode), old(Contents())[p].data + data, now)
      ensures at[p].buf == old(at[p].buf) || fresh(at[p].buf)
      ensures forall q :: q in at && q != p ==> at[q].AsEntry() == old(Contents())[q]
    {
      at[p].Append(data);
      at[p].Touch(now);
      OthersKept(p);
    }

    /** m.files[p].Data = bytes.Clone(data) */
    method Overwrite(p: K, data: seq<byte>, now: int)
      requires Valid() && p in at
      modifies this`buffers, at[p]
      ensures Valid() && Contents() == old(Contents())[p := Entry(old(at[p].mode), data, now)]
      ensures Stays()
    {
      ghost var t := Contents();
      at[p].Replace(data);
      at[p].Touch(now);
      OthersKept(p);
      Refresh(p, t);
    }

    /** m.files[p].Data = append(m.files[p].Data, data...) */
    method Append(p: K, data: seq<byte>, now: int)
      requires Valid() && p in at
      modifies this`buffers, at[p], at[p].buf
      ensures Valid()
      ensures Contents() == old(Contents())[p := Entry(old(at[p].mode), old(Contents()[p].data) + data, now)]
      ensures Stays()
    {
      ghost var t := Contents();
      AppendNode(p, data, now);
      Refresh(p, t);
    }
  }
}
