/** The stored files as objects: a MapFile owns the buffer behind its Data slice. */
module Nodes {
  import opened Common
  import opened Files

  /** b laid over data from off on, with zeros in a gap. */
  function Overlay(data: seq<byte>, b: seq<byte>, off: nat): (r: seq<byte>)
    ensures |r| == if off + |b| > |data| then off + |b| else |data|
    ensures forall i :: 0 <= i < |r| ==> (r[i] ==
      if off <= i < off + |b| then b[i - off] else if i < |data| then data[i] else 0)
  {
    var n := if off + |b| > |data| then off + |b| else |data|;
    seq(n, i requires 0 <= i < n =>
      if off <= i < off + |b| then b[i - off] else if i < |data| then data[i] else 0)
  }

  /** Data is buf[..len]; the rest of buf is spare capacity. */
  class MapFile {
    var buf: array<byte>
    var len: nat
    var mode: Mode
    var mtime: int

    ghost predicate Valid()
      reads this
    {
      len <= buf.Length
    }

    ghost function Data(): seq<byte>
      reads this, buf
    {
      if len <= buf.Length then buf[..len] else []
    }

    ghost function AsEntry(): Entry
      reads this, buf
    {
      Entry(mode, Data(), mtime)
    }

    /** A new file holding a copy of data, with any spare capacity. */
    constructor (data: seq<byte>, mode: Mode, mtime: int)
      ensures Valid() && fresh(buf) && AsEntry() == Entry(mode, data, mtime)
    {
      var spare :| spare >= 0;
      buf := new byte[|data| + spare](i => if 0 <= i < |data| then data[i] else 0);
      len, this.mode, this.mtime := |data|, mode, mtime;
      new;
      assert buf[..len] == data;
    }

    /** *f copied, with Data cloned. */
    constructor Clone(f: MapFile, mtime: int)
      requires f.Valid()
      ensures Valid() && fresh(buf) && AsEntry() == f.AsEntry().(mtime := mtime)
    {
      var spare :| spare >= 0;
      var from, n := f.buf, f.len;
      buf := new byte[n + spare];
      len, mode, this.mtime := n, f.mode, mtime;
      new;
      forall i | 0 <= i < n { buf[i] := from[i]; }
      assert buf[..len] == f.Data();
    }

    /** Replace Data by a copy of data. */
    method Replace(data: seq<byte>)
      requires Valid()
      modifies this
      ensures Valid() && fresh(buf) && len == |data| && AsEntry() == old(AsEntry()).(data := data)
    {
      var spare :| spare >= 0;
      buf := new byte[|data| + spare](i => if 0 <= i < |data| then data[i] else 0);
      len := |data|;
      assert buf[..len] == data;
    }

    /** append(Data, data...): in place when the capacity allows, else into a new buffer. */
    method Append(data: seq<byte>)
      requires Valid()
      modifies this, buf
      ensures Valid() && (buf == old(buf) || fresh(buf))
      ensures len == old(len) + |data| && AsEntry() == old(AsEntry()).(data := old(Data()) + data)
    {
      if len + |data| <= buf.Length {
        forall i | 0 <= i < |data| { buf[len + i] := data[i]; }
        len := len + |data|;
        assert buf[..len] == old(buf[..len]) + data;
      } else {
        var was := buf[..len];
        Replace(was + data);
      }
    }

    /** Grow Data to n bytes, zeros behind the old ones, in a new buffer. */
    method Extend(n: nat)
      requires Valid() && n >= len
      modifies this
      ensures Valid() && fresh(buf) && len == n
      ensures AsEntry() == old(AsEntry()).(data := Overlay(old(Data()), [], n))
    {
      var was, k := buf, len;
      var bigger := new byte[n](_ => 0);
      forall i | 0 <= i < k { bigger[i] := was[i]; }
      buf, len := bigger, n;
      assert buf[..len] == Overlay(old(Data()), [], n);
    }

    /** copy(Data[off:], b): in place, as much as fits. */
    method CopyIn(b: seq<byte>, off: nat) returns (n: nat)
      requires Valid() && off <= len
      modifies buf
      ensures Valid() && len == old(len) && n == if off + |b| <= len then |b| else len - off
      ensures AsEntry() == old(AsEntry()).(data := Overlay(old(Data()), b[..n], off))
    {
      n := if off + |b| <= len then |b| else len - off;
      forall i | 0 <= i < n { buf[off + i] := b[i]; }
      assert buf[..len] == Overlay(old(Data()), b[..n], off);
    }

    /** The growing and copying of WriteAt, in machine arithmetic: None is a panic. */
    method PutAt(b: seq<byte>, off: nat, now: int) returns (n: Option<nat>)
      requires Valid() && len <= MAX_INT && |b| <= MAX_INT && off <= MAX_INT
      modifies this, buf
      ensures Valid() && len <= MAX_INT && (buf == old(buf) || fresh(buf))
      ensures AsEntry().mode == old(AsEntry()).mode
      ensures n.None? <==> off + |b| > MAX_INT && off > old(len)
      ensures n.None? ==> AsEntry() == old(AsEntry())
      ensures n.Some? ==> mtime == now && n.value == if off + |b| <= MAX_INT then |b| else old(len) - off
      ensures n.Some? && off + |b| <= MAX_INT ==> Data() == Overlay(old(Data()), b, off)
      ensures n.Some? && off + |b| > MAX_INT ==> Data() == old(Data())[..off] + b[..old(len) - off]
    {
      ExtendThenCopy(Data(), b, off);
      var needed := Wrap64(off + |b|);
      if needed > len {
        Extend(needed);
      }
      if off > len {
        return None;
      }
      var k := CopyIn(b, off);
      Touch(now);
      return Some(k);
    }

    method Touch(now: int)
      modifies this`mtime
      ensures AsEntry() == old(AsEntry()).(mtime := now)
    {
      mtime := now;
    }
  }

  // ----- What overlays promise -----

  /** First extending and then copying is the overlay. */
  lemma {:induction false} ExtendThenCopy(data: seq<byte>, b: seq<byte>, off: nat)
    ensures off + |b| > |data| ==> Overlay(Overlay(data, [], off + |b|), b, off) == Overlay(data, b, off)
    ensures off + |b| > |data| >= off ==>
      Overlay(data, b[..|data| - off], off) == data[..off] + b[..|data| - off]
  {
  }

  /** What was written is read back. */
  lemma {:induction false} OverlayReadsBack(data: seq<byte>, b: seq<byte>, off: nat)
    ensures Overlay(data, b, off)[off..off + |b|] == b
  {
    var r := Overlay(data, b, off);
    forall i | 0 <= i < |b| ensures r[off..off + |b|][i] == b[i] { assert r[off + i] == b[i]; }
  }

  /** Overlays that do not meet commute. */
  lemma {:induction false} OverlaysCommute(data: seq<byte>, a: seq<byte>, i: nat, b: seq<byte>, j: nat)
    requires i + |a| <= j || j + |b| <= i
    ensures Overlay(Overlay(data, a, i), b, j) == Overlay(Overlay(data, b, j), a, i)
  {
    var x, y := Overlay(Overlay(data, a, i), b, j), Overlay(Overlay(data, b, j), a, i);
    assert |x| == |y|;
    forall k | 0 <= k < |x| ensures x[k] == y[k] { }
  }
}
