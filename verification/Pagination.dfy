/** Paginated directory reads: the two closures that hand out a list in batches. */
module Pagination {
  import opened Common
  import opened Listing

  /** One answer; slicing beyond the bounds panics. */
  datatype Page = Page(batch: seq<FileInfo>, eof: bool) | Panic

  datatype Paged = Paged(page: Page, offset: nat)

  predicate Overflows(offset: nat, n: int) {
    n > 0 && offset + n > MAX_INT
  }

  /** The answer to a request for n entries: all the rest for n <= 0, at most n otherwise,
      with EOF exactly when n > 0 and nothing is left afterwards. */
  function NextPage(entries: seq<FileInfo>, offset: nat, n: int): (r: Paged)
    requires offset <= |entries|
    ensures offset <= r.offset <= |entries|
  {
    var left := |entries| - offset;
    if left > 0 && Overflows(offset, n) then Paged(Panic, offset)
    else
      var take := if 0 < n < left then n else left;
      Paged(Page(entries[offset..offset + take], n > 0 && take == left), offset + take)
  }

  /** A page, case by case. Only a positive request can end the list or overflow. */
  lemma {:induction false} PageIs(entries: seq<FileInfo>, i: nat, n: int)
    requires i <= |entries| <= MAX_INT
    ensures NextPage(entries, i, n) ==
      if n <= 0 then Paged(Page(entries[i..], false), |entries|)
      else if i == |entries| then Paged(Page([], true), i)
      else if i + n > MAX_INT then Paged(Panic, i)
      else if i + n < |entries| then Paged(Page(entries[i..i + n], false), i + n)
      else Paged(Page(entries[i..], true), |entries|)
  {
    assert entries[i..] == entries[i..|entries|] && (i == |entries| ==> entries[i..] == []);
  }

  /** createReadDirClosure. */
  class FsCursor {
    const entries: seq<FileInfo>
    var offset: int

    ghost predicate Valid()
      reads this
    {
      0 <= offset <= |entries| <= MAX_INT
    }

    constructor (entries: seq<FileInfo>)
      requires |entries| <= MAX_INT
      ensures Valid() && this.entries == entries && offset == 0
    {
      this.entries, offset := entries, 0;
    }

    method Next(n: int) returns (p: Page)
      requires Valid() && IsInt64(n)
      modifies this`offset
      ensures Valid() && Paged(p, offset) == NextPage(entries, old(offset), n)
    {
      var count := |entries|;
      if offset >= count {
        assert entries[offset..offset] == [];
        return Page([], n > 0);
      }
      var end := count;
      var next := Wrap64(offset + n);
      if n > 0 && next < count {
        end := Wrap64(offset + n);
      }
      if !(offset <= end <= count) {
        return Panic;
      }
      var batch := entries[offset..end];
      offset := end;
      return Page(batch, n > 0 && offset >= count);
    }
  }

  /** NewDirHandler. */
  class StaticCursor {
    const entries: seq<FileInfo>
    var offset: int

    ghost predicate Valid()
      reads this
    {
      0 <= offset <= |entries| <= MAX_INT
    }

    constructor (entries: seq<FileInfo>)
      requires |entries| <= MAX_INT
      ensures Valid() && this.entries == entries && offset == 0
    {
      this.entries, offset := entries, 0;
    }

    method Next(n: int) returns (p: Page)
      requires Valid() && IsInt64(n)
      modifies this`offset
      ensures Valid() && Paged(p, offset) == NextPage(entries, old(offset), n)
    {
      if offset >= |entries| {
        assert entries[offset..offset] == [];
        return Page([], n > 0);
      }
      var end := Wrap64(offset + n);
      if n <= 0 {
        end := |entries|;
      }
      if end > |entries| {
        end := |entries|;
      }
      if !(offset <= end <= |entries|) {
        return Panic;
      }
      var batch := entries[offset..end];
      offset := end;
      return Page(batch, n > 0 && offset >= |entries|);
    }
  }

  // ----- Whole conversations -----

  datatype Talk = Talk(pages: seq<Page>, offset: nat)

  function Conversation(entries: seq<FileInfo>, offset: nat, ns: seq<int>): (t: Talk)
    requires offset <= |entries|
    ensures offset <= t.offset <= |entries| && |t.pages| == |ns|
    decreases |ns|
  {
    if ns == [] then Talk([], offset)
    else
      var p := NextPage(entries, offset, ns[0]);
      var t := Conversation(entries, p.offset, ns[1..]);
      Talk([p.page] + t.pages, t.offset)
  }

  lemma {:induction false} OneMore(entries: seq<FileInfo>, offset: nat, ns: seq<int>, n: int)
    requires offset <= |entries|
    ensures var t := Conversation(entries, offset, ns); var p := NextPage(entries, t.offset, n);
      Conversation(entries, offset, ns + [n]) == Talk(t.pages + [p.page], p.offset)
    decreases |ns|
  {
    if ns == [] {
      assert (ns + [n])[1..] == [];
    } else {
      var p := NextPage(entries, offset, ns[0]);
      OneMore(entries, p.offset, ns[1..], n);
      assert (ns + [n])[1..] == ns[1..] + [n];
    }
  }

  /** The two closures give the same answers to every sequence of requests, panics
      included, and end at the same place. */
  method AskBoth(a: FsCursor, b: StaticCursor, ns: seq<int>) returns (xs: seq<Page>, ys: seq<Page>)
    requires a.Valid() && b.Valid() && a.entries == b.entries && a.offset == b.offset
    requires forall i :: 0 <= i < |ns| ==> IsInt64(ns[i])
    modifies a`offset, b`offset
    ensures xs == ys && a.offset == b.offset && a.Valid() && b.Valid()
    ensures Talk(xs, a.offset) == Conversation(a.entries, old(a.offset), ns)
  {
    ghost var start := a.offset;
    xs, ys := [], [];
    for i := 0 to |ns|
      invariant xs == ys && a.offset == b.offset && a.Valid() && b.Valid()
      invariant Talk(xs, a.offset) == Conversation(a.entries, start, ns[..i])
    {
      OneMore(a.entries, start, ns[..i], ns[i]);
      assert ns[..i + 1] == ns[..i] + [ns[i]];
      var p := a.Next(ns[i]);
      var q := b.Next(ns[i]);
      xs, ys := xs + [p], ys + [q];
    }
    assert ns[..|ns|] == ns;
  }

  function Batches(pages: seq<Page>): seq<FileInfo> {
    if pages == [] then []
    else (if pages[0].Page? then pages[0].batch else []) + Batches(pages[1..])
  }

  /** No entry is skipped or repeated: the batches, one after the other, are the stretch
      of the entries between the first and the last offset. */
  lemma {:induction false} BatchesAreAStretch(entries: seq<FileInfo>, offset: nat, ns: seq<int>)
    requires offset <= |entries|
    ensures var t := Conversation(entries, offset, ns);
      Batches(t.pages) == entries[offset..t.offset]
    decreases |ns|
  {
    if ns != [] {
      var p := NextPage(entries, offset, ns[0]);
      var t := Conversation(entries, p.offset, ns[1..]);
      BatchesAreAStretch(entries, p.offset, ns[1..]);
      assert ([p.page] + t.pages)[1..] == t.pages;
      assert entries[offset..p.offset] + entries[p.offset..t.offset] == entries[offset..t.offset];
    }
  }

  function Requested(ns: seq<int>): int {
    if ns == [] then 0 else ns[0] + Requested(ns[1..])
  }

  /** Positive requests that do not overflow: the offset advances by what was asked until
      the end; the last page carries EOF exactly when the requests so far reach the end,
      and a page is short only when it carries EOF. */
  lemma {:induction false} PositiveRequests(entries: seq<FileInfo>, offset: nat, ns: seq<int>, k: nat)
    requires offset <= |entries| && k < |ns|
    requires forall i :: 0 <= i < |ns| ==> ns[i] > 0
    requires |entries| + Requested(ns) <= MAX_INT
    ensures var t := Conversation(entries, offset, ns);
      && t.pages[k].Page?
      && (t.pages[k].eof <==> offset + Requested(ns[..k+1]) >= |entries|)
      && (|t.pages[k].batch| == ns[k] || t.pages[k].eof)
    decreases |ns|
  {
    RequestedGrows(ns);
    RequestedGrows(ns[1..]);
    var p := NextPage(entries, offset, ns[0]);
    assert ns[..k+1][1..] == ns[1..][..k];
    RequestedGrows(ns[1..][..k]);
    if k > 0 {
      PositiveRequests(entries, p.offset, ns[1..], k - 1);
    } else {
      assert ns[..1][1..] == [];
    }
  }

  lemma {:induction false} RequestedGrows(ns: seq<int>)
    requires forall i :: 0 <= i < |ns| ==> ns[i] > 0
    ensures Requested(ns) >= |ns|
    ensures ns != [] ==> Requested(ns) >= ns[0]
  {
    if ns != [] { RequestedGrows(ns[1..]); }
  }
}
