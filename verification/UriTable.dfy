/** The lock table of httpserver.c: which slot stands for which URI, and how many
    sessions use it. */
module UriTable {

  datatype Option<T> = None | Some(value: T)

  type Uri = string

  datatype Table = Table(list: seq<Option<Uri>>, count: seq<int>)

  function NewTable(n: nat): Table {
    Table(seq(n, _ => None), seq(n, _ => 0))
  }

  /** job_find_uri: the first slot of the URI, or -1. */
  function FindFrom(list: seq<Option<Uri>>, uri: Uri, i: nat): (r: int)
    requires i <= |list|
    decreases |list| - i
  {
    if i == |list| then -1 else if list[i] == Some(uri) then i else FindFrom(list, uri, i + 1)
  }

  function Find(t: Table, uri: Uri): int {
    FindFrom(t.list, uri, 0)
  }

  /** The first slot that no session uses, or -1. */
  function FreeFrom(count: seq<int>, i: nat): (r: int)
    requires i <= |count|
    decreases |count| - i
  {
    if i == |count| then -1 else if count[i] == 0 then i else FreeFrom(count, i + 1)
  }

  /** The slot job_get_lock picks; -1 if the table is full. */
  function SlotFor(t: Table, uri: Uri): int {
    if Find(t, uri) != -1 then Find(t, uri) else FreeFrom(t.count, 0)
  }

  function Get(t: Table, uri: Uri): (r: Table)
    requires |t.list| == |t.count| && 0 <= SlotFor(t, uri) < |t.list|
  {
    var i := SlotFor(t, uri);
    Table(if Find(t, uri) == -1 then t.list[i := Some(uri)] else t.list, t.count[i := t.count[i] + 1])
  }

  function Return(t: Table, uri: Uri): (r: Table)
    requires |t.list| == |t.count|
  {
    var i := Find(t, uri);
    if 0 <= i < |t.list| then
      Table(if t.count[i] - 1 == 0 then t.list[i := None] else t.list, t.count[i := t.count[i] - 1])
    else t
  }

  lemma {:induction false} FindFromFinds(list: seq<Option<Uri>>, uri: Uri, i: nat)
    requires i <= |list|
    ensures FindFrom(list, uri, i) == -1 <==> forall k :: i <= k < |list| ==> list[k] != Some(uri)
    ensures FindFrom(list, uri, i) != -1 ==>
              && i <= FindFrom(list, uri, i) < |list| && list[FindFrom(list, uri, i)] == Some(uri)
              && forall k :: i <= k < FindFrom(list, uri, i) ==> list[k] != Some(uri)
    decreases |list| - i
  {
    if i < |list| && list[i] != Some(uri) {
      FindFromFinds(list, uri, i + 1);
    }
  }

  lemma {:induction false} FreeFromFinds(count: seq<int>, i: nat)
    requires i <= |count|
    ensures FreeFrom(count, i) == -1 <==> forall k :: i <= k < |count| ==> count[k] != 0
    ensures FreeFrom(count, i) != -1 ==>
              && i <= FreeFrom(count, i) < |count| && count[FreeFrom(count, i)] == 0
              && forall k :: i <= k < FreeFrom(count, i) ==> count[k] != 0
    decreases |count| - i
  {
    if i < |count| && count[i] != 0 {
      FreeFromFinds(count, i + 1);
    }
  }

  /** A slot is in use exactly if it stands for a URI. */
  ghost predicate Fitting(t: Table) {
    && |t.list| == |t.count|
    && forall i :: 0 <= i < |t.list| ==> (t.list[i] == None <==> t.count[i] == 0)
  }

  /** Giving a slot back undoes taking it. */
  lemma GetThenReturn(t: Table, uri: Uri)
    requires Fitting(t) && SlotFor(t, uri) != -1
    ensures 0 <= SlotFor(t, uri) < |t.list| && Return(Get(t, uri), uri) == t
  {
    FindFromFinds(t.list, uri, 0);
    FreeFromFinds(t.count, 0);
    var r := Get(t, uri);
    FindFromFinds(r.list, uri, 0);
    assert r.list[SlotFor(t, uri)] == Some(uri);
    assert Find(r, uri) == SlotFor(t, uri);
    assert Return(r, uri).list == t.list && Return(r, uri).count == t.count;
  }

  /** The fields of job_t behind the table.  Every method runs under job_lock. */
  class JobTable {
    const numThreads: nat
    const uriList: array<Option<Uri>>
    const uriCount: array<int>

    ghost predicate Valid() {
      uriList.Length == uriCount.Length == numThreads
    }

    ghost function Contents(): Table
      reads uriList, uriCount
    {
      Table(uriList[..], uriCount[..])
    }

    constructor (n: nat)
      ensures Valid() && numThreads == n && Contents() == NewTable(n)
      ensures fresh(uriList) && fresh(uriCount)
    {
      numThreads := n;
      uriList := new Option<Uri>[n](_ => None);
      uriCount := new int[n](_ => 0);
    }

    method FindUri(uri: Uri) returns (r: int)
      requires Valid()
      ensures r == Find(Contents(), uri)
    {
      FindFromFinds(uriList[..], uri, 0);
      for i := 0 to numThreads
        invariant forall k :: 0 <= k < i ==> uriList[k] != Some(uri)
      {
        if uriList[i] != None {
          if uriList[i] == Some(uri) {
            return i;
          }
        }
      }
      return -1;
    }

    /** job_get_lock.  When every slot is in use by other URIs the source would
        write before the start of its arrays, so the caller must rule that out. */
    method GetLock(uri: Uri) returns (slot: int)
      requires Valid() && SlotFor(Contents(), uri) != -1
      modifies uriList, uriCount
      ensures 0 <= slot < numThreads && slot == SlotFor(old(Contents()), uri)
      ensures Contents() == Get(old(Contents()), uri)
    {
      FindFromFinds(uriList[..], uri, 0);
      FreeFromFinds(uriCount[..], 0);
      slot := FindUri(uri);
      if slot == -1 {
        for i := 0 to numThreads
          invariant slot == -1 && Contents() == old(Contents())
          invariant forall k :: 0 <= k < i ==> uriCount[k] != 0
        {
          if uriCount[i] == 0 {
            slot := i;
            uriList[slot] := Some(uri);
            break;
          }
        }
      }
      uriCount[slot] := uriCount[slot] + 1;
    }

    method ReturnLock(uri: Uri)
      requires Valid()
      modifies uriList, uriCount
      ensures Contents() == Return(old(Contents()), uri)
    {
      FindFromFinds(uriList[..], uri, 0);
      var i := FindUri(uri);
      if i != -1 {
        uriCount[i] := uriCount[i] - 1;
        if uriCount[i] == 0 {
          uriList[i] := None;
        }
      }
    }
  }
}
