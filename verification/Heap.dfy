/** ca_heap_t: the array heap that is changed in place (src/ca_heap.c). Every method is proved to
    do to the live slots exactly what the function of the same purpose in HeapOrder.dfy does; the
    lemmas there say what that means for order, contents and positions. */
module Heap {
  import opened HeapOrder
  import opened Wrappers

  const INIT_SIZE := 16

  class Heap<T(0, ==, !new)> {
    var data: array<T>
    var len: nat
    var less: (T, T) -> bool
    // The last position passed to the 'record' callback for each item.
    var position: map<T, int>

    ghost predicate Valid()
      reads this
    {
      len <= data.Length
    }

    ghost function Live(): (c: Cells<T>)
      requires Valid()
      reads this, data
    {
      Cells(data[..len], position)
    }

    constructor (less: (T, T) -> bool)
      ensures Valid() && fresh(data) && data.Length == INIT_SIZE
      ensures this.less == less && Live() == Cells([], map[])
    {
      data := new T[INIT_SIZE];
      len := 0;
      this.less := less;
      position := map[];
    }

    /** ca_heap_set */
    method SetSlot(k: nat, x: T)
      requires k < data.Length
      modifies this`position, data
      ensures data[..] == old(data[..])[k := x]
      ensures position == old(position)[x := k]
    {
      data[k] := x;
      position := position[x := k];
    }

    /** ca_heap_swap */
    method SwapSlots(a: nat, b: nat, ghost n: nat)
      requires a < n && b < n && n <= data.Length
      modifies this`position, data
      ensures Cells(data[..n], position) == Swap(Cells(old(data[..n]), old(position)), a, b)
      ensures data[n..] == old(data[n..])
    {
      var tmp := data[a];
      SetSlot(a, data[b]);
      SetSlot(b, tmp);
    }

    /** ca_heap_siftdown moves the item at k towards the root. */
    method SiftDown(k: nat, ghost n: nat)
      requires k < n <= data.Length
      modifies this`position, data
      ensures Cells(data[..n], position) == Rise(less, Cells(old(data[..n]), old(position)), k)
      ensures data[n..] == old(data[n..])
    {
      ghost var before := Cells(data[..n], position);
      var i := k;
      while true
        invariant 0 <= i < n
        invariant Rise(less, Cells(data[..n], position), i) == Rise(less, before, k)
        invariant data[n..] == old(data[n..])
        decreases i
      {
        if i == 0 {
          return;
        }
        var p := (i - 1) / 2;
        if less(data[p], data[i]) {
          return;
        }
        SwapSlots(i, p, n);
        i := p;
      }
    }

    /** ca_heap_siftup moves the item at k towards the leaves, among the live slots. */
    method SiftUp(k: nat, ghost n: nat)
      requires k < n <= data.Length && len <= n
      modifies this`position, data
      ensures Cells(data[..n], position) == Sink(less, Cells(old(data[..n]), old(position)), len, k)
      ensures data[n..] == old(data[n..])
    {
      ghost var before := Cells(data[..n], position);
      var i := k;
      while true
        invariant 0 <= i < n
        invariant Sink(less, Cells(data[..n], position), len, i) == Sink(less, before, len, k)
        invariant data[n..] == old(data[n..])
        decreases n - i
      {
        var l, r, s := 2 * i + 1, 2 * i + 2, i;
        if l < len && less(data[l], data[s]) {
          s := l;
        }
        if r < len && less(data[r], data[s]) {
          s := r;
        }
        assert s == Smallest(less, data[..n], len, i);
        if s == i {
          return;
        }
        SwapSlots(i, s, n);
        i := s;
      }
    }

    /** ca_heap_insert. 'growable' is whether realloc succeeds when it is called. A failed
        insertion leaves the heap as it was. */
    method Insert(x: T, growable: bool) returns (r: int)
      requires Valid()
      modifies this, data
      ensures Valid() && less == old(less) && (data == old(data) || fresh(data))
      ensures r == if old(len) >= old(data.Length) && !growable then -1 else 0
      ensures r == -1 ==> Live() == old(Live())
      ensures r == 0 ==> Live() == HeapOrder.Insert(less, old(Live()), x)
    {
      ghost var before := Live();
      if len >= data.Length {
        if !growable {
          return -1;
        }
        var ncap := (len + 1) * 2;
        var ndata := new T[ncap];
        for i := 0 to len
          modifies ndata
          invariant ndata[..i] == data[..i]
        {
          ndata[i] := data[i];
        }
        data := ndata;
      }
      var k := len;
      len := len + 1;
      SetSlot(k, x);
      assert data[..len] == before.at + [x];
      SiftDown(k, len);
      return 0;
    }

    /** ca_heap_remove */
    method Remove(k: nat) returns (r: Option<T>)
      requires Valid()
      modifies this`len, this`position, data
      ensures Valid()
      ensures k >= old(len) ==> r == None && Live() == old(Live())
      ensures k < old(len) ==> r == Some(old(data[k])) && Live() == RemoveAt(less, old(Live()), k)
    {
      if k >= len {
        return None;
      }
      ghost var before := Live();
      var x := data[k];
      len := len - 1;
      SetSlot(k, data[len]);
      assert Cells(data[..len + 1], position) == Set(before, k, before.at[len]);
      SiftDown(k, len + 1);
      SiftUp(k, len + 1);
      position := position[x := -1];
      assert data[..len] == data[..len + 1][..len];
      return Some(x);
    }

    /** ca_heap_remove(h, 0) on a heap that is not empty, as the loops that drain a heap call it. */
    method RemoveRoot() returns (x: T)
      requires Valid() && 0 < len
      modifies this`len, this`position, data
      ensures Valid() && x == old(Live()).at[0]
      ensures Live() == RemoveAt(less, old(Live()), 0)
    {
      var r := Remove(0);
      x := r.value;
    }

    /** ca_heap_destroy. The out-parameter lists what was handed to 'ent_free', in order. */
    method Destroy() returns (freed: seq<T>)
      requires Valid()
      modifies this, data
      ensures Valid() && fresh(data) && data.Length == 0 && len == 0 && position == map[]
      ensures freed == Drain(old(less), old(Live()))
    {
      ghost var all := Drain(less, Live());
      freed := [];
      while len != 0
        invariant Valid() && less == old(less) && data == old(data)
        invariant freed + Drain(less, Live()) == all
        decreases len
      {
        var x := RemoveRoot();
        freed := freed + [x];
      }
      assert freed == all;
      data := new T[0];
      position := map[];
    }
  }
}
