/** The binary heap of src/ca_heap.c as functions on sequences. The class in Heap.dfy is proved
    against them, and the thread pool uses them for its task queue. */
module HeapOrder {

  /** What a comparison callback has to be for a heap to mean anything: asymmetric, and with
      "neither is less" transitive, so that ties are allowed. */
  ghost predicate StrictWeakOrder<T(!new)>(less: (T, T) -> bool) {
    && (forall x, y :: less(x, y) ==> !less(y, x))
    && (forall x, y, z {:trigger less(y, x), less(z, y)} :: !less(y, x) && !less(z, y) ==> !less(z, x))
  }

  /** The slots of the heap array, and the position last reported for each item to the
      'record' callback. */
  datatype Cells<T> = Cells(at: seq<T>, pos: map<T, int>)

  function Parent(k: nat): (p: nat)
    requires 0 < k
    ensures p < k
  {
    (k - 1) / 2
  }

  ghost predicate IsHeap<T>(less: (T, T) -> bool, at: seq<T>, n: nat)
    requires n <= |at|
  {
    forall c {:trigger at[c]} :: 0 < c < n ==> !less(at[c], at[Parent(c)])
  }

  // --- the operations ----------------------------------------------------------------------

  function Set<T>(c: Cells<T>, k: nat, x: T): Cells<T>
    requires k < |c.at|
  {
    Cells(c.at[k := x], c.pos[x := k])
  }

  function Swap<T>(c: Cells<T>, a: nat, b: nat): (r: Cells<T>)
    requires a < |c.at| && b < |c.at|
    ensures r.at == c.at[a := c.at[b]][b := c.at[a]]
  {
    Set(Set(c, a, c.at[b]), b, c.at[a])
  }

  /** The loop of ca_heap_siftdown: towards the root, through ties as well. */
  function Rise<T>(less: (T, T) -> bool, c: Cells<T>, k: nat): (r: Cells<T>)
    requires k < |c.at|
    ensures |r.at| == |c.at|
    decreases k
  {
    if k == 0 || less(c.at[Parent(k)], c.at[k]) then c
    else Rise(less, Swap(c, k, Parent(k)), Parent(k))
  }

  function Smallest<T>(less: (T, T) -> bool, at: seq<T>, n: nat, k: nat): (s: nat)
    requires k < |at| && n <= |at|
    ensures s == k || (s < n && 0 < s && Parent(s) == k)
  {
    var s0 := if 2 * k + 1 < n && less(at[2 * k + 1], at[k]) then 2 * k + 1 else k;
    if 2 * k + 2 < n && less(at[2 * k + 2], at[s0]) then 2 * k + 2 else s0
  }

  /** The loop of ca_heap_siftup: towards the leaves, among the first n slots. */
  function Sink<T>(less: (T, T) -> bool, c: Cells<T>, n: nat, k: nat): (r: Cells<T>)
    requires k < |c.at| && n <= |c.at|
    ensures |r.at| == |c.at|
    decreases |c.at| - k
  {
    var s := Smallest(less, c.at, n, k);
    if s == k then c else Sink(less, Swap(c, k, s), n, s)
  }

  function Insert<T>(less: (T, T) -> bool, c: Cells<T>, x: T): (r: Cells<T>)
    ensures |r.at| == |c.at| + 1
  {
    var n := |c.at|;
    Rise(less, Cells(c.at + [x], c.pos[x := n]), n)
  }

  /** ca_heap_remove at an index that is in range. Slot n-1 is still there while the items
      move, although the heap no longer owns it. */
  function RemoveAt<T>(less: (T, T) -> bool, c: Cells<T>, k: nat): (r: Cells<T>)
    requires k < |c.at|
    ensures |r.at| == |c.at| - 1
  {
    var n := |c.at| - 1;
    var moved := Sink(less, Rise(less, Set(c, k, c.at[n]), k), n, k);
    Cells(moved.at[..n], moved.pos[c.at[k] := -1])
  }

  /** Slot k is the last one and its parent is not strictly less: the case in which
      ca_heap_siftdown swaps the removed item back among the live ones. */
  predicate TiedLast<T>(less: (T, T) -> bool, at: seq<T>, k: nat)
    requires k < |at|
  {
    k == |at| - 1 && 0 < k && !less(at[Parent(k)], at[k])
  }

  function Lost<T>(less: (T, T) -> bool, at: seq<T>, k: nat): T
    requires k < |at|
  {
    if TiedLast(less, at, k) then at[Parent(k)] else at[k]
  }

  function Drain<T>(less: (T, T) -> bool, c: Cells<T>): seq<T>
    decreases |c.at|
  {
    if c.at == [] then [] else [c.at[0]] + Drain(less, RemoveAt(less, c, 0))
  }

  // --- order and contents ------------------------------------------------------------------

  /** Heap order on every edge that does not touch slot k, and from k's parent straight to
      k's children. */
  ghost predicate HeapAround<T>(less: (T, T) -> bool, at: seq<T>, n: nat, k: nat)
    requires n <= |at| && k < |at|
  {
    && (forall c {:trigger at[c]} :: 0 < c < n && c != k && Parent(c) != k ==> !less(at[c], at[Parent(c)]))
    && (0 < k ==> forall c {:trigger at[c]} :: 0 < c < n && Parent(c) == k ==> !less(at[c], at[Parent(k)]))
  }

  ghost predicate OrderedBelow<T>(less: (T, T) -> bool, at: seq<T>, n: nat, k: nat)
    requires n <= |at| && k < |at|
  {
    forall c {:trigger at[c]} :: 0 < c < n && Parent(c) == k ==> !less(at[c], at[k])
  }

  lemma SwapContents<T>(c: Cells<T>, a: nat, b: nat)
    requires a < |c.at| && b < |c.at|
    ensures multiset(Swap(c, a, b).at) == multiset(c.at)
  {
  }

  lemma {:induction false} RiseContents<T>(less: (T, T) -> bool, c: Cells<T>, k: nat)
    requires k < |c.at|
    ensures multiset(Rise(less, c, k).at) == multiset(c.at)
    ensures forall i :: k < i < |c.at| ==> Rise(less, c, k).at[i] == c.at[i]
    ensures 0 < k && !less(c.at[Parent(k)], c.at[k]) ==> Rise(less, c, k).at[k] == c.at[Parent(k)]
    decreases k
  {
    if !(k == 0 || less(c.at[Parent(k)], c.at[k])) {
      SwapContents(c, k, Parent(k));
      RiseContents(less, Swap(c, k, Parent(k)), Parent(k));
    }
  }

  lemma {:induction false} SinkContents<T>(less: (T, T) -> bool, c: Cells<T>, n: nat, k: nat)
    requires k < |c.at| && n <= |c.at|
    ensures multiset(Sink(less, c, n, k).at) == multiset(c.at)
    ensures forall i :: n <= i < |c.at| && i != k ==> Sink(less, c, n, k).at[i] == c.at[i]
    ensures n <= k ==> Sink(less, c, n, k) == c
    decreases |c.at| - k
  {
    var s := Smallest(less, c.at, n, k);
    if s != k {
      SwapContents(c, k, s);
      SinkContents(less, Swap(c, k, s), n, s);
    }
  }

  /** An item placed at k rises to a slot where everything is in order, as long as nothing
      below k is smaller than it. */
  lemma {:induction false} RiseOrders<T(!new)>(less: (T, T) -> bool, c: Cells<T>, n: nat, k: nat)
    requires StrictWeakOrder(less)
    requires k < n <= |c.at|
    requires HeapAround(less, c.at, n, k) && OrderedBelow(less, c.at, n, k)
    ensures IsHeap(less, Rise(less, c, k).at, n)
    decreases k
  {
    if !(k == 0 || less(c.at[Parent(k)], c.at[k])) {
      SwapUp(less, c, n, k);
      RiseOrders(less, Swap(c, k, Parent(k)), n, Parent(k));
    }
  }

  /** One swap towards the root leaves order everywhere except above the new slot. */
  lemma SwapUp<T(!new)>(less: (T, T) -> bool, c: Cells<T>, n: nat, k: nat)
    requires StrictWeakOrder(less)
    requires 0 < k < n <= |c.at|
    requires !less(c.at[Parent(k)], c.at[k])
    requires HeapAround(less, c.at, n, k)
    ensures HeapAround(less, Swap(c, k, Parent(k)).at, n, Parent(k))
    ensures OrderedBelow(less, Swap(c, k, Parent(k)).at, n, Parent(k))
  {
    var p := Parent(k);
    var at, at' := c.at, Swap(c, k, p).at;
    forall j | 0 < j < n && Parent(j) == p
      ensures !less(at'[j], at'[p])
    {
      assert j != k ==> !less(at[j], at[p]);
    }
    forall j | 0 < j < n && j != p && Parent(j) != p
      ensures !less(at'[j], at'[Parent(j)])
    {
      assert at[j] == at'[j];
    }
    if 0 < p {
      forall j | 0 < j < n && Parent(j) == p
        ensures !less(at'[j], at'[Parent(p)])
      {
        assert !less(at[p], at[Parent(p)]);
        assert j != k ==> !less(at[j], at[p]);
      }
    }
  }

  lemma SmallestIsLeast<T(!new)>(less: (T, T) -> bool, at: seq<T>, n: nat, k: nat)
    requires StrictWeakOrder(less)
    requires k < n <= |at|
    ensures var s := Smallest(less, at, n, k);
            && (forall j {:trigger at[j]} :: 0 < j < n && Parent(j) == k ==> !less(at[j], at[s]))
            && (s != k ==> less(at[s], at[k]))
  {
    assert forall j :: 0 < j < n && Parent(j) == k ==> j == 2 * k + 1 || j == 2 * k + 2;
  }

  /** One swap towards the leaves leaves order everywhere except below the new slot. */
  lemma SwapDown<T(!new)>(less: (T, T) -> bool, c: Cells<T>, n: nat, k: nat)
    requires StrictWeakOrder(less)
    requires k < n <= |c.at|
    requires HeapAround(less, c.at, n, k)
    requires Smallest(less, c.at, n, k) != k
    ensures var s := Smallest(less, c.at, n, k);
            && HeapAround(less, Swap(c, k, s).at, n, s)
            && !less(Swap(c, k, s).at[s], Swap(c, k, s).at[k])
  {
    SmallestIsLeast(less, c.at, n, k);
    var s := Smallest(less, c.at, n, k);
    var at, at' := c.at, Swap(c, k, s).at;
    forall j | 0 < j < n && j != s && Parent(j) != s
      ensures !less(at'[j], at'[Parent(j)])
    {
      if j == k {
        assert !less(at[s], at[Parent(k)]);
      } else if Parent(j) == k {
        assert at'[j] == at[j] && at'[k] == at[s];
      } else {
        assert at'[j] == at[j] && at'[Parent(j)] == at[Parent(j)];
      }
    }
    forall j | 0 < j < n && Parent(j) == s
      ensures !less(at'[j], at'[Parent(s)])
    {
      assert at'[j] == at[j] && at'[Parent(s)] == at[s];
    }
  }

  lemma {:induction false} SinkOrders<T(!new)>(less: (T, T) -> bool, c: Cells<T>, n: nat, k: nat)
    requires StrictWeakOrder(less)
    requires k < n <= |c.at|
    requires HeapAround(less, c.at, n, k)
    requires 0 < k ==> !less(c.at[k], c.at[Parent(k)])
    ensures IsHeap(less, Sink(less, c, n, k).at, n)
    decreases |c.at| - k
  {
    var s := Smallest(less, c.at, n, k);
    if s != k {
      SwapDown(less, c, n, k);
      SinkOrders(less, Swap(c, k, s), n, s);
    } else {
      SmallestIsLeast(less, c.at, n, k);
    }
  }

  /** Where everything is already in order, ca_heap_siftup moves nothing. */
  lemma SinkIdle<T>(less: (T, T) -> bool, c: Cells<T>, n: nat, k: nat)
    requires k < |c.at| && n <= |c.at|
    requires OrderedBelow(less, c.at, n, k)
    ensures Sink(less, c, n, k) == c
  {
    if 2 * k + 1 < n {
      assert Parent(2 * k + 1) == k;
    }
    if 2 * k + 2 < n {
      assert Parent(2 * k + 2) == k;
    }
  }

  lemma InsertOrders<T(!new)>(less: (T, T) -> bool, c: Cells<T>, x: T)
    requires StrictWeakOrder(less) && IsHeap(less, c.at, |c.at|)
    ensures IsHeap(less, Insert(less, c, x).at, |c.at| + 1)
    ensures multiset(Insert(less, c, x).at) == multiset(c.at) + multiset{x}
  {
    var n := |c.at|;
    var c0 := Cells(c.at + [x], c.pos[x := n]);
    forall j | 0 < j < n
      ensures !less(c0.at[j], c0.at[Parent(j)])
    {
      assert !less(c.at[j], c.at[Parent(j)]);
    }
    RiseContents(less, c0, n);
    RiseOrders(less, c0, n + 1, n);
  }

  /** After an item has risen from slot k, the sift the other way from the same k is idle:
      what it finds there is the old parent of k. */
  lemma RiseThenSinkIdle<T(!new)>(less: (T, T) -> bool, c: Cells<T>, n: nat, k: nat)
    requires StrictWeakOrder(less)
    requires 0 < k < n <= |c.at|
    requires HeapAround(less, c.at, n, k) && !less(c.at[Parent(k)], c.at[k])
    ensures IsHeap(less, Rise(less, c, k).at, n)
    ensures Sink(less, Rise(less, c, k), n, k) == Rise(less, c, k)
  {
    var c1 := Swap(c, k, Parent(k));
    SwapUp(less, c, n, k);
    RiseOrders(less, c1, n, Parent(k));
    var r := Rise(less, c, k);
    forall j | 0 < j < n && Parent(j) == k
      ensures !less(r.at[j], r.at[k])
    {
    }
    SinkIdle(less, r, n, k);
  }

  /** Both sifts after slot k was overwritten put the first n slots in order and lose nothing. */
  lemma Resift<T(!new)>(less: (T, T) -> bool, c: Cells<T>, n: nat, k: nat)
    requires StrictWeakOrder(less)
    requires k < n <= |c.at|
    requires HeapAround(less, c.at, n, k)
    ensures var r := Sink(less, Rise(less, c, k), n, k);
            && IsHeap(less, r.at, n)
            && multiset(r.at) == multiset(c.at)
            && (forall i :: n <= i < |c.at| ==> r.at[i] == c.at[i])
  {
    RiseContents(less, c, k);
    SinkContents(less, Rise(less, c, k), n, k);
    if 0 < k && !less(c.at[Parent(k)], c.at[k]) {
      RiseThenSinkIdle(less, c, n, k);
    } else {
      assert Rise(less, c, k) == c;
      SinkOrders(less, c, n, k);
    }
  }

  lemma DropLast<T>(s: seq<T>)
    requires 0 < |s|
    ensures multiset(s[..|s| - 1]) == multiset(s) - multiset{s[|s| - 1]}
  {
    assert s == s[..|s| - 1] + [s[|s| - 1]];
  }

  lemma OverwriteAround<T(!new)>(less: (T, T) -> bool, at: seq<T>, n: nat, k: nat, x: T)
    requires StrictWeakOrder(less)
    requires k < n <= |at| && IsHeap(less, at, n)
    ensures HeapAround(less, at[k := x], n, k)
  {
    forall j | 0 < j < n && Parent(j) == k && 0 < k
      ensures !less(at[k := x][j], at[k := x][Parent(k)])
    {
      assert !less(at[j], at[k]) && !less(at[k], at[Parent(k)]);
    }
  }

  lemma HeapPrefix<T>(less: (T, T) -> bool, at: seq<T>, n: nat)
    requires n <= |at| && IsHeap(less, at, n)
    ensures IsHeap(less, at[..n], n)
  {
  }

  lemma ResiftOverwritten<T(!new)>(less: (T, T) -> bool, c: Cells<T>, k: nat)
    requires StrictWeakOrder(less) && IsHeap(less, c.at, |c.at|)
    requires k < |c.at| - 1
    ensures var n := |c.at| - 1;
            var r := Sink(less, Rise(less, Set(c, k, c.at[n]), k), n, k).at;
            |r| == n + 1 && IsHeap(less, r, n) && multiset(r) == multiset(c.at[k := c.at[n]]) && r[n] == c.at[n]
  {
    var n := |c.at| - 1;
    assert IsHeap(less, c.at, n);
    OverwriteAround(less, c.at, n, k, c.at[n]);
    hide Sink, Rise, Parent, IsHeap, HeapAround, StrictWeakOrder;
    Resift(less, Set(c, k, c.at[n]), n, k);
  }

  lemma RemoveInside<T(!new)>(less: (T, T) -> bool, c: Cells<T>, k: nat)
    requires StrictWeakOrder(less) && IsHeap(less, c.at, |c.at|)
    requires k < |c.at| - 1
    ensures IsHeap(less, RemoveAt(less, c, k).at, |c.at| - 1)
    ensures multiset(RemoveAt(less, c, k).at) == multiset(c.at) - multiset{c.at[k]}
  {
    var n := |c.at| - 1;
    var r := Sink(less, Rise(less, Set(c, k, c.at[n]), k), n, k).at;
    assert RemoveAt(less, c, k).at == r[..n];
    hide RemoveAt, Sink, Rise, Parent, IsHeap, StrictWeakOrder, Set;
    ResiftOverwritten(less, c, k);
    HeapPrefix(less, r, n);
    OverwriteContents(c.at, k);
    DropLast(r);
  }

  lemma RiseLast<T(!new)>(less: (T, T) -> bool, c: Cells<T>)
    requires StrictWeakOrder(less) && IsHeap(less, c.at, |c.at|)
    requires 0 < |c.at|
    ensures IsHeap(less, Rise(less, c, |c.at| - 1).at, |c.at|)
  {
    var k := |c.at| - 1;
    assert forall j :: 0 < j < |c.at| ==> Parent(j) != k;
    RiseOrders(less, c, |c.at|, k);
  }

  /** Removing the last slot is one sift towards the root, with the slot cut off afterwards. */
  lemma RemoveLastContents<T>(less: (T, T) -> bool, c: Cells<T>)
    requires 0 < |c.at|
    ensures var k := |c.at| - 1;
            && RemoveAt(less, c, k).at == Rise(less, Set(c, k, c.at[k]), k).at[..k]
            && multiset(RemoveAt(less, c, k).at) == multiset(c.at) - multiset{Lost(less, c.at, k)}
  {
    hide Parent;
    var k := |c.at| - 1;
    var c1 := Set(c, k, c.at[k]);
    assert c1.at == c.at;
    var r := Rise(less, c1, k);
    RiseContents(less, c1, k);
    SinkContents(less, r, k, k);
    DropLast(r.at);
    assert r.at[k] == Lost(less, c.at, k);
  }

  lemma RemoveLast<T(!new)>(less: (T, T) -> bool, c: Cells<T>)
    requires StrictWeakOrder(less) && IsHeap(less, c.at, |c.at|)
    requires 0 < |c.at|
    ensures IsHeap(less, RemoveAt(less, c, |c.at| - 1).at, |c.at| - 1)
  {
    var k := |c.at| - 1;
    RemoveLastContents(less, c);
    RiseLast(less, Set(c, k, c.at[k]));
  }

  /** Removal at any index of a heap leaves a heap, and what leaves the heap is exactly Lost:
      the item asked for, except in the tied last slot. */
  lemma RemoveOrders<T(!new)>(less: (T, T) -> bool, c: Cells<T>, k: nat)
    requires StrictWeakOrder(less) && IsHeap(less, c.at, |c.at|)
    requires k < |c.at|
    ensures IsHeap(less, RemoveAt(less, c, k).at, |c.at| - 1)
    ensures multiset(RemoveAt(less, c, k).at) == multiset(c.at) - multiset{Lost(less, c.at, k)}
  {
    hide RemoveAt, Sink, Rise, Parent, IsHeap;
    if k < |c.at| - 1 {
      RemoveInside(less, c, k);
    } else {
      assert k == |c.at| - 1;
      RemoveLastContents(less, c);
      RemoveLast(less, c);
    }
  }

  /** The item asked for is what the heap loses if and only if the slot is not a tied last
      one, or holds the very item its parent holds. */
  lemma RemovesTheItemIff<T(!new)>(less: (T, T) -> bool, c: Cells<T>, k: nat)
    requires StrictWeakOrder(less) && IsHeap(less, c.at, |c.at|)
    requires k < |c.at|
    ensures multiset(RemoveAt(less, c, k).at) == multiset(c.at) - multiset{c.at[k]}
       <==> k == 0 || k < |c.at| - 1 || less(c.at[Parent(k)], c.at[k]) || c.at[Parent(k)] == c.at[k]
  {
    RemoveOrders(less, c, k);
    var lost := Lost(less, c.at, k);
    if lost != c.at[k] {
      assert (multiset(c.at) - multiset{lost})[lost] == multiset(c.at)[lost] - 1;
      assert (multiset(c.at) - multiset{c.at[k]})[lost] == multiset(c.at)[lost];
    }
  }

  lemma OverwriteContents<T>(s: seq<T>, k: nat)
    requires k < |s| - 1
    ensures multiset(s[k := s[|s| - 1]]) - multiset{s[|s| - 1]} == multiset(s) - multiset{s[k]}
  {
    assert multiset(s[k := s[|s| - 1]]) == multiset(s) - multiset{s[k]} + multiset{s[|s| - 1]};
  }

  /** The failing case at its smallest: two items of equal priority, and the second one is
      asked for. It is returned, and it is also what stays in the heap. */
  lemma TiedLastExample()
    ensures var byPriority := (a: (string, int), b: (string, int)) => a.1 < b.1;
            RemoveAt(byPriority, Cells([("first", 7), ("second", 7)], map[]), 1).at == [("second", 7)]
  {
    var byPriority := (a: (string, int), b: (string, int)) => a.1 < b.1;
    var c := Cells([("first", 7), ("second", 7)], map[]);
    RemoveLastContents(byPriority, c);
    RiseContents(byPriority, Set(c, 1, c.at[1]), 1);
    var c2 := Swap(Set(c, 1, c.at[1]), 1, 0);
    assert Rise(byPriority, c2, 0) == c2;
  }

  lemma {:induction false} RootIsLeast<T(!new)>(less: (T, T) -> bool, at: seq<T>, n: nat, i: nat)
    requires StrictWeakOrder(less) && i < n <= |at| && IsHeap(less, at, n)
    ensures !less(at[i], at[0])
    decreases i
  {
    if 0 < i {
      RootIsLeast(less, at, n, Parent(i));
      assert !less(at[i], at[Parent(i)]);
    }
  }

  // --- the position index ------------------------------------------------------------------

  /** The callback's last word on every item: its slot if it is among the first n, and -1 if
      it is not. Items in 'gone' are in transit. It implies that the items are distinct. */
  ghost predicate Indexed<T>(at: seq<T>, pos: map<T, int>, n: nat, gone: set<T>)
    requires n <= |at|
  {
    && (forall i {:trigger at[i]} :: 0 <= i < n ==> at[i] in pos && pos[at[i]] == i)
    && (forall y {:trigger pos[y]} :: y in pos && y !in gone ==>
          pos[y] == -1 || (0 <= pos[y] < n && at[pos[y]] == y))
  }

  lemma SwapIndexed<T>(c: Cells<T>, a: nat, b: nat, n: nat, gone: set<T>)
    requires a < n && b < n <= |c.at| && a != b
    requires Indexed(c.at, c.pos, n, gone)
    ensures Indexed(Swap(c, a, b).at, Swap(c, a, b).pos, n, gone)
  {
    assert c.pos[c.at[a]] == a && c.pos[c.at[b]] == b;
  }

  lemma {:induction false} RiseIndexed<T>(less: (T, T) -> bool, c: Cells<T>, k: nat, n: nat, gone: set<T>)
    requires k < n <= |c.at|
    requires Indexed(c.at, c.pos, n, gone)
    ensures var r := Rise(less, c, k); Indexed(r.at, r.pos, n, gone)
    decreases k
  {
    if !(k == 0 || less(c.at[Parent(k)], c.at[k])) {
      SwapIndexed(c, k, Parent(k), n, gone);
      RiseIndexed(less, Swap(c, k, Parent(k)), Parent(k), n, gone);
    }
  }

  lemma {:induction false} SinkIndexed<T>(less: (T, T) -> bool, c: Cells<T>, n: nat, k: nat, gone: set<T>)
    requires k < n <= |c.at|
    requires Indexed(c.at, c.pos, n, gone)
    ensures var r := Sink(less, c, n, k); Indexed(r.at, r.pos, n, gone)
    decreases |c.at| - k
  {
    var s := Smallest(less, c.at, n, k);
    if s != k {
      SwapIndexed(c, k, s, n, gone);
      SinkIndexed(less, Swap(c, k, s), n, s, gone);
    }
  }

  lemma InsertIndexed<T>(less: (T, T) -> bool, c: Cells<T>, x: T)
    requires Indexed(c.at, c.pos, |c.at|, {})
    requires x !in c.at
    ensures var r := Insert(less, c, x); Indexed(r.at, r.pos, |c.at| + 1, {})
  {
    var n := |c.at|;
    var c0 := Cells(c.at + [x], c.pos[x := n]);
    forall i | 0 <= i < n
      ensures c0.at[i] in c0.pos && c0.pos[c0.at[i]] == i
    {
      assert c0.at[i] == c.at[i];
    }
    RiseIndexed(less, c0, n, n + 1, {});
  }

  lemma OverwriteIndexed<T>(c: Cells<T>, k: nat)
    requires k < |c.at| - 1 && Indexed(c.at, c.pos, |c.at|, {})
    ensures var n := |c.at| - 1;
            var c1 := Set(c, k, c.at[n]);
            Indexed(c1.at, c1.pos, n, {c.at[k]}) && c.at[k] !in c1.at
  {
    var n := |c.at| - 1;
    assert c.pos[c.at[n]] == n && c.pos[c.at[k]] == k;
  }

  lemma TakenOut<T>(at: seq<T>, pos: map<T, int>, n: nat, x: T)
    requires n <= |at| && Indexed(at, pos, n, {x}) && x !in at
    ensures Indexed(at[..n], pos[x := -1], n, {})
  {
  }

  lemma SiftsIndexed<T>(less: (T, T) -> bool, c: Cells<T>, n: nat, k: nat, x: T)
    requires k < n <= |c.at| && Indexed(c.at, c.pos, n, {x}) && x !in c.at
    ensures var r := Sink(less, Rise(less, c, k), n, k); Indexed(r.at, r.pos, n, {x}) && x !in r.at
  {
    RiseIndexed(less, c, k, n, {x});
    RiseContents(less, c, k);
    SinkIndexed(less, Rise(less, c, k), n, k, {x});
    SinkContents(less, Rise(less, c, k), n, k);
    hide Rise, Sink, Indexed;
    assert x !in multiset(c.at);
  }

  lemma RemoveInsideIndexed<T>(less: (T, T) -> bool, c: Cells<T>, k: nat)
    requires k < |c.at| - 1
    requires Indexed(c.at, c.pos, |c.at|, {})
    ensures var r := RemoveAt(less, c, k); Indexed(r.at, r.pos, |c.at| - 1, {})
  {
    hide Rise, Sink, Indexed;
    var n, x := |c.at| - 1, c.at[k];
    var c1 := Set(c, k, c.at[n]);
    OverwriteIndexed(c, k);
    SiftsIndexed(less, c1, n, k, x);
    var r := Sink(less, Rise(less, c1, k), n, k);
    TakenOut(r.at, r.pos, n, x);
  }

  /** The index is right after a removal exactly when the slot was not a tied last one: in
      that case the removed item is still in the heap and its parent, which is not, was last
      reported in the slot that was cut off. */
  lemma RemoveIndexedIff<T>(less: (T, T) -> bool, c: Cells<T>, k: nat)
    requires k < |c.at|
    requires Indexed(c.at, c.pos, |c.at|, {})
    ensures var r := RemoveAt(less, c, k);
            Indexed(r.at, r.pos, |c.at| - 1, {}) <==> !TiedLast(less, c.at, k)
  {
    var n := |c.at| - 1;
    if k < n {
      RemoveInsideIndexed(less, c, k);
    } else {
      var c1 := Set(c, k, c.at[n]);
      assert c1.at == c.at;
      SinkContents(less, Rise(less, c1, k), n, k);
      if TiedLast(less, c.at, k) {
        TiedLastIndex(less, c, k);
      } else {
        assert forall i :: 0 <= i < n ==> c.pos[c.at[i]] == i;
      }
    }
  }

  lemma TiedLastIndex<T>(less: (T, T) -> bool, c: Cells<T>, k: nat)
    requires k < |c.at| && TiedLast(less, c.at, k)
    requires Indexed(c.at, c.pos, |c.at|, {})
    ensures var r := RemoveAt(less, c, k); !Indexed(r.at, r.pos, |c.at| - 1, {})
  {
    var p := c.at[Parent(k)];
    var c1 := Set(c, k, c.at[k]);
    assert c1.at == c.at;
    RiseIndexed(less, c1, k, |c.at|, {});
    RiseContents(less, c1, k);
    SinkContents(less, Rise(less, c1, k), k, k);
    assert Rise(less, c1, k).at[k] == p;
    assert c.pos[p] == Parent(k) && c.pos[c.at[k]] == k;
    assert RemoveAt(less, c, k).pos[p] == k;
  }

  // --- runs --------------------------------------------------------------------------------

  datatype Op<T> = InsertOp(x: T) | RemoveOp(k: nat)

  function Apply<T>(less: (T, T) -> bool, c: Cells<T>, op: Op<T>): Cells<T> {
    match op
    case InsertOp(x) => Insert(less, c, x)
    case RemoveOp(k) => if k < |c.at| then RemoveAt(less, c, k) else c
  }

  ghost predicate Permitted<T>(less: (T, T) -> bool, c: Cells<T>, op: Op<T>) {
    match op
    case InsertOp(x) => x !in c.at
    case RemoveOp(k) => k < |c.at| ==> !TiedLast(less, c.at, k)
  }

  ghost function Run<T>(less: (T, T) -> bool, c: Cells<T>, ops: seq<Op<T>>): Cells<T>
    decreases |ops|
  {
    if ops == [] then c else Run(less, Apply(less, c, ops[0]), ops[1..])
  }

  ghost predicate PermittedRun<T>(less: (T, T) -> bool, c: Cells<T>, ops: seq<Op<T>>)
    decreases |ops|
  {
    ops == [] || (Permitted(less, c, ops[0]) && PermittedRun(less, Apply(less, c, ops[0]), ops[1..]))
  }

  /** Over any run that inserts only absent items and removes anywhere but at a tied last
      slot, the heap stays a heap and the callback's last reports stay exact. */
  lemma {:induction false} RunKeepsHeapAndIndex<T(!new)>(less: (T, T) -> bool, c: Cells<T>, ops: seq<Op<T>>)
    requires StrictWeakOrder(less)
    requires IsHeap(less, c.at, |c.at|) && Indexed(c.at, c.pos, |c.at|, {})
    requires PermittedRun(less, c, ops)
    ensures var r := Run(less, c, ops);
            IsHeap(less, r.at, |r.at|) && Indexed(r.at, r.pos, |r.at|, {})
    decreases |ops|
  {
    if ops != [] {
      var op := ops[0];
      if op.InsertOp? {
        InsertOrders(less, c, op.x);
        InsertIndexed(less, c, op.x);
      } else if op.k < |c.at| {
        RemoveOrders(less, c, op.k);
        RemoveIndexedIff(less, c, op.k);
      }
      assert Permitted(less, c, op);
      RunKeepsHeapAndIndex(less, Apply(less, c, op), ops[1..]);
    }
  }

  // --- draining ----------------------------------------------------------------------------

  ghost predicate Sorted<T>(less: (T, T) -> bool, s: seq<T>) {
    forall i, j :: 0 <= i < j < |s| ==> !less(s[j], s[i])
  }

  lemma RootBeforeAll<T(!new)>(less: (T, T) -> bool, at: seq<T>, x: T)
    requires StrictWeakOrder(less) && at != [] && IsHeap(less, at, |at|) && x in at
    ensures !less(x, at[0])
  {
    var i :| 0 <= i < |at| && at[i] == x;
    RootIsLeast(less, at, |at|, i);
  }

  lemma SortedCons<T>(less: (T, T) -> bool, x: T, d: seq<T>)
    requires Sorted(less, d) && forall j :: 0 <= j < |d| ==> !less(d[j], x)
    ensures Sorted(less, [x] + d)
  {
  }

  lemma RootBeforeRest<T(!new)>(less: (T, T) -> bool, at: seq<T>, d: seq<T>)
    requires StrictWeakOrder(less) && at != [] && IsHeap(less, at, |at|)
    requires multiset(d) == multiset(at) - multiset{at[0]}
    ensures forall j :: 0 <= j < |d| ==> !less(d[j], at[0])
  {
    hide StrictWeakOrder, IsHeap;
    forall j | 0 <= j < |d| ensures !less(d[j], at[0]) {
      assert d[j] in multiset(d);
      assert d[j] in multiset(at);
      RootBeforeAll(less, at, d[j]);
    }
  }

  /** Taking slot 0 until nothing is left visits every item once, in order. */
  lemma {:induction false} DrainSorts<T(!new)>(less: (T, T) -> bool, c: Cells<T>)
    requires StrictWeakOrder(less) && IsHeap(less, c.at, |c.at|)
    ensures Sorted(less, Drain(less, c))
    ensures multiset(Drain(less, c)) == multiset(c.at)
    decreases |c.at|
  {
    if c.at != [] {
      hide RemoveAt, Parent, StrictWeakOrder, IsHeap, Sorted;
      var rest := RemoveAt(less, c, 0);
      RemoveOrders(less, c, 0);
      DrainSorts(less, rest);
      var d := Drain(less, rest);
      RootBeforeRest(less, c.at, d);
      SortedCons(less, c.at[0], d);
    }
  }
}
