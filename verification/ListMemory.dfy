/** The heap of queue/ollist_threads_rw.c: linked nodes in a memory that malloc and free grow and shrink.

    Memory is an explicit map from addresses to nodes, so that reading a node that was freed is visible:
    the address is no longer in the map. The record a node points to (O_DATA) is kept inside the node. */
module ListMemory {
  /** O_DATA; `labelText` and `kind` are the fields the source calls `label` and `type`. */
  datatype Output = Output(
    labelText: string, port: int, onoff: int, inputPort: int, inputType: int,
    kind: int, timeDelay: int, timeLeft: int, pulseTime: int, reset: int)

  datatype Item = Item(index: int, data: Output)

  datatype Node = Node(item: Item, next: nat)

  type Memory = map<nat, Node>

  const NULL: nat := 0

  // ---------- Sorted sequences of items stand for maps ----------

  ghost predicate Sorted(items: seq<Item>) {
    forall i, j | 0 <= i < j < |items| :: items[i].index < items[j].index
  }

  function ToMap(items: seq<Item>): map<int, Output> {
    if items == [] then map[]
    else var n := |items| - 1; ToMap(items[..n])[items[n].index := items[n].data]
  }

  function Insertion<T>(s: seq<T>, i: nat, x: T): seq<T>
    requires i <= |s|
  {
    s[..i] + [x] + s[i..]
  }

  function Deletion<T>(s: seq<T>, i: nat): seq<T>
    requires i < |s|
  {
    s[..i] + s[i + 1..]
  }

  lemma InsertionAt<T>(s: seq<T>, i: nat, x: T, k: nat)
    requires i <= |s| && k <= |s|
    ensures |Insertion(s, i, x)| == |s| + 1
    ensures Insertion(s, i, x)[k] == if k < i then s[k] else if k == i then x else s[k - 1]
  {
  }

  lemma DeletionAt<T>(s: seq<T>, i: nat, k: nat)
    requires i < |s| && k < |s| - 1
    ensures |Deletion(s, i)| == |s| - 1
    ensures Deletion(s, i)[k] == if k < i then s[k] else s[k + 1]
  {
  }

  lemma {:induction false} FoundAt(items: seq<Item>, i: nat)
    requires Sorted(items) && i < |items|
    ensures items[i].index in ToMap(items) && ToMap(items)[items[i].index] == items[i].data
  {
    if i < |items| - 1 {
      FoundAt(items[..|items| - 1], i);
    }
  }

  lemma {:induction false} AbsentFrom(items: seq<Item>, index: int)
    requires forall i | 0 <= i < |items| :: items[i].index != index
    ensures index !in ToMap(items)
  {
    if items != [] {
      AbsentFrom(items[..|items| - 1], index);
    }
  }

  lemma KeyAt(items: seq<Item>, index: int) returns (i: nat)
    requires Sorted(items) && index in ToMap(items)
    ensures i < |items| && items[i].index == index && items[i].data == ToMap(items)[index]
  {
    if forall j | 0 <= j < |items| :: items[j].index != index {
      AbsentFrom(items, index);
    }
    i :| i < |items| && items[i].index == index;
    FoundAt(items, i);
  }

  /** The loops of the source have looked at the first i items and found only smaller indices. */
  ghost predicate Passed(items: seq<Item>, i: nat, index: int) {
    i <= |items| && forall j | 0 <= j < i :: items[j].index < index
  }

  /** The early exit on a larger index never misses a key. */
  lemma EarlyExit(items: seq<Item>, i: nat, index: int)
    requires Sorted(items) && Passed(items, i, index)
    requires i < |items| ==> index < items[i].index
    ensures index !in ToMap(items)
  {
    AbsentFrom(items, index);
  }

  /** Overwriting one record is one map update. */
  lemma {:induction false} StoreItem(items: seq<Item>, i: nat, data: Output)
    requires Sorted(items) && i < |items|
    ensures var items' := items[i := Item(items[i].index, data)];
            Sorted(items') && ToMap(items') == ToMap(items)[items[i].index := data]
  {
    var n := |items| - 1;
    var items' := items[i := Item(items[i].index, data)];
    if i == n {
      assert items'[..n] == items[..n];
    } else {
      assert items'[..n] == items[..n][i := Item(items[i].index, data)];
      StoreItem(items[..n], i, data);
    }
  }

  lemma SortedInsertion(items: seq<Item>, i: nat, x: Item)
    requires Sorted(items) && Passed(items, i, x.index)
    requires i < |items| ==> x.index < items[i].index
    ensures Sorted(Insertion(items, i, x))
  {
    var items' := Insertion(items, i, x);
    forall j, k | 0 <= j < k < |items'|
      ensures items'[j].index < items'[k].index
    {
      InsertionAt(items, i, x, j);
      InsertionAt(items, i, x, k);
    }
  }

  lemma InsertionFront<T>(s: seq<T>, i: nat, x: T)
    requires i < |s|
    ensures Insertion(s, i, x)[..|s|] == Insertion(s[..|s| - 1], i, x) && Insertion(s, i, x)[|s|] == s[|s| - 1]
    ensures |Insertion(s, i, x)| == |s| + 1
  {
  }

  lemma PassedFront(items: seq<Item>, i: nat, x: Item)
    requires Sorted(items) && Passed(items, i, x.index) && i < |items| && x.index < items[i].index
    ensures var front := items[..|items| - 1];
            && Sorted(front) && Passed(front, i, x.index) && (i < |front| ==> x.index < front[i].index)
            && x.index < items[|items| - 1].index
  {
  }

  /** Inserting between the smaller and the larger indices is one map update. */
  lemma {:induction false} InsertItem(items: seq<Item>, i: nat, x: Item)
    requires Sorted(items) && Passed(items, i, x.index)
    requires i < |items| ==> x.index < items[i].index
    ensures Sorted(Insertion(items, i, x))
    ensures ToMap(Insertion(items, i, x)) == ToMap(items)[x.index := x.data]
  {
    SortedInsertion(items, i, x);
    if i == |items| {
      assert Insertion(items, i, x) == items + [x] && (items + [x])[..i] == items;
    } else {
      InsertionFront(items, i, x);
      PassedFront(items, i, x);
      InsertItem(items[..|items| - 1], i, x);
    }
  }

  lemma SortedDeletion(items: seq<Item>, i: nat)
    requires Sorted(items) && i < |items|
    ensures Sorted(Deletion(items, i))
  {
    var items' := Deletion(items, i);
    forall j, k | 0 <= j < k < |items'|
      ensures items'[j].index < items'[k].index
    {
      DeletionAt(items, i, j);
      DeletionAt(items, i, k);
    }
  }

  /** Removing an item is one map removal. */
  lemma {:induction false} DeleteItem(items: seq<Item>, i: nat)
    requires Sorted(items) && i < |items|
    ensures Sorted(Deletion(items, i))
    ensures ToMap(Deletion(items, i)) == ToMap(items) - {items[i].index}
  {
    var n := |items| - 1;
    SortedDeletion(items, i);
    if i == n {
      assert Deletion(items, i) == items[..n];
      AbsentFrom(items[..n], items[i].index);
    } else {
      assert Deletion(items, i)[..n - 1] == Deletion(items[..n], i);
      DeleteItem(items[..n], i);
    }
  }

  // ---------- Linked lists in memory ----------

  /** The address at a position of the list; NULL beyond its end. */
  function At(path: seq<nat>, i: nat): nat {
    if i < |path| then path[i] else NULL
  }

  ghost predicate Allocated(mem: Memory, path: seq<nat>) {
    forall i | 0 <= i < |path| :: path[i] != NULL && path[i] in mem
  }

  function Items(mem: Memory, path: seq<nat>): seq<Item>
    requires Allocated(mem, path)
  {
    seq(|path|, i requires 0 <= i < |path| => mem[path[i]].item)
  }

  /** Each node points to the next and the last one to NULL. */
  ghost predicate LinkedUp(mem: Memory, path: seq<nat>)
    requires Allocated(mem, path)
  {
    forall i | 0 <= i < |path| :: mem[path[i]].next == At(path, i + 1)
  }

  /** `path` lists the addresses of a well-formed list that starts at `first`: linked, ended by NULL, sorted. */
  ghost predicate Chain(mem: Memory, first: nat, path: seq<nat>) {
    && first == At(path, 0)
    && Allocated(mem, path)
    && LinkedUp(mem, path)
    && Sorted(Items(mem, path))
  }

  /** The map a well-formed list stands for. */
  ghost function Contents(mem: Memory, path: seq<nat>): map<int, Output>
    requires Allocated(mem, path)
  {
    ToMap(Items(mem, path))
  }

  /** A sorted list cannot visit a node twice, so it is acyclic. */
  lemma Acyclic(mem: Memory, path: seq<nat>)
    requires Allocated(mem, path) && Sorted(Items(mem, path))
    ensures forall i, j | 0 <= i < j < |path| :: path[i] != path[j]
  {
    forall i, j | 0 <= i < j < |path|
      ensures path[i] != path[j]
    {
      assert Items(mem, path)[i].index < Items(mem, path)[j].index;
    }
  }

  /** Only one path is a well-formed list from a given first node. */
  lemma {:induction false} PathUnique(mem: Memory, p: seq<nat>, q: seq<nat>)
    requires Allocated(mem, p) && LinkedUp(mem, p) && Allocated(mem, q) && LinkedUp(mem, q)
    requires At(p, 0) == At(q, 0)
    ensures p == q
    decreases |p|
  {
    if p != [] && q != [] {
      assert At(p, 1) == At(q, 1);
      TailLinked(mem, p);
      TailLinked(mem, q);
      PathUnique(mem, p[1..], q[1..]);
      assert p == [p[0]] + p[1..];
    }
  }

  lemma TailLinked(mem: Memory, p: seq<nat>)
    requires p != [] && Allocated(mem, p) && LinkedUp(mem, p)
    ensures Allocated(mem, p[1..]) && LinkedUp(mem, p[1..]) && At(p[1..], 0) == At(p, 1)
  {
    forall i | 0 <= i < |p| - 1
      ensures mem[p[1..][i]].next == At(p[1..], i + 1)
    {
      assert mem[p[i + 1]].next == At(p, i + 2);
    }
  }

  /** Writing a record through its node. */
  function Stored(mem: Memory, a: nat, data: Output): Memory
    requires a in mem
  {
    mem[a := Node(Item(mem[a].item.index, data), mem[a].next)]
  }

  lemma StoreNode(mem: Memory, first: nat, path: seq<nat>, i: nat, data: Output)
    requires Chain(mem, first, path) && i < |path|
    ensures var mem' := Stored(mem, path[i], data);
            && Chain(mem', first, path)
            && Contents(mem', path) == Contents(mem, path)[mem[path[i]].item.index := data]
  {
    Acyclic(mem, path);
    var items := Items(mem, path);
    assert Items(Stored(mem, path[i], data), path) == items[i := Item(items[i].index, data)];
    StoreItem(items, i, data);
  }

  /** The memory after `new->nextp = cur`, before the new node is reachable. */
  function Created(mem: Memory, block: nat, x: Item, cur: nat): Memory {
    mem[block := Node(x, cur)]
  }

  /** The memory after `prev->nextp = new`. */
  function Relinked(mem: Memory, prev: nat, next: nat): Memory
    requires prev in mem
  {
    mem[prev := Node(mem[prev].item, next)]
  }

  lemma CreateNode(mem: Memory, first: nat, path: seq<nat>, block: nat, x: Item, cur: nat)
    requires Chain(mem, first, path) && block != NULL && block !in path
    ensures var mem' := Created(mem, block, x, cur);
            Chain(mem', first, path) && Items(mem', path) == Items(mem, path)
  {
    assert Items(Created(mem, block, x, cur), path) == Items(mem, path);
  }

  /** Making a new node reachable between the smaller and the larger indices is one map update. */
  lemma LinkNode(mem: Memory, first: nat, path: seq<nat>, i: nat, block: nat)
    requires Chain(mem, first, path) && i <= |path|
    requires block != NULL && block !in path && block in mem && mem[block].next == At(path, i)
    requires var x := mem[block].item;
             Passed(Items(mem, path), i, x.index) && (i < |path| ==> x.index < mem[path[i]].item.index)
    ensures var x := mem[block].item;
            var mem' := if i == 0 then mem else Relinked(mem, path[i - 1], block);
            var path' := Insertion(path, i, block);
            && Chain(mem', if i == 0 then block else first, path')
            && Contents(mem', path') == Contents(mem, path)[x.index := x.data]
  {
    Acyclic(mem, path);
    var x := mem[block].item;
    var mem' := if i == 0 then mem else Relinked(mem, path[i - 1], block);
    var path' := Insertion(path, i, block);
    LinksAfterInsertion(mem, path, i, block);
    InsertItem(Items(mem, path), i, x);
    ItemsAfterInsertion(mem, mem', path, i, block);
  }

  /** Making, filling in and linking a node, in one go. */
  lemma NewNode(mem: Memory, first: nat, path: seq<nat>, i: nat, block: nat, x: Item)
    requires Chain(mem, first, path) && i <= |path| && block != NULL && block !in mem
    requires Passed(Items(mem, path), i, x.index) && (i < |path| ==> x.index < mem[path[i]].item.index)
    ensures At(path, i) == first <==> i == 0
    ensures var mem' := Created(mem, block, x, At(path, i));
            var mem'' := if i == 0 then mem' else Relinked(mem', path[i - 1], block);
            && mem''.Keys == mem.Keys + {block}
            && Chain(mem'', if i == 0 then block else first, Insertion(path, i, block))
            && Contents(mem'', Insertion(path, i, block)) == Contents(mem, path)[x.index := x.data]
  {
    Acyclic(mem, path);
    CreateNode(mem, first, path, block, x, At(path, i));
    LinkNode(Created(mem, block, x, At(path, i)), first, path, i, block);
  }

  lemma ItemsAfterInsertion(mem: Memory, mem': Memory, path: seq<nat>, i: nat, block: nat)
    requires Allocated(mem, path) && i <= |path| && block in mem
    requires Allocated(mem', Insertion(path, i, block))
    requires forall a | a in mem :: a in mem' && mem'[a].item == mem[a].item
    ensures Items(mem', Insertion(path, i, block)) == Insertion(Items(mem, path), i, mem[block].item)
  {
  }

  /** One node of the new list: `a` its address and `next` the address behind it. */
  lemma LinkAfterInsertion(mem: Memory, path: seq<nat>, i: nat, block: nat, j: nat, a: nat, next: nat)
    requires Allocated(mem, path) && LinkedUp(mem, path) && i <= |path| && j <= |path|
    requires a == (if j < i then path[j] else if j == i then block else path[j - 1])
    requires next == (if j + 1 < i then path[j + 1] else if j + 1 == i then block else At(path, j))
    requires i > 0 && j != i - 1 && j != i ==> a != path[i - 1]
    requires block != NULL && block !in path && block in mem && mem[block].next == At(path, i)
    ensures var mem' := if i == 0 then mem else Relinked(mem, path[i - 1], block);
            a != NULL && a in mem' && mem'[a].next == next
  {
    if j < i {
      assert mem[path[j]].next == At(path, j + 1);
    } else if j > i {
      assert mem[path[j - 1]].next == At(path, j);
    }
  }

  lemma LinksAfterInsertion(mem: Memory, path: seq<nat>, i: nat, block: nat)
    requires Allocated(mem, path) && LinkedUp(mem, path) && i <= |path|
    requires forall j, k | 0 <= j < k < |path| :: path[j] != path[k]
    requires block != NULL && block !in path && block in mem && mem[block].next == At(path, i)
    ensures var mem' := if i == 0 then mem else Relinked(mem, path[i - 1], block);
            var path' := Insertion(path, i, block);
            && Allocated(mem', path') && LinkedUp(mem', path')
            && At(path', 0) == if i == 0 then block else At(path, 0)
  {
    var mem' := if i == 0 then mem else Relinked(mem, path[i - 1], block);
    var path' := Insertion(path, i, block);
    InsertionAt(path, i, block, 0);
    forall j | 0 <= j < |path'|
      ensures path'[j] != NULL && path'[j] in mem' && mem'[path'[j]].next == At(path', j + 1)
    {
      InsertionAt(path, i, block, j);
      if j < |path| {
        InsertionAt(path, i, block, j + 1);
      }
      LinkAfterInsertion(mem, path, i, block, j, path'[j], At(path', j + 1));
    }
  }

  /** The memory after `prev->nextp = cur->nextp; free(cur)`. */
  function Unlinked(mem: Memory, prev: nat, cur: nat): Memory
    requires prev in mem && cur in mem
  {
    Relinked(mem, prev, mem[cur].next) - {cur}
  }

  /** Unlinking a node that is not the head is one map removal. */
  lemma UnlinkNode(mem: Memory, first: nat, path: seq<nat>, i: nat)
    requires Chain(mem, first, path) && 0 < i < |path|
    ensures var mem', path' := Unlinked(mem, path[i - 1], path[i]), Deletion(path, i);
            && Chain(mem', first, path')
            && Contents(mem', path') == Contents(mem, path) - {mem[path[i]].item.index}
  {
    Acyclic(mem, path);
    var mem', path' := Unlinked(mem, path[i - 1], path[i]), Deletion(path, i);
    LinksAfterDeletion(mem, path, i);
    DeleteItem(Items(mem, path), i);
    ItemsAfterDeletion(mem, mem', path, i);
  }

  lemma ItemsAfterDeletion(mem: Memory, mem': Memory, path: seq<nat>, i: nat)
    requires Allocated(mem, path) && i < |path|
    requires Allocated(mem', Deletion(path, i))
    requires forall a | a in mem' :: a in mem && mem'[a].item == mem[a].item
    ensures Items(mem', Deletion(path, i)) == Deletion(Items(mem, path), i)
  {
  }

  lemma LinkAfterDeletion(mem: Memory, path: seq<nat>, i: nat, j: nat, next: nat)
    requires Allocated(mem, path) && LinkedUp(mem, path) && 0 < i < |path| && j < |path| && j != i
    requires path[j] != path[i] && (j != i - 1 ==> path[j] != path[i - 1])
    requires next == At(path, if j == i - 1 then i + 1 else j + 1)
    ensures var mem' := Unlinked(mem, path[i - 1], path[i]);
            path[j] != NULL && path[j] in mem' && mem'[path[j]].next == next
  {
    assert mem[path[j]].next == At(path, j + 1);
    assert mem[path[i]].next == At(path, i + 1);
  }

  lemma LinksAfterDeletion(mem: Memory, path: seq<nat>, i: nat)
    requires Allocated(mem, path) && LinkedUp(mem, path) && 0 < i < |path|
    requires forall j, k | 0 <= j < k < |path| :: path[j] != path[k]
    ensures var mem', path' := Unlinked(mem, path[i - 1], path[i]), Deletion(path, i);
            Allocated(mem', path') && LinkedUp(mem', path') && At(path', 0) == At(path, 0)
  {
    var mem', path' := Unlinked(mem, path[i - 1], path[i]), Deletion(path, i);
    DeletionAt(path, i, 0);
    forall j | 0 <= j < |path'|
      ensures path'[j] != NULL && path'[j] in mem' && mem'[path'[j]].next == At(path', j + 1)
    {
      DeletionAt(path, i, j);
      if j < |path| - 2 {
        DeletionAt(path, i, j + 1);
      }
      LinkAfterDeletion(mem, path, i, if j < i then j else j + 1, At(path', j + 1));
    }
  }
}
