/** The sorted list of outputs, queue/ollist_threads_rw.c, as its own thread sees it inside the lock.

    The operations walk and relink the heap exactly as the source does, and each is proved against the map
    from index to record that the list stands for. What other threads may see in between is SharedList's
    subject. */
module OutputList {
  import opened ListMemory
  import opened Wrappers

  /** A value no input port may have: such an output is fed by no input. */
  const UNASSIGNED := 0x41

  function Flip(onoff: int): int {
    if onoff == 1 then 0 else 1
  }

  /** The test of ollist_find_data_op. */
  predicate FedBy(d: Output, input: int, port: int) {
    d.inputPort != UNASSIGNED && d.port == port && d.inputPort == input
  }

  ghost predicate AnyFed(m: map<int, Output>, input: int, port: int) {
    exists k | k in m :: FedBy(m[k], input, port)
  }

  /** r is the record with the smallest index among those the input feeds. */
  ghost predicate FirstFed(m: map<int, Output>, input: int, port: int, r: Option<Output>) {
    exists j | j in m ::
      && r == Some(m[j]) && FedBy(m[j], input, port)
      && forall k | k in m && FedBy(m[k], input, port) :: j <= k
  }

  /** r is the record with the largest index, if there is any. */
  ghost predicate LastRecord(m: map<int, Output>, r: Option<Output>) {
    if m == map[] then r == None
    else exists j | j in m :: r == Some(m[j]) && forall k | k in m :: k <= j
  }

  lemma FedAt(items: seq<Item>, i: nat, input: int, port: int)
    requires Sorted(items) && i < |items| && FedBy(items[i].data, input, port)
    requires forall j | 0 <= j < i :: !FedBy(items[j].data, input, port)
    ensures AnyFed(ToMap(items), input, port) && FirstFed(ToMap(items), input, port, Some(items[i].data))
  {
    FoundAt(items, i);
    var m := ToMap(items);
    forall k | k in m && FedBy(m[k], input, port)
      ensures items[i].index <= k
    {
      var j := KeyAt(items, k);
    }
  }

  lemma NoneFed(items: seq<Item>, input: int, port: int)
    requires Sorted(items)
    requires forall j | 0 <= j < |items| :: !FedBy(items[j].data, input, port)
    ensures !AnyFed(ToMap(items), input, port)
    ensures LastRecord(ToMap(items), if items == [] then None else Some(items[|items| - 1].data))
  {
    var m := ToMap(items);
    if items != [] {
      FoundAt(items, |items| - 1);
    }
    forall k | k in m
      ensures !FedBy(m[k], input, port) && k <= items[|items| - 1].index
    {
      var j := KeyAt(items, k);
    }
  }

  class OutputList {
    var mem: Memory
    var first: nat
    ghost var path: seq<nat>

    ghost predicate Valid()
      reads this
    {
      Chain(mem, first, path)
    }

    ghost function Map(): map<int, Output>
      requires Valid()
      reads this
    {
      Contents(mem, path)
    }

    /** ollist_init, on a heap where no node exists yet. */
    constructor ()
      ensures Valid() && Map() == map[] && mem == map[]
    {
      mem := map[];
      first := NULL;
      path := [];
    }

    /** Where the loops of the source stop: at the node with this index, at the first larger one, or at the end. */
    ghost predicate StopsAt(i: nat, cur: nat, prev: nat, index: int)
      requires Valid()
      reads this
    {
      && Passed(Items(mem, path), i, index)
      && cur == At(path, i)
      && prev == At(path, if i == 0 then 0 else i - 1)
      && (i < |path| ==> index <= mem[path[i]].item.index)
    }

    /** The traversal shared by every operation that looks for an index. */
    method Search(index: int) returns (cur: nat, prev: nat, ghost i: nat)
      requires Valid()
      ensures StopsAt(i, cur, prev, index)
      ensures cur != NULL && mem[cur].item.index == index <==> index in Map()
      ensures cur != NULL && mem[cur].item.index == index ==> Map()[index] == mem[cur].item.data
    {
      cur, prev, i := first, first, 0;
      while cur != NULL
        invariant Passed(Items(mem, path), i, index)
        invariant cur == At(path, i) && prev == At(path, if i == 0 then 0 else i - 1)
        decreases |path| - i
      {
        if mem[cur].item.index == index {
          FoundAt(Items(mem, path), i);
          return;
        } else if mem[cur].item.index > index {
          break;
        }
        assert mem[path[i]].next == At(path, i + 1);
        prev, cur, i := cur, mem[cur].next, i + 1;
      }
      EarlyExit(Items(mem, path), i, index);
    }

    /** ollist_insert_data; `block` is the address malloc returns if a node has to be made. */
    method Insert(index: int, data: Output, block: nat)
      requires Valid() && block != NULL && block !in mem
      modifies this
      ensures Valid() && Map() == old(Map())[index := data]
      ensures mem.Keys == old(mem.Keys) + if index in old(Map()) then {} else {block}
    {
      var cur, prev, i := Search(index);
      if cur != NULL && mem[cur].item.index == index {
        StoreNode(mem, first, path, i, data);
        mem := Stored(mem, cur, data);
      } else {
        NewNode(mem, first, path, i, block, Item(index, data));
        mem := Created(mem, block, Item(index, data), cur);
        if cur == first {
          first := block;
        } else {
          mem := Relinked(mem, prev, block);
        }
        path := Insertion(path, i, block);
      }
    }

    /** ollist_find_data. */
    method Find(index: int) returns (r: Option<Output>)
      requires Valid()
      ensures r == if index in Map() then Some(Map()[index]) else None
    {
      var cur, _, _ := Search(index);
      r := if cur != NULL && mem[cur].item.index == index then Some(mem[cur].item.data) else None;
    }

    /** A write through the pointer that ollist_find_data returned. */
    method Overwrite(index: int, data: Output)
      requires Valid() && index in Map()
      modifies this
      ensures Valid() && mem.Keys == old(mem.Keys) && Map() == old(Map())[index := data]
    {
      var cur, _, i := Search(index);
      StoreNode(mem, first, path, i, data);
      mem := Stored(mem, cur, data);
    }

    /** ollist_toggle_output. On a miss the source returns a variable it never set: None. */
    method Toggle(index: int) returns (r: Option<int>)
      requires Valid()
      modifies this
      ensures Valid() && mem.Keys == old(mem.Keys) && first == old(first)
      ensures if index in old(Map()) then
                var d := old(Map())[index];
                var flipped := if d.onoff == 1 then 0 else 1;
                r == Some(flipped) && Map() == old(Map())[index := d.(onoff := flipped)]
              else r == None && Map() == old(Map())
    {
      var cur, _, i := Search(index);
      if cur != NULL && mem[cur].item.index == index {
        var d := mem[cur].item.data;
        var d' := d.(onoff := Flip(d.onoff));
        StoreNode(mem, first, path, i, d');
        mem := Stored(mem, cur, d');
        r := Some(d'.onoff);
      } else {
        r := None;
      }
    }

    ghost predicate IsHead(index: int)
      requires Valid()
      reads this
    {
      first != NULL && mem[first].item.index == index
    }

    /** ollist_remove_data. Removing any node but the head is map removal. Removing the head frees it and leaves
        `first` pointing at it, because the source relinks prev, which is the head itself: there is no list left. */
    method Remove(index: int) returns (r: Option<Output>)
      requires Valid()
      modifies this
      ensures r == if index in old(Map()) then Some(old(Map())[index]) else None
      ensures old(IsHead(index)) <==> first != NULL && first !in mem
      ensures (exists p :: Chain(mem, first, p)) <==> !old(IsHead(index))
      ensures !old(IsHead(index)) ==> Valid() && Map() == old(Map()) - {index}
    {
      ghost var before := Map();
      var cur, prev, i := Search(index);
      r := None;
      if cur != NULL && mem[cur].item.index == index {
        r := Some(mem[cur].item.data);
        if i > 0 {
          Acyclic(mem, path);
          UnlinkNode(mem, first, path, i);
          FirstIsSmallest(Items(mem, path), i);
        }
        mem := Unlinked(mem, prev, cur);
        if i > 0 {
          path := Deletion(path, i);
        }
      } else {
        assert Map() == before - {index};
        assert first != NULL ==> mem[first].item.index == Items(mem, path)[0].index;
      }
    }

    /** ollist_find_data_op. It reports the matching output with the smallest index; when there is none it reports
        failure but still hands out the record of the last output in the list. */
    method FindOp(input: int, port: int) returns (status: int, r: Option<Output>)
      requires Valid()
      ensures if AnyFed(Map(), input, port) then status == port && FirstFed(Map(), input, port, r)
              else status == -1 && LastRecord(Map(), r)
      ensures AnyFed(Map(), input, port) <==>
              input != 0x41 && exists k | k in Map() :: Map()[k].port == port && Map()[k].inputPort == input
    {
      status, r := -1, None;
      var cur := first;
      ghost var i := 0;
      ghost var items := Items(mem, path);
      while cur != NULL
        invariant i <= |path| && cur == At(path, i) && status == -1
        invariant forall j | 0 <= j < i :: !FedBy(items[j].data, input, port)
        invariant r == if i == 0 then None else Some(items[i - 1].data)
        decreases |path| - i
      {
        r := Some(mem[cur].item.data);
        var d := mem[cur].item.data;
        if d.inputPort != UNASSIGNED && d.port == port && d.inputPort == input {
          status := d.port;
          FedAt(items, i, input, port);
          return;
        }
        assert mem[path[i]].next == At(path, i + 1);
        cur, i := mem[cur].next, i + 1;
      }
      NoneFed(items, input, port);
    }
  }

  lemma FirstIsSmallest(items: seq<Item>, i: nat)
    requires Sorted(items) && 0 < i < |items|
    ensures items[0].index < items[i].index
  {
  }
}
