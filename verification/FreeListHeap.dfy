/** The heap of `free_list_heap_policy`: thread-local lists over a global list over the debug heap over malloc. */
module FreeListHeap {
  import opened FreeListSpec
  import opened FreeListRuns

  class Heap {
    const c: Config
    var memory: map<int, int>
    var heads: map<ListId, Head>
    ghost var taken: map<int, nat>
    ghost var lists: map<ListId, seq<int>>
    ghost var place: map<int, Place>

    ghost function View(): State
      reads this
    {
      State(memory, taken, heads, lists, place)
    }

    /** Between two calls no block is on its way. */
    ghost predicate Valid()
      reads this
    {
      Inv(c, View()) && Quiet(View())
    }

    constructor (c: Config, threads: nat)
      ensures Valid() && this.c == c && View() == Fresh(threads)
    {
      this.c := c;
      var ids := (set t | 0 <= t < threads :: Local(t)) + {Global};
      memory := map[];
      heads := map id | id in ids :: Head(0, 0);
      taken, place := map[], map[];
      lists := map id | id in ids :: [];
      new;
      FreshOk(c, threads);
    }

    // ----- debug_size_heap over malloc_heap

    /** `p` is what malloc returns. */
    method DebugAllocate(size: nat, p: int) returns (data: int)
      requires Inv(c, View()) && MayReturn(taken, p, size + EXTRA)
      modifies this
      ensures Inv(c, View()) && View() == Carve(old(View()), size, p)
      ensures data == p + EXTRA && data !in old(place)
    {
      hide Inv;
      CarveKeeps(c, View(), size, p);
      memory := memory[p := size];
      taken, place := taken[p + EXTRA := size], place[p + EXTRA := Moving(size)];
      data := p + EXTRA;
    }

    /** The assertion on the stored size cannot fail. */
    method DebugDeallocate(size: nat, data: int)
      requires Inv(c, View()) && data in place && place[data] == Moving(size)
      modifies this
      ensures Inv(c, View()) && View() == GiveBack(old(View()), data)
    {
      var p := data - EXTRA;
      assert Load(memory, p) == size;
      GiveBackKeeps(c, View(), data);
      taken, place := taken - {data}, place - {data};
    }

    // ----- one list

    method PopNode(id: ListId) returns (n: int)
      requires Inv(c, View()) && id in lists && lists[id] != []
      modifies this
      ensures Inv(c, View()) && n == old(lists[id][0]) && View() == Pop(c, old(View()), id)
    {
      hide Inv;
      PopKeeps(c, View(), id);
      HeadTells(c, View(), id);
      n := heads[id].data;
      heads := heads[id := Head(Load(memory, n), heads[id].count - 1)];
      lists, place := lists[id := lists[id][1..]], place[n := Moving(c.maxSize + NODE)];
    }

    method PushNode(id: ListId, n: int)
      requires Inv(c, View()) && id in lists && |lists[id]| < c.limit
      requires n in place && place[n] == Moving(c.maxSize + NODE)
      modifies this
      ensures Inv(c, View()) && View() == Push(old(View()), id, n)
    {
      hide Inv;
      ListsKnown(c, View());
      PushKeeps(c, View(), id, n);
      memory := memory[n := heads[id].data];
      heads := heads[id := Head(n, heads[id].count + 1)];
      lists, place := lists[id := [n] + lists[id]], place[n := Listed(id)];
    }

    // ----- free_list_heap, without contention

    method GlobalAllocate(size: nat, p: int) returns (n: int)
      requires NODE <= size <= NODE + c.maxSize
      requires Inv(c, View()) && MayReturn(taken, p, c.maxSize + NODE + EXTRA)
      modifies this
      ensures Inv(c, View())
      ensures if old(lists[Global]) != [] then n == old(lists[Global][0]) && View() == Pop(c, old(View()), Global)
              else n == p + EXTRA && n !in old(place) && View() == Carve(old(View()), c.maxSize + NODE, p)
    {
      hide Inv;
      ListsKnown(c, View());
      HeadTells(c, View(), Global);
      if heads[Global].data == 0 {
        n := DebugAllocate(c.maxSize + NODE, p);
      } else {
        n := PopNode(Global);
      }
    }

    method GlobalDeallocate(size: nat, data: int)
      requires NODE <= size <= NODE + c.maxSize
      requires Inv(c, View()) && Known(View()) && data in place && place[data] == Moving(c.maxSize + NODE)
      modifies this
      ensures Inv(c, View())
      ensures View() == PutGlobal(c, old(View()), data)
    {
      hide Inv;
      ListsKnown(c, View());
      HeadTells(c, View(), Global);
      if heads[Global].count >= c.limit {
        DebugDeallocate(c.maxSize + NODE, data);
      } else {
        PushNode(Global, data);
      }
    }

    // ----- thread_local_free_list_heap

    method LocalAllocate(t: nat, size: nat, p: int) returns (n: int)
      requires NODE <= size <= NODE + c.maxSize
      requires Inv(c, View()) && CanServe(c, View(), t, 0, p)
      modifies this
      ensures Inv(c, View()) && n == Served(old(View()), t, p) && View() == Take(c, old(View()), t, p)
    {
      hide Inv;
      HeadTells(c, View(), Local(t));
      if heads[Local(t)].data == 0 {
        n := GlobalAllocate(c.maxSize + NODE, p);
      } else {
        n := PopNode(Local(t));
      }
    }

    method LocalDeallocate(t: nat, size: nat, data: int)
      requires NODE <= size <= NODE + c.maxSize && Local(t) in lists
      requires Inv(c, View()) && Known(View()) && data in place && place[data] == Moving(c.maxSize + NODE)
      modifies this
      ensures Inv(c, View()) && View() == Put(c, old(View()), t, data)
    {
      hide Inv;
      HeadTells(c, View(), Local(t));
      if heads[Local(t)].count >= c.limit {
        GlobalDeallocate(c.maxSize + NODE, data);
      } else {
        PushNode(Local(t), data);
      }
    }

    // ----- with_data<free_list_node>

    method NodeAllocate(t: nat, size: nat, p: int) returns (data: int)
      requires size <= c.maxSize && Valid() && CanServe(c, View(), t, size, p)
      modifies this
      ensures Valid() && data == Handle(c, RequestedBlock(c, old(View()), t, size, p), size)
      ensures View() == Request(c, old(View()), t, size, p)
    {
      hide Inv;
      RequestKeeps(c, View(), t, size, p, RequestedBlock(c, View(), t, size, p), Request(c, View(), t, size, p));
      var n := LocalAllocate(t, size + NODE, p);
      memory := memory[n := 0];
      place := place[n := Held(size)];
      data := n + NODE;
    }

    method NodeDeallocate(t: nat, size: nat, data: int)
      requires size <= c.maxSize && Valid() && Known(View()) && Local(t) in lists
      requires data - NODE in place && place[data - NODE] == Held(size)
      modifies this
      ensures Valid() && View() == Release(c, old(View()), t, data - NODE)
    {
      hide Inv;
      var n := data - NODE;
      ReleaseKeeps(c, View(), t, n, Release(c, View(), t, n));
      RelabelKeeps(c, View(), n, Moving(c.maxSize + NODE));
      place := place[n := Moving(c.maxSize + NODE)];
      LocalDeallocate(t, size + NODE, n);
    }

    // ----- split_heap

    /** Small requests are served from the lists, large ones from the debug heap. */
    method Allocate(t: nat, size: nat, p: int) returns (data: int)
      requires Valid() && CanServe(c, View(), t, size, p)
      modifies this
      ensures Valid() && data == Handle(c, RequestedBlock(c, old(View()), t, size, p), size)
      ensures View() == Request(c, old(View()), t, size, p)
    {
      hide Inv;
      if size <= c.maxSize {
        data := NodeAllocate(t, size, p);
      } else {
        RequestKeeps(c, View(), t, size, p, p + EXTRA, Request(c, View(), t, size, p));
        data := DebugAllocate(size, p);
        place := place[data := Held(size)];
      }
    }

    /** `b` is the block behind the pointer, held with the size that is passed. */
    method Deallocate(t: nat, size: nat, data: int, ghost b: int)
      requires Valid() && Known(View()) && Local(t) in lists
      requires b in place && place[b] == Held(size) && data == Handle(c, b, size)
      modifies this
      ensures Valid() && View() == Release(c, old(View()), t, b)
    {
      hide Inv;
      if size <= c.maxSize {
        NodeDeallocate(t, size, data);
      } else {
        ReleaseKeeps(c, View(), t, b, Release(c, View(), t, b));
        RelabelKeeps(c, View(), b, Moving(size));
        place := place[b := Moving(size)];
        DebugDeallocate(size, data);
      }
    }

    /** A thread ends. */
    method Clear(t: nat)
      requires Valid() && Known(View()) && Local(t) in lists
      modifies this
      ensures Valid() && View() == Drain(c, old(View()), t)
    {
      HeadTells(c, View(), Local(t));
      ghost var goal := Drain(c, View(), t);
      while heads[Local(t)].data != 0
        invariant Valid() && Known(View()) && Local(t) in lists && goal == Drain(c, View(), t)
        invariant (heads[Local(t)].data == 0) == (lists[Local(t)] == [])
        decreases |lists[Local(t)]|
      {
        ClearFirst(t, goal);
      }
      NothingToDrain(c, View(), t);
    }

    /** A block is unlinked before it is passed on, which the layers below cannot tell from the other order. */
    method ClearFirst(t: nat, ghost goal: State)
      requires Valid() && Known(View()) && Local(t) in lists && lists[Local(t)] != [] && goal == Drain(c, View(), t)
      modifies this
      ensures Valid() && Known(View()) && Local(t) in lists && goal == Drain(c, View(), t)
      ensures View() == DrainOne(c, old(View()), t) && lists[Local(t)] == old(lists[Local(t)])[1..]
      ensures (heads[Local(t)].data == 0) == (lists[Local(t)] == [])
    {
      hide Inv, Drain, PutGlobal, Quiet;
      ghost var before := View();
      var data := PopNode(Local(t));
      GlobalDeallocate(c.maxSize + NODE, data);
      DrainStep(c, before, t, View(), goal);
      HeadTells(c, View(), Local(t));
    }
  }
}
