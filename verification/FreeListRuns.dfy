/** What callers of the free-list heap can rely on, over whole runs. */
module FreeListRuns {
  import opened FreeListSpec

  // ----- whole requests and releases

  /** The block that serves a small request. */
  ghost function Served(s: State, t: nat, p: int): int
    requires Known(s) && Local(t) in s.lists
  {
    if s.lists[Local(t)] != [] then s.lists[Local(t)][0]
    else if s.lists[Global] != [] then s.lists[Global][0]
    else p + EXTRA
  }

  ghost function RequestedBlock(c: Config, s: State, t: nat, size: nat, p: int): int
    requires Known(s) && Local(t) in s.lists
  {
    if size <= c.maxSize then Served(s, t, p) else p + EXTRA
  }

  /** `p` is what malloc returns, should it be asked. */
  ghost function Request(c: Config, s: State, t: nat, size: nat, p: int): State
    requires Known(s) && Local(t) in s.lists
  {
    if size <= c.maxSize then Hand(Take(c, s, t, p), Served(s, t, p), size)
    else Relabel(Carve(s, size, p), p + EXTRA, Held(size))
  }

  ghost function Release(c: Config, s: State, t: nat, b: int): State
    requires Known(s) && Local(t) in s.lists && b in s.place && s.place[b].Held?
  {
    var s' := Relabel(s, b, Moving(Payload(c, s.place[b])));
    if s.place[b].size <= c.maxSize then Put(c, s', t, b) else GiveBack(s', b)
  }

  ghost predicate CanServe(c: Config, s: State, t: nat, size: nat, p: int) {
    Known(s) && Local(t) in s.lists && MayReturn(s.taken, p, Payload(c, Held(size)) + EXTRA)
  }

  lemma TakeKeeps(c: Config, s: State, t: nat, p: int, b: int)
    requires Inv(c, s) && CanServe(c, s, t, 0, p) && b == Served(s, t, p)
    ensures Inv(c, Take(c, s, t, p)) && Take(c, s, t, p).place == s.place[b := Moving(c.maxSize + NODE)]
    ensures b in s.place ==> s.place[b].Listed?
  {
    hide Inv, MayReturn;
    HeadTells(c, s, Local(t));
    HeadTells(c, s, Global);
    if s.lists[Local(t)] != [] {
      PopKeeps(c, s, Local(t));
    } else if s.lists[Global] != [] {
      PopKeeps(c, s, Global);
    } else {
      CarveKeeps(c, s, c.maxSize + NODE, p);
    }
  }

  /** A request gives the caller one block that was with no other caller, and changes no other place. */
  lemma RequestKeeps(c: Config, s: State, t: nat, size: nat, p: int, b: int, s': State)
    requires Inv(c, s) && Quiet(s) && CanServe(c, s, t, size, p)
    requires s' == Request(c, s, t, size, p) && b == RequestedBlock(c, s, t, size, p)
    ensures Inv(c, s') && Quiet(s') && s'.place == s.place[b := Held(size)]
    ensures b in s.place ==> s.place[b].Listed?
  {
    hide Inv, MayReturn;
    if size <= c.maxSize {
      TakeKeeps(c, s, t, p, b);
      HandKeeps(c, Take(c, s, t, p), b, size);
    } else {
      CarveKeeps(c, s, size, p);
      RelabelKeeps(c, Carve(s, size, p), b, Held(size));
    }
  }

  /** A release puts the caller's block on the thread's list, else on the global one, else back to malloc,
      and changes no other place. */
  lemma ReleaseKeeps(c: Config, s: State, t: nat, b: int, s': State)
    requires Inv(c, s) && Quiet(s) && Known(s) && Local(t) in s.lists && b in s.place && s.place[b].Held?
    requires s' == Release(c, s, t, b)
    ensures Inv(c, s') && Quiet(s')
    ensures s'.place == if s.place[b].size > c.maxSize || |s.lists[Local(t)]| == |s.lists[Global]| == c.limit
            then s.place - {b}
                        else s.place[b := Listed(if |s.lists[Local(t)]| < c.limit then Local(t) else Global)]
  {
    hide Inv;
    HeadTells(c, s, Local(t));
    HeadTells(c, s, Global);
    var r := Relabel(s, b, Moving(Payload(c, s.place[b])));
    RelabelKeeps(c, s, b, Moving(Payload(c, s.place[b])));
    if s.place[b].size > c.maxSize {
      GiveBackKeeps(c, r, b);
    } else if |s.lists[Local(t)]| >= c.limit {
      PutGlobalKeeps(c, r, b);
    } else {
      PushKeeps(c, r, Local(t), b);
    }
  }

  /** Where a request is served from: the thread's list, else the global one, first block first, else malloc; and
      a request too large for the lists from malloc. The caller's bytes are behind the node, or start where malloc's
      do, behind the size header. */
  lemma RequestServed(c: Config, s: State, t: nat, size: nat, p: int, b: int, s': State)
    requires Known(s) && Local(t) in s.lists
    requires s' == Request(c, s, t, size, p) && b == RequestedBlock(c, s, t, size, p)
    ensures var mine, shared := s.lists[Local(t)], s.lists[Global];
            if size <= c.maxSize && mine != [] then
              b == mine[0] && s'.lists == s.lists[Local(t) := mine[1..]] && s'.taken == s.taken
            else if size <= c.maxSize && shared != [] then
              b == shared[0] && s'.lists == s.lists[Global := shared[1..]] && s'.taken == s.taken
            else
              b == p + 16 && s'.lists == s.lists &&
              s'.taken == s.taken[b := if size <= c.maxSize then c.maxSize + 8 else size]
    ensures Handle(c, b, size) == if size <= c.maxSize then b + 8 else b
  {
  }

  /** The words a request writes: the node of a small block is reset, and a block from malloc gets its size in front;
      no other word changes. */
  lemma RequestWrites(c: Config, s: State, t: nat, size: nat, p: int, b: int, word: int)
    requires Known(s) && Local(t) in s.lists && b == RequestedBlock(c, s, t, size, p)
    ensures var carved := size > c.maxSize || (s.lists[Local(t)] == [] && s.lists[Global] == []);
            Load(Request(c, s, t, size, p).memory, word) ==
            if size <= c.maxSize && word == b then 0
            else if carved && word == p then (if size <= c.maxSize then c.maxSize + 8 else size)
            else Load(s.memory, word)
  {
  }

  /** The words a release writes: the node of the block gets the head of the list the block goes to. */
  lemma ReleaseWrites(c: Config, s: State, t: nat, b: int, word: int)
    requires Known(s) && Local(t) in s.lists && b in s.place && s.place[b].Held?
    ensures var mine, shared := s.lists[Local(t)], s.lists[Global];
            Load(Release(c, s, t, b).memory, word) ==
            if s.place[b].size <= c.maxSize && word == b && |mine| < c.limit then s.heads[Local(t)].data
            else if s.place[b].size <= c.maxSize && word == b && |shared| < c.limit then s.heads[Global].data
            else Load(s.memory, word)
  {
  }

  /** Where a released block goes: in front of the thread's list if that has room, else of the global one if that
      has, else back to malloc, where a block too large for the lists goes at once. */
  lemma ReleaseServed(c: Config, s: State, t: nat, b: int, s': State)
    requires Known(s) && Local(t) in s.lists && b in s.place && s.place[b].Held?
    requires s' == Release(c, s, t, b)
    ensures var mine, shared := s.lists[Local(t)], s.lists[Global];
            if s.place[b].size <= c.maxSize && |mine| < c.limit then
              s'.lists == s.lists[Local(t) := [b] + mine] && s'.taken == s.taken
            else if s.place[b].size <= c.maxSize && |shared| < c.limit then
              s'.lists == s.lists[Global := [b] + shared] && s'.taken == s.taken
            else s'.lists == s.lists && s'.taken == s.taken - {b}
  {
  }

  /** A block released by a thread whose list has room is the next one it is given, and the lists are as before. */
  lemma ReleasedBlockIsReused(c: Config, s: State, t: nat, b: int, size: nat, p: int, s': State)
    requires Known(s) && Local(t) in s.lists && b in s.place && s.place[b].Held?
    requires s.place[b].size <= c.maxSize && size <= c.maxSize && |s.lists[Local(t)]| < c.limit
    requires s' == Release(c, s, t, b)
    ensures Known(s') && RequestedBlock(c, s', t, size, p) == b
    ensures Request(c, s', t, size, p).lists == s.lists && Request(c, s', t, size, p).taken == s.taken
    ensures Request(c, s', t, size, p).place == s.place[b := Held(size)]
    ensures Request(c, s', t, size, p).heads == s.heads
  {
  }

  // ----- what a caller has to itself

  /** The bytes of a caller. */
  ghost predicate Owns(c: Config, s: State, b: int, x: int) {
    b in s.place && s.place[b].Held? && var h := Handle(c, b, s.place[b].size); h <= x < h + s.place[b].size
  }

  /** No byte belongs to two callers. */
  lemma CallersApart(c: Config, s: State, b: int, d: int, x: int)
    requires Inv(c, s) && Owns(c, s, b, x) && Owns(c, s, d, x)
    ensures b == d
  {
  }

  /** A word that has a byte of a caller in it. */
  ghost predicate Touches(c: Config, s: State, b: int, word: int) {
    b in s.place && s.place[b].Held? && var h := Handle(c, b, s.place[b].size); h - NODE < word < h + s.place[b].size
  }

  /** Neither a node nor a header of any block overlaps a caller's bytes. */
  lemma BookkeepingApart(c: Config, s: State, b: int, d: int, word: int)
    requires Inv(c, s) && Touches(c, s, b, word) && d in s.place
    ensures word != Region(d)
    ensures Payload(c, s.place[d]) == c.maxSize + NODE && (b == d ==> s.place[b].size <= c.maxSize) ==> word != d
  {
  }

  /** A request leaves the bytes of all callers alone. */
  lemma RequestSpares(c: Config, s: State, t: nat, size: nat, p: int, b: int, word: int)
    requires Inv(c, s) && CanServe(c, s, t, size, p) && Touches(c, s, b, word)
    ensures Load(Request(c, s, t, size, p).memory, word) == Load(s.memory, word)
  {
    if size <= c.maxSize {
      HeadTells(c, s, Local(t));
      HeadTells(c, s, Global);
      var d := Served(s, t, p);
      if d in s.place {
        BookkeepingApart(c, s, b, d, word);
      }
    }
  }

  /** A release leaves the bytes of the other callers alone. */
  lemma ReleaseSpares(c: Config, s: State, t: nat, d: int, b: int, word: int)
    requires Inv(c, s) && Known(s) && Local(t) in s.lists && d in s.place && s.place[d].Held?
    requires b != d && Touches(c, s, b, word)
    ensures Load(Release(c, s, t, d).memory, word) == Load(s.memory, word)
  {
    BookkeepingApart(c, s, b, d, word);
  }

  /** A caller writes: words that overlap byte `x` may change. */
  ghost predicate Wrote(memory: map<int, int>, memory': map<int, int>, x: int) {
    forall w :: Load(memory', w) != Load(memory, w) ==> x - NODE < w <= x
  }

  lemma WriteKeeps(c: Config, s: State, b: int, x: int, memory': map<int, int>)
    requires Inv(c, s) && Owns(c, s, b, x) && Wrote(s.memory, memory', x)
    ensures Inv(c, s.(memory := memory'))
  {
    forall d | d in s.place ensures Load(memory', Region(d)) == Load(s.memory, Region(d)) {
      if Load(memory', Region(d)) != Load(s.memory, Region(d)) {
        BookkeepingApart(c, s, b, d, Region(d));
      }
    }
    forall id, d | id in s.lists && d in s.lists[id] ensures Load(memory', d) == Load(s.memory, d) {
      assert s.place[d] == Listed(id);
      if Load(memory', d) != Load(s.memory, d) {
        BookkeepingApart(c, s, b, d, d);
      }
    }
    ListsElsewhere(c, s, s.(memory := memory'));
  }

  // ----- the end of a thread

  lemma BackwardsFirst(b: int, rest: seq<int>, k: nat, others: seq<int>)
    requires k <= |rest|
    ensures Backwards(rest[..k]) + ([b] + others) == Backwards(([b] + rest)[..k + 1]) + others
  {
    assert ([b] + rest)[..k + 1][0] == b && ([b] + rest)[..k + 1][1..] == rest[..k];
  }

  /** How many blocks of a list another one with `n` blocks has room for. */
  ghost function Room(c: Config, mine: seq<int>, n: nat): (k: nat)
    requires n <= c.limit
    ensures k <= |mine|
  {
    if |mine| <= c.limit - n then |mine| else c.limit - n
  }

  lemma DrainOneIs(c: Config, s: State, t: nat, s': State)
    requires Known(s) && Local(t) in s.lists && s.lists[Local(t)] != [] && s' == DrainOne(c, s, t)
    ensures var b, rest := s.lists[Local(t)][0], s.lists[Local(t)][1..];
            if |s.lists[Global]| < c.limit
            then s'.lists == s.lists[Local(t) := rest][Global := [b] + s.lists[Global]] && s'.taken == s.taken &&
              s'.place == s.place[b := Listed(Global)]
            else s'.lists == s.lists[Local(t) := rest] && s'.taken == s.taken - {b} && s'.place == s.place - {b}
  {
  }

  /** The first blocks of an ending thread go to the global list, the rest back to malloc; none is lost. */
  lemma {:induction false} DrainIs(c: Config, s: State, t: nat, mine: seq<int>, others: seq<int>, k: nat, s': State)
    requires Inv(c, s) && Quiet(s) && Known(s) && Local(t) in s.lists && s' == Drain(c, s, t)
    requires mine == s.lists[Local(t)] && others == s.lists[Global] && |others| <= c.limit
    requires k == Room(c, mine, |others|)
    ensures Inv(c, s') && Quiet(s')
    ensures s'.lists == s.lists[Local(t) := []][Global := Backwards(mine[..k]) + others]
    ensures forall b :: b in s'.taken <==> b in s.taken && b !in mine[k..]
    ensures forall b :: b in s'.place ==>
              b in s.place && s'.place[b] == if b in mine then Listed(Global) else s.place[b]
    decreases |mine|
  {
    hide Inv, Drain, DrainOne, Quiet;
    if mine == [] {
      NothingToDrain(c, s, t);
      assert Backwards(mine[..k]) + others == others;
      assert s.lists == s.lists[Local(t) := []][Global := others];
    } else {
      HeadTells(c, s, Local(t));
      var b, rest, s1 := mine[0], mine[1..], DrainOne(c, s, t);
      DrainStep(c, s, t, s1, s');
      DrainOneIs(c, s, t, s1);
      Members(c, s, t);
      assert mine == [b] + rest;
      if k > 0 {
        DrainIs(c, s1, t, rest, [b] + others, k - 1, s');
        BackwardsFirst(b, rest, k - 1, others);
        assert mine[k..] == rest[k - 1..];
      } else {
        DrainIs(c, s1, t, rest, others, 0, s');
        assert mine[0..] == mine && rest[0..] == rest && mine[..0] == rest[..0];
      }
    }
  }

  /** The first block of a list is on it once. */
  lemma Members(c: Config, s: State, t: nat)
    requires Inv(c, s) && Local(t) in s.lists && s.lists[Local(t)] != []
    ensures s.lists[Local(t)][0] !in s.lists[Local(t)][1..]
    ensures s.taken.Keys == s.place.Keys
    ensures forall b :: b in s.lists[Local(t)] ==> b in s.place
  {
    assert ListOk(c, s, Local(t));
  }

  // ----- over whole runs

  datatype Op =
    | Allocate(thread: nat, size: nat, p: int)
    | Free(thread: nat, b: int)
    | Finish(thread: nat)
    | Write(b: int, x: int, memory: map<int, int>)

  /** What the heap's callers and malloc may do; anything else is not offered. Any thread may free a block. */
  ghost predicate Offered(c: Config, s: State, op: Op) {
    match op
    case Allocate(t, size, p) => CanServe(c, s, t, size, p)
    case Free(t, b) => Known(s) && Local(t) in s.lists && b in s.place && s.place[b].Held?
    case Finish(t) => Known(s) && Local(t) in s.lists
    case Write(b, x, memory) => Owns(c, s, b, x) && Wrote(s.memory, memory, x)
  }

  ghost function Step(c: Config, s: State, op: Op): State
    requires Offered(c, s, op)
  {
    match op
    case Allocate(t, size, p) => Request(c, s, t, size, p)
    case Free(t, b) => Release(c, s, t, b)
    case Finish(t) => Drain(c, s, t)
    case Write(_, _, memory) => s.(memory := memory)
  }

  lemma StepKeeps(c: Config, s: State, op: Op)
    requires Inv(c, s) && Quiet(s) && Offered(c, s, op)
    ensures Inv(c, Step(c, s, op)) && Quiet(Step(c, s, op))
  {
    hide Inv, Drain;
    match op
    case Allocate(t, size, p) => RequestKeeps(c, s, t, size, p, RequestedBlock(c, s, t, size, p), Step(c, s, op));
    case Free(t, b) => ReleaseKeeps(c, s, t, b, Step(c, s, op));
    case Finish(t) =>
      HeadTells(c, s, Local(t));
      HeadTells(c, s, Global);
      DrainIs(c, s, t, s.lists[Local(t)], s.lists[Global], Room(c, s.lists[Local(t)], |s.lists[Global]|),
          Step(c, s, op));
    case Write(b, x, memory) => WriteKeeps(c, s, b, x, memory);
  }

  ghost predicate Reachable(c: Config, from: State, ops: seq<Op>, to: State)
    decreases |ops|
  {
    if ops == [] then from == to
    else Offered(c, from, ops[0]) && Reachable(c, Step(c, from, ops[0]), ops[1..], to)
  }

  lemma {:induction false} RunKeeps(c: Config, from: State, ops: seq<Op>, to: State)
    requires Inv(c, from) && Quiet(from) && Reachable(c, from, ops, to)
    ensures Inv(c, to) && Quiet(to)
    decreases |ops|
  {
    if ops != [] {
      StepKeeps(c, from, ops[0]);
      RunKeeps(c, Step(c, from, ops[0]), ops[1..], to);
    }
  }

  ghost predicate OnList(s: State, b: int, id: ListId, i: nat) {
    id in s.lists && i < |s.lists[id]| && s.lists[id][i] == b
  }

  /** In every run: a block obtained from malloc is either with one caller or at one position of one list;
      counts are lengths, within the limit; and the size in every caller's header is the size it will
      release the block with. */
  lemma NothingLost(c: Config, threads: nat, ops: seq<Op>, s: State)
    requires Reachable(c, Fresh(threads), ops, s)
    ensures s.taken.Keys == s.place.Keys
    ensures forall b :: b in s.taken && s.place[b].Held? ==>
              Load(s.memory, Region(b)) == Payload(c, s.place[b]) && forall id, i: nat :: !OnList(s, b, id, i)
    ensures forall b :: b in s.taken && !s.place[b].Held? ==>
              exists id, i: nat :: OnList(s, b, id, i) && forall id', i': nat :: OnList(s, b, id', i') ==>
                id' == id && i' == i
    ensures forall id :: id in s.lists ==> id in s.heads && |s.lists[id]| == s.heads[id].count <= c.limit
  {
    FreshOk(c, threads);
    RunKeeps(c, Fresh(threads), ops, s);
    forall id | id in s.lists ensures id in s.heads && |s.lists[id]| == s.heads[id].count <= c.limit {
      HeadTells(c, s, id);
    }
    forall b | b in s.taken && !s.place[b].Held?
      ensures exists id, i: nat :: OnList(s, b, id, i) && forall id', i': nat :: OnList(s, b, id', i') ==>
              id' == id && i' == i
    {
      var i := OneList(c, s, b);
    }
  }

  lemma OneList(c: Config, s: State, b: int) returns (i: nat)
    requires Inv(c, s) && Quiet(s) && b in s.taken && !s.place[b].Held?
    ensures OnList(s, b, s.place[b].id, i)
    ensures forall id', i': nat :: OnList(s, b, id', i') ==> id' == s.place[b].id && i' == i
  {
    var id := s.place[b].id;
    i :| i < |s.lists[id]| && s.lists[id][i] == b;
    assert ListOk(c, s, id);
  }

  /** No blocks yet, and every list empty. */
  ghost function Fresh(threads: nat): State {
    var ids := (set t | 0 <= t < threads :: Local(t)) + {Global};
    State(map[], map[], map id | id in ids :: Head(0, 0), map id | id in ids :: [], map[])
  }

  /** At first no block is taken, and every thread has an empty list; in every run each keeps its list, so that every
      thread can make requests whenever malloc has room. */
  lemma ThreadsHaveLists(c: Config, threads: nat, ops: seq<Op>, s: State, t: nat)
    requires Reachable(c, Fresh(threads), ops, s)
    ensures Fresh(threads).taken == map[] && forall id :: id in Fresh(threads).lists ==> Fresh(threads).lists[id] == []
    ensures Local(t) in s.lists <==> t < threads
    ensures t < threads ==> forall size: nat, p :: MayReturn(s.taken, p, Payload(c, Held(size)) + EXTRA) ==>
              Offered(c, s, Allocate(t, size, p))
  {
    FreshOk(c, threads);
    RunKeepsLists(c, Fresh(threads), ops, s);
  }

  lemma {:induction false} RunKeepsLists(c: Config, from: State, ops: seq<Op>, to: State)
    requires Inv(c, from) && Quiet(from) && Reachable(c, from, ops, to)
    ensures to.lists.Keys == from.lists.Keys && Known(to)
    decreases |ops|
  {
    ListsKnown(c, from);
    if ops != [] {
      StepKeeps(c, from, ops[0]);
      StepKeepsLists(c, from, ops[0]);
      RunKeepsLists(c, Step(c, from, ops[0]), ops[1..], to);
    }
  }

  lemma StepKeepsLists(c: Config, s: State, op: Op)
    requires Inv(c, s) && Quiet(s) && Offered(c, s, op)
    ensures Step(c, s, op).lists.Keys == s.lists.Keys
  {
    if op.Finish? {
      HeadTells(c, s, Local(op.thread));
      HeadTells(c, s, Global);
      var mine, others := s.lists[Local(op.thread)], s.lists[Global];
      DrainIs(c, s, op.thread, mine, others, Room(c, mine, |others|), Step(c, s, op));
    }
  }

  lemma FreshOk(c: Config, threads: nat)
    ensures Inv(c, Fresh(threads)) && Quiet(Fresh(threads))
  {
  }
}
