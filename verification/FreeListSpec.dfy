/** Where the blocks of the free-list heaps are, and what their words hold. */
module FreeListSpec {
  /** One list per thread, and the one they share. */
  datatype ListId = Local(thread: nat) | Global

  /** The static `head()` of a list: first node (0 is null) and count. */
  datatype Head = Head(data: int, count: int)

  /** A block is with a caller who asked for `size` bytes, in a list, or on its way between layers. */
  datatype Place = Held(size: nat) | Listed(id: ListId) | Moving(payload: nat)

  /** sizeof(free_list_node), which is also the size of a word, and the debug heap's extra_size. */
  const NODE: nat := 8
  const EXTRA: nat := 16

  /** The largest request served from the lists, and how many blocks a list keeps. */
  datatype Config = Config(maxSize: nat, limit: nat)

  /** `memory` maps addresses to words; `taken` are the blocks obtained from malloc and not given back,
      with the number of bytes behind their size headers; a block is named by the address behind its header.
      `lists` and `place` say where the blocks are. */
  datatype State = State(memory: map<int, int>, taken: map<int, nat>, heads: map<ListId, Head>,
                         lists: map<ListId, seq<int>>, place: map<int, Place>)

  function Load(memory: map<int, int>, a: int): int {
    if a in memory then memory[a] else 0
  }

  /** Where malloc's region begins: the address of the size header. */
  function Region(block: int): int {
    block - EXTRA
  }

  /** The number of bytes the debug heap was asked for. */
  function Payload(c: Config, p: Place): nat {
    match p
    case Held(size) => if size <= c.maxSize then c.maxSize + NODE else size
    case Listed(_) => c.maxSize + NODE
    case Moving(payload) => payload
  }

  /** The pointer the caller has. */
  function Handle(c: Config, b: int, size: nat): int {
    if size <= c.maxSize then b + NODE else b
  }

  // ----- the invariant

  ghost predicate Chain(memory: map<int, int>, data: int, nodes: seq<int>)
    decreases |nodes|
  {
    if nodes == [] then data == 0
    else data == nodes[0] && data != 0 && Chain(memory, Load(memory, data), nodes[1..])
  }

  ghost predicate Distinct(nodes: seq<int>) {
    forall i, j :: 0 <= i < j < |nodes| ==> nodes[i] != nodes[j]
  }

  /** Regions from malloc do not overlap. */
  ghost predicate Apart(taken: map<int, nat>) {
    forall a, b :: a in taken && b in taken && a < b ==> a + taken[a] <= Region(b)
  }

  /** Blocks and regions correspond, and every block's header holds the size it was asked for. */
  ghost predicate Headers(c: Config, s: State) {
    && s.taken.Keys == s.place.Keys
    && (forall b :: b in s.place ==> Region(b) > 0 && s.taken[b] == Payload(c, s.place[b]))
    && (forall b :: b in s.place ==> Load(s.memory, Region(b)) == Payload(c, s.place[b]))
  }

  /** A list is a chain of distinct blocks, counted, within the limit. */
  ghost predicate ListOk(c: Config, s: State, id: ListId)
    requires id in s.heads && id in s.lists
  {
    && Chain(s.memory, s.heads[id].data, s.lists[id]) && Distinct(s.lists[id])
    && |s.lists[id]| == s.heads[id].count <= c.limit
  }

  /** A block is on a list exactly when its place says so; hence on one list at most. */
  ghost predicate Located(s: State) {
    && (forall id :: id in s.lists ==> forall b :: b in s.lists[id] ==> b in s.place && s.place[b] == Listed(id))
    && (forall b :: b in s.place && s.place[b].Listed? ==> s.place[b].id in s.lists && b in s.lists[s.place[b].id])
  }

  ghost predicate Inv(c: Config, s: State) {
    && Apart(s.taken) && Headers(c, s) && Located(s)
    && s.heads.Keys == s.lists.Keys && Global in s.heads
    && forall id :: id in s.lists ==> ListOk(c, s, id)
  }

  // ----- the elementary changes

  /** malloc may return `p` for `n` bytes: not null, and overlapping nothing in use. */
  ghost predicate MayReturn(taken: map<int, nat>, p: int, n: nat) {
    p > 0 && forall b :: b in taken ==> b + taken[b] <= p || p + n <= Region(b)
  }

  /** A new region with its size header. */
  ghost function Carve(s: State, payload: nat, p: int): State {
    s.(memory := s.memory[p := payload], taken := s.taken[p + EXTRA := payload],
        place := s.place[p + EXTRA := Moving(payload)])
  }

  /** A region handed back to malloc. */
  ghost function GiveBack(s: State, b: int): State {
    s.(taken := s.taken - {b}, place := s.place - {b})
  }

  ghost function Pop(c: Config, s: State, id: ListId): State
    requires id in s.heads && id in s.lists && s.lists[id] != []
  {
    var b := s.lists[id][0];
    s.(heads := s.heads[id := Head(Load(s.memory, b), s.heads[id].count - 1)],
       lists := s.lists[id := s.lists[id][1..]], place := s.place[b := Moving(c.maxSize + NODE)])
  }

  ghost function Push(s: State, id: ListId, b: int): State
    requires id in s.heads && id in s.lists
  {
    s.(memory := s.memory[b := s.heads[id].data], heads := s.heads[id := Head(b, s.heads[id].count + 1)],
       lists := s.lists[id := [b] + s.lists[id]], place := s.place[b := Listed(id)])
  }

  /** The caller gets the block, its node reset; or gives it up. */
  ghost function Hand(s: State, b: int, size: nat): State {
    s.(memory := s.memory[b := 0], place := s.place[b := Held(size)])
  }

  // ----- memory that a write leaves alone

  lemma {:induction false} ChainElsewhere(memory: map<int, int>, memory': map<int, int>, data: int, nodes: seq<int>)
    requires Chain(memory, data, nodes) && forall b :: b in nodes ==> Load(memory', b) == Load(memory, b)
    ensures Chain(memory', data, nodes)
    decreases |nodes|
  {
    if nodes != [] {
      ChainElsewhere(memory, memory', Load(memory, data), nodes[1..]);
    }
  }

  ghost predicate Known(s: State) {
    s.heads.Keys == s.lists.Keys && Global in s.lists
  }

  lemma ListsKnown(c: Config, s: State)
    requires Inv(c, s)
    ensures Known(s)
  {
  }

  /** What the head of a list tells about it. */
  lemma HeadTells(c: Config, s: State, id: ListId)
    requires Inv(c, s) && id in s.lists
    ensures Known(s) && id in s.heads
    ensures |s.lists[id]| == s.heads[id].count <= c.limit
    ensures if s.lists[id] == [] then s.heads[id].data == 0
            else s.heads[id].data == s.lists[id][0] != 0
    ensures s.lists[id] != [] ==> s.lists[id][0] in s.place && s.place[s.lists[id][0]] == Listed(id)
  {
    assert ListOk(c, s, id);
  }

  /** Every list survives a write that spares the nodes of all lists. */
  lemma ListsElsewhere(c: Config, s: State, s': State)
    requires Inv(c, s) && s'.heads == s.heads && s'.lists == s.lists
    requires forall id, b :: id in s.lists && b in s.lists[id] ==> Load(s'.memory, b) == Load(s.memory, b)
    ensures forall id :: id in s'.lists ==> ListOk(c, s', id)
  {
    forall id | id in s'.lists ensures ListOk(c, s', id) {
      ChainElsewhere(s.memory, s'.memory, s.heads[id].data, s.lists[id]);
    }
  }

  lemma CarveKeeps(c: Config, s: State, payload: nat, p: int)
    requires Inv(c, s) && MayReturn(s.taken, p, payload + EXTRA)
    ensures Inv(c, Carve(s, payload, p)) && p + EXTRA !in s.place
  {
    var s' := Carve(s, payload, p);
    CarvedApart(c, s, payload, p);
    hide Apart, Headers, ListOk, MayReturn;
    forall id, b | id in s.lists && b in s.lists[id] ensures Load(s'.memory, b) == Load(s.memory, b) {
      assert s.place[b] == Listed(id);
    }
    ListsElsewhere(c, s, s');
  }

  lemma CarvedApart(c: Config, s: State, payload: nat, p: int)
    requires Apart(s.taken) && Headers(c, s) && MayReturn(s.taken, p, payload + EXTRA)
    ensures Apart(Carve(s, payload, p).taken) && Headers(c, Carve(s, payload, p)) && p + EXTRA !in s.place
    ensures forall b :: b in s.place && s.place[b].Listed? ==> b != p
  {
  }

  lemma GiveBackKeeps(c: Config, s: State, b: int)
    requires Inv(c, s) && b in s.place && s.place[b].Moving?
    ensures Inv(c, GiveBack(s, b))
  {
    ListsElsewhere(c, s, GiveBack(s, b));
  }

  lemma PopKeeps(c: Config, s: State, id: ListId)
    requires Inv(c, s) && id in s.lists && s.lists[id] != []
    ensures Inv(c, Pop(c, s, id))
  {
    var s' := Pop(c, s, id);
    forall k | k in s'.lists ensures ListOk(c, s', k) {
      assert ListOk(c, s, k);
    }
  }

  lemma PushKeeps(c: Config, s: State, id: ListId, b: int)
    requires Inv(c, s) && id in s.lists && |s.lists[id]| < c.limit
    requires b in s.place && s.place[b] == Moving(c.maxSize + NODE)
    ensures Inv(c, Push(s, id, b))
  {
    PushedHeaders(c, s, id, b);
    hide ListOk, Headers, Apart;
    var s' := Push(s, id, b);
    forall k | k in s'.lists ensures ListOk(c, s', k) {
      PushList(c, s, id, b, k);
    }
  }

  lemma PushedHeaders(c: Config, s: State, id: ListId, b: int)
    requires Apart(s.taken) && Headers(c, s) && id in s.lists && id in s.heads
    requires b in s.place && s.place[b] == Moving(c.maxSize + NODE)
    ensures Headers(c, Push(s, id, b)) && b > EXTRA
  {
  }

  lemma PushList(c: Config, s: State, id: ListId, b: int, k: ListId)
    requires id in s.lists && k in s.lists && id in s.heads && k in s.heads && ListOk(c, s, k)
    requires |s.lists[id]| < c.limit
    requires b > EXTRA && b !in s.lists[k]
    ensures ListOk(c, Push(s, id, b), k)
  {
    ChainElsewhere(s.memory, Push(s, id, b).memory, s.heads[k].data, s.lists[k]);
    assert ([b] + s.lists[id])[1..] == s.lists[id];
  }

  lemma HandKeeps(c: Config, s: State, b: int, size: nat)
    requires Inv(c, s) && size <= c.maxSize && b in s.place && s.place[b] == Moving(c.maxSize + NODE)
    ensures Inv(c, Hand(s, b, size))
  {
    ListsElsewhere(c, s, Hand(s, b, size));
  }

  /** A place that claims as many bytes can take over. */
  ghost function Relabel(s: State, b: int, p: Place): State {
    s.(place := s.place[b := p])
  }

  lemma RelabelKeeps(c: Config, s: State, b: int, p: Place)
    requires Inv(c, s) && b in s.place && !s.place[b].Listed? && !p.Listed? && Payload(c, s.place[b]) == Payload(c, p)
    ensures Inv(c, Relabel(s, b, p))
  {
    ListsElsewhere(c, s, Relabel(s, b, p));
  }

  // ----- requests and releases

  /** The layers under a thread's list serve a request. */
  ghost function Take(c: Config, s: State, t: nat, p: int): State
    requires Known(s) && Local(t) in s.lists
  {
    if s.lists[Local(t)] != [] then Pop(c, s, Local(t))
    else if s.lists[Global] != [] then Pop(c, s, Global)
    else Carve(s, c.maxSize + NODE, p)
  }

  ghost function PutGlobal(c: Config, s: State, b: int): State
    requires Known(s)
  {
    if |s.lists[Global]| >= c.limit then GiveBack(s, b) else Push(s, Global, b)
  }

  ghost function Put(c: Config, s: State, t: nat, b: int): State
    requires Known(s) && Local(t) in s.lists
  {
    if |s.lists[Local(t)]| >= c.limit then PutGlobal(c, s, b) else Push(s, Local(t), b)
  }

  /** The end of a thread: one block after the other goes to the layer below. */
  ghost function Drain(c: Config, s: State, t: nat): State
    requires Known(s) && Local(t) in s.lists
    decreases |s.lists[Local(t)]|
  {
    if s.lists[Local(t)] == [] then s
    else Drain(c, DrainOne(c, s, t), t)
  }

  ghost function Backwards(s: seq<int>): seq<int> {
    if s == [] then [] else Backwards(s[1..]) + [s[0]]
  }

  ghost predicate Quiet(s: State) {
    forall b :: b in s.place ==> !s.place[b].Moving?
  }

  lemma PutGlobalKeeps(c: Config, s: State, b: int)
    requires Inv(c, s) && b in s.place && s.place[b] == Moving(c.maxSize + NODE)
    ensures Known(s) && Inv(c, PutGlobal(c, s, b))
  {
    hide Inv;
    ListsKnown(c, s);
    HeadTells(c, s, Global);
    if |s.lists[Global]| >= c.limit {
      GiveBackKeeps(c, s, b);
    } else {
      PushKeeps(c, s, Global, b);
    }
  }

  /** One block of an ending thread. */
  ghost function DrainOne(c: Config, s: State, t: nat): State
    requires Known(s) && Local(t) in s.lists && s.lists[Local(t)] != []
  {
    PutGlobal(c, Pop(c, s, Local(t)), s.lists[Local(t)][0])
  }

  lemma DrainStep(c: Config, s: State, t: nat, s': State, goal: State)
    requires Inv(c, s) && Quiet(s) && Known(s) && Local(t) in s.lists && s.lists[Local(t)] != []
    requires s' == DrainOne(c, s, t) && goal == Drain(c, s, t)
    ensures Inv(c, s') && Quiet(s') && Known(s') && Local(t) in s'.lists && s'.lists[Local(t)] == s.lists[Local(t)][1..]
    ensures goal == Drain(c, s', t)
  {
    hide Inv;
    HeadTells(c, s, Local(t));
    PopKeeps(c, s, Local(t));
    PutGlobalKeeps(c, Pop(c, s, Local(t)), s.lists[Local(t)][0]);
  }

  lemma NothingToDrain(c: Config, s: State, t: nat)
    requires Known(s) && Local(t) in s.lists && s.lists[Local(t)] == []
    ensures Drain(c, s, t) == s
  {
  }
}
