/** The configuration store under concurrent gets and sets, with one thread that flushes it. */
module ConfigStore {
  import opened Wrappers
  import opened Memory
  import opened ConfigFile

  /** Sizes of strings fit in size_t. */
  type Stored = s: Text | |s| <= MAX_SIZE witness []

  /** A record of who wrote an entry last: the thread, the value its set was given, and the set's round. */
  datatype Writer = Writer(thread: nat, given: Stored, round: nat)

  /** An entry object. `key` is the key it was made for, and `committed` whether it is in the map. */
  datatype Cell = Cell(
    key: Stored, value: Stored, readCount: nat, writeCount: nat, committed: bool, writer: Option<Writer>)

  function NewCell(key: Stored): Cell {
    Cell(key, [], 0, 0, false, None)
  }

  type Root = map<Stored, nat>

  /** One round of `update`: the snapshot it loaded, and the entry it writes. */
  datatype Attempt = Attempt(version: nat, snap: Root, e: nat)

  datatype Pc =
    | Idle
    | GetLoad | GetFind(snap: Root) | GetRead(e: nat) | GetCount(e: nat)
    | SetLoad | SetFind(version: nat, snap: Root)
    | SetValue(at: Attempt) | SetWrites(at: Attempt) | SetInstall(at: Attempt) | SetCount | SetDirty
  {
    predicate InSet() {
      SetLoad? || SetFind? || SetValue? || SetWrites? || SetInstall? || SetCount? || SetDirty?
    }

    predicate InAttempt() {
      SetValue? || SetWrites? || SetInstall?
    }
  }

  /** `arg` is the string `set` still holds; `given` is the one it was called with. `got` is what the last call
      returned, if that was a get: the entry object, or None. */
  datatype Thread = Thread(pc: Pc, key: Stored, arg: Stored, given: Stored, attempts: nat, got: Option<nat> := None)

  datatype Flush =
    | FlushIdle | FlushOpen | FlushLoad
    | FlushPair(order: seq<Stored>, snap: Root, i: nat) | FlushData(order: seq<Stored>, snap: Root, i: nat, size: nat)

  /** `root` is the atom's value; `version` counts the installs, so that two loads of one version loaded the
      same map. `retries` counts failed rounds, `wasted` those that had written an entry of the map. */
  datatype State = State(heap: seq<Cell>, root: Root, version: nat, dirty: bool, getTotal: nat, setTotal: nat,
                         file: Option<seq<Octet>>, threads: seq<Thread>, flusher: Flush, retries: nat, wasted: nat)

  /** `moved` is what a moved-from string holds. `order` is the order in which the map is iterated, and `junk`
      what is behind the end of a string. */
  datatype Action =
    | StartGet(key: Stored) | StartSet(key: Stored, value: Stored) | Advance(moved: Stored)
    | Save(order: seq<Stored>, junk: seq<Octet>)

  function Goto(s: State, t: nat, pc: Pc): State
    requires t < |s.threads|
  {
    s.(threads := s.threads[t := s.threads[t].(pc := pc)])
  }

  function NextGet(s: State, t: nat): State
    requires t < |s.threads|
  {
    var th := s.threads[t];
    match th.pc
    case GetLoad => Goto(s, t, GetFind(s.root))
    case GetFind(snap) =>
      if th.key in snap then Goto(s, t, GetRead(snap[th.key]))
      else s.(threads := s.threads[t := th.(pc := Idle, got := None)])
    case GetRead(e) =>
      if e >= |s.heap| then s
      else Goto(s.(heap := s.heap[e := s.heap[e].(readCount := s.heap[e].readCount + 1)]), t, GetCount(e))
    case GetCount(e) =>
      s.(getTotal := s.getTotal + 1, threads := s.threads[t := th.(pc := Idle, got := Some(e))])
    case _ => s
  }

  /** The update function writes to shared entries before its result is installed. */
  function NextSet(s: State, t: nat, moved: Stored): State
    requires t < |s.threads|
  {
    var th := s.threads[t];
    var key := th.key;
    match th.pc
    case SetLoad => s.(threads := s.threads[t := th.(pc := SetFind(s.version, s.root), attempts := th.attempts + 1)])
    case SetFind(version, snap) =>
      if key in snap then Goto(s, t, SetValue(Attempt(version, snap, snap[key])))
      else Goto(s.(heap := s.heap + [NewCell(key)]), t, SetValue(Attempt(version, snap, |s.heap|)))
    case SetValue(at) =>
      if at.e >= |s.heap| then s
      else
        var writer := Some(Writer(t, th.given, th.attempts));
        s.(heap := s.heap[at.e := s.heap[at.e].(value := th.arg, writer := writer)],
           threads := s.threads[t := th.(pc := SetWrites(at), arg := moved)])
    case SetWrites(at) =>
      if at.e >= |s.heap| then s
      else Goto(s.(heap := s.heap[at.e := s.heap[at.e].(writeCount := s.heap[at.e].writeCount + 1)]), t, SetInstall(at))
    case SetInstall(at) =>
      if at.e >= |s.heap| then s
      else if s.version == at.version then
        Goto(s.(root := at.snap[key := at.e], version := s.version + 1,
            heap := s.heap[at.e := s.heap[at.e].(committed := true)]), t, SetCount)
      else Goto(s.(retries := s.retries + 1, wasted := s.wasted + if key in at.snap then 1 else 0), t, SetLoad)
    case SetCount => Goto(s.(setTotal := s.setTotal + 1), t, SetDirty)
    case SetDirty => Goto(s.(dirty := true), t, Idle)
    case _ => s
  }

  function ValueOf(s: State, e: nat): Stored {
    if e < |s.heap| then s.heap[e].value else []
  }

  predicate Orders(order: seq<Stored>, snap: Root) {
    (forall i, j :: 0 <= i < j < |order| ==> order[i] != order[j]) && (forall k :: k in order ==> k in snap) &&
      (forall k :: k in snap ==> k in order)
  }

  function Appended(file: Option<seq<Octet>>, bytes: seq<Octet>): Option<seq<Octet>> {
    Some((if file.Some? then file.value else []) + bytes)
  }

  /** An entry's value may change between the writing of its size and of its bytes. */
  function NextFlush(s: State, order: seq<Stored>, junk: seq<Octet>): State {
    match s.flusher
    case FlushIdle => if s.dirty then s.(dirty := false, flusher := FlushOpen) else s
    case FlushOpen => s.(file := Some([]), flusher := FlushLoad)
    case FlushLoad =>
      if Orders(order, s.root) then
        s.(file := Appended(s.file, LittleEndian(|order|, SIZE)), flusher := FlushPair(order, s.root, 0))
      else s
    case FlushPair(order, snap, i) =>
      if i < |order| && order[i] in snap then
        var value := ValueOf(s, snap[order[i]]);
        s.(file := Appended(s.file, EncodeText(order[i]) + LittleEndian(|value|, SIZE)),
            flusher := FlushData(order, snap, i, |value|))
      else s.(flusher := FlushIdle)
    case FlushData(order, snap, i, size) =>
      if i < |order| && order[i] in snap then
        var value := ValueOf(s, snap[order[i]]);
        s.(file := Appended(s.file, if size <= |value| then value[..size] else value + junk),
            flusher := FlushPair(order, snap, i + 1))
      else s
  }

  /** One scheduling decision; one that is not possible leaves the state alone. */
  function Step(s: State, t: nat, a: Action): State {
    match a
    case Save(order, junk) => NextFlush(s, order, junk)
    case StartGet(key) =>
      if t < |s.threads| && s.threads[t].pc.Idle? then
        s.(threads := s.threads[t := Thread(GetLoad, key, [], [], 0)])
      else s
    case StartSet(key, value) =>
      if t < |s.threads| && s.threads[t].pc.Idle? then
        s.(threads := s.threads[t := Thread(SetLoad, key, value, value, 0)])
      else s
    case Advance(moved) =>
      if t >= |s.threads| then s else if s.threads[t].pc.InSet() then NextSet(s, t, moved) else NextGet(s, t)
  }

  function Run(s: State, schedule: seq<(nat, Action)>): State
    decreases |schedule|
  {
    if schedule == [] then s else Run(Step(s, schedule[0].0, schedule[0].1), schedule[1..])
  }

  // ----- what the store holds

  ghost function Contents(s: State): map<Text, Text> {
    map k | k in s.root :: ValueOf(s, s.root[k])
  }

  function Reads(c: Cell): nat {
    if c.committed then c.readCount else 0
  }

  function Writes(c: Cell): nat {
    if c.committed then c.writeCount else 0
  }

  /** The file loads to what the store holds; no file stands for nothing. */
  ghost predicate Saved(s: State) {
    match s.file
    case None => s.root == map[]
    case Some(b) => exists pairs :: Lists(pairs, Contents(s)) && b == EncodeFile(pairs)
  }

  /** The entry object of every key in the map, and no other. */
  ghost predicate Keyed(s: State) {
    && (forall k :: k in s.root ==> s.root[k] < |s.heap| && s.heap[s.root[k]].key == k && s.heap[s.root[k]].committed)
    && (forall e :: 0 <= e < |s.heap| && s.heap[e].committed ==> s.heap[e].key in s.root && s.root[s.heap[e].key] == e)
  }

  /** What the constructor leaves. */
  ghost predicate Initial(s: State) {
    && Keyed(s) && Saved(s) && !s.dirty && s.version == s.getTotal == s.setTotal == s.retries == s.wasted == 0
    && (forall e :: 0 <= e < |s.heap| ==> s.heap[e].readCount == s.heap[e].writeCount == 0 && s.heap[e].writer == None)
    && (forall t :: 0 <= t < |s.threads| ==> s.threads[t].pc.Idle?)
    && s.flusher == FlushIdle
  }

  ghost predicate NoSets(s: State) {
    forall t :: 0 <= t < |s.threads| ==> !s.threads[t].pc.InSet()
  }

  ghost predicate Quiescent(s: State) {
    forall t :: 0 <= t < |s.threads| ==> s.threads[t].pc.Idle?
  }
}
