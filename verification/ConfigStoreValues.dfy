/** Which value a set leaves behind: its own when it is alone, and otherwise exactly when it was the last to
    write the entry and still had its value. */
module ConfigStoreValues {
  import opened Wrappers
  import opened Memory
  import opened ConfigStore
  import opened ConfigStoreProof

  // ----- a set that no other set disturbs

  ghost predicate NoOtherSets(s: State, t: nat) {
    forall u :: 0 <= u < |s.threads| && u != t ==> !s.threads[u].pc.InSet()
  }

  /** From `s` on, nobody but `t` is in a set, and `t` starts none. */
  ghost predicate Undisturbed(s: State, schedule: seq<(nat, Action)>, t: nat)
    decreases |schedule|
  {
    NoOtherSets(s, t) &&
    (schedule != [] ==>
       var (u, a) := schedule[0];
       !(u == t && a.StartSet? && t < |s.threads| && s.threads[t].pc.Idle?) &&
         Undisturbed(Step(s, u, a), schedule[1..], t))
  }

  /** How far the set of `t` has come from a store that held `c0`. */
  ghost predicate Midway(c0: map<Text, Text>, s: State, t: nat, key: Stored, value: Stored) {
    t < |s.threads| &&
    var th := s.threads[t];
    var c1 := c0[key := value];
    (th.pc.InSet() ==> th.key == key) &&
    match th.pc
    case SetLoad => th.arg == value && Contents(s) == c0
    case SetFind(version, snap) => th.arg == value && version == s.version && snap == s.root && Contents(s) == c0
    case SetValue(at) => th.arg == value && at.version == s.version && at.snap == s.root && Contents(s) == c0
    case SetWrites(at) => WrittenOk(c0, s, at, key, value)
    case SetInstall(at) => WrittenOk(c0, s, at, key, value)
    case _ => Contents(s) == c1
  }

  ghost predicate WrittenOk(c0: map<Text, Text>, s: State, at: Attempt, key: Stored, value: Stored) {
    && at.version == s.version && at.snap == s.root && ValueOf(s, at.e) == value
    && Contents(s) == if key in s.root then c0[key := value] else c0
  }

  /** The contents depend on the map and on the values of its entries. */
  lemma SameContents(s: State, s': State)
    requires s'.root == s.root && forall k :: k in s.root ==> ValueOf(s', s.root[k]) == ValueOf(s, s.root[k])
    ensures Contents(s') == Contents(s)
  {
  }

  /** A step that leaves `t` and all values alone. */
  lemma MidwayKept(c0: map<Text, Text>, s: State, s': State, t: nat, key: Stored, value: Stored)
    requires Midway(c0, s, t, key, value) && s'.root == s.root && s'.version == s.version
    requires forall e: nat :: ValueOf(s', e) == ValueOf(s, e)
    requires |s'.threads| == |s.threads| && s'.threads[t] == s.threads[t]
    ensures Midway(c0, s', t, key, value)
  {
    SameContents(s, s');
    hide Contents;
  }

  lemma FindMidway(c0: map<Text, Text>, s: State, t: nat, key: Stored, value: Stored, moved: Stored)
    requires Inv(s) && Midway(c0, s, t, key, value) && s.threads[t].pc.SetFind?
    ensures Midway(c0, NextSet(s, t, moved), t, key, value)
  {
    IdentityKeyed(s);
    hide Inv, Midway;
    var s' := NextSet(s, t, moved);
    SameContents(s, s');
    hide Contents, Keyed;
    Found(c0, s, s', t, key, value);
  }

  lemma Found(c0: map<Text, Text>, s: State, s': State, t: nat, key: Stored, value: Stored)
    requires Midway(c0, s, t, key, value) && s.threads[t].pc.SetFind? && Contents(s') == Contents(s)
    requires s'.root == s.root && s'.version == s.version && t < |s'.threads| && s'.threads[t].pc.SetValue?
    requires var at := s'.threads[t].pc.at;
             s'.threads[t] == s.threads[t].(pc := SetValue(at)) &&
             at.version == s.threads[t].pc.version && at.snap == s.threads[t].pc.snap
    ensures Midway(c0, s', t, key, value)
  {
    hide Contents;
  }

  lemma ValueMidway(c0: map<Text, Text>, s: State, t: nat, key: Stored, value: Stored, moved: Stored)
    requires Inv(s) && Midway(c0, s, t, key, value) && s.threads[t].pc.SetValue?
    ensures Midway(c0, NextSet(s, t, moved), t, key, value)
  {
    var e, s' := s.threads[t].pc.at.e, NextSet(s, t, moved);
    IdentityKeyed(s);
    AttemptCell(s, t);
    assert ThreadOk(s, s.threads[t]);
    ValueWritten(s, s', e, key, value);
    hide Contents, Inv, ThreadOk, Keyed;
  }

  /** Writing the entry of a key changes the value of that key, if the map has it. */
  lemma ValueWritten(s: State, s': State, e: nat, key: Stored, value: Stored)
    requires Keyed(s) && e < |s.heap| && s'.root == s.root && |s'.heap| == |s.heap|
    requires s'.heap[e].value == value && forall i :: 0 <= i < |s.heap| && i != e ==> s'.heap[i] == s.heap[i]
    requires if key in s.root then s.root[key] == e else !s.heap[e].committed
    ensures Contents(s') == if key in s.root then Contents(s)[key := value] else Contents(s)
  {
  }

  lemma InstallMidway(c0: map<Text, Text>, s: State, t: nat, key: Stored, value: Stored, moved: Stored)
    requires Inv(s) && Midway(c0, s, t, key, value) && s.threads[t].pc.SetInstall?
    ensures Midway(c0, NextSet(s, t, moved), t, key, value)
  {
    var e, s' := s.threads[t].pc.at.e, NextSet(s, t, moved);
    IdentityKeyed(s);
    AttemptCell(s, t);
    assert ThreadOk(s, s.threads[t]);
    Installs(s, s', e, key);
    hide Contents, Inv, ThreadOk, Keyed;
  }

  lemma Installs(s: State, s': State, e: nat, key: Stored)
    requires Keyed(s) && e < |s.heap| && s'.root == s.root[key := e]
    requires forall i: nat :: ValueOf(s', i) == ValueOf(s, i)
    ensures Contents(s') == Contents(s)[key := ValueOf(s, e)]
  {
  }

  /** The steps of a set that only move its thread, or count. */
  lemma CountMidway(c0: map<Text, Text>, s: State, t: nat, key: Stored, value: Stored, moved: Stored)
    requires Midway(c0, s, t, key, value)
    requires s.threads[t].pc.SetLoad? || s.threads[t].pc.SetCount? || s.threads[t].pc.SetDirty?
    ensures Midway(c0, NextSet(s, t, moved), t, key, value)
  {
    SameContents(s, NextSet(s, t, moved));
    hide Contents;
  }

  lemma WriteMidway(c0: map<Text, Text>, s: State, t: nat, key: Stored, value: Stored, moved: Stored)
    requires Midway(c0, s, t, key, value) && s.threads[t].pc.SetWrites? && s.threads[t].pc.at.e < |s.heap|
    ensures Midway(c0, NextSet(s, t, moved), t, key, value)
  {
    SameContents(s, NextSet(s, t, moved));
    hide Contents;
  }

  lemma SetMidway(c0: map<Text, Text>, s: State, t: nat, key: Stored, value: Stored, moved: Stored)
    requires Inv(s) && Midway(c0, s, t, key, value) && s.threads[t].pc.InSet()
    ensures Midway(c0, NextSet(s, t, moved), t, key, value)
  {
    MidwayBound(c0, s, t, key, value);
    hide Midway, Inv, NextSet;
    match s.threads[t].pc
    case SetFind(_, _) => FindMidway(c0, s, t, key, value, moved);
    case SetValue(_) => ValueMidway(c0, s, t, key, value, moved);
    case SetWrites(_) =>
      AttemptCellOf(s, t);
      WriteMidway(c0, s, t, key, value, moved);
    case SetInstall(_) => InstallMidway(c0, s, t, key, value, moved);
    case _ => CountMidway(c0, s, t, key, value, moved);
  }

  lemma GetMidway(c0: map<Text, Text>, s: State, u: nat, t: nat, key: Stored, value: Stored)
    requires Midway(c0, s, t, key, value) && u < |s.threads| && !s.threads[u].pc.InSet()
    ensures Midway(c0, NextGet(s, u), t, key, value)
  {
    var s' := NextGet(s, u);
    SameContents(s, s');
    hide Contents;
    if u != t {
      MidwayKept(c0, s, s', t, key, value);
    }
  }

  lemma StartMidway(c0: map<Text, Text>, s: State, u: nat, th: Thread, t: nat, key: Stored, value: Stored)
    requires Midway(c0, s, t, key, value) && u < |s.threads| && s.threads[u].pc.Idle? && (u == t ==> th.pc.GetLoad?)
    ensures Midway(c0, s.(threads := s.threads[u := th]), t, key, value)
  {
    SameContents(s, s.(threads := s.threads[u := th]));
    hide Contents;
  }

  lemma StepMidway(c0: map<Text, Text>, s: State, u: nat, a: Action, t: nat, key: Stored, value: Stored)
    requires Inv(s) && Midway(c0, s, t, key, value) && NoOtherSets(s, t)
    requires !(u == t && a.StartSet? && s.threads[t].pc.Idle?)
    ensures Midway(c0, Step(s, u, a), t, key, value)
  {
    hide Inv, Midway, Contents;
    match a
    case Save(order, junk) => FlushMidway(c0, s, order, junk, t, key, value);
    case StartGet(k) =>
      if u < |s.threads| && s.threads[u].pc.Idle? {
        StartMidway(c0, s, u, Thread(GetLoad, k, [], [], 0), t, key, value);
      }
    case StartSet(k, v) =>
      if u < |s.threads| && s.threads[u].pc.Idle? {
        StartMidway(c0, s, u, Thread(SetLoad, k, v, v, 0), t, key, value);
      }
    case Advance(moved) =>
      if u < |s.threads| && s.threads[u].pc.InSet() {
        SetMidway(c0, s, t, key, value, moved);
      } else if u < |s.threads| {
        GetMidway(c0, s, u, t, key, value);
      }
  }

  lemma FlushMidway(
    c0: map<Text, Text>, s: State, order: seq<Stored>, junk: seq<Octet>, t: nat, key: Stored, value: Stored)
    requires Midway(c0, s, t, key, value)
    ensures Midway(c0, NextFlush(s, order, junk), t, key, value)
  {
    MidwayKept(c0, s, NextFlush(s, order, junk), t, key, value);
  }

  lemma {:induction false} RunMidway(
    c0: map<Text, Text>, s: State, schedule: seq<(nat, Action)>, t: nat, key: Stored, value: Stored)
    requires Inv(s) && Midway(c0, s, t, key, value) && Undisturbed(s, schedule, t)
    ensures Midway(c0, Run(s, schedule), t, key, value)
    decreases |schedule|
  {
    hide Inv, Midway;
    if schedule != [] {
      MidwayBound(c0, s, t, key, value);
      StepKeepsInv(s, schedule[0].0, schedule[0].1);
      StepMidway(c0, s, schedule[0].0, schedule[0].1, t, key, value);
      RunMidway(c0, Step(s, schedule[0].0, schedule[0].1), schedule[1..], t, key, value);
    }
  }

  lemma MidwayBound(c0: map<Text, Text>, s: State, t: nat, key: Stored, value: Stored)
    requires Midway(c0, s, t, key, value)
    ensures t < |s.threads|
  {
  }

  /** Whatever gets and flushing go on meanwhile: if no other set is under way from the call of a set to its
      return, the store then holds the value under the key, and everything else as before. */
  lemma LoneSet(s: State, t: nat, key: Stored, value: Stored, schedule: seq<(nat, Action)>, s': State)
    requires Inv(s) && t < |s.threads| && s.threads[t].pc.Idle?
    requires Undisturbed(Step(s, t, StartSet(key, value)), schedule, t)
    requires s' == Run(Step(s, t, StartSet(key, value)), schedule) && t < |s'.threads| && !s'.threads[t].pc.InSet()
    ensures Contents(s') == Contents(s)[key := value]
  {
    var s1 := Step(s, t, StartSet(key, value));
    StepKeepsInv(s, t, StartSet(key, value));
    SameContents(s, s1);
    RunMidway(Contents(s), s1, schedule, t, key, value);
  }

  // ----- sets that meet

  /** What `set` still holds: its value until the first round has written it, a moved-from string after. */
  ghost predicate HeldOk(th: Thread, moved: Stored) {
    && (th.pc.SetLoad? ==> th.arg == if th.attempts == 0 then th.given else moved)
    && (th.pc.SetFind? || th.pc.SetValue? ==>
          th.attempts >= 1 && th.arg == if th.attempts == 1 then th.given else moved)
    && (th.pc.SetWrites? || th.pc.SetInstall? ==> th.attempts >= 1 && th.arg == moved)
  }

  ghost predicate AllHeld(s: State, moved: Stored) {
    forall t :: 0 <= t < |s.threads| ==> HeldOk(s.threads[t], moved)
  }

  /** Moved-from strings all hold `moved`. */
  ghost predicate MovesTo(schedule: seq<(nat, Action)>, moved: Stored) {
    forall i :: 0 <= i < |schedule| && schedule[i].1.Advance? ==> schedule[i].1.moved == moved
  }

  lemma StepKeepsHeld(s: State, t: nat, a: Action, moved: Stored)
    requires AllHeld(s, moved) && (a.Advance? ==> a.moved == moved)
    ensures AllHeld(Step(s, t, a), moved)
  {
    if t < |s.threads| && !a.Save? {
      assert HeldOk(s.threads[t], moved);
      MovingThread(s, t, a, moved, Step(s, t, a));
    }
  }

  lemma MovingThread(s: State, t: nat, a: Action, moved: Stored, s': State)
    requires t < |s.threads| && HeldOk(s.threads[t], moved) && (a.Advance? ==> a.moved == moved) && !a.Save? &&
             s' == Step(s, t, a)
    ensures |s'.threads| == |s.threads| && HeldOk(s'.threads[t], moved)
    ensures forall u :: 0 <= u < |s.threads| && u != t ==> s'.threads[u] == s.threads[u]
  {
    if a.Advance? {
      if s.threads[t].pc.InSet() {
        MovingSet(s, t, moved, s');
      } else {
        MovingGet(s, t, moved, s');
      }
    }
  }

  lemma MovingGet(s: State, t: nat, moved: Stored, s': State)
    requires t < |s.threads| && !s.threads[t].pc.InSet() && s' == NextGet(s, t)
    ensures |s'.threads| == |s.threads| && HeldOk(s'.threads[t], moved)
    ensures forall u :: 0 <= u < |s.threads| && u != t ==> s'.threads[u] == s.threads[u]
  {
  }

  lemma MovingSet(s: State, t: nat, moved: Stored, s': State)
    requires t < |s.threads| && HeldOk(s.threads[t], moved) && s.threads[t].pc.InSet() && s' == NextSet(s, t, moved)
    ensures |s'.threads| == |s.threads| && HeldOk(s'.threads[t], moved)
    ensures forall u :: 0 <= u < |s.threads| && u != t ==> s'.threads[u] == s.threads[u]
  {
    assert s'.threads == s.threads || s'.threads == s.threads[t := s'.threads[t]];
  }

  lemma {:induction false} RunKeepsHeld(s: State, schedule: seq<(nat, Action)>, moved: Stored)
    requires AllHeld(s, moved) && MovesTo(schedule, moved)
    ensures AllHeld(Run(s, schedule), moved)
    decreases |schedule|
  {
    if schedule != [] {
      assert schedule[0].1.Advance? ==> schedule[0].1.moved == moved;
      StepKeepsHeld(s, schedule[0].0, schedule[0].1, moved);
      RunKeepsHeld(Step(s, schedule[0].0, schedule[0].1), schedule[1..], moved);
    }
  }

  /** In every run, a round of a set writes the value the set was given exactly when it is the set's first
      round, or the value is what a moved-from string holds anyway. */
  lemma RoundWritesGiven(s0: State, schedule: seq<(nat, Action)>, moved: Stored, t: nat)
    requires Initial(s0) && MovesTo(schedule, moved)
    requires t < |Run(s0, schedule).threads| && Run(s0, schedule).threads[t].pc.SetValue?
    ensures var s := Run(s0, schedule);
            var th := s.threads[t];
            ValueOf(Step(s, t, Advance(moved)), th.pc.at.e) == th.given <==> th.attempts == 1 || th.given == moved
  {
    InitialInv(s0);
    RunKeepsInv(s0, schedule);
    RunKeepsHeld(s0, schedule, moved);
    var s := Run(s0, schedule);
    assert HeldOk(s.threads[t], moved);
    AttemptCell(s, t);
  }

  // ----- the value at the install

  /** What the last writer of an entry left in it. */
  function Left(w: Writer, moved: Stored): Stored {
    if w.round == 1 then w.given else moved
  }

  ghost predicate CellOk(c: Cell, moved: Stored) {
    c.writer.Some? ==> c.value == Left(c.writer.value, moved)
  }

  /** The entry that a set has written in its last round. */
  function EntryOf(s: State, th: Thread): Option<nat> {
    match th.pc
    case SetWrites(at) => Some(at.e)
    case SetInstall(at) => Some(at.e)
    case SetCount => if th.key in s.root then Some(s.root[th.key]) else None
    case SetDirty => if th.key in s.root then Some(s.root[th.key]) else None
    case _ => None
  }

  predicate HasWritten(pc: Pc) {
    pc.SetWrites? || pc.SetInstall? || pc.SetCount? || pc.SetDirty?
  }

  /** Until a set returns, the record in its entry tells whether it was the last to write it. */
  ghost predicate WriterOk(s: State, t: nat) {
    t < |s.threads| &&
    var th := s.threads[t];
    HasWritten(th.pc) ==>
      match EntryOf(s, th)
      case None => false
      case Some(e) =>
        && e < |s.heap| && s.heap[e].writer.Some?
        && var w := s.heap[e].writer.value;
        w.thread == t ==> w.given == th.given && w.round == th.attempts
  }

  ghost predicate Writers(s: State, moved: Stored) {
    && (forall e :: 0 <= e < |s.heap| ==> CellOk(s.heap[e], moved))
    && (forall t :: 0 <= t < |s.threads| ==> WriterOk(s, t))
  }

  /** A thread goes on, at most, with the entry it has written. */
  ghost predicate GoesOn(s: State, th: Thread, s': State, th': Thread) {
    HasWritten(th'.pc) ==>
      && HasWritten(th.pc) && th'.key == th.key && th'.given == th.given && th'.attempts == th.attempts
      && match th'.pc
         case SetWrites(at) => EntryOf(s, th) == Some(at.e)
         case SetInstall(at) => EntryOf(s, th) == Some(at.e)
         case _ =>
           if th.pc.SetInstall? then th.key in s'.root && s'.root[th.key] == th.pc.at.e
           else th.pc.SetCount? || th.pc.SetDirty?
  }

  lemma WriterGoesOn(s: State, s': State, t: nat)
    requires WriterOk(s, t) && t < |s'.threads| && GoesOn(s, s.threads[t], s', s'.threads[t]) && Sub(s.root, s'.root)
    requires |s'.heap| >= |s.heap| && forall e :: 0 <= e < |s.heap| ==> s'.heap[e].writer == s.heap[e].writer
    ensures WriterOk(s', t)
  {
  }

  /** Values and writers of all entries stay, and no thread comes to the end of a round. */
  lemma WritersKept(s: State, s': State, moved: Stored)
    requires Writers(s, moved) && |s'.heap| >= |s.heap| && |s'.threads| == |s.threads| && Sub(s.root, s'.root)
    requires forall e :: 0 <= e < |s.heap| ==> s'.heap[e].value == s.heap[e].value
    requires forall e :: 0 <= e < |s.heap| ==> s'.heap[e].writer == s.heap[e].writer
    requires forall e :: |s.heap| <= e < |s'.heap| ==> s'.heap[e].writer == None
    requires forall t :: 0 <= t < |s.threads| ==> GoesOn(s, s.threads[t], s', s'.threads[t])
    ensures Writers(s', moved)
  {
    forall t | 0 <= t < |s'.threads| ensures WriterOk(s', t) {
      assert WriterOk(s, t);
      WriterGoesOn(s, s', t);
    }
    forall e | 0 <= e < |s'.heap| ensures CellOk(s'.heap[e], moved) {
      if e < |s.heap| {
        assert CellOk(s.heap[e], moved);
      }
    }
  }

  lemma ValueKeepsWriters(s: State, t: nat, moved: Stored)
    requires Writers(s, moved) && AllHeld(s, moved) && t < |s.threads| && s.threads[t].pc.SetValue?
    requires s.threads[t].pc.at.e < |s.heap|
    ensures Writers(NextSet(s, t, moved), moved)
  {
    var s', e := NextSet(s, t, moved), s.threads[t].pc.at.e;
    assert HeldOk(s.threads[t], moved);
    forall u | 0 <= u < |s'.threads| ensures WriterOk(s', u) {
      assert WriterOk(s, u);
    }
    forall i | 0 <= i < |s'.heap| ensures CellOk(s'.heap[i], moved) {
      if i != e {
        assert CellOk(s.heap[i], moved);
      }
    }
  }

  lemma AttemptKeepsWriters(s: State, t: nat, moved: Stored)
    requires Writers(s, moved) && t < |s.threads| && (s.threads[t].pc.SetWrites? || s.threads[t].pc.SetInstall?)
    requires s.threads[t].pc.at.e < |s.heap|
    requires Sub(s.root, NextSet(s, t, moved).root)
    ensures Writers(NextSet(s, t, moved), moved)
  {
    hide Writers, Sub;
    WritersKept(s, NextSet(s, t, moved), moved);
  }

  lemma RestKeepsWriters(s: State, t: nat, moved: Stored)
    requires Writers(s, moved) && t < |s.threads| && s.threads[t].pc.InSet() && !s.threads[t].pc.InAttempt()
    ensures Writers(NextSet(s, t, moved), moved)
  {
    hide Writers;
    WritersKept(s, NextSet(s, t, moved), moved);
  }

  lemma SetKeepsWriters(s: State, t: nat, moved: Stored)
    requires Writers(s, moved) && AllHeld(s, moved) && t < |s.threads| && s.threads[t].pc.InSet()
    requires s.threads[t].pc.InAttempt() ==> s.threads[t].pc.at.e < |s.heap|
    requires Sub(s.root, NextSet(s, t, moved).root)
    ensures Writers(NextSet(s, t, moved), moved)
  {
    hide Writers, AllHeld, NextSet, Sub;
    if s.threads[t].pc.SetValue? {
      ValueKeepsWriters(s, t, moved);
    } else if s.threads[t].pc.InAttempt() {
      AttemptKeepsWriters(s, t, moved);
    } else {
      RestKeepsWriters(s, t, moved);
    }
  }

  lemma GetKeepsWriters(s: State, t: nat, moved: Stored)
    requires Writers(s, moved) && t < |s.threads| && !s.threads[t].pc.InSet()
    ensures Writers(NextGet(s, t), moved)
  {
    hide Writers;
    WritersKept(s, NextGet(s, t), moved);
  }

  lemma FlushKeepsWriters(s: State, order: seq<Stored>, junk: seq<Octet>, moved: Stored)
    requires Writers(s, moved)
    ensures Writers(NextFlush(s, order, junk), moved)
  {
    hide Writers;
    WritersKept(s, NextFlush(s, order, junk), moved);
  }

  lemma StartKeepsWriters(s: State, t: nat, th: Thread, moved: Stored)
    requires Writers(s, moved) && t < |s.threads| && (th.pc.GetLoad? || th.pc.SetLoad?)
    ensures Writers(s.(threads := s.threads[t := th]), moved)
  {
    hide Writers;
    WritersKept(s, s.(threads := s.threads[t := th]), moved);
  }

  lemma StepKeepsWriters(s: State, t: nat, a: Action, moved: Stored)
    requires Inv(s) && Writers(s, moved) && AllHeld(s, moved) && (a.Advance? ==> a.moved == moved)
    ensures Writers(Step(s, t, a), moved)
  {
    hide Inv, Writers, AllHeld, NextGet, NextSet, NextFlush;
    match a
    case Save(order, junk) => FlushKeepsWriters(s, order, junk, moved);
    case StartGet(key) =>
      if t < |s.threads| {
        StartKeepsWriters(s, t, Thread(GetLoad, key, [], [], 0), moved);
      }
    case StartSet(key, value) =>
      if t < |s.threads| {
        StartKeepsWriters(s, t, Thread(SetLoad, key, value, value, 0), moved);
      }
    case Advance(_) =>
      if t < |s.threads| && s.threads[t].pc.InSet() {
        if s.threads[t].pc.InAttempt() {
          AttemptCellOf(s, t);
        }
        StepKeepsInv(s, t, a);
        SetKeepsWriters(s, t, moved);
      } else if t < |s.threads| {
        GetKeepsWriters(s, t, moved);
      }
  }

  lemma AttemptCellOf(s: State, t: nat)
    requires Inv(s) && t < |s.threads| && s.threads[t].pc.InAttempt()
    ensures s.threads[t].pc.at.e < |s.heap|
  {
    AttemptCell(s, t);
  }

  lemma {:induction false} RunKeepsWriters(s: State, schedule: seq<(nat, Action)>, moved: Stored)
    requires Inv(s) && Writers(s, moved) && AllHeld(s, moved) && MovesTo(schedule, moved)
    ensures Writers(Run(s, schedule), moved)
    decreases |schedule|
  {
    if schedule != [] {
      assert schedule[0].1.Advance? ==> schedule[0].1.moved == moved;
      hide Inv, Writers, AllHeld;
      StepKeepsInv(s, schedule[0].0, schedule[0].1);
      StepKeepsHeld(s, schedule[0].0, schedule[0].1, moved);
      StepKeepsWriters(s, schedule[0].0, schedule[0].1, moved);
      RunKeepsWriters(Step(s, schedule[0].0, schedule[0].1), schedule[1..], moved);
    }
  }

  /** In every run, what a key holds is what the set that wrote its entry last has left there. */
  lemma LastWriterDecides(s0: State, schedule: seq<(nat, Action)>, moved: Stored, s: State, key: Stored)
    requires Initial(s0) && MovesTo(schedule, moved) && s == Run(s0, schedule) && key in s.root
    ensures key in Contents(s) && s.root[key] < |s.heap|
    ensures s.heap[s.root[key]].writer.Some? ==> Contents(s)[key] == Left(s.heap[s.root[key]].writer.value, moved)
  {
    WritersInRuns(s0, schedule, moved, s);
    assert CellOk(s.heap[s.root[key]], moved);
  }

  lemma WritersInRuns(s0: State, schedule: seq<(nat, Action)>, moved: Stored, s: State)
    requires Initial(s0) && MovesTo(schedule, moved) && s == Run(s0, schedule)
    ensures Inv(s) && Keyed(s) && Writers(s, moved) && AllHeld(s, moved)
  {
    InitialInv(s0);
    RunKeepsInv(s0, schedule);
    RunKeepsHeld(s0, schedule, moved);
    RunKeepsWriters(s0, schedule, moved);
    IdentityKeyed(s);
  }

  /** The value of a set survives: it wrote last, in its first round or with a value that a moved-from string holds
      anyway; or whoever wrote last was given the same value for a first round, or left a moved-from string
      equal to it. */
  predicate Survives(t: nat, th: Thread, w: Writer, moved: Stored) {
    if w.thread == t then th.attempts == 1 || th.given == moved
    else if w.round == 1 then w.given == th.given
    else moved == th.given
  }

  /** Exactly when a set's value is what its key holds once its map is installed. */
  lemma InstalledValue(s0: State, schedule: seq<(nat, Action)>, moved: Stored, s: State, t: nat)
    requires Initial(s0) && MovesTo(schedule, moved) && s == Run(s0, schedule)
    requires t < |s.threads| && s.threads[t].pc.SetInstall? && s.threads[t].pc.at.version == s.version
    ensures var th, s' := s.threads[t], Step(s, t, Advance(moved));
            && th.pc.at.e < |s.heap| && s.heap[th.pc.at.e].writer.Some? && th.key in Contents(s')
            && (Contents(s')[th.key] == th.given <==> Survives(t, th, s.heap[th.pc.at.e].writer.value, moved))
  {
    WritersInRuns(s0, schedule, moved, s);
    AttemptCell(s, t);
    assert WriterOk(s, t) && CellOk(s.heap[s.threads[t].pc.at.e], moved);
    hide Inv, Initial, MovesTo, Writers, AllHeld, Keyed;
  }

  /** And exactly when it is what its key holds as the set returns. */
  lemma ReturnedValue(s0: State, schedule: seq<(nat, Action)>, moved: Stored, s: State, t: nat)
    requires Initial(s0) && MovesTo(schedule, moved) && s == Run(s0, schedule)
    requires t < |s.threads| && s.threads[t].pc.SetDirty?
    ensures var th, s' := s.threads[t], Step(s, t, Advance(moved));
            && s'.threads[t].pc.Idle? && th.key in s.root && s.root[th.key] < |s.heap|
            && s.heap[s.root[th.key]].writer.Some? && th.key in Contents(s')
            && (Contents(s')[th.key] == th.given <==> Survives(t, th, s.heap[s.root[th.key]].writer.value, moved))
  {
    WritersInRuns(s0, schedule, moved, s);
    assert WriterOk(s, t) && CellOk(s.heap[s.root[s.threads[t].key]], moved);
    hide Inv, Initial, MovesTo, Writers, AllHeld, Keyed;
    SameContents(s, Step(s, t, Advance(moved)));
  }
}
