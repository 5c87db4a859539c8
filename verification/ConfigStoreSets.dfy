/** What a set stores: its value when it is alone, possibly nothing when it is not. */
module ConfigStoreSets {
  import opened Wrappers
  import opened ConfigStore
  import opened ConfigStoreProof

  lemma {:induction false} Then(s: State, schedule: seq<(nat, Action)>, s1: State, more: seq<(nat, Action)>)
    requires Run(s, schedule) == s1
    ensures Run(s, schedule + more) == Run(s1, more)
    decreases |schedule|
  {
    if schedule == [] {
      assert schedule + more == more;
    } else {
      assert (schedule + more)[1..] == schedule[1..] + more;
      Then(Step(s, schedule[0].0, schedule[0].1), schedule[1..], s1, more);
    }
  }

  lemma OneMore(s: State, schedule: seq<(nat, Action)>, s1: State, t: nat, a: Action)
    requires Run(s, schedule) == s1
    ensures Run(s, schedule + [(t, a)]) == Step(s1, t, a)
  {
    Then(s, schedule, s1, [(t, a)]);
    assert Run(s1, [(t, a)]) == Run(Step(s1, t, a), []);
  }

  /** The entry that a set of `key` finds or makes. */
  function EntryFor(s: State, key: Stored): nat {
    if key in s.root then s.root[key] else |s.heap|
  }

  ghost function At(s: State, t: nat, th: Thread): State {
    if t < |s.threads| then s.(threads := s.threads[t := th]) else s
  }

  /** The map's entry, or a new one, after a round has written it. */
  ghost function WrittenHeap(s: State, t: nat, th: Thread): seq<Cell> {
    var e := EntryFor(s, th.key);
    var heap := if th.key in s.root then s.heap else s.heap + [NewCell(th.key)];
    if e < |heap| then heap[e := WrittenCell(heap[e], t, th.arg, th.given, th.attempts + 1)] else heap
  }

  function WrittenCell(c: Cell, t: nat, value: Stored, given: Stored, round: nat): Cell {
    c.(value := value, writer := Some(Writer(t, given, round)), writeCount := c.writeCount + 1)
  }

  /** The thread before its install. */
  function Installing(s: State, th: Thread, moved: Stored): Thread {
    var at := Attempt(s.version, s.root, EntryFor(s, th.key));
    th.(pc := SetInstall(at), arg := moved, attempts := th.attempts + 1)
  }

  /** A round up to its install: the entry has the value, and the thread holds a moved-from string. */
  ghost function Written(s: State, t: nat, th: Thread, moved: Stored): State {
    At(s.(heap := WrittenHeap(s, t, th)), t,
       Installing(s, th, moved))
  }

  lemma Loads(s: State, t: nat, th: Thread, moved: Stored)
    requires t < |s.threads| && th.pc.SetLoad?
    ensures Step(At(s, t, th), t, Advance(moved)) ==
            At(s, t, th.(pc := SetFind(s.version, s.root), attempts := th.attempts + 1))
  {
  }

  lemma Finds(s: State, t: nat, th: Thread, moved: Stored)
    requires t < |s.threads| && th.pc == SetFind(s.version, s.root)
    ensures Step(At(s, t, th), t, Advance(moved)) ==
            At(s.(heap := if th.key in s.root then s.heap else s.heap + [NewCell(th.key)]), t,
               th.(pc := SetValue(Attempt(s.version, s.root, EntryFor(s, th.key)))))
  {
  }

  lemma WritesBoth(s: State, t: nat, th: Thread, moved: Stored, at: Attempt)
    requires t < |s.threads| && th.pc == SetValue(at) && at.e < |s.heap|
    ensures var c := WrittenCell(s.heap[at.e], t, th.arg, th.given, th.attempts);
            Step(Step(At(s, t, th), t, Advance(moved)), t, Advance(moved)) ==
            At(s.(heap := s.heap[at.e := c]), t, th.(pc := SetInstall(at), arg := moved))
  {
    var s1 := Step(At(s, t, th), t, Advance(moved));
    var c := s.heap[at.e].(value := th.arg, writer := Some(Writer(t, th.given, th.attempts)));
    assert s1 == At(s.(heap := s.heap[at.e := c]), t, th.(pc := SetWrites(at), arg := moved));
  }

  /** The schedule goes on with `n` steps of thread `t`. */
  ghost predicate Continues(before: seq<(nat, Action)>, schedule: seq<(nat, Action)>, t: nat, moved: Stored, n: nat) {
    |schedule| == |before| + n && schedule[..|before|] == before &&
    forall i :: |before| <= i < |schedule| ==> schedule[i] == (t, Advance(moved))
  }

  /** A round in which nobody else moves. */
  lemma Round(s: State, t: nat, th: Thread, moved: Stored, before: seq<(nat, Action)>, s0: State)
    returns (schedule: seq<(nat, Action)>)
    requires t < |s.threads| && th.pc.SetLoad? && Run(s0, before) == At(s, t, th) && EntryFor(s, th.key) <= |s.heap|
    requires th.key in s.root ==> s.root[th.key] < |s.heap|
    ensures Run(s0, schedule) == Written(s, t, th, moved) && Continues(before, schedule, t, moved, 4)
  {
    var a := Advance(moved);
    var th1 := th.(pc := SetFind(s.version, s.root), attempts := th.attempts + 1);
    Loads(s, t, th, moved);
    OneMore(s0, before, At(s, t, th), t, a);
    Finds(s, t, th1, moved);
    OneMore(s0, before + [(t, a)], At(s, t, th1), t, a);
    var at := Attempt(s.version, s.root, EntryFor(s, th.key));
    var s2 := s.(heap := if th.key in s.root then s.heap else s.heap + [NewCell(th.key)]);
    var th2 := th1.(pc := SetValue(at));
    WritesBoth(s2, t, th2, moved, at);
    OneMore(s0, before + [(t, a)] + [(t, a)], At(s2, t, th2), t, a);
    OneMore(s0, before + [(t, a)] + [(t, a)] + [(t, a)], Step(At(s2, t, th2), t, a), t, a);
    schedule := before + [(t, a)] + [(t, a)] + [(t, a)] + [(t, a)];
  }

  /** The state after an install that finds the map as it was loaded. */
  ghost function Committed(s: State, t: nat, th: Thread, e: nat): State {
    At(s.(root := s.root[th.key := e], version := s.version + 1, setTotal := s.setTotal + 1, dirty := true,
          heap := if e < |s.heap| then s.heap[e := s.heap[e].(committed := true)] else s.heap), t, th.(pc := Idle))
  }

  lemma Commits(s: State, t: nat, th: Thread, e: nat, moved: Stored, before: seq<(nat, Action)>, s0: State)
    returns (schedule: seq<(nat, Action)>)
    requires t < |s.threads| && th.pc == SetInstall(Attempt(s.version, s.root, e)) && e < |s.heap|
    requires Run(s0, before) == At(s, t, th)
    ensures Run(s0, schedule) == Committed(s, t, th, e) && Continues(before, schedule, t, moved, 3)
  {
    var a := Advance(moved);
    var s1 := s.(root := s.root[th.key := e], version := s.version + 1,
        heap := s.heap[e := s.heap[e].(committed := true)]);
    assert Step(At(s, t, th), t, a) == At(s1, t, th.(pc := SetCount));
    OneMore(s0, before, At(s, t, th), t, a);
    var s2 := s1.(setTotal := s.setTotal + 1);
    assert Step(At(s1, t, th.(pc := SetCount)), t, a) == At(s2, t, th.(pc := SetDirty));
    OneMore(s0, before + [(t, a)], At(s1, t, th.(pc := SetCount)), t, a);
    OneMore(s0, before + [(t, a)] + [(t, a)], At(s2, t, th.(pc := SetDirty)), t, a);
    schedule := before + [(t, a)] + [(t, a)] + [(t, a)];
  }

  /** The state after a round and its install. */
  ghost function Established(s: State, t: nat, th: Thread, moved: Stored): State {
    Committed(s.(heap := WrittenHeap(s, t, th)), t, Installing(s, th, moved), EntryFor(s, th.key))
  }

  /** One round and its install: only the key's value changes, to what the thread held. */
  lemma RoundStores(s: State, t: nat, th: Thread, moved: Stored, before: seq<(nat, Action)>, s0: State)
    returns (schedule: seq<(nat, Action)>, s': State)
    requires Keyed(s) && t < |s.threads| && th.pc.SetLoad? && Run(s0, before) == At(s, t, th)
    ensures s' == Run(s0, schedule) && Contents(s') == Contents(s)[th.key := th.arg]
    ensures s' == Established(s, t, th, moved) && Continues(before, schedule, t, moved, 7)
    ensures s'.threads == s.threads[t := th.(pc := Idle, arg := moved, attempts := th.attempts + 1)]
    ensures s'.version == s.version + 1 && s'.setTotal == s.setTotal + 1 && s'.dirty && s'.retries == s.retries
  {
    var round := Round(s, t, th, moved, before, s0);
    s' := RoundCommitted(s, t, th, moved);
    hide Run, Step, Written, Contents, Keyed, WrittenHeap, Committed, At;
    var e := EntryFor(s, th.key);
    var th1 := Installing(s, th, moved);
    schedule := Commits(s.(heap := WrittenHeap(s, t, th)), t, th1, e, moved, round, s0);
  }

  /** The state that a round and its install lead to. */
  lemma RoundCommitted(s: State, t: nat, th: Thread, moved: Stored) returns (s': State)
    requires Keyed(s) && t < |s.threads|
    ensures var e := EntryFor(s, th.key);
            && e < |WrittenHeap(s, t, th)|
            && var th1 := Installing(s, th, moved);
            && Written(s, t, th, moved) == At(s.(heap := WrittenHeap(s, t, th)), t, th1)
            && s' == Committed(s.(heap := WrittenHeap(s, t, th)), t, th1, e) == Established(s, t, th, moved)
    ensures Contents(s') == Contents(s)[th.key := th.arg]
    ensures s'.threads == s.threads[t := th.(pc := Idle, arg := moved, attempts := th.attempts + 1)]
    ensures s'.version == s.version + 1 && s'.setTotal == s.setTotal + 1 && s'.dirty && s'.retries == s.retries
  {
    var e := EntryFor(s, th.key);
    var s1 := s.(heap := WrittenHeap(s, t, th));
    var th1 := Installing(s, th, moved);
    s' := Committed(s1, t, th1, e);
    assert e < |s1.heap|;
    hide Contents, Keyed, WrittenHeap;
    CommittedContents(s, t, th, s1, s');
  }

  lemma CommittedContents(s: State, t: nat, th: Thread, s1: State, s': State)
    requires Keyed(s) && s1.heap == WrittenHeap(s, t, th) && EntryFor(s, th.key) < |s1.heap|
    requires s'.root == s.root[th.key := EntryFor(s, th.key)]
    requires s'.heap == s1.heap[EntryFor(s, th.key) := s1.heap[EntryFor(s, th.key)].(committed := true)]
    ensures Contents(s') == Contents(s)[th.key := th.arg]
  {
    forall k | k in s.root && k != th.key ensures ValueOf(s', s'.root[k]) == ValueOf(s, s.root[k]) {
      assert s.root[k] != EntryFor(s, th.key);
    }
  }

  /** From every state a set can run to its end. */
  lemma OneSetRuns(s: State, t: nat, key: Stored, value: Stored, moved: Stored)
    returns (schedule: seq<(nat, Action)>, s': State)
    requires Inv(s) && t < |s.threads| && s.threads[t].pc.Idle?
    ensures s' == Run(s, schedule) && Contents(s') == Contents(s)[key := value]
    ensures s' == Established(s, t, Thread(SetLoad, key, value, value, 0), moved)
    ensures Continues([(t, StartSet(key, value))], schedule, t, moved, 7)
    ensures s'.threads == s.threads[t := Thread(Idle, key, moved, value, 1)]
    ensures s'.version == s.version + 1 && s'.setTotal == s.setTotal + 1 && s'.dirty && s'.retries == s.retries
  {
    IdentityKeyed(s);
    var th := Thread(SetLoad, key, value, value, 0);
    OneMore(s, [], s, t, StartSet(key, value));
    schedule, s' := RoundStores(s, t, th, moved, [] + [(t, StartSet(key, value))], s);
  }

  /** From every state two sets can run so that both return and the first one's key, whatever the second
      one's, ends up with what a moved-from string holds: its value went into the round that failed. */
  lemma ContendedSetLosesItsValue(
    s: State, t: nat, u: nat, key: Stored, value: Stored, other: Stored, value2: Stored, moved: Stored)
    returns (schedule: seq<(nat, Action)>, s': State)
    requires Inv(s) && t < |s.threads| && u < |s.threads| && t != u && s.threads[t].pc.Idle? && s.threads[u].pc.Idle?
    ensures s' == Run(s, schedule) && s'.setTotal == s.setTotal + 2 && s'.retries == s.retries + 1
    ensures |s'.threads| == |s.threads| && s'.threads[t].pc.Idle? && s'.threads[u].pc.Idle?
    ensures s'.threads[t].given == value
    ensures key in Contents(s') && Contents(s')[key] == moved
  {
    IdentityKeyed(s);
    var start, th := StartSet(key, value), Thread(SetLoad, key, value, value, 0);
    OneMore(s, [], s, t, start);
    var first := Round(s, t, th, moved, [] + [(t, start)], s);
    var s1 := Written(s, t, th, moved);
    WrittenThreads(s, t, th, moved, s1);
    RunKeepsInv(s, first);
    hide Run, Step, Inv, Written;
    var second, s2 := OneSetRuns(s1, u, other, value2, moved);
    Then(s, first, s1, second);
    RunKeepsInv(s1, second);
    schedule, s' := SecondRound(s, t, s1.threads[t], moved, first + second, s2);
  }

  lemma WrittenThreads(s: State, t: nat, th: Thread, moved: Stored, s1: State)
    requires t < |s.threads| && s1 == Written(s, t, th, moved)
    ensures s1.threads == s.threads[t := Installing(s, th, moved)]
    ensures s1.version == s.version && s1.setTotal == s.setTotal && s1.retries == s.retries
  {
  }

  /** The install fails, and the thread starts over with what it still holds. */
  lemma SecondRound(s0: State, t: nat, th: Thread, moved: Stored, before: seq<(nat, Action)>, s: State)
    returns (schedule: seq<(nat, Action)>, s': State)
    requires Inv(s) && Run(s0, before) == s && t < |s.threads| && s.threads[t] == th
    requires th.pc.SetInstall? && th.pc.at.version != s.version
    ensures s' == Run(s0, schedule) && s'.setTotal == s.setTotal + 1 && s'.retries == s.retries + 1
    ensures Contents(s') == Contents(s)[th.key := th.arg]
    ensures s'.threads == s.threads[t := th.(pc := Idle, arg := moved, attempts := th.attempts + 1)]
  {
    InvBounds(s, t);
    hide Run, Step, Inv, At, Contents, Keyed;
    OneMore(s0, before, s, t, Advance(moved));
    var again := InstallFails(s, t, th, moved);
    schedule, s' := RoundStores(again, t, th.(pc := SetLoad), moved, before + [(t, Advance(moved))], s0);
  }

  lemma InvBounds(s: State, t: nat)
    requires Inv(s) && t < |s.threads| && s.threads[t].pc.InAttempt()
    ensures Keyed(s) && s.threads[t].pc.at.e < |s.heap|
  {
    IdentityKeyed(s);
    AttemptCell(s, t);
  }

  lemma InstallFails(s: State, t: nat, th: Thread, moved: Stored) returns (again: State)
    requires Keyed(s) && t < |s.threads| && s.threads[t] == th
    requires th.pc.SetInstall? && th.pc.at.version != s.version && th.pc.at.e < |s.heap|
    ensures Step(s, t, Advance(moved)) == At(again, t, th.(pc := SetLoad)) && Keyed(again)
    ensures Contents(again) == Contents(s)
    ensures again.threads == s.threads && again.setTotal == s.setTotal && again.retries == s.retries + 1
  {
    again := s.(retries := s.retries + 1, wasted := s.wasted + if th.key in th.pc.at.snap then 1 else 0);
  }

  // ----- two sets in their first rounds

  /** The entry of a key the map has, after a set has written its value to it. */
  ghost function ValueSet(s: State, t: nat, th: Thread, e: nat): State
    requires e < |s.heap|
  {
    s.(heap := s.heap[e := s.heap[e].(value := th.arg, writer := Some(Writer(t, th.given, th.attempts)))])
  }

  /** A set of a key that the map has, up to the point where its value is written. */
  lemma WritesValue(s: State, t: nat, key: Stored, value: Stored, moved: Stored, before: seq<(nat, Action)>, s0: State)
    returns (schedule: seq<(nat, Action)>, s': State)
    requires Keyed(s) && key in s.root && t < |s.threads| && s.threads[t].pc.Idle? && Run(s0, before) == s
    ensures s' == Run(s0, schedule)
    ensures var e, at := s.root[key], Attempt(s.version, s.root, s.root[key]);
            s' == At(ValueSet(s, t, Thread(Idle, key, value, value, 1), e), t,
                Thread(SetWrites(at), key, moved, value, 1))
  {
    var a, e := Advance(moved), s.root[key];
    var at := Attempt(s.version, s.root, e);
    var th := Thread(SetLoad, key, value, value, 0);
    OneMore(s0, before, s, t, StartSet(key, value));
    schedule := before + [(t, StartSet(key, value))];
    Loads(s, t, th, moved);
    OneMore(s0, schedule, At(s, t, th), t, a);
    schedule := schedule + [(t, a)];
    var th1 := th.(pc := SetFind(s.version, s.root), attempts := 1);
    Finds(s, t, th1, moved);
    OneMore(s0, schedule, At(s, t, th1), t, a);
    schedule := schedule + [(t, a)];
    var th2 := th1.(pc := SetValue(at));
    OneMore(s0, schedule, At(s, t, th2), t, a);
    schedule := schedule + [(t, a)];
    s' := Step(At(s, t, th2), t, a);
  }

  /** And from there to its return, if the map has not changed. */
  lemma Finishes(s: State, t: nat, at: Attempt, moved: Stored, before: seq<(nat, Action)>, s0: State)
    returns (schedule: seq<(nat, Action)>, s': State)
    requires t < |s.threads| && s.threads[t].pc == SetWrites(at) && at == Attempt(s.version, s.root, at.e)
    requires at.e < |s.heap| && Run(s0, before) == s
    ensures s' == Run(s0, schedule) && s'.root == s.root[s.threads[t].key := at.e] && s'.retries == s.retries
    ensures s'.threads == s.threads[t := s.threads[t].(pc := Idle)] && s'.setTotal == s.setTotal + 1
    ensures at.e < |s'.heap| && s'.heap[at.e].value == s.heap[at.e].value
  {
    var a := Advance(moved);
    var c := s.heap[at.e].(writeCount := s.heap[at.e].writeCount + 1);
    var s1, th := s.(heap := s.heap[at.e := c]), s.threads[t].(pc := SetInstall(at));
    assert Step(s, t, a) == At(s1, t, th);
    OneMore(s0, before, s, t, a);
    schedule := Commits(s1, t, th, at.e, moved, before + [(t, a)], s0);
    s' := Committed(s1, t, th, at.e);
  }

  /** From every state two sets of a key that the map has can run so that the first one returns after a single
      round, and the key holds the value of the other, which is still on its way. */
  lemma FirstRoundLosesItsValue(s: State, t: nat, u: nat, key: Stored, value: Stored, value2: Stored, moved: Stored)
    returns (schedule: seq<(nat, Action)>, s': State)
    requires Inv(s) && t < |s.threads| && u < |s.threads| && t != u && s.threads[t].pc.Idle? && s.threads[u].pc.Idle?
    requires key in s.root
    ensures s' == Run(s, schedule) && s'.setTotal == s.setTotal + 1 && s'.retries == s.retries
    ensures |s'.threads| == |s.threads| && s'.threads[t] == Thread(Idle, key, moved, value, 1)
    ensures key in Contents(s') && Contents(s')[key] == value2
  {
    IdentityKeyed(s);
    var e := s.root[key];
    var first, s1 := WritesValue(s, t, key, value, moved, [], s);
    RunKeepsInv(s, first);
    IdentityKeyed(s1);
    var second, s2 := WritesValue(s1, u, key, value2, moved, first, s);
    hide Run, Step, Inv, Keyed;
    schedule, s' := Finishes(s2, t, Attempt(s.version, s.root, e), moved, second, s);
  }
}
