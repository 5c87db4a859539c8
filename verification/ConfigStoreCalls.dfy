/** What a call of the store does: a get in every run, and a get, a set and a flush that nobody disturbs. */
module ConfigStoreCalls {
  import opened Wrappers
  import opened Memory
  import opened ConfigFile
  import opened ConfigStore
  import opened ConfigStoreProof
  import opened ConfigStoreSets

  // ----- the result of a get, in every run

  /** What a map has for a key. */
  function Lookup(snap: Root, key: Stored): Option<nat> {
    if key in snap then Some(snap[key]) else None
  }

  /** The thread is in a get of `key` that has loaded `snap`, or has come back from it. */
  ghost predicate Looking(th: Thread, key: Stored, snap: Root) {
    th.key == key &&
    match th.pc
    case GetFind(root) => root == snap
    case GetRead(e) => Lookup(snap, key) == Some(e)
    case GetCount(e) => Lookup(snap, key) == Some(e)
    case Idle => th.got == Lookup(snap, key)
    case _ => false
  }

  ghost predicate NoNewCall(schedule: seq<(nat, Action)>, t: nat) {
    forall i :: 0 <= i < |schedule| && schedule[i].0 == t ==>
      !schedule[i].1.StartGet? && !schedule[i].1.StartSet?
  }

  lemma OthersStay(s: State, u: nat, a: Action, t: nat)
    requires t < |s.threads| && (u != t || a.Save?)
    ensures |Step(s, u, a).threads| == |s.threads| && Step(s, u, a).threads[t] == s.threads[t]
  {
    if a.Save? {
      hide Orders, EncodeText;
    } else if a.Advance? && u < |s.threads| {
      if s.threads[u].pc.InSet() {
        SetStays(s, u, a.moved, t);
      } else {
        hide NextSet;
      }
    }
  }

  lemma SetStays(s: State, u: nat, moved: Stored, t: nat)
    requires t < |s.threads| && u < |s.threads| && u != t
    ensures |NextSet(s, u, moved).threads| == |s.threads| && NextSet(s, u, moved).threads[t] == s.threads[t]
  {
  }

  lemma StepLooks(s: State, u: nat, a: Action, t: nat, key: Stored, snap: Root)
    requires t < |s.threads| && Looking(s.threads[t], key, snap)
    requires u == t ==> !a.StartGet? && !a.StartSet?
    ensures |Step(s, u, a).threads| == |s.threads| && Looking(Step(s, u, a).threads[t], key, snap)
  {
    if u != t || a.Save? {
      OthersStay(s, u, a, t);
    } else {
      hide NextSet, NextFlush;
      assert Step(s, u, a) == NextGet(s, t);
    }
  }

  lemma {:induction false} RunLooks(s: State, schedule: seq<(nat, Action)>, t: nat, key: Stored, snap: Root)
    requires t < |s.threads| && Looking(s.threads[t], key, snap) && NoNewCall(schedule, t)
    ensures |Run(s, schedule).threads| == |s.threads| && Looking(Run(s, schedule).threads[t], key, snap)
    decreases |schedule|
  {
    if schedule != [] {
      StepLooks(s, schedule[0].0, schedule[0].1, t, key, snap);
      RunLooks(Step(s, schedule[0].0, schedule[0].1), schedule[1..], t, key, snap);
    }
  }

  /** In every run: a get that has come back returned the entry object that the map had for its key when it was
      loaded, or nothing if it had none; and that object is the one for the key in the map there is then. */
  lemma GetReturns(
    s0: State, before: seq<(nat, Action)>, t: nat, key: Stored, moved: Stored, after: seq<(nat, Action)>)
    requires Initial(s0) && t < |Run(s0, before).threads| && NoNewCall(after, t)
    requires Run(s0, before).threads[t].pc == GetLoad && Run(s0, before).threads[t].key == key
    ensures var s := Run(s0, before);
            var s' := Run(Step(s, t, Advance(moved)), after);
            t < |s'.threads| && (s'.threads[t].pc == Idle ==>
              && (key !in s.root ==> s'.threads[t].got == None)
              && (key in s.root ==>
                    key in s'.root && s'.root[key] == s.root[key] && s'.threads[t].got == Some(s.root[key])))
  {
    var s := Run(s0, before);
    InitialInv(s0);
    RunKeepsInv(s0, before);
    var s1 := Step(s, t, Advance(moved));
    StepKeepsInv(s, t, Advance(moved));
    RunKeepsInv(s1, after);
    RunLooks(s1, after, t, key, s.root);
  }

  /** `get` starts by loading the map. */
  lemma GetStarts(s: State, t: nat, key: Stored)
    requires t < |s.threads| && s.threads[t].pc == Idle
    ensures Step(s, t, StartGet(key)) == s.(threads := s.threads[t := Thread(GetLoad, key, [], [], 0, None)])
  {
  }

  // ----- an undisturbed get

  ghost function AlsoAdvance(s: State, t: nat, n: nat): State {
    if n == 0 then s else Step(AlsoAdvance(s, t, n - 1), t, Advance([]))
  }

  /** A call and its steps, with nobody else moving. */
  ghost function Alone(s: State, t: nat, call: Action, n: nat): State {
    AlsoAdvance(Step(s, t, call), t, n)
  }

  function Steps(t: nat, n: nat): seq<(nat, Action)> {
    seq(n, _ => (t, Advance([])))
  }

  lemma {:induction false} AloneRuns(s: State, t: nat, call: Action, n: nat)
    ensures Run(s, [(t, call)] + Steps(t, n)) == Alone(s, t, call, n)
    decreases n
  {
    hide Step;
    if n == 0 {
      OneMore(s, [], s, t, call);
      assert [(t, call)] + Steps(t, 0) == [] + [(t, call)];
    } else {
      AloneRuns(s, t, call, n - 1);
      OneMore(s, [(t, call)] + Steps(t, n - 1), Alone(s, t, call, n - 1), t, Advance([]));
      assert [(t, call)] + Steps(t, n) == [(t, call)] + Steps(t, n - 1) + [(t, Advance([]))];
    }
  }

  lemma GetLoads(s: State, t: nat, key: Stored)
    requires t < |s.threads| && s.threads[t].pc == Idle
    ensures Alone(s, t, StartGet(key), 1) == At(s, t, Thread(GetFind(s.root), key, [], [], 0))
  {
    hide NextSet, NextFlush;
    var s0 := Step(s, t, StartGet(key));
    assert s0 == At(s, t, Thread(GetLoad, key, [], [], 0));
    assert AlsoAdvance(s0, t, 0) == s0;
  }

  lemma GetFound(s: State, t: nat, key: Stored, root: Root)
    requires t < |s.threads|
    ensures Step(At(s, t, Thread(GetFind(root), key, [], [], 0)), t, Advance([])) ==
            At(s, t, if key in root then Thread(GetRead(root[key]), key, [], [], 0) else Thread(Idle, key, [], [], 0))
  {
    hide NextSet, NextFlush;
  }

  lemma GetReads(s: State, t: nat, key: Stored, e: nat, s2: State)
    requires t < |s.threads| && e < |s.heap|
    requires s2 == s.(heap := s.heap[e := s.heap[e].(readCount := s.heap[e].readCount + 1)])
    ensures Step(At(s, t, Thread(GetRead(e), key, [], [], 0)), t, Advance([])) ==
            At(s2, t, Thread(GetCount(e), key, [], [], 0))
  {
    hide NextSet, NextFlush;
  }

  lemma GetCounted(s: State, t: nat, key: Stored, e: nat)
    requires t < |s.threads|
    ensures Step(At(s, t, Thread(GetCount(e), key, [], [], 0)), t, Advance([])) ==
            At(s.(getTotal := s.getTotal + 1), t, Thread(Idle, key, [], [], 0, Some(e)))
  {
    hide NextSet, NextFlush;
  }

  lemma GetFinds(s: State, t: nat, key: Stored, e: nat, s2: State)
    requires t < |s.threads| && s.threads[t].pc == Idle && key in s.root && s.root[key] == e < |s.heap|
    requires s2 == s.(heap := s.heap[e := s.heap[e].(readCount := s.heap[e].readCount + 1)])
    ensures Alone(s, t, StartGet(key), 4) ==
            At(s2.(getTotal := s.getTotal + 1), t, Thread(Idle, key, [], [], 0, Some(e)))
  {
    GetLoads(s, t, key);
    hide Step, At;
    GetFound(s, t, key, s.root);
    GetReads(s, t, key, e, s2);
    GetCounted(s2, t, key, e);
    assert Alone(s, t, StartGet(key), 2) == At(s, t, Thread(GetRead(e), key, [], [], 0));
    assert Alone(s, t, StartGet(key), 3) == At(s2, t, Thread(GetCount(e), key, [], [], 0));
  }

  lemma EntryOf(s: State, key: Stored)
    requires Inv(s) && key in s.root
    ensures s.root[key] < |s.heap| && s.heap[s.root[key]].key == key
  {
    IdentityKeyed(s);
  }

  /** A get of a key that the store has returns its entry after four steps, counts one read on it and one in the
      total, and leaves everything else as it was. */
  lemma GetAlone(s: State, t: nat, key: Stored)
    requires Inv(s) && t < |s.threads| && s.threads[t].pc == Idle && key in s.root
    ensures var s', e := Run(s, [(t, StartGet(key))] + Steps(t, 4)), s.root[key];
            && e < |s.heap| && s.heap[e].key == key
            && s' == s.(heap := s.heap[e := s.heap[e].(readCount := s.heap[e].readCount + 1)],
                        getTotal := s.getTotal + 1,
                        threads := s.threads[t := Thread(Idle, key, [], [], 0, Some(e))])
  {
    hide Inv, Run, Step, Alone, Steps;
    EntryOf(s, key);
    AloneRuns(s, t, StartGet(key), 4);
    var e := s.root[key];
    GetFinds(s, t, key, e, s.(heap := s.heap[e := s.heap[e].(readCount := s.heap[e].readCount + 1)]));
  }

  /** A get of any other key returns nothing after two, and changes nothing. */
  lemma GetAbsentAlone(s: State, t: nat, key: Stored)
    requires t < |s.threads| && s.threads[t].pc == Idle && key !in s.root
    ensures Run(s, [(t, StartGet(key))] + Steps(t, 2)) ==
            s.(threads := s.threads[t := Thread(Idle, key, [], [], 0, None)])
  {
    AloneRuns(s, t, StartGet(key), 2);
    GetLoads(s, t, key);
    hide Step;
    GetFound(s, t, key, s.root);
  }

  // ----- an undisturbed set

  /** A set that nobody disturbs ends after seven steps. The key's entry, which is a new one if the store had
      none, holds the value and has one write more; every other entry and key is as it was; one set is counted in
      the total, and the store is marked dirty. */
  lemma SetAlone(s: State, t: nat, key: Stored, value: Stored, moved: Stored)
    returns (schedule: seq<(nat, Action)>, s': State)
    requires Inv(s) && t < |s.threads| && s.threads[t].pc.Idle?
    ensures |schedule| == 8 && schedule[0] == (t, StartSet(key, value))
    ensures forall i :: 1 <= i < 8 ==> schedule[i] == (t, Advance(moved))
    ensures s' == Run(s, schedule)
    ensures key in s'.root && s'.root[key] < |s'.heap|
    ensures var c := s'.heap[s'.root[key]];
            && c.key == key && c.value == value
            && if key in s.root then
                 && s'.root == s.root && |s'.heap| == |s.heap|
                 && c.writeCount == s.heap[s.root[key]].writeCount + 1 && c.readCount == s.heap[s.root[key]].readCount
               else
                 && s'.root == s.root[key := |s.heap|] && |s'.heap| == |s.heap| + 1
                 && c.writeCount == 1 && c.readCount == 0
    ensures forall e :: 0 <= e < |s.heap| && e != s'.root[key] ==> s'.heap[e] == s.heap[e]
    ensures s'.setTotal == s.setTotal + 1 && s'.dirty
    ensures s'.getTotal == s.getTotal && s'.file == s.file && s'.flusher == s.flusher && s'.retries == s.retries
    ensures |s'.threads| == |s.threads| && s'.threads[t].pc == Idle
    ensures forall u :: 0 <= u < |s.threads| && u != t ==> s'.threads[u] == s.threads[u]
  {
    IdentityKeyed(s);
    hide Inv, Run, Step;
    schedule, s' := OneSetRuns(s, t, key, value, moved);
    assert schedule[0] == schedule[..1][0];
    if key in s.root {
      assert s.root[key := s.root[key]] == s.root;
    }
  }

  // ----- an undisturbed flush

  function Saves(order: seq<Stored>, junk: seq<Octet>, n: nat): seq<(nat, Action)> {
    seq(n, _ => (0, Save(order, junk)))
  }

  /** With nothing to write, a flush does nothing. */
  lemma CleanFlush(s: State, order: seq<Stored>, junk: seq<Octet>)
    requires s.flusher == FlushIdle && !s.dirty
    ensures Step(s, 0, Save(order, junk)) == s
  {
  }

  lemma SaveFirst(s: State, order: seq<Stored>, junk: seq<Octet>, n: nat)
    requires n > 0
    ensures Run(s, Saves(order, junk, n)) == Run(NextFlush(s, order, junk), Saves(order, junk, n - 1))
  {
    hide NextFlush;
    assert Saves(order, junk, n)[1..] == Saves(order, junk, n - 1);
  }

  /** A pair takes two steps. */
  lemma PairTakesTwo(s: State, order: seq<Stored>, junk: seq<Octet>, i: nat)
    requires s.flusher == FlushPair(order, s.root, i) && Orders(order, s.root)
    ensures var s1 := NextFlush(s, order, junk);
            var s2 := NextFlush(s1, order, junk);
            if i < |order| then
              && s1 == s.(file := s1.file, flusher := s1.flusher)
              && s2 == s.(file := s2.file, flusher := FlushPair(order, s.root, i + 1))
            else s1 == s.(flusher := FlushIdle)
    ensures i < |order| ==> NextFlush(NextFlush(s, order, junk), order, junk).file.Some?
  {
    hide EncodeText, LittleEndian;
  }

  lemma {:induction false} PairsTake(s: State, order: seq<Stored>, junk: seq<Octet>, i: nat)
    requires s.flusher == FlushPair(order, s.root, i) && Orders(order, s.root) && i <= |order|
    requires Agreement(s) && !s.dirty && s.file.Some?
    ensures var s' := Run(s, Saves(order, junk, 2 * (|order| - i) + 1));
            s' == s.(file := s'.file, flusher := FlushIdle) && s'.file.Some? && Saved(s')
    decreases |order| - i
  {
    hide NextFlush, Agreement, Run, Step, Orders;
    PairTakesTwo(s, order, junk, i);
    var n := 2 * (|order| - i) + 1;
    var s1 := NextFlush(s, order, junk);
    FlushAgrees(s, order, junk);
    SaveFirst(s, order, junk, n);
    if i < |order| {
      FlushAgrees(s1, order, junk);
      SaveFirst(s1, order, junk, n - 1);
      PairsTake(NextFlush(s1, order, junk), order, junk, i + 1);
    } else {
      NothingMore(s1, order, junk);
      IdleAgrees(s1);
    }
  }

  lemma IdleAgrees(s: State)
    requires Agreement(s) && s.flusher == FlushIdle
    ensures Saved(s)
  {
  }

  lemma NothingMore(s: State, order: seq<Stored>, junk: seq<Octet>)
    ensures Run(s, Saves(order, junk, 0)) == s
  {
  }

  lemma FlushStarts(s: State, order: seq<Stored>, junk: seq<Octet>)
    requires s.flusher == FlushIdle && s.dirty && Orders(order, s.root)
    ensures var s1 := NextFlush(s, order, junk);
            var s2 := NextFlush(s1, order, junk);
            var s3 := NextFlush(s2, order, junk);
            && Agreement(s1) && !s1.dirty && !s2.dirty
            && s3.file.Some? && s3 == s.(file := s3.file, dirty := false, flusher := FlushPair(order, s.root, 0))
  {
    hide LittleEndian;
  }

  /** A flush of a dirty store that nobody disturbs ends after four steps and two for every pair. It clears the
      mark, changes nothing but the file, and the file loads to what the store holds. */
  lemma FlushAlone(s: State, order: seq<Stored>, junk: seq<Octet>)
    requires s.flusher == FlushIdle && s.dirty && Orders(order, s.root) && |s.root| <= MAX_SIZE
    ensures var s' := Run(s, Saves(order, junk, 2 * |order| + 4));
            && s' == s.(file := s'.file, dirty := false, flusher := FlushIdle)
            && s'.file.Some? && LoadFile(s'.file.value) == Some((Contents(s), []))
  {
    hide NextFlush, Run, Step, Orders, Agreement, Saved;
    var n := 2 * |order| + 4;
    FlushStarts(s, order, junk);
    var s1 := NextFlush(s, order, junk);
    var s2 := NextFlush(s1, order, junk);
    var s3 := NextFlush(s2, order, junk);
    FlushAgrees(s1, order, junk);
    FlushAgrees(s2, order, junk);
    SaveFirst(s, order, junk, n);
    SaveFirst(s1, order, junk, n - 1);
    SaveFirst(s2, order, junk, n - 2);
    PairsTake(s3, order, junk, 0);
    var s' := Run(s, Saves(order, junk, n));
    assert Contents(s') == Contents(s);
    SavedLoads(s');
  }

  lemma SavedLoads(s: State)
    requires Saved(s) && s.file.Some? && |s.root| <= MAX_SIZE
    ensures LoadFile(s.file.value) == Some((Contents(s), []))
  {
    var pairs :| Lists(pairs, Contents(s)) && s.file.value == EncodeFile(pairs);
    ListsLength(pairs, Contents(s));
    assert Contents(s).Keys == s.root.Keys;
    SavedPairs(s, pairs);
    FileReadBack(Contents(s), pairs, s.file.value);
  }

  /** Every map has an order of iteration. */
  lemma {:induction false} SomeOrder(keys: set<Stored>) returns (order: seq<Stored>)
    ensures forall i, j :: 0 <= i < j < |order| ==> order[i] != order[j]
    ensures forall k :: k in order <==> k in keys
    decreases keys
  {
    if keys == {} {
      order := [];
    } else {
      var k :| k in keys;
      var rest := SomeOrder(keys - {k});
      order := [k] + rest;
    }
  }

  // ----- the beginning

  /** A store without a file, with any number of threads. */
  function Empty(threadCount: nat): State {
    State([], map[], 0, false, 0, 0, None, seq(threadCount, _ => Thread(Idle, [], [], [], 0)), FlushIdle, 0, 0)
  }

  lemma EmptyIsInitial(threadCount: nat)
    ensures Initial(Empty(threadCount)) && |Empty(threadCount).threads| == threadCount
  {
  }
}
