/** What concurrent gets, sets and flushes keep. */
module ConfigStoreProof {
  import opened Wrappers
  import opened Memory
  import opened ConfigFile
  import opened Counting
  import opened ConfigStore

  // ----- entries keep their identity

  ghost predicate Sub(a: Root, b: Root) {
    forall k :: k in a ==> k in b && b[k] == a[k]
  }

  /** A snapshot is an earlier map; the same version is the same map. */
  ghost predicate Seen(s: State, version: nat, snap: Root) {
    version <= s.version && Sub(snap, s.root) && (version == s.version ==> snap == s.root)
  }

  /** The thread made the entry it is about to insert. */
  predicate Fresh(th: Thread) {
    th.pc.InAttempt() && th.key !in th.pc.at.snap
  }

  /** The entry of a round is that of the key, or a new one that nobody else has. */
  ghost predicate AttemptOk(s: State, th: Thread, at: Attempt) {
    && Seen(s, at.version, at.snap) && at.e < |s.heap| && s.heap[at.e].key == th.key
    && if th.key in at.snap then at.snap[th.key] == at.e
       else (
         && !s.heap[at.e].committed && s.heap[at.e].readCount == 0
         && s.heap[at.e].writeCount == if th.pc.SetInstall? then 1 else 0)
  }

  ghost predicate ThreadOk(s: State, th: Thread) {
    match th.pc
    case GetFind(snap) => Sub(snap, s.root)
    case GetRead(e) => e < |s.heap| && s.heap[e].committed && s.heap[e].key == th.key
    case GetCount(e) => e < |s.heap| && s.heap[e].committed && s.heap[e].key == th.key
    case SetFind(version, snap) => Seen(s, version, snap)
    case SetValue(at) => AttemptOk(s, th, at)
    case SetWrites(at) => AttemptOk(s, th, at)
    case SetInstall(at) => AttemptOk(s, th, at)
    case _ => true
  }

  ghost predicate FreshApart(threads: seq<Thread>) {
    forall t, u :: 0 <= t < u < |threads| && Fresh(threads[t]) && Fresh(threads[u]) ==>
      threads[t].pc.at.e != threads[u].pc.at.e
  }

  ghost predicate Identity(s: State) {
    Keyed(s) && FreshApart(s.threads) && forall t :: 0 <= t < |s.threads| ==> ThreadOk(s, s.threads[t])
  }

  /** Only the cell `e` changes, keeping its key and its place in the map; later versions have larger maps. */
  ghost predicate Touches(s: State, s': State, e: nat) {
    && Sub(s.root, s'.root) && s.version <= s'.version && (s.version == s'.version ==> s.root == s'.root)
    && |s.heap| <= |s'.heap|
    && (forall i :: 0 <= i < |s.heap| && i != e ==> s'.heap[i] == s.heap[i])
    && (e < |s.heap| ==> s'.heap[e].key == s.heap[e].key && (s.heap[e].committed ==> s'.heap[e].committed))
  }

  /** A step leaves the other threads' knowledge intact, unless it touches a new entry of theirs. */
  lemma OtherThread(s: State, s': State, e: nat, th: Thread)
    requires Keyed(s) && ThreadOk(s, th) && Touches(s, s', e) && (Fresh(th) ==> th.pc.at.e != e)
    ensures ThreadOk(s', th)
  {
  }

  /** One thread moves; the rest follows from what it touches. */
  lemma OneMoves(s: State, s': State, t: nat, e: nat)
    requires Identity(s) && t < |s.threads| && |s'.threads| == |s.threads|
    requires s'.threads == s.threads[t := s'.threads[t]]
    requires Touches(s, s', e) && Keyed(s') && ThreadOk(s', s'.threads[t])
    requires e < |s.heap| && !s.heap[e].committed ==> Fresh(s.threads[t]) && s.threads[t].pc.at.e == e
    requires Fresh(s'.threads[t]) ==>
             s'.threads[t].pc.at.e == e && (e < |s.heap| ==> Fresh(s.threads[t]) && s.threads[t].pc.at.e == e)
    ensures Identity(s')
  {
    hide Keyed, Touches;
    forall u | 0 <= u < |s'.threads| ensures ThreadOk(s', s'.threads[u]) {
      if u != t {
        OtherEntry(s, t, u, e);
        OtherThread(s, s', e, s.threads[u]);
      }
    }
    forall u | 0 <= u < |s'.threads| && u != t && Fresh(s'.threads[u]) ensures Fresh(s'.threads[t]) ==>
      s'.threads[u].pc.at.e != s'.threads[t].pc.at.e {
      OtherEntry(s, t, u, e);
    }
  }

  /** The new entries of two threads differ, and are not in the map. */
  lemma OtherEntry(s: State, t: nat, u: nat, e: nat)
    requires Identity(s) && t < |s.threads| && u < |s.threads| && u != t
    requires e < |s.heap| && !s.heap[e].committed ==> Fresh(s.threads[t]) && s.threads[t].pc.at.e == e
    ensures Fresh(s.threads[u]) ==> s.threads[u].pc.at.e != e
  {
    assert ThreadOk(s, s.threads[u]);
  }

  lemma GetKeeps(s: State, t: nat)
    requires Identity(s) && t < |s.threads| && !s.threads[t].pc.InSet()
    ensures Identity(NextGet(s, t)) && Sub(s.root, NextGet(s, t).root)
  {
    var s' := NextGet(s, t);
    assert ThreadOk(s, s.threads[t]);
    var e := if s.threads[t].pc.GetRead? then s.threads[t].pc.e else |s.heap|;
    hide Identity;
    OneMoves(s, s', t, e);
  }

  lemma FindKeeps(s: State, t: nat, moved: Stored)
    requires Identity(s) && t < |s.threads| && s.threads[t].pc.SetFind?
    ensures Identity(NextSet(s, t, moved)) && Sub(s.root, NextSet(s, t, moved).root)
  {
    var s' := NextSet(s, t, moved);
    assert ThreadOk(s, s.threads[t]);
    assert ThreadOk(s', s'.threads[t]);
    hide Identity;
    OneMoves(s, s', t, |s.heap|);
  }

  /** A cell that keeps its key and its place in the map may change. */
  lemma CellTouched(s: State, s': State, e: nat, c: Cell)
    requires Keyed(s) && e < |s.heap| && s'.heap == s.heap[e := c] && s'.root == s.root && s'.version == s.version
    requires c.key == s.heap[e].key && c.committed == s.heap[e].committed
    ensures Keyed(s') && Touches(s, s', e) && Sub(s.root, s'.root)
  {
  }

  lemma WriteKeeps(s: State, t: nat, moved: Stored)
    requires Identity(s) && t < |s.threads| && (s.threads[t].pc.SetValue? || s.threads[t].pc.SetWrites?)
    ensures Identity(NextSet(s, t, moved)) && Sub(s.root, NextSet(s, t, moved).root)
  {
    var s', e := NextSet(s, t, moved), s.threads[t].pc.at.e;
    assert ThreadOk(s, s.threads[t]);
    IdentityKeyed(s);
    CellTouched(s, s', e, s'.heap[e]);
    assert ThreadOk(s', s'.threads[t]);
    hide Identity, Keyed, Touches;
    OneMoves(s, s', t, e);
  }

  lemma InstallKeeps(s: State, t: nat, moved: Stored)
    requires Identity(s) && t < |s.threads| && s.threads[t].pc.SetInstall?
    ensures Identity(NextSet(s, t, moved)) && Sub(s.root, NextSet(s, t, moved).root)
  {
    var s', e := NextSet(s, t, moved), s.threads[t].pc.at.e;
    assert ThreadOk(s, s.threads[t]);
    if s.version == s.threads[t].pc.at.version {
      Installed(s, s.threads[t], s.threads[t].pc.at, s');
    }
    hide Identity, Keyed;
    OneMoves(s, s', t, e);
  }

  /** The map with the entry under its key. */
  lemma Installed(s: State, th: Thread, at: Attempt, s': State)
    requires Keyed(s) && AttemptOk(s, th, at) && at.snap == s.root
    requires s'.root == s.root[th.key := at.e] && s'.heap == s.heap[at.e := s.heap[at.e].(committed := true)]
    ensures Keyed(s') && Sub(s.root, s'.root)
  {
  }

  lemma RestKeeps(s: State, t: nat, moved: Stored)
    requires Identity(s) && t < |s.threads| &&
             (s.threads[t].pc.SetLoad? || s.threads[t].pc.SetCount? || s.threads[t].pc.SetDirty?)
    ensures Identity(NextSet(s, t, moved)) && Sub(s.root, NextSet(s, t, moved).root)
  {
    hide Identity;
    IdentityKeyed(s);
    OneMoves(s, NextSet(s, t, moved), t, |s.heap|);
  }

  lemma IdentityKeyed(s: State)
    requires Identity(s)
    ensures Keyed(s)
  {
  }

  // ----- counters add up

  /** A read that the entry has counted and the total has not. */
  function UncountedGet(th: Thread): nat {
    if th.pc.GetCount? then 1 else 0
  }

  /** A write that the map's entry has counted and the total has not. */
  function UncountedSet(th: Thread): nat {
    if th.pc.SetCount? || (th.pc.SetInstall? && th.key in th.pc.at.snap) then 1 else 0
  }

  ghost predicate Counters(s: State) {
    && Total(Reads, s.heap) == s.getTotal + Total(UncountedGet, s.threads)
    && Total(Writes, s.heap) == s.setTotal + s.wasted + Total(UncountedSet, s.threads)
    && s.wasted <= s.retries
  }

  lemma HeapTotals(heap: seq<Cell>, e: nat, c: Cell)
    requires e < |heap|
    ensures Total(Reads, heap[e := c]) == Total(Reads, heap) - Reads(heap[e]) + Reads(c)
    ensures Total(Writes, heap[e := c]) == Total(Writes, heap) - Writes(heap[e]) + Writes(c)
  {
    TotalUpdate(Reads, heap, e, c);
    TotalUpdate(Writes, heap, e, c);
  }

  lemma ThreadTotals(threads: seq<Thread>, t: nat, th: Thread)
    requires t < |threads|
    ensures Total(UncountedGet, threads[t := th]) ==
            Total(UncountedGet, threads) - UncountedGet(threads[t]) + UncountedGet(th)
    ensures Total(UncountedSet, threads[t := th]) ==
            Total(UncountedSet, threads) - UncountedSet(threads[t]) + UncountedSet(th)
  {
    TotalUpdate(UncountedGet, threads, t, th);
    TotalUpdate(UncountedSet, threads, t, th);
  }

  /** The entry that a get reads is in the map. */
  lemma ReadCell(s: State, t: nat)
    requires Identity(s) && t < |s.threads| && s.threads[t].pc.GetRead?
    ensures s.threads[t].pc.e < |s.heap| && s.heap[s.threads[t].pc.e].committed
  {
    assert ThreadOk(s, s.threads[t]);
  }

  lemma ReadCounts(s: State, t: nat, e: nat)
    requires Counters(s) && t < |s.threads| && s.threads[t].pc == GetRead(e) && e < |s.heap| && s.heap[e].committed
    ensures Counters(NextGet(s, t))
  {
    hide Total;
    var s' := NextGet(s, t);
    HeapTotals(s.heap, e, s'.heap[e]);
    ThreadTotals(s.threads, t, s'.threads[t]);
  }

  lemma GetCounts(s: State, t: nat)
    requires Identity(s) && Counters(s) && t < |s.threads| && !s.threads[t].pc.InSet()
    ensures Counters(NextGet(s, t))
  {
    hide Identity, Total;
    if s.threads[t].pc.GetRead? {
      ReadCell(s, t);
      ReadCounts(s, t, s.threads[t].pc.e);
    } else if !s.threads[t].pc.Idle? {
      ThreadTotals(s.threads, t, NextGet(s, t).threads[t]);
    }
  }

  /** An entry a round writes counts its reads and writes in the map, or has none yet. */
  lemma AttemptCell(s: State, t: nat)
    requires Identity(s) && t < |s.threads| && s.threads[t].pc.InAttempt()
    ensures var th, at := s.threads[t], s.threads[t].pc.at;
            at.e < |s.heap| && s.heap[at.e].committed == (th.key in at.snap) &&
            (th.key !in at.snap ==>
               s.heap[at.e].readCount == 0 && s.heap[at.e].writeCount == if th.pc.SetInstall? then 1 else 0)
  {
    assert ThreadOk(s, s.threads[t]);
  }

  lemma SetCounts(s: State, t: nat, moved: Stored)
    requires Identity(s) && Counters(s) && t < |s.threads| && s.threads[t].pc.InSet()
    ensures Counters(NextSet(s, t, moved))
  {
    hide Identity, Total;
    var s', th := NextSet(s, t, moved), s.threads[t];
    if th.pc.InAttempt() {
      AttemptCell(s, t);
      AttemptCounts(s, t, moved);
    } else {
      ThreadTotals(s.threads, t, s'.threads[t]);
      if th.pc.SetFind? {
        TotalSnoc(Reads, s.heap, NewCell(th.key));
        TotalSnoc(Writes, s.heap, NewCell(th.key));
      }
    }
  }

  lemma AttemptCounts(s: State, t: nat, moved: Stored)
    requires Counters(s) && t < |s.threads| && s.threads[t].pc.InAttempt()
    requires var th, at := s.threads[t], s.threads[t].pc.at;
             at.e < |s.heap| && s.heap[at.e].committed == (th.key in at.snap) &&
             (th.key !in at.snap ==>
                s.heap[at.e].readCount == 0 && s.heap[at.e].writeCount == if th.pc.SetInstall? then 1 else 0)
    ensures Counters(NextSet(s, t, moved))
  {
    hide Total;
    var s', e := NextSet(s, t, moved), s.threads[t].pc.at.e;
    ThreadTotals(s.threads, t, s'.threads[t]);
    HeapTotals(s.heap, e, s'.heap[e]);
  }

  // ----- the file follows the store

  /** The first pairs in the order of iteration, as the store has them now. */
  ghost function Pairs(s: State, order: seq<Stored>, n: nat): (pairs: seq<(Text, Text)>)
    requires n <= |order| && forall k :: k in order ==> k in s.root
    ensures |pairs| == n
  {
    seq(n, i requires 0 <= i < n => (order[i], ValueOf(s, s.root[order[i]])))
  }

  ghost function Header(order: seq<Stored>): seq<Octet> {
    LittleEndian(|order|, SIZE)
  }

  /** What has been written so far is what the store holds now. */
  ghost predicate Agreement(s: State) {
    match s.flusher
    case FlushIdle => Saved(s)
    case FlushOpen => true
    case FlushLoad => s.file == Some([])
    case FlushPair(order, snap, i) =>
      snap == s.root && Orders(order, s.root) && i <= |order| &&
        s.file == Some(Header(order) + EncodePairs(Pairs(s, order, i)))
    case FlushData(order, snap, i, size) =>
      snap == s.root && Orders(order, s.root) && i < |order| && size == |ValueOf(s, s.root[order[i]])| &&
      s.file == Some(Header(order) + EncodePairs(Pairs(s, order, i)) +
        (EncodeText(order[i]) + LittleEndian(size, SIZE)))
  }

  ghost predicate SetUnderWay(s: State) {
    exists t :: 0 <= t < |s.threads| && s.threads[t].pc.InSet()
  }

  ghost predicate Persisted(s: State) {
    s.dirty || SetUnderWay(s) || Agreement(s)
  }

  /** Nothing that the file depends on has changed. */
  lemma AgreementKept(s: State, s': State)
    requires Agreement(s) && s'.root == s.root && s'.file == s.file && s'.flusher == s.flusher
    requires forall e: nat :: ValueOf(s', e) == ValueOf(s, e)
    ensures Agreement(s')
  {
    assert Contents(s') == Contents(s);
    if s.flusher.FlushPair? || s.flusher.FlushData? {
      assert Pairs(s', s.flusher.order, s.flusher.i) == Pairs(s, s.flusher.order, s.flusher.i);
    }
  }

  lemma PairsSnoc(s: State, order: seq<Stored>, i: nat)
    requires i < |order| && forall k :: k in order ==> k in s.root
    ensures Pairs(s, order, i + 1) == Pairs(s, order, i) + [(order[i], ValueOf(s, s.root[order[i]]))]
  {
  }

  lemma AllPairs(s: State, order: seq<Stored>)
    requires Orders(order, s.root)
    ensures Lists(Pairs(s, order, |order|), Contents(s))
  {
    var pairs := Pairs(s, order, |order|);
    forall k | k in Contents(s) ensures exists i :: 0 <= i < |pairs| && pairs[i].0 == k {
      var i :| 0 <= i < |order| && order[i] == k;
      assert pairs[i].0 == k;
    }
  }

  lemma DataWritten(h: seq<Octet>, done: seq<Octet>, key: Stored, value: Stored, out: seq<Octet>)
    requires out == h + done + (EncodeText(key) + LittleEndian(|value|, SIZE)) + value
    ensures out == h + (done + EncodePair((key, value)))
  {
    hide LittleEndian;
    DataRegrouped(h, done, EncodeText(key), LittleEndian(|value|, SIZE), value);
  }

  lemma DataRegrouped(a: seq<Octet>, b: seq<Octet>, c: seq<Octet>, d: seq<Octet>, e: seq<Octet>)
    ensures a + b + (c + d) + e == a + (b + (c + (d + e)))
  {
  }

  lemma FlushLoadAgrees(s: State, order: seq<Stored>, junk: seq<Octet>)
    requires Agreement(s) && s.flusher.FlushLoad?
    ensures Agreement(NextFlush(s, order, junk))
  {
    hide EncodePairs, LittleEndian;
    if Orders(order, s.root) {
      NoPairs();
      assert Pairs(NextFlush(s, order, junk), order, 0) == [];
      assert [] + Header(order) == Header(order) + [];
    }
  }

  lemma FlushPairAgrees(s: State, order: seq<Stored>, junk: seq<Octet>)
    requires Agreement(s) && s.flusher.FlushPair?
    ensures Agreement(NextFlush(s, order, junk))
  {
    hide EncodePairs, EncodeText, LittleEndian, Lists;
    var s', order, i := NextFlush(s, order, junk), s.flusher.order, s.flusher.i;
    if i < |order| {
      assert Pairs(s', order, i) == Pairs(s, order, i);
    } else {
      AllPairs(s, order);
      assert Contents(s') == Contents(s);
      assert s'.file == Some(EncodeFile(Pairs(s, order, |order|)));
    }
  }

  lemma FlushDataAgrees(s: State, order: seq<Stored>, junk: seq<Octet>)
    requires Agreement(s) && s.flusher.FlushData?
    ensures Agreement(NextFlush(s, order, junk))
  {
    hide EncodePairs, EncodePair, EncodeText, LittleEndian;
    var s', order, i := NextFlush(s, order, junk), s.flusher.order, s.flusher.i;
    var value := ValueOf(s, s.root[order[i]]);
    assert value[..s.flusher.size] == value;
    PairsSnoc(s, order, i);
    EncodePairsSnoc(Pairs(s, order, i), (order[i], value));
    DataWritten(Header(order), EncodePairs(Pairs(s, order, i)), order[i], value, s'.file.value);
    assert Pairs(s', order, i + 1) == Pairs(s, order, i + 1);
  }

  /** One step of the flusher while nothing interferes. */
  lemma FlushAgrees(s: State, order: seq<Stored>, junk: seq<Octet>)
    requires Agreement(s) && !s.dirty
    ensures Agreement(NextFlush(s, order, junk))
  {
    match s.flusher
    case FlushIdle =>
    case FlushOpen =>
    case FlushLoad => FlushLoadAgrees(s, order, junk);
    case FlushPair(_, _, _) => FlushPairAgrees(s, order, junk);
    case FlushData(_, _, _, _) => FlushDataAgrees(s, order, junk);
  }

  lemma FlushPersists(s: State, order: seq<Stored>, junk: seq<Octet>)
    requires Persisted(s)
    ensures Persisted(NextFlush(s, order, junk))
  {
    var s' := NextFlush(s, order, junk);
    if SetUnderWay(s) {
      var t :| 0 <= t < |s.threads| && s.threads[t].pc.InSet();
      assert s'.threads[t].pc.InSet();
    } else if !s.dirty {
      FlushAgrees(s, order, junk);
    }
  }

  lemma GetPersists(s: State, t: nat, s': State)
    requires Persisted(s) && t < |s.threads| && !s.threads[t].pc.InSet() && s'.dirty == s.dirty
    requires s'.root == s.root && s'.file == s.file && s'.flusher == s.flusher &&
             (forall e: nat :: ValueOf(s', e) == ValueOf(s, e))
    requires |s'.threads| == |s.threads| && s'.threads == s.threads[t := s'.threads[t]]
    ensures Persisted(s')
  {
    if SetUnderWay(s) {
      var u :| 0 <= u < |s.threads| && s.threads[u].pc.InSet();
      assert s'.threads[u].pc.InSet();
    } else if !s.dirty {
      AgreementKept(s, s');
    }
  }

  lemma SetPersists(s: State, t: nat, moved: Stored)
    requires Identity(s) && t < |s.threads| && s.threads[t].pc.InSet()
    ensures Persisted(NextSet(s, t, moved))
  {
    assert ThreadOk(s, s.threads[t]);
    assert NextSet(s, t, moved).threads[t].pc.InSet() || NextSet(s, t, moved).dirty;
  }

  // ----- every step, every run

  ghost predicate Inv(s: State) {
    Identity(s) && Counters(s) && Persisted(s)
  }

  lemma StartKeeps(s: State, t: nat, th: Thread)
    requires Inv(s) && t < |s.threads| && s.threads[t].pc.Idle? && (th.pc.GetLoad? || th.pc.SetLoad?)
    ensures Inv(s.(threads := s.threads[t := th]))
  {
    var s' := s.(threads := s.threads[t := th]);
    IdentityKeyed(s);
    ThreadTotals(s.threads, t, th);
    if th.pc.GetLoad? {
      GetPersists(s, t, s');
    } else {
      assert s'.threads[t].pc.InSet();
    }
    hide Identity, Persisted;
    OneMoves(s, s', t, |s.heap|);
  }

  lemma StepKeepsInv(s: State, t: nat, a: Action)
    requires Inv(s)
    ensures Inv(Step(s, t, a)) && Sub(s.root, Step(s, t, a).root)
  {
    match a
    case Save(order, junk) =>
      SaveKeeps(s, order, junk);
    case StartGet(key) =>
      if t < |s.threads| && s.threads[t].pc.Idle? {
        StartKeeps(s, t, Thread(GetLoad, key, [], [], 0));
      }
    case StartSet(key, value) =>
      if t < |s.threads| && s.threads[t].pc.Idle? {
        StartKeeps(s, t, Thread(SetLoad, key, value, value, 0));
      }
    case Advance(moved) =>
      if t < |s.threads| {
        AdvanceKeeps(s, t, moved);
      }
  }

  lemma SaveKeeps(s: State, order: seq<Stored>, junk: seq<Octet>)
    requires Inv(s)
    ensures Inv(NextFlush(s, order, junk)) && Sub(s.root, NextFlush(s, order, junk).root)
  {
    hide Persisted;
    FlushPersists(s, order, junk);
    var s' := NextFlush(s, order, junk);
    assert s' == s.(file := s'.file, flusher := s'.flusher, dirty := s'.dirty);
    forall u | 0 <= u < |s'.threads| ensures ThreadOk(s', s'.threads[u]) {
      assert ThreadOk(s, s.threads[u]);
    }
  }

  lemma AdvanceKeeps(s: State, t: nat, moved: Stored)
    requires Inv(s) && t < |s.threads|
    ensures Inv(Step(s, t, Advance(moved))) && Sub(s.root, Step(s, t, Advance(moved)).root)
  {
    hide Identity, Counters, Persisted;
    if s.threads[t].pc.InSet() {
      SetCounts(s, t, moved);
      SetPersists(s, t, moved);
      match s.threads[t].pc
      case SetFind(_, _) => FindKeeps(s, t, moved);
      case SetValue(_) => WriteKeeps(s, t, moved);
      case SetWrites(_) => WriteKeeps(s, t, moved);
      case SetInstall(_) => InstallKeeps(s, t, moved);
      case SetLoad => RestKeeps(s, t, moved);
      case SetCount => RestKeeps(s, t, moved);
      case SetDirty => RestKeeps(s, t, moved);
    } else {
      GetKeeps(s, t);
      GetCounts(s, t);
      GetPersists(s, t, NextGet(s, t));
    }
  }

  lemma {:induction false} RunKeepsInv(s: State, schedule: seq<(nat, Action)>)
    requires Inv(s)
    ensures Inv(Run(s, schedule)) && Sub(s.root, Run(s, schedule).root)
    decreases |schedule|
  {
    if schedule != [] {
      StepKeepsInv(s, schedule[0].0, schedule[0].1);
      RunKeepsInv(Step(s, schedule[0].0, schedule[0].1), schedule[1..]);
    }
  }

  lemma InitialInv(s: State)
    requires Initial(s)
    ensures Inv(s)
  {
    TotalZero(Reads, s.heap);
    TotalZero(Writes, s.heap);
    TotalZero(UncountedGet, s.threads);
    TotalZero(UncountedSet, s.threads);
  }

  // ----- the results

  /** A key once in the map stays, with the same entry object, whatever happens. */
  lemma EntriesStay(s0: State, before: seq<(nat, Action)>, after: seq<(nat, Action)>)
    requires Initial(s0)
    ensures var s := Run(s0, before);
            forall k :: k in s.root ==> k in Run(s, after).root && Run(s, after).root[k] == s.root[k]
  {
    InitialInv(s0);
    RunKeepsInv(s0, before);
    RunKeepsInv(Run(s0, before), after);
  }

  /** A get counts its read on the entry object of its key. */
  lemma GetReadsItsKey(s0: State, schedule: seq<(nat, Action)>, t: nat)
    requires Initial(s0) && t < |Run(s0, schedule).threads| && Run(s0, schedule).threads[t].pc.GetRead?
    ensures var s := Run(s0, schedule);
            s.threads[t].key in s.root && s.root[s.threads[t].key] == s.threads[t].pc.e
  {
    InitialInv(s0);
    RunKeepsInv(s0, schedule);
    assert ThreadOk(Run(s0, schedule), Run(s0, schedule).threads[t]);
  }

  /** When no call is under way: the entries of the map, one for each key, have been read as often as gets
      have found one, and written as often as sets have returned, and once more for every round that was
      repeated after writing an entry of the map. */
  lemma CountersAddUp(s0: State, schedule: seq<(nat, Action)>)
    requires Initial(s0) && Quiescent(Run(s0, schedule))
    ensures var s := Run(s0, schedule);
            && (forall e :: 0 <= e < |s.heap| ==>
               (s.heap[e].committed <==> s.heap[e].key in s.root && s.root[s.heap[e].key] == e))
            && Total(Reads, s.heap) == s.getTotal
            && Total(Writes, s.heap) == s.setTotal + s.wasted
            && s.wasted <= s.retries
  {
    InitialInv(s0);
    RunKeepsInv(s0, schedule);
    var s := Run(s0, schedule);
    TotalZero(UncountedGet, s.threads);
    TotalZero(UncountedSet, s.threads);
  }

  /** While no set is under way, the flusher is idle and nothing is marked dirty, the file loads to exactly
      what the store holds, however sets and the writing of the file were interleaved before. */
  lemma CleanMeansSaved(s0: State, schedule: seq<(nat, Action)>)
    requires Initial(s0)
    ensures var s := Run(s0, schedule);
            NoSets(s) && s.flusher == FlushIdle && !s.dirty && |s.root| <= MAX_SIZE ==>
              match s.file
              case None => Contents(s) == map[]
              case Some(b) => LoadFile(b) == Some((Contents(s), []))
  {
    InitialInv(s0);
    RunKeepsInv(s0, schedule);
    var s := Run(s0, schedule);
    if NoSets(s) && s.flusher == FlushIdle && !s.dirty && |s.root| <= MAX_SIZE && s.file.Some? {
      var pairs :| Lists(pairs, Contents(s)) && s.file.value == EncodeFile(pairs);
      ListsLength(pairs, Contents(s));
      assert Contents(s).Keys == s.root.Keys;
      SavedPairs(s, pairs);
      FileReadBack(Contents(s), pairs, s.file.value);
    }
  }

  lemma SavedPairs(s: State, pairs: seq<(Text, Text)>)
    requires Lists(pairs, Contents(s)) && |pairs| <= MAX_SIZE
    ensures AllStorable(pairs)
  {
    forall i | 0 <= i < |pairs| ensures Storable(pairs[i].0) && Storable(pairs[i].1) {
      assert pairs[i].0 in Contents(s);
    }
  }

  lemma {:induction false} ListsLength(pairs: seq<(Text, Text)>, m: map<Text, Text>)
    requires Lists(pairs, m)
    ensures |pairs| == |m.Keys|
    decreases |pairs|
  {
    if pairs == [] {
      assert m.Keys == {};
    } else {
      ListsRest(pairs, m);
      ListsLength(pairs[1..], m - {pairs[0].0});
      assert (m - {pairs[0].0}).Keys == m.Keys - {pairs[0].0};
    }
  }
}
