/** The file the configuration store is saved to. */
module ConfigFile {
  import opened Wrappers
  import opened Memory

  /** A key's value and how often it was read and written. */
  datatype Entry = Entry(value: Text, readCount: nat, writeCount: nat)

  /** size_t in the file. */
  const SIZE: nat := 8
  const MAX_SIZE: nat := 0xFFFF_FFFF_FFFF_FFFF

  lemma EightBytes()
    ensures Range(SIZE) == MAX_SIZE + 1
  {
    FourBytes();
    assert Range(5) == 256 * Range(4) && Range(6) == 256 * Range(5) && Range(7) == 256 * Range(6) &&
           Range(8) == 256 * Range(7);
  }

  // ----- what is written

  function EncodeText(s: Text): seq<Octet> {
    LittleEndian(|s|, SIZE) + s
  }

  function EncodePair(p: (Text, Text)): seq<Octet> {
    EncodeText(p.0) + EncodeText(p.1)
  }

  function EncodePairs(pairs: seq<(Text, Text)>): seq<Octet> {
    if pairs == [] then [] else EncodePair(pairs[0]) + EncodePairs(pairs[1..])
  }

  function EncodeFile(pairs: seq<(Text, Text)>): seq<Octet> {
    LittleEndian(|pairs|, SIZE) + EncodePairs(pairs)
  }

  // ----- what is read

  /** A size and that many bytes. Where the file ends too early the rest of them stays zero; what is read after
      that is undefined, so that is None unless nothing is. */
  function TakeText(b: seq<Octet>, last: bool): Option<(Text, seq<Octet>)> {
    if SIZE > |b| then None
    else
      var size := FromLittleEndian(b[..SIZE]);
      if SIZE + size <= |b| then Some((b[SIZE..SIZE + size], b[SIZE + size..]))
      else if last then Some((b[SIZE..] + NullBytes(SIZE + size - |b|), []))
      else None
  }

  function NullBytes(n: nat): (b: seq<Octet>)
    ensures |b| == n
  {
    seq(n, i => 0)
  }

  function TakePair(b: seq<Octet>, last: bool): Option<((Text, Text), seq<Octet>)> {
    match TakeText(b, false)
    case None => None
    case Some((key, rest)) =>
      match TakeText(rest, last)
      case None => None
      case Some((value, end)) => Some(((key, value), end))
  }

  function TakePairs(b: seq<Octet>, n: nat): Option<(seq<(Text, Text)>, seq<Octet>)>
    decreases n
  {
    if n == 0 then Some(([], b))
    else
      match TakePair(b, n == 1)
      case None => None
      case Some((p, rest)) =>
        match TakePairs(rest, n - 1)
        case None => None
        case Some((pairs, end)) => Some(([p] + pairs, end))
  }

  /** Later pairs replace earlier ones of the same key. */
  function Inserted(m: map<Text, Text>, pairs: seq<(Text, Text)>): map<Text, Text>
    decreases |pairs|
  {
    if pairs == [] then m else Inserted(m[pairs[0].0 := pairs[0].1], pairs[1..])
  }

  /** The map in a file, and the bytes after it. */
  function LoadFile(b: seq<Octet>): Option<(map<Text, Text>, seq<Octet>)> {
    if SIZE > |b| then None
    else
      match TakePairs(b[SIZE..], FromLittleEndian(b[..SIZE]))
      case None => None
      case Some((pairs, rest)) => Some((Inserted(map[], pairs), rest))
  }

  // ----- the round trip

  predicate Storable(s: Text) {
    |s| <= MAX_SIZE
  }

  lemma TextReadBack(s: Text, rest: seq<Octet>, last: bool)
    requires Storable(s)
    ensures TakeText(EncodeText(s) + rest, last) == Some((s, rest))
  {
    EightBytes();
    NumberReadBack(|s|, SIZE, LittleEndian(|s|, SIZE));
    var b := EncodeText(s) + rest;
    assert b[..SIZE] == LittleEndian(|s|, SIZE);
    assert b[SIZE..SIZE + |s|] == s;
  }

  lemma PairReadBack(p: (Text, Text), rest: seq<Octet>, last: bool)
    requires Storable(p.0) && Storable(p.1)
    ensures TakePair(EncodePair(p) + rest, last) == Some((p, rest))
  {
    TextReadBack(p.0, EncodeText(p.1) + rest, false);
    TextReadBack(p.1, rest, last);
    assert EncodePair(p) + rest == EncodeText(p.0) + (EncodeText(p.1) + rest);
  }

  lemma {:induction false} PairsReadBack(pairs: seq<(Text, Text)>, rest: seq<Octet>, n: nat)
    requires n == |pairs| && forall i :: 0 <= i < |pairs| ==> Storable(pairs[i].0) && Storable(pairs[i].1)
    ensures TakePairs(EncodePairs(pairs) + rest, n) == Some((pairs, rest))
    decreases n
  {
    hide EncodePair, TakePair;
    if n == 0 {
      assert EncodePairs(pairs) + rest == rest;
    } else {
      var tail := EncodePairs(pairs[1..]) + rest;
      PairReadBack(pairs[0], tail, n == 1);
      PairsReadBack(pairs[1..], rest, n - 1);
      assert EncodePairs(pairs) + rest == EncodePair(pairs[0]) + tail;
      assert [pairs[0]] + pairs[1..] == pairs;
    }
  }

  /** An order in which a map may be iterated. */
  ghost predicate Lists(pairs: seq<(Text, Text)>, m: map<Text, Text>) {
    && (forall i, j :: 0 <= i < j < |pairs| ==> pairs[i].0 != pairs[j].0)
    && (forall i :: 0 <= i < |pairs| ==> pairs[i].0 in m && m[pairs[i].0] == pairs[i].1)
    && (forall k :: k in m ==> exists i :: 0 <= i < |pairs| && pairs[i].0 == k)
  }

  lemma ListsRest(pairs: seq<(Text, Text)>, all: map<Text, Text>)
    requires Lists(pairs, all) && pairs != []
    ensures pairs[0].0 in all && all[pairs[0].0] == pairs[0].1 && Lists(pairs[1..], all - {pairs[0].0})
  {
    forall k | k in all - {pairs[0].0} ensures exists i :: 0 <= i < |pairs[1..]| && pairs[1..][i].0 == k {
      var i :| 0 <= i < |pairs| && pairs[i].0 == k;
      assert pairs[1..][i - 1].0 == k;
    }
  }

  lemma NothingListed(pairs: seq<(Text, Text)>, m: map<Text, Text>, all: map<Text, Text>)
    requires Lists(pairs, all) && pairs == []
    ensures m + all == m
  {
  }

  lemma {:induction false} InsertedIs(m: map<Text, Text>, pairs: seq<(Text, Text)>, all: map<Text, Text>)
    requires Lists(pairs, all)
    ensures Inserted(m, pairs) == m + all
    decreases |pairs|
  {
    hide Lists;
    if pairs == [] {
      NothingListed(pairs, m, all);
    } else {
      var p := pairs[0];
      ListsRest(pairs, all);
      InsertedIs(m[p.0 := p.1], pairs[1..], all - {p.0});
      assert m[p.0 := p.1] + (all - {p.0}) == m + all;
    }
  }

  ghost predicate AllStorable(pairs: seq<(Text, Text)>) {
    |pairs| <= MAX_SIZE && forall i :: 0 <= i < |pairs| ==> Storable(pairs[i].0) && Storable(pairs[i].1)
  }

  /** Whatever the order of iteration, loading what was saved gives the map back and uses up the file. */
  lemma FileReadBack(m: map<Text, Text>, pairs: seq<(Text, Text)>, file: seq<Octet>)
    requires Lists(pairs, m) && AllStorable(pairs) && file == EncodeFile(pairs)
    ensures LoadFile(file) == Some((m, []))
  {
    EightBytes();
    NumberReadBack(|pairs|, SIZE, LittleEndian(|pairs|, SIZE));
    PairsReadBack(pairs, [], |pairs|);
    hide Lists, EncodePairs, TakePairs, LittleEndian, FromLittleEndian, Inserted, AllStorable;
    assert file[..SIZE] == LittleEndian(|pairs|, SIZE);
    assert file[SIZE..] == EncodePairs(pairs) + [];
    InsertedIs(map[], pairs, m);
    assert map[] + m == m;
  }

  // ----- the format, byte by byte

  /** What a pair adds to the file: key size, key, value size, value. */
  lemma PairFormat(pairs: seq<(Text, Text)>, p: (Text, Text))
    ensures EncodePairs(pairs + [p]) ==
            EncodePairs(pairs) + LittleEndian(|p.0|, 8) + p.0 + LittleEndian(|p.1|, 8) + p.1
  {
    hide LittleEndian, EncodePairs;
    EncodePairsSnoc(pairs, p);
    PairAppended([], EncodePairs(pairs), [] + EncodePairs(pairs), p.0, p.1);
    assert [] + EncodePairs(pairs) == EncodePairs(pairs);
  }

  /** The file starts with the number of pairs, in eight bytes, lowest first; a pair more is that number changed
      and the pair at the end. */
  lemma FileFormat(pairs: seq<(Text, Text)>, p: (Text, Text))
    ensures EncodeFile([]) == [0, 0, 0, 0, 0, 0, 0, 0]
    ensures EncodeFile(pairs + [p]) ==
            LittleEndian(|pairs| + 1, 8) + EncodeFile(pairs)[8..] +
            LittleEndian(|p.0|, 8) + p.0 + LittleEndian(|p.1|, 8) + p.1
  {
    hide LittleEndian, EncodePairs;
    PairFormat(pairs, p);
    NoPairs();
    NoPairsBytes();
    Behind(LittleEndian(|pairs|, 8), EncodePairs(pairs));
    Spread(LittleEndian(|pairs| + 1, 8), EncodePairs(pairs), LittleEndian(|p.0|, 8), p.0, LittleEndian(|p.1|, 8), p.1);
  }

  lemma Behind(a: seq<Octet>, b: seq<Octet>)
    ensures (a + b)[|a|..] == b && a + [] == a
  {
  }

  lemma Spread(a: seq<Octet>, b: seq<Octet>, c: seq<Octet>, d: seq<Octet>, e: seq<Octet>, f: seq<Octet>)
    ensures a + (b + c + d + e + f) == a + b + c + d + e + f
  {
  }

  lemma NoPairsBytes()
    ensures LittleEndian(0, 8) == [0, 0, 0, 0, 0, 0, 0, 0]
  {
    forall i | 0 <= i < 8 ensures LittleEndian(0, 8)[i] == 0 {
      ByteIsDigit(0, 8, i);
    }
  }

  /** Loading a file of pairs with different keys gives each key its value, and no other key. */
  lemma PairsLoaded(pairs: seq<(Text, Text)>)
    requires |pairs| <= MAX_SIZE
    requires forall i :: 0 <= i < |pairs| ==> |pairs[i].0| <= MAX_SIZE && |pairs[i].1| <= MAX_SIZE
    requires forall i, j :: 0 <= i < j < |pairs| ==> pairs[i].0 != pairs[j].0
    ensures LoadFile(EncodeFile(pairs)).Some?
    ensures var (m, rest) := LoadFile(EncodeFile(pairs)).value;
            && rest == [] && |m| == |pairs|
            && forall i :: 0 <= i < |pairs| ==> pairs[i].0 in m && m[pairs[i].0] == pairs[i].1
  {
    var m := MapOf(pairs);
    FileReadBack(m, pairs, EncodeFile(pairs));
  }

  /** Of two pairs with the same key the later one counts. */
  lemma {:induction false} LastPairWins(m: map<Text, Text>, pairs: seq<(Text, Text)>, p: (Text, Text))
    ensures Inserted(m, pairs + [p]) == Inserted(m, pairs)[p.0 := p.1]
    decreases |pairs|
  {
    if pairs == [] {
      assert [p][1..] == [] && pairs + [p] == [p];
    } else {
      assert (pairs + [p])[1..] == pairs[1..] + [p];
      LastPairWins(m[pairs[0].0 := pairs[0].1], pairs[1..], p);
    }
  }

  lemma {:induction false} MapOf(pairs: seq<(Text, Text)>) returns (m: map<Text, Text>)
    requires forall i, j :: 0 <= i < j < |pairs| ==> pairs[i].0 != pairs[j].0
    ensures Lists(pairs, m) && |m| == |pairs|
    decreases |pairs|
  {
    if pairs == [] {
      m := map[];
    } else {
      var p, front := pairs[|pairs| - 1], pairs[..|pairs| - 1];
      var m0 := MapOf(front);
      m := m0[p.0 := p.1];
      OneMoreListed(front, m0, p);
      assert front + [p] == pairs;
    }
  }

  lemma OneMoreKey(m: map<Text, Text>, k: Text, v: Text)
    requires k !in m
    ensures |m[k := v]| == |m| + 1
  {
    assert m[k := v].Keys == m.Keys + {k};
  }

  lemma KeysListed(front: seq<(Text, Text)>, m0: map<Text, Text>, p: (Text, Text), k: Text)
    requires Lists(front, m0) && (k in m0 || k == p.0)
    ensures exists i :: 0 <= i < |front + [p]| && (front + [p])[i].0 == k
  {
    if k == p.0 {
      assert (front + [p])[|front|].0 == k;
    } else {
      var i :| 0 <= i < |front| && front[i].0 == k;
      assert (front + [p])[i].0 == k;
    }
  }

  lemma OneMoreListed(front: seq<(Text, Text)>, m0: map<Text, Text>, p: (Text, Text))
    requires Lists(front, m0) && forall i :: 0 <= i < |front| ==> front[i].0 != p.0
    ensures Lists(front + [p], m0[p.0 := p.1]) && |m0[p.0 := p.1]| == |m0| + 1
  {
    assert p.0 !in m0;
    OneMoreKey(m0, p.0, p.1);
    var m, pairs := m0[p.0 := p.1], front + [p];
    forall k | k in m ensures exists i :: 0 <= i < |pairs| && pairs[i].0 == k {
      KeysListed(front, m0, p, k);
    }
  }

  // ----- files that are cut short

  lemma CutHead(head: seq<Octet>, s: seq<Octet>, n: nat)
    requires |head| <= n <= |head| + |s|
    ensures var b := (head + s)[..n]; b[..|head|] == head && b[|head|..] == s[..n - |head|]
  {
  }

  lemma TextCut(s: Text, n: nat, last: bool)
    requires Storable(s) && n < SIZE + |s|
    ensures TakeText((LittleEndian(|s|, SIZE) + s)[..n], last) ==
            if last && SIZE <= n then Some((s[..n - SIZE] + NullBytes(SIZE + |s| - n), [])) else None
  {
    hide LittleEndian, FromLittleEndian, NullBytes, Range;
    EightBytes();
    NumberReadBack(|s|, SIZE, LittleEndian(|s|, SIZE));
    if SIZE <= n {
      CutHead(LittleEndian(|s|, SIZE), s, n);
    }
  }

  /** The value of a pair that is cut within it. */
  function CutValue(p: (Text, Text), missing: nat): (Text, Text)
    requires missing <= |p.1|
  {
    (p.0, p.1[..|p.1| - missing] + NullBytes(missing))
  }

  lemma PairCut(p: (Text, Text), missing: nat, last: bool)
    requires Storable(p.0) && Storable(p.1) && 0 < missing <= |EncodePair(p)|
    ensures TakePair(EncodePair(p)[..|EncodePair(p)| - missing], last) ==
            if last && missing <= |p.1| then Some((CutValue(p, missing), [])) else None
  {
    var key, value := EncodeText(p.0), EncodeText(p.1);
    var n := |EncodePair(p)| - missing;
    if n < |key| {
      TextCut(p.0, n, false);
      assert EncodePair(p)[..n] == key[..n];
    } else {
      TextReadBack(p.0, value[..n - |key|], false);
      TextCut(p.1, n - |key|, last);
      assert EncodePair(p)[..n] == key + value[..n - |key|];
    }
  }

  /** The pairs of a file that lacks its last bytes, if they can be told. */
  function CutPairs(pairs: seq<(Text, Text)>, missing: nat): Option<seq<(Text, Text)>> {
    if pairs == [] || missing > |pairs[|pairs| - 1].1| then None
    else Some(pairs[..|pairs| - 1] + [CutValue(pairs[|pairs| - 1], missing)])
  }

  lemma {:induction false} PairsCut(pairs: seq<(Text, Text)>, missing: nat, n: nat, b: seq<Octet>)
    requires n == |pairs| && forall i :: 0 <= i < |pairs| ==> Storable(pairs[i].0) && Storable(pairs[i].1)
    requires 0 < missing <= |EncodePairs(pairs)| && b == EncodePairs(pairs)[..|EncodePairs(pairs)| - missing]
    ensures TakePairs(b, n) ==
            match CutPairs(pairs, missing)
            case None => None
            case Some(cut) => Some((cut, []))
    decreases n
  {
    hide EncodePair, TakePair;
    var first, rest := EncodePair(pairs[0]), EncodePairs(pairs[1..]);
    if missing <= |rest| {
      var b' := rest[..|rest| - missing];
      assert b == first + b';
      PairReadBack(pairs[0], b', n == 1);
      PairsCut(pairs[1..], missing, n - 1, b');
      CutLater(pairs, missing);
    } else {
      var over := missing - |rest|;
      assert b == first[..|first| - over];
      PairCut(pairs[0], over, n == 1);
      if n > 1 {
        LastIsShorter(pairs[1..]);
        assert pairs[1..][n - 2] == pairs[n - 1];
      } else {
        assert pairs[1..] == [];
        if missing <= |pairs[0].1| {
          var p := CutValue(pairs[0], missing);
          assert pairs[..0] + [p] == [p] == [p] + [];
        }
      }
    }
  }

  lemma CutLater(pairs: seq<(Text, Text)>, missing: nat)
    requires |pairs| > 1
    ensures CutPairs(pairs, missing) ==
            match CutPairs(pairs[1..], missing)
            case None => None
            case Some(cut) => Some([pairs[0]] + cut)
  {
    assert pairs[1..][|pairs| - 2] == pairs[|pairs| - 1];
    if missing <= |pairs[|pairs| - 1].1| {
      var cut := [CutValue(pairs[|pairs| - 1], missing)];
      assert pairs[..|pairs| - 1] + cut == [pairs[0]] + (pairs[1..][..|pairs| - 2] + cut);
    }
  }

  lemma {:induction false} LastIsShorter(pairs: seq<(Text, Text)>)
    requires pairs != []
    ensures |pairs[|pairs| - 1].1| <= |EncodePairs(pairs)|
    decreases |pairs|
  {
    assert EncodePairs(pairs) == EncodePair(pairs[0]) + EncodePairs(pairs[1..]);
    if |pairs| > 1 {
      LastIsShorter(pairs[1..]);
      assert pairs[1..][|pairs| - 2] == pairs[|pairs| - 1];
    } else {
      assert |EncodePair(pairs[0])| >= |pairs[0].1|;
    }
  }

  lemma CutBehind(head: seq<Octet>, rest: seq<Octet>, missing: nat)
    requires missing <= |rest|
    ensures var b := (head + rest)[..|head + rest| - missing];
            |head| <= |b| && b[..|head|] == head && b[|head|..] == rest[..|rest| - missing]
  {
  }

  /** A saved file that lacks its last bytes still loads exactly when they all belong to the value written last,
      of which as many bytes are zero then. */
  lemma FileCut(pairs: seq<(Text, Text)>, file: seq<Octet>, missing: nat)
    requires AllStorable(pairs) && file == EncodeFile(pairs) && 0 < missing <= |file|
    ensures LoadFile(file[..|file| - missing]) ==
            match CutPairs(pairs, missing)
            case None => None
            case Some(cut) => Some((Inserted(map[], cut), []))
  {
    EightBytes();
    NumberReadBack(|pairs|, SIZE, LittleEndian(|pairs|, SIZE));
    hide EncodePairs, TakePairs, LittleEndian, FromLittleEndian, Inserted;
    var head, rest := LittleEndian(|pairs|, SIZE), EncodePairs(pairs);
    if missing <= |rest| {
      CutBehind(head, rest, missing);
      PairsCut(pairs, missing, |pairs|, rest[..|rest| - missing]);
    } else if pairs != [] {
      LastIsShorter(pairs);
    }
  }

  // ----- the two loops

  lemma {:induction false} EncodePairsSnoc(pairs: seq<(Text, Text)>, p: (Text, Text))
    ensures EncodePairs(pairs + [p]) == EncodePairs(pairs) + EncodePair(p)
    decreases |pairs|
  {
    hide EncodePair;
    if pairs == [] {
      assert [p][1..] == [] && pairs + [p] == [p];
    } else {
      EncodePairsSnoc(pairs[1..], p);
      assert (pairs + [p])[1..] == pairs[1..] + [p];
    }
  }

  /** `data` is the snapshot, in the order in which its iterator yields it. */
  method SaveTo(data: seq<(Text, Entry)>) returns (out: seq<Octet>)
    ensures out == EncodeFile(seq(|data|, i requires 0 <= i < |data| => (data[i].0, data[i].1.value)))
  {
    hide EncodePairs, EncodePair, LittleEndian;
    ghost var pairs := seq(|data|, i requires 0 <= i < |data| => (data[i].0, data[i].1.value));
    NoPairs();
    out := LittleEndian(|data|, SIZE);
    assert pairs[..0] == [];
    for i := 0 to |data|
      invariant out == LittleEndian(|data|, SIZE) + EncodePairs(pairs[..i])
    {
      var (key, entry) := data[i];
      EncodePairsSnoc(pairs[..i], pairs[i]);
      PairAppended(LittleEndian(|data|, SIZE), EncodePairs(pairs[..i]), out, key, entry.value);
      assert pairs[..i + 1] == pairs[..i] + [pairs[i]];
      out := out + LittleEndian(|key|, SIZE);
      out := out + key;
      out := out + LittleEndian(|entry.value|, SIZE);
      out := out + entry.value;
    }
    assert pairs[..|data|] == pairs;
  }

  lemma NoPairs()
    ensures EncodePairs([]) == []
  {
  }

  lemma PairAppended(head: seq<Octet>, done: seq<Octet>, out: seq<Octet>, key: Text, value: Text)
    requires out == head + done
    ensures out + LittleEndian(|key|, SIZE) + key + LittleEndian(|value|, SIZE) + value ==
            head + (done + EncodePair((key, value)))
  {
    hide LittleEndian;
    Regrouped(head, done, LittleEndian(|key|, SIZE), key, LittleEndian(|value|, SIZE), value);
  }

  lemma Regrouped(a: seq<Octet>, b: seq<Octet>, c: seq<Octet>, d: seq<Octet>, e: seq<Octet>, f: seq<Octet>)
    ensures a + b + c + d + e + f == a + (b + ((c + d) + (e + f)))
  {
  }

  /** The values of a map of entries. */
  ghost function Values(m: map<Text, Entry>): map<Text, Text> {
    map k | k in m :: m[k].value
  }

  ghost predicate Untouched(m: map<Text, Entry>) {
    forall k :: k in m ==> m[k].readCount == 0 && m[k].writeCount == 0
  }

  /** What is read from a file, or None where it ends so early that this depends on variables that were never
      set. A file that does not open leaves the empty map as it is. */
  method LoadInto(file: Option<seq<Octet>>) returns (m: Option<map<Text, Entry>>)
    ensures match file
            case None => m == Some(map[])
            case Some(b) =>
              match LoadFile(b)
              case None => m == None
              case Some((values, _)) => m.Some? && Values(m.value) == values && Untouched(m.value)
  {
    hide TakePairs, TakeText, LoadedFrom, Values;
    var t: map<Text, Entry> := map[];
    NoValues();
    if file == None {
      return Some(t);
    }
    var b := file.value;
    if SIZE > |b| {
      return None;
    }
    var size := FromLittleEndian(b[..SIZE]);
    var rest := b[SIZE..];
    ghost var goal := LoadedAll(b);
    for i := 0 to size
      invariant Untouched(t) && goal == LoadedFrom(Values(t), TakePairs(rest, size - i))
    {
      LoadedStep(Values(t), rest, size - i);
      var key := TakeText(rest, false);
      if key == None {
        return None;
      }
      var value := TakeText(key.value.1, i + 1 == size);
      if value == None {
        return None;
      }
      ValuesUpdate(t, key.value.0, value.value.0);
      t := t[key.value.0 := Entry(value.value.0, 0, 0)];
      rest := value.value.1;
    }
    LoadedEnd(Values(t), rest);
    m := Some(t);
  }

  ghost function LoadedFrom(
    m: map<Text, Text>, pairs: Option<(seq<(Text, Text)>, seq<Octet>)>): Option<(map<Text, Text>, seq<Octet>)> {
    match pairs
    case None => None
    case Some((ps, rest)) => Some((Inserted(m, ps), rest))
  }

  lemma LoadedAll(b: seq<Octet>) returns (goal: Option<(map<Text, Text>, seq<Octet>)>)
    requires SIZE <= |b|
    ensures goal == LoadFile(b) == LoadedFrom(map[], TakePairs(b[SIZE..], FromLittleEndian(b[..SIZE])))
  {
    goal := LoadFile(b);
  }

  lemma LoadedStep(m: map<Text, Text>, b: seq<Octet>, n: nat)
    requires n > 0
    ensures var goal := LoadedFrom(m, TakePairs(b, n));
            match TakeText(b, false)
            case None => goal == None
            case Some((key, after)) =>
              match TakeText(after, n == 1)
              case None => goal == None
              case Some((value, rest)) => goal == LoadedFrom(m[key := value], TakePairs(rest, n - 1))
  {
    hide TakeText;
  }

  lemma LoadedEnd(m: map<Text, Text>, b: seq<Octet>)
    ensures LoadedFrom(m, TakePairs(b, 0)) == Some((m, b))
  {
  }

  lemma NoValues()
    ensures Values(map[]) == map[]
  {
  }

  lemma ValuesUpdate(t: map<Text, Entry>, key: Text, value: Text)
    ensures Values(t[key := Entry(value, 0, 0)]) == Values(t)[key := value]
  {
  }
}
