/**
 What the index holds, read off its history alone: which keys each tag's list has, in which order the
 tags stand, and that every counter adds up. `Tracks` ties an index to its log; every operation keeps it.
 */
module IndexHistory {
  import opened Types
  import opened IndexModel
  import opened InsertShape

  function Length(log: Log): nat {
    match log
    case Start => 0
    case Then(before, _) => 1 + Length(before)
  }

  /** When an insert call last named `tag`; -1 if none has. */
  function TimeOf(log: Log, tag: Tag): (time: int)
    ensures -1 <= time < Length(log) || (log.Start? && time == -1)
  {
    match log
    case Start => -1
    case Then(before, Named(t)) => if t == tag then Length(before) else TimeOf(before, tag)
    case Then(before, _) => TimeOf(before, tag)
  }

  /** The keys added to `tag` since it was last created, in order; nothing if it is gone. */
  function Since(log: Log, tag: Tag): Option<seq<CacheKey>> {
    match log
    case Start => None
    case Then(before, Created(t)) => if t == tag then Some([]) else Since(before, tag)
    case Then(before, Added(t, k)) =>
      var h := Since(before, tag);
      if t == tag && h.Some? then Some(h.value + [k]) else h
    case Then(before, Evicted(t, _)) => if t == tag then None else Since(before, tag)
    case Then(before, Taken(t, _)) => if t == tag then None else Since(before, tag)
    case Then(before, _) => Since(before, tag)
  }

  /** `key` was added to `tag` and since then neither dropped from it nor lost with it. */
  predicate Survives(log: Log, tag: Tag, key: CacheKey) {
    match log
    case Start => false
    case Then(before, Added(t, k)) => (t == tag && k == key) || Survives(before, tag, key)
    case Then(before, Dropped(t, k)) => !(t == tag && k == key) && Survives(before, tag, key)
    case Then(before, Evicted(t, _)) => t != tag && Survives(before, tag, key)
    case Then(before, Taken(t, _)) => t != tag && Survives(before, tag, key)
    case Then(before, _) => Survives(before, tag, key)
  }

  /** Totals over a log; `lost` counts the keys of evicted and taken lists. */
  datatype Totals = Totals(created: nat, evicted: nat, taken: nat, added: nat, dropped: nat, lost: nat)

  function TotalsOf(log: Log): Totals {
    match log
    case Start => Totals(0, 0, 0, 0, 0, 0)
    case Then(before, e) =>
      var c := TotalsOf(before);
      match e
      case Named(_) => c
      case Created(_) => c.(created := c.created + 1)
      case Added(_, _) => c.(added := c.added + 1)
      case Dropped(_, _) => c.(dropped := c.dropped + 1)
      case Evicted(_, keys) => c.(evicted := c.evicted + 1, lost := c.lost + |keys|)
      case Taken(_, keys) => c.(taken := c.taken + 1, lost := c.lost + |keys|)
  }

  /**
   Every entry of the log was right when it was made: an evicted tag was the least recently named of
   all tags then held, an evicted or taken list held the newest keys added since its creation, only a
   full list drops and it drops its oldest key, and no tag is created twice or key added twice.
   */
  ghost predicate Faithful(log: Log) {
    match log
    case Start => true
    case Then(before, e) =>
      && Faithful(before)
      && match e
         case Named(t) => Acceptable(t)
         case Created(t) => Since(before, t) == None
         case Added(t, k) => !Survives(before, t, k) && Since(before, t).Some?
         case Dropped(t, k) =>
           && Since(before, t).Some?
           && |Newest(Since(before, t).value)| == MAX_KEYS_PER_TAG
           && k == Newest(Since(before, t).value)[0]
         case Evicted(t, keys) =>
           && Since(before, t).Some?
           && keys == Newest(Since(before, t).value)
           && forall u :: u != t && Since(before, u).Some? ==> TimeOf(before, t) < TimeOf(before, u)
         case Taken(t, keys) =>
           && Since(before, t).Some?
           && keys == Newest(Since(before, t).value)
  }

  /** Tag `t` is held, and holds what it does, exactly as the log says. */
  ghost predicate KeysAt(s: Index, t: Tag) {
    && (Holds(s.rows, t) <==> Since(s.log, t).Some?)
    && (Holds(s.rows, t) ==> ListOf(s, t) == Newest(Since(s.log, t).value))
    && forall k :: k in ListOf(s, t) <==> Survives(s.log, t, k)
  }

  /** Rows stand strictly by the time of the last insert call naming them. */
  ghost predicate Recency(s: Index) {
    forall i, j :: 0 <= i < j < |s.rows| ==> TimeOf(s.log, s.rows[j].tag) < TimeOf(s.log, s.rows[i].tag)
  }

  ghost predicate Balanced(s: Index) {
    var c := TotalsOf(s.log);
    && s.evicted == c.evicted
    && s.dropped == c.dropped
    && c.created == |s.rows| + c.evicted + c.taken
    && c.added == KeyCount(s.rows) + c.dropped + c.lost
  }

  ghost predicate Tracks(s: Index) {
    && WellFormed(s)
    && (forall t :: KeysAt(s, t))
    && Recency(s)
    && Balanced(s)
    && Faithful(s.log)
  }

  // ----- each primitive change keeps `Tracks` -----

  lemma MentionTracks(s: Index, tag: Tag)
    requires Tracks(s) && Acceptable(tag)
    ensures Tracks(Mention(s, tag))
  {
    var m := Mention(s, tag);
    MentionKeepsWellFormed(s, tag);
    forall t ensures KeysAt(m, t) {
      assert KeysAt(s, t);
      MentionKeepsLists(s, tag, t);
    }
    MentionRecency(s, tag);
    if Holds(s.rows, tag) { KeyCountToFront(s.rows, Find(s.rows, tag)); }
  }

  /** Naming a row's tag puts it ahead of every other row, and changes the order of no two others. */
  lemma NamingOrders(rows: seq<Row>, log: Log, i: nat, a: nat, b: nat)
    requires i < |rows| && a < |rows| && b < |rows| && rows[b].tag != rows[i].tag
    requires a == i || (rows[a].tag != rows[i].tag && TimeOf(log, rows[b].tag) < TimeOf(log, rows[a].tag))
    ensures var now := Then(log, Named(rows[i].tag)); TimeOf(now, rows[b].tag) < TimeOf(now, rows[a].tag)
  {
  }

  lemma MentionRecency(s: Index, tag: Tag)
    requires WellFormed(s) && Recency(s)
    ensures Recency(Mention(s, tag))
  {
    var i, m := Find(s.rows, tag), Mention(s, tag);
    if i < |s.rows| {
      ToFrontAt(s.rows, i);
      forall j, k | 0 <= j < k < |m.rows| ensures TimeOf(m.log, m.rows[k].tag) < TimeOf(m.log, m.rows[j].tag) {
        var a, b := FrontSource(i, j), FrontSource(i, k);
        assert m.rows[j] == s.rows[a] && m.rows[k] == s.rows[b] && b != i && (a == i || a < b);
        NamingOrders(s.rows, s.log, i, a, b);
      }
    } else {
      assert forall j :: 0 <= j < |s.rows| ==> TimeOf(m.log, s.rows[j].tag) == TimeOf(s.log, s.rows[j].tag);
    }
  }

  lemma PushKeysAt(s: Index, i: nat, key: CacheKey, cap: nat, t: Tag)
    requires WellFormed(s) && i < |s.rows| && KeysAt(s, t)
    requires key !in s.rows[i].keys && |s.rows[i].keys| < MAX_KEYS_PER_TAG
    ensures KeysAt(Push(s, i, key, cap), t)
  {
    var p := Push(s, i, key, cap);
    FindUnique(s.rows, s.rows[i].tag, i);
    FindAfterReplace(s.rows, i, p.rows[i], t);
    assert p.rows == s.rows[i := p.rows[i]];
    if Holds(s.rows, t) { NewestOfOneMore(s.rows[i].keys, key); }
  }

  lemma PushTracks(s: Index, i: nat, key: CacheKey, cap: nat)
    requires Tracks(s) && i < |s.rows|
    requires key !in s.rows[i].keys && |s.rows[i].keys| < MAX_KEYS_PER_TAG && |s.rows[i].keys| < cap
    ensures Tracks(Push(s, i, key, cap))
  {
    var p := Push(s, i, key, cap);
    var tag := s.rows[i].tag;
    FindUnique(s.rows, tag, i);
    KeyCountReplace(s.rows, i, p.rows[i]);
    forall t ensures KeysAt(p, t) {
      assert KeysAt(s, t);
      PushKeysAt(s, i, key, cap, t);
    }
    assert KeysAt(s, tag);
    assert RowOk(s.rows[i]);
    NoDupSnoc(s.rows[i].keys, key);
  }

  lemma FullListShifts(keys: seq<CacheKey>, key: CacheKey)
    requires |Newest(keys)| == MAX_KEYS_PER_TAG
    ensures Newest(keys + [key]) == Newest(keys)[1..] + [key]
  {
  }

  lemma PushFullSurvivors(s: Index, i: nat, key: CacheKey, t: Tag, k: CacheKey)
    requires WellFormed(s) && i < |s.rows| && s.rows[i].keys != []
    requires k in s.rows[i].keys <==> Survives(s.log, s.rows[i].tag, k)
    ensures t != s.rows[i].tag ==> (Survives(PushFull(s, i, key).log, t, k) <==> Survives(s.log, t, k))
    ensures t == s.rows[i].tag ==> (Survives(PushFull(s, i, key).log, t, k) <==> k in PushFull(s, i, key).rows[i].keys)
  {
    var r := s.rows[i];
    assert RowOk(r);
    NoDupTail(r.keys);
    assert r.keys == [r.keys[0]] + r.keys[1..];
    var mid := Then(s.log, Dropped(r.tag, r.keys[0]));
    assert Survives(mid, t, k) <==> Survives(s.log, t, k) && !(t == r.tag && k == r.keys[0]);
  }

  lemma PushFullKeysAt(s: Index, i: nat, key: CacheKey, t: Tag)
    requires WellFormed(s) && i < |s.rows| && KeysAt(s, t) && KeysAt(s, s.rows[i].tag)
    requires key !in s.rows[i].keys && |s.rows[i].keys| == MAX_KEYS_PER_TAG
    ensures KeysAt(PushFull(s, i, key), t)
  {
    var p := PushFull(s, i, key);
    var r := s.rows[i];
    FindUnique(s.rows, r.tag, i);
    FindAfterReplace(s.rows, i, p.rows[i], t);
    assert p.rows == s.rows[i := p.rows[i]];
    forall k ensures k in ListOf(p, t) <==> Survives(p.log, t, k) { PushFullSurvivors(s, i, key, t, k); }
    var mid := Then(s.log, Dropped(r.tag, r.keys[0]));
    assert p.log == Then(mid, Added(r.tag, key)) && Since(mid, t) == Since(s.log, t);
    if t == r.tag { FullListShifts(Since(s.log, t).value, key); }
  }

  lemma PushFullIsFaithful(s: Index, i: nat, key: CacheKey)
    requires Tracks(s) && i < |s.rows|
    requires key !in s.rows[i].keys && |s.rows[i].keys| == MAX_KEYS_PER_TAG
    ensures Faithful(PushFull(s, i, key).log)
  {
    var tag := s.rows[i].tag;
    FindUnique(s.rows, tag, i);
    assert KeysAt(s, tag);
    var mid := Then(s.log, Dropped(tag, s.rows[i].keys[0]));
    assert Faithful(mid);
    assert Since(mid, tag).Some? && !Survives(mid, tag, key);
  }

  lemma PushFullKeepsOrder(s: Index, i: nat, key: CacheKey)
    requires WellFormed(s) && Recency(s) && i < |s.rows| && s.rows[i].keys != []
    ensures Recency(PushFull(s, i, key))
  {
    var p := PushFull(s, i, key);
    var mid := Then(s.log, Dropped(s.rows[i].tag, s.rows[i].keys[0]));
    assert forall t :: TimeOf(p.log, t) == TimeOf(mid, t) == TimeOf(s.log, t);
    assert forall j :: 0 <= j < |s.rows| ==> p.rows[j].tag == s.rows[j].tag;
  }

  lemma PushFullKeepsWellFormed(s: Index, i: nat, key: CacheKey)
    requires WellFormed(s) && i < |s.rows|
    requires key !in s.rows[i].keys && |s.rows[i].keys| == MAX_KEYS_PER_TAG
    ensures WellFormed(PushFull(s, i, key)) && KeyCount(PushFull(s, i, key).rows) == KeyCount(s.rows)
  {
    var p := PushFull(s, i, key);
    KeyCountReplace(s.rows, i, p.rows[i]);
    assert RowOk(s.rows[i]);
    NoDupTail(s.rows[i].keys);
    NoDupSnoc(s.rows[i].keys[1..], key);
  }

  lemma PushFullTracks(s: Index, i: nat, key: CacheKey)
    requires Tracks(s) && i < |s.rows|
    requires key !in s.rows[i].keys && |s.rows[i].keys| == MAX_KEYS_PER_TAG
    ensures Tracks(PushFull(s, i, key))
  {
    PushFullKeepsWellFormed(s, i, key);
    PushFullIsFaithful(s, i, key);
    PushFullKeepsOrder(s, i, key);
    forall t ensures KeysAt(PushFull(s, i, key), t) {
      assert KeysAt(s, t) && KeysAt(s, s.rows[i].tag);
      PushFullKeysAt(s, i, key, t);
    }
  }

  /** Every other tag was named before `tag` was. */
  ghost predicate Freshest(s: Index, tag: Tag) {
    forall i :: 0 <= i < |s.rows| && s.rows[i].tag != tag ==> TimeOf(s.log, s.rows[i].tag) < TimeOf(s.log, tag)
  }

  lemma PushRowKeysAt(s: Index, tag: Tag, key: CacheKey, cap: nat, t: Tag)
    requires WellFormed(s) && !Holds(s.rows, tag) && KeysAt(s, t)
    ensures KeysAt(PushRow(s, tag, key, cap), t)
  {
    var p := PushRow(s, tag, key, cap);
    var mid := Then(s.log, Created(tag));
    assert p.log == Then(mid, Added(tag, key));
    assert forall k :: Survives(mid, t, k) <==> Survives(s.log, t, k);
    if t == tag {
      KeysOfHead(p.rows);
      assert Since(mid, t) == Some([]);
      assert Since(p.log, t) == Some([] + [key]);
      assert [] + [key] == [key];
    } else {
      KeysOfTail(p.rows, t);
      assert Since(mid, t) == Since(s.log, t);
    }
  }

  lemma PushRowTracks(s: Index, tag: Tag, key: CacheKey, cap: nat)
    requires Tracks(s) && Acceptable(tag) && !Holds(s.rows, tag) && Freshest(s, tag) && 0 < cap
    ensures Tracks(PushRow(s, tag, key, cap))
  {
    var p := PushRow(s, tag, key, cap);
    forall t ensures KeysAt(p, t) {
      assert KeysAt(s, t);
      PushRowKeysAt(s, tag, key, cap, t);
    }
    assert KeysAt(s, tag);
    var mid := Then(s.log, Created(tag));
    assert Faithful(mid);
    assert Since(mid, tag).Some? && !Survives(mid, tag, key);
    assert forall t :: TimeOf(p.log, t) == TimeOf(mid, t) == TimeOf(s.log, t);
  }

  lemma EvictKeysAt(s: Index, t: Tag)
    requires WellFormed(s) && s.rows != [] && KeysAt(s, t)
    ensures KeysAt(Evict(s), t)
  {
    var last := |s.rows| - 1;
    FindAfterRemove(s.rows, last, t);
    assert Evict(s).rows == s.rows[..last] + s.rows[last + 1..];
  }

  /** The last row was named before every other tag held. */
  lemma LastIsLeastRecent(s: Index, u: Tag)
    requires WellFormed(s) && Recency(s) && s.rows != [] && KeysAt(s, u)
    requires u != s.rows[|s.rows| - 1].tag && Since(s.log, u).Some?
    ensures TimeOf(s.log, s.rows[|s.rows| - 1].tag) < TimeOf(s.log, u)
  {
    assert s.rows[Find(s.rows, u)].tag == u;
  }

  lemma EvictIsFaithful(s: Index)
    requires Tracks(s) && s.rows != []
    ensures Faithful(Evict(s).log)
  {
    var last := |s.rows| - 1;
    var tag := s.rows[last].tag;
    FindUnique(s.rows, tag, last);
    assert KeysAt(s, tag);
    forall u | u != tag && Since(s.log, u).Some? ensures TimeOf(s.log, tag) < TimeOf(s.log, u) {
      assert KeysAt(s, u);
      LastIsLeastRecent(s, u);
    }
  }

  lemma EvictKeepsOrder(s: Index, tag: Tag)
    requires WellFormed(s) && Recency(s) && s.rows != [] && Freshest(s, tag)
    ensures Recency(Evict(s)) && Freshest(Evict(s), tag)
  {
    assert forall t :: TimeOf(Evict(s).log, t) == TimeOf(s.log, t);
  }

  lemma EvictTracks(s: Index, tag: Tag)
    requires Tracks(s) && s.rows != [] && Freshest(s, tag)
    ensures Tracks(Evict(s)) && Freshest(Evict(s), tag)
  {
    EvictKeepsWellFormed(s);
    EvictIsFaithful(s);
    EvictKeepsOrder(s, tag);
    KeyCountAt(s.rows, |s.rows| - 1);
    assert Evict(s).rows == s.rows[..|s.rows| - 1] + s.rows[|s.rows|..];
    forall t ensures KeysAt(Evict(s), t) {
      assert KeysAt(s, t);
      EvictKeysAt(s, t);
    }
  }

  lemma TakeKeysAt(s: Index, tag: Tag, t: Tag)
    requires WellFormed(s) && KeysAt(s, t)
    ensures KeysAt(Take(s, tag), t)
  {
    var i := Find(s.rows, tag);
    if i < |s.rows| { FindAfterRemove(s.rows, i, t); }
  }

  lemma TakeRecency(s: Index, tag: Tag)
    requires WellFormed(s) && Recency(s)
    ensures Recency(Take(s, tag))
  {
    var i := Find(s.rows, tag);
    var k := Take(s, tag);
    assert forall t :: TimeOf(k.log, t) == TimeOf(s.log, t);
    if i < |s.rows| {
      forall a, b | 0 <= a < b < |k.rows| ensures TimeOf(k.log, k.rows[b].tag) < TimeOf(k.log, k.rows[a].tag) {
        var a', b' := if a < i then a else a + 1, if b < i then b else b + 1;
        assert k.rows[a] == s.rows[a'] && k.rows[b] == s.rows[b'];
      }
    }
  }

  lemma TakeTracks(s: Index, tag: Tag)
    requires Tracks(s)
    ensures Tracks(Take(s, tag))
  {
    TakeKeepsWellFormed(s, tag);
    TakeRecency(s, tag);
    assert KeysAt(s, tag);
    forall t ensures KeysAt(Take(s, tag), t) {
      assert KeysAt(s, t);
      TakeKeysAt(s, tag, t);
    }
    if Holds(s.rows, tag) { KeyCountAt(s.rows, Find(s.rows, tag)); }
  }

  // ----- and so does every call -----

  lemma TryTracks(s: Index, tag: Tag, key: CacheKey, ans: Oracle, n: nat)
    requires Tracks(s) && Acceptable(tag) && Freshest(s, tag)
    ensures Tracks(Try(s, tag, key, ans, n).index)
  {
    var i := Find(s.rows, tag);
    var a := Try(s, tag, key, ans, n);
    if i < |s.rows| {
      assert RowOk(s.rows[i]);
      if a.index != s {
        if |s.rows[i].keys| == MAX_KEYS_PER_TAG {
          PushFullTracks(s, i, key);
        } else {
          PushTracks(s, i, key, a.index.rows[i].cap);
        }
      }
    } else if a.ok {
      PushRowTracks(s, tag, key, a.index.rows[0].cap);
    }
  }
}
