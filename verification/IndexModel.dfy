/**
 The tag index as a value: its rows most recently used first, its four counters,
 and the history of everything that happened to it. Each operation below is what
 the pointer-level `TagIndexHeap.TagIndex` is proved to compute.
 */
module IndexModel {
  import opened Types

  const MAX_KEYS_PER_TAG: nat := 65536

  const EVICT_ATTEMPTS: nat := 64

  /** The slab's reply to one allocation; a granted key list may get spare room. */
  datatype Answer = Refused | Granted(slack: nat)

  /** Every reply the slab will ever give, indexed by how often it was asked before. */
  type Oracle = nat -> Answer

  datatype Event =
    | Named(tag: Tag)                            // an insert call named an acceptable tag
    | Created(tag: Tag)
    | Added(tag: Tag, key: CacheKey)
    | Dropped(tag: Tag, key: CacheKey)           // oldest key of a full tag
    | Evicted(tag: Tag, keys: seq<CacheKey>)
    | Taken(tag: Tag, keys: seq<CacheKey>)

  datatype Log = Start | Then(before: Log, last: Event)

  /** One entry; `cap` is the number of keys its list has room for. */
  datatype Row = Row(tag: Tag, keys: seq<CacheKey>, cap: nat)

  datatype Index = Index(rows: seq<Row>, tags: nat, keys: nat, evicted: nat, dropped: nat, log: Log)

  const EMPTY: Index := Index([], 0, 0, 0, 0, Start)

  predicate Acceptable(tag: Tag) {
    0 < |tag| <= MAX_TAG_LEN
  }

  /** Where `tag` is, or the number of rows when it is not held. */
  function Find(rows: seq<Row>, tag: Tag): (i: nat)
    ensures i <= |rows|
    ensures i < |rows| ==> rows[i].tag == tag
    ensures forall j :: 0 <= j < i ==> rows[j].tag != tag
  {
    if rows == [] || rows[0].tag == tag then 0 else 1 + Find(rows[1..], tag)
  }

  predicate Holds(rows: seq<Row>, tag: Tag) {
    Find(rows, tag) < |rows|
  }

  function KeysOf(rows: seq<Row>, tag: Tag): seq<CacheKey> {
    if Holds(rows, tag) then rows[Find(rows, tag)].keys else []
  }

  /** The keys recorded against `tag`, oldest first. */
  function ListOf(s: Index, tag: Tag): seq<CacheKey> {
    KeysOf(s.rows, tag)
  }

  function KeyCount(rows: seq<Row>): nat {
    if rows == [] then 0 else |rows[0].keys| + KeyCount(rows[1..])
  }

  ghost predicate RowOk(r: Row) {
    Acceptable(r.tag) && 0 < |r.keys| <= MAX_KEYS_PER_TAG && |r.keys| <= r.cap && NoDup(r.keys)
  }

  ghost predicate DistinctTags(rows: seq<Row>) {
    forall i, j :: 0 <= i < j < |rows| ==> rows[i].tag != rows[j].tag
  }

  ghost predicate WellFormed(s: Index) {
    && (forall i :: 0 <= i < |s.rows| ==> RowOk(s.rows[i]))
    && DistinctTags(s.rows)
    && s.tags == |s.rows|
    && s.keys == KeyCount(s.rows)
  }

  // ----- operations -----

  /** The element at `i` moved to the front, all others keeping their order. */
  function ToFront<T>(s: seq<T>, i: nat): seq<T>
    requires i < |s|
  {
    [s[i]] + (s[..i] + s[i + 1..])
  }

  /** What an insert call does before its first attempt: a held tag is touched. */
  function Mention(s: Index, tag: Tag): Index {
    var i := Find(s.rows, tag);
    s.(rows := if i < |s.rows| then ToFront(s.rows, i) else s.rows, log := Then(s.log, Named(tag)))
  }

  /** Outcome of an operation that may ask the slab for memory. */
  datatype Attempt = Attempt(index: Index, ok: bool, asked: nat)

  function Push(s: Index, i: nat, key: CacheKey, cap: nat): Index
    requires i < |s.rows|
  {
    var r := s.rows[i];
    s.(rows := s.rows[i := Row(r.tag, r.keys + [key], cap)],
       keys := s.keys + 1,
       log := Then(s.log, Added(r.tag, key)))
  }

  function PushFull(s: Index, i: nat, key: CacheKey): Index
    requires i < |s.rows| && s.rows[i].keys != []
  {
    var r := s.rows[i];
    s.(rows := s.rows[i := Row(r.tag, r.keys[1..] + [key], r.cap)],
       dropped := s.dropped + 1,
       log := Then(Then(s.log, Dropped(r.tag, r.keys[0])), Added(r.tag, key)))
  }

  /** What becomes of one row; `lost` and `added` count the keys that left and came. */
  datatype Extension = Extension(row: Row, ok: bool, lost: nat, added: nat, asked: nat)

  /** Adds a key to a row. A full list makes room for itself, so it asks the slab for nothing. */
  function Extend(r: Row, key: CacheKey, ans: Oracle, n: nat): (x: Extension)
    ensures x.row.tag == r.tag
  {
    if key in r.keys then Extension(r, true, 0, 0, n)
    else if |r.keys| >= MAX_KEYS_PER_TAG then Extension(r.(keys := r.keys[1..] + [key]), true, 1, 1, n)
    else if |r.keys| < r.cap then Extension(r.(keys := r.keys + [key]), true, 0, 1, n)
    else match ans(n)
      case Refused => Extension(r, false, 0, 0, n + 1)
      case Granted(slack) => Extension(Row(r.tag, r.keys + [key], |r.keys| + 1 + slack), true, 0, 1, n + 1)
  }

  /** Adds a key to a held tag. */
  function Append(s: Index, tag: Tag, key: CacheKey, ans: Oracle, n: nat): Attempt
    requires Holds(s.rows, tag)
  {
    var i := Find(s.rows, tag);
    var x := Extend(s.rows[i], key, ans, n);
    var after :=
      if x.added == 0 then s
      else if x.lost == 0 then Push(s, i, key, x.row.cap)
      else PushFull(s, i, key);
    Attempt(after, x.ok, x.asked)
  }

  function PushRow(s: Index, tag: Tag, key: CacheKey, cap: nat): Index {
    s.(rows := [Row(tag, [key], cap)] + s.rows,
       tags := s.tags + 1,
       keys := s.keys + 1,
       log := Then(Then(s.log, Created(tag)), Added(tag, key)))
  }

  /** Whether a new entry was granted, with room for how many keys, and the slab's count of requests. */
  datatype Grant = Grant(ok: bool, cap: nat, asked: nat)

  /** A new entry needs two copies of its tag, a key list with room for one key, and a map node. */
  function AskAll(ans: Oracle, n: nat): (g: Grant)
    ensures g.ok <==> 0 < g.cap
  {
    if ans(n).Refused? then Grant(false, 0, n + 1)
    else if ans(n + 1).Refused? then Grant(false, 0, n + 2)
    else match ans(n + 2)
      case Refused => Grant(false, 0, n + 3)
      case Granted(slack) => if ans(n + 3).Refused? then Grant(false, 0, n + 4) else Grant(true, 1 + slack, n + 4)
  }

  /** Adds a new tag. */
  function Create(s: Index, tag: Tag, key: CacheKey, ans: Oracle, n: nat): Attempt {
    var g := AskAll(ans, n);
    Attempt(if g.ok then PushRow(s, tag, key, g.cap) else s, g.ok, g.asked)
  }

  /** Drops the least recently used tag. */
  function Evict(s: Index): Index
    requires WellFormed(s) && s.rows != []
  {
    var last := s.rows[|s.rows| - 1];
    KeyCountSplit(s.rows[..|s.rows| - 1], [last]);
    assert s.rows == s.rows[..|s.rows| - 1] + [last];
    s.(rows := s.rows[..|s.rows| - 1],
       tags := s.tags - 1,
       keys := s.keys - |last.keys|,
       evicted := s.evicted + 1,
       log := Then(s.log, Evicted(last.tag, last.keys)))
  }

  function Try(s: Index, tag: Tag, key: CacheKey, ans: Oracle, n: nat): Attempt {
    if Holds(s.rows, tag) then Append(s, tag, key, ans, n) else Create(s, tag, key, ans, n)
  }

  /** Up to `left` attempts, each failure costing the coldest tag. */
  function Attempts(s: Index, tag: Tag, key: CacheKey, ans: Oracle, n: nat, left: nat): Attempt
    requires WellFormed(s) && Acceptable(tag)
    decreases left, s.rows
  {
    if left == 0 then Attempt(s, false, n)
    else
      var a := Try(s, tag, key, ans, n);
      if a.ok || s.rows == [] then a
      else
        EvictKeepsWellFormed(s);
        Attempts(Evict(s), tag, key, ans, a.asked, left - 1)
  }

  function Insert(s: Index, tag: Tag, key: CacheKey, ans: Oracle, n: nat): Attempt
    requires WellFormed(s)
  {
    if !Acceptable(tag) then Attempt(s, false, n)
    else
      MentionKeepsWellFormed(s, tag);
      Attempts(Mention(s, tag), tag, key, ans, n, EVICT_ATTEMPTS)
  }

  /** The index without `tag`. */
  function Take(s: Index, tag: Tag): Index
    requires WellFormed(s)
  {
    var i := Find(s.rows, tag);
    if i == |s.rows| then s
    else
      KeyCountAt(s.rows, i);
      s.(rows := s.rows[..i] + s.rows[i + 1..],
         tags := s.tags - 1,
         keys := s.keys - |s.rows[i].keys|,
         log := Then(s.log, Taken(tag, s.rows[i].keys)))
  }

  /** What a take hands to its caller. */
  function Answered(s: Index, tag: Tag): Option<seq<CacheKey>> {
    if Holds(s.rows, tag) then Some(ListOf(s, tag)) else None
  }

  // ----- well-formedness is kept by every operation -----

  lemma {:induction false} KeyCountSplit(a: seq<Row>, b: seq<Row>)
    ensures KeyCount(a + b) == KeyCount(a) + KeyCount(b)
  {
    if a == [] {
      assert a + b == b;
    } else {
      assert (a + b)[1..] == a[1..] + b;
      KeyCountSplit(a[1..], b);
    }
  }

  lemma KeyCountAt(rows: seq<Row>, i: nat)
    requires i < |rows|
    ensures KeyCount(rows) == KeyCount(rows[..i]) + |rows[i].keys| + KeyCount(rows[i + 1..])
    ensures KeyCount(rows) == |rows[i].keys| + KeyCount(rows[..i] + rows[i + 1..])
  {
    assert rows == rows[..i] + rows[i..];
    KeyCountSplit(rows[..i], rows[i..]);
    KeyCountSplit(rows[..i], rows[i + 1..]);
  }

  lemma KeyCountReplace(rows: seq<Row>, i: nat, r: Row)
    requires i < |rows|
    ensures KeyCount(rows[i := r]) == KeyCount(rows) - |rows[i].keys| + |r.keys|
  {
    KeyCountAt(rows, i);
    KeyCountAt(rows[i := r], i);
    assert rows[i := r][..i] == rows[..i] && rows[i := r][i + 1..] == rows[i + 1..];
  }

  lemma KeyCountToFront(rows: seq<Row>, i: nat)
    requires i < |rows|
    ensures KeyCount(ToFront(rows, i)) == KeyCount(rows)
  {
    KeyCountAt(rows, i);
    assert ToFront(rows, i)[1..] == rows[..i] + rows[i + 1..];
  }

  /** Where an element of `ToFront(rows, i)` came from. */
  function FrontSource(i: nat, j: nat): nat {
    if j == 0 then i else if j <= i then j - 1 else j
  }

  lemma ToFrontAt<T>(s: seq<T>, i: nat)
    requires i < |s|
    ensures |ToFront(s, i)| == |s|
    ensures forall j :: 0 <= j < |s| ==> ToFront(s, i)[j] == s[FrontSource(i, j)]
  {
  }

  lemma ToFrontKeepsWellFormed(s: Index, i: nat)
    requires WellFormed(s) && i < |s.rows|
    ensures WellFormed(s.(rows := ToFront(s.rows, i)))
  {
    KeyCountToFront(s.rows, i);
    ToFrontAt(s.rows, i);
  }

  lemma MentionKeepsWellFormed(s: Index, tag: Tag)
    requires WellFormed(s)
    ensures WellFormed(Mention(s, tag))
  {
    if Holds(s.rows, tag) { ToFrontKeepsWellFormed(s, Find(s.rows, tag)); }
  }

  lemma ReplaceKeepsWellFormed(s: Index, i: nat, r: Row, keys: nat)
    requires WellFormed(s) && i < |s.rows| && RowOk(r) && r.tag == s.rows[i].tag
    requires keys == s.keys - |s.rows[i].keys| + |r.keys|
    ensures WellFormed(s.(rows := s.rows[i := r], keys := keys))
  {
    KeyCountReplace(s.rows, i, r);
  }

  lemma ExtendKeepsRowOk(r: Row, key: CacheKey, ans: Oracle, n: nat)
    requires RowOk(r)
    ensures RowOk(Extend(r, key, ans, n).row)
  {
    if key !in r.keys {
      NoDupSnoc(r.keys, key);
      NoDupTail(r.keys);
      NoDupSnoc(r.keys[1..], key);
    }
  }

  lemma AppendKeepsWellFormed(s: Index, tag: Tag, key: CacheKey, ans: Oracle, n: nat)
    requires WellFormed(s) && Holds(s.rows, tag)
    ensures WellFormed(Append(s, tag, key, ans, n).index)
    ensures !Append(s, tag, key, ans, n).ok ==> Append(s, tag, key, ans, n).index == s
  {
    var i := Find(s.rows, tag);
    var x := Extend(s.rows[i], key, ans, n);
    assert RowOk(s.rows[i]);
    if x.added > 0 {
      ExtendKeepsRowOk(s.rows[i], key, ans, n);
      ReplaceKeepsWellFormed(s, i, x.row, s.keys + x.added - x.lost);
    }
  }

  lemma PushRowKeepsWellFormed(s: Index, tag: Tag, key: CacheKey, cap: nat)
    requires WellFormed(s) && Acceptable(tag) && !Holds(s.rows, tag) && 0 < cap
    ensures WellFormed(PushRow(s, tag, key, cap))
  {
  }

  lemma TryKeepsWellFormed(s: Index, tag: Tag, key: CacheKey, ans: Oracle, n: nat)
    requires WellFormed(s) && Acceptable(tag)
    ensures WellFormed(Try(s, tag, key, ans, n).index)
    ensures !Try(s, tag, key, ans, n).ok ==> Try(s, tag, key, ans, n).index == s
  {
    if Holds(s.rows, tag) { AppendKeepsWellFormed(s, tag, key, ans, n); }
  }

  lemma EvictKeepsWellFormed(s: Index)
    requires WellFormed(s) && s.rows != []
    ensures WellFormed(Evict(s))
  {
    KeyCountAt(s.rows, |s.rows| - 1);
  }

  lemma {:induction false} AttemptsKeepWellFormed(s: Index, tag: Tag, key: CacheKey, ans: Oracle, n: nat, left: nat)
    requires WellFormed(s) && Acceptable(tag)
    ensures WellFormed(Attempts(s, tag, key, ans, n, left).index)
    decreases left
  {
    if left > 0 {
      var a := Try(s, tag, key, ans, n);
      TryKeepsWellFormed(s, tag, key, ans, n);
      if !a.ok && s.rows != [] {
        EvictKeepsWellFormed(s);
        AttemptsKeepWellFormed(Evict(s), tag, key, ans, a.asked, left - 1);
      }
    }
  }

  /** A failed attempt that finds something to evict leaves the rest to the attempts that follow. */
  lemma AttemptsUnfold(s: Index, tag: Tag, key: CacheKey, ans: Oracle, n: nat, left: nat)
    requires WellFormed(s) && Acceptable(tag) && 0 < left
    ensures var a := Try(s, tag, key, ans, n);
            && WellFormed(a.index) && (!a.ok ==> a.index == s)
            && (s.rows != [] ==> WellFormed(Evict(s)))
            && Attempts(s, tag, key, ans, n, left) ==
               if a.ok || s.rows == [] then a else Attempts(Evict(s), tag, key, ans, a.asked, left - 1)
  {
    TryKeepsWellFormed(s, tag, key, ans, n);
    if s.rows != [] { EvictKeepsWellFormed(s); }
  }

  /** An insert of an acceptable tag is its attempts, after the mention. */
  lemma InsertRetries(s: Index, tag: Tag, key: CacheKey, ans: Oracle, n: nat) returns (left: nat)
    requires WellFormed(s) && Acceptable(tag)
    ensures left == EVICT_ATTEMPTS && WellFormed(Mention(s, tag))
    ensures Insert(s, tag, key, ans, n) == Attempts(Mention(s, tag), tag, key, ans, n, left)
  {
    left := EVICT_ATTEMPTS;
    MentionKeepsWellFormed(s, tag);
  }

  lemma InsertKeepsWellFormed(s: Index, tag: Tag, key: CacheKey, ans: Oracle, n: nat)
    requires WellFormed(s)
    ensures WellFormed(Insert(s, tag, key, ans, n).index)
  {
    if Acceptable(tag) {
      MentionKeepsWellFormed(s, tag);
      AttemptsKeepWellFormed(Mention(s, tag), tag, key, ans, n, EVICT_ATTEMPTS);
    }
  }

  lemma TakeKeepsWellFormed(s: Index, tag: Tag)
    requires WellFormed(s)
    ensures WellFormed(Take(s, tag))
  {
    var i := Find(s.rows, tag);
    if i < |s.rows| {
      KeyCountAt(s.rows, i);
    }
  }

  // ----- lookups after a change of rows -----

  /** With distinct tags the row found is the row holding the tag. */
  lemma FindUnique(rows: seq<Row>, tag: Tag, i: nat)
    requires DistinctTags(rows) && i < |rows| && rows[i].tag == tag
    ensures Find(rows, tag) == i
  {
  }

  lemma FindIs(rows: seq<Row>, tag: Tag, i: nat)
    requires i <= |rows| && (i < |rows| ==> rows[i].tag == tag)
    requires forall j :: 0 <= j < i ==> rows[j].tag != tag
    ensures Find(rows, tag) == i
  {
  }

  lemma FindAfterToFront(rows: seq<Row>, i: nat, t: Tag)
    requires DistinctTags(rows) && i < |rows|
    ensures var j := Find(rows, t);
            Find(ToFront(rows, i), t) == if j == i then 0 else if j < i then j + 1 else j
  {
    var m := ToFront(rows, i);
    ToFrontAt(rows, i);
    var j := Find(rows, t);
    var j' := if j == i then 0 else if j < i then j + 1 else j;
    if j < |rows| { assert m[j'] == rows[j]; }
    forall k | 0 <= k < j' ensures m[k].tag != t {
      assert m[k] == rows[FrontSource(i, k)] && FrontSource(i, k) != j;
    }
    FindIs(m, t, j');
  }

  lemma AbsentFromPrefix(rows: seq<Row>, n: nat, t: Tag)
    requires !Holds(rows, t) && n <= |rows|
    ensures !Holds(rows[..n], t)
  {
    assert forall i :: 0 <= i < |rows| ==> rows[i].tag != t;
  }

  lemma FindAfterReplace(rows: seq<Row>, i: nat, r: Row, t: Tag)
    requires i < |rows| && r.tag == rows[i].tag && DistinctTags(rows)
    ensures Find(rows[i := r], t) == Find(rows, t)
    ensures KeysOf(rows[i := r], t) == if t == r.tag then r.keys else KeysOf(rows, t)
  {
    var j := Find(rows, t);
    assert forall k :: 0 <= k < |rows| ==> rows[k].tag == rows[i := r][k].tag;
    if j < |rows| {
      FindUnique(rows[i := r], t, j);
      if t == r.tag { FindUnique(rows, t, i); }
    }
  }

  lemma FindAfterRemove(rows: seq<Row>, i: nat, t: Tag)
    requires i < |rows| && DistinctTags(rows)
    ensures var rest := rows[..i] + rows[i + 1..];
            if t == rows[i].tag then !Holds(rest, t)
            else
              && Holds(rest, t) == Holds(rows, t)
              && KeysOf(rest, t) == KeysOf(rows, t)
              && (Holds(rows, t) ==> Find(rest, t) == if Find(rows, t) < i then Find(rows, t) else Find(rows, t) - 1)
  {
    var rest := rows[..i] + rows[i + 1..];
    assert forall j :: 0 <= j < |rest| ==> rest[j] == if j < i then rows[j] else rows[j + 1];
    var j := Find(rows, t);
    if t != rows[i].tag && j < |rows| {
      var j' := if j < i then j else j - 1;
      assert rest[j'] == rows[j];
      FindUnique(rest, t, j');
    }
  }
}
