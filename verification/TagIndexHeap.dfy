/**
 The tag index as it lies in shared memory: a map to entries, and a circular doubly linked LRU
 threaded through those same entries. Every method is proved to compute the operation of the same
 name in `IndexModel`.
 */
module TagIndexHeap {
  import opened Types
  import opened IndexModel

  /** The slab allocator, which may refuse any request. */
  class Slab {
    const answers: Oracle
    var asked: nat

    constructor (answers: Oracle)
      ensures this.answers == answers && asked == 0
    {
      this.answers := answers;
      asked := 0;
    }

    method Ask() returns (answer: Answer)
      modifies this
      ensures answer == answers(old(asked))
      ensures asked == old(asked) + 1
    {
      answer := answers(asked);
      asked := asked + 1;
    }

    /** Asks for both copies of a tag, a key list with room for one key, and a map node. */
    method AskForEntry() returns (ok: bool, cap: nat)
      modifies this
      ensures Grant(ok, cap, asked) == AskAll(answers, old(asked))
    {
      ok, cap := false, 0;
      var name := Ask();
      if name.Refused? {
        return;
      }
      var dup := Ask();
      if dup.Refused? {
        return;
      }
      var list := Ask();
      if list.Refused? {
        return;
      }
      var node := Ask();
      if node.Refused? {
        return;
      }
      ok, cap := true, 1 + list.slack;
    }
  }

  /** One entry. Its queue link comes first, so link and entry are one address; the head is a bare link. */
  class Entry {
    var prev: Entry?
    var next: Entry?
    var tag: Tag
    var keys: seq<CacheKey>
    var cap: nat

    /** An entry not yet linked. */
    constructor (tag: Tag, keys: seq<CacheKey>, cap: nat)
      ensures this.tag == tag && this.keys == keys && this.cap == cap
    {
      prev, next := null, null;
      this.tag, this.keys, this.cap := tag, keys, cap;
    }

    /** Room for one more key, asking the slab only when the list is out of room. */
    method TryReserve(alloc: Slab) returns (ok: bool)
      modifies this`cap, alloc
      ensures |keys| < old(cap) ==> ok && cap == old(cap) && alloc.asked == old(alloc.asked)
      ensures |keys| >= old(cap) ==>
                var answer := alloc.answers(old(alloc.asked));
                && alloc.asked == old(alloc.asked) + 1
                && ok == answer.Granted?
                && cap == if ok then |keys| + 1 + answer.slack else old(cap)
    {
      ok := true;
      if |keys| >= cap {
        var answer := alloc.Ask();
        match answer
        case Refused => ok := false;
        case Granted(slack) => cap := |keys| + 1 + slack;
      }
    }

    ghost function Content(): Row
      reads `tag, `keys, `cap
    {
      Row(tag, keys, cap)
    }

    /**
     Adds a key unless present, first making room in a full list. Reserving after a removal never
     asks the slab, so a failure leaves the list as it was.
     */
    method Extend(key: CacheKey, alloc: Slab) returns (ok: bool, lost: nat, added: nat)
      requires 0 < |keys| <= cap && |keys| <= MAX_KEYS_PER_TAG
      modifies this`keys, this`cap, alloc
      ensures Extension(Content(), ok, lost, added, alloc.asked)
           == IndexModel.Extend(old(Content()), key, alloc.answers, old(alloc.asked))
    {
      ok, lost, added := true, 0, 0;
      if key !in keys {
        if |keys| >= MAX_KEYS_PER_TAG {
          keys := keys[1..];
          lost := 1;
        }
        ok := TryReserve(alloc);
        if ok {
          keys := keys + [key];
          added := 1;
        }
      }
    }
  }

  /** The `i`th element of the ring, the head lying before the first and after the last. */
  ghost function At(head: Entry, ring: seq<Entry>, i: int): Entry {
    if 0 <= i < |ring| then ring[i] else head
  }

  /** `head` and `ring` form one circle, `ring` being what is met walking forwards from `head`. */
  ghost predicate Circular(head: Entry, ring: seq<Entry>)
    reads head`next, head`prev, ring`next, ring`prev
  {
    && NoDup(ring)
    && head !in ring
    && head.next == At(head, ring, 0)
    && head.prev == At(head, ring, |ring| - 1)
    && (forall i {:trigger ring[i].next} :: 0 <= i < |ring| ==> ring[i].next == At(head, ring, i + 1))
    && (forall i {:trigger ring[i].prev} :: 0 <= i < |ring| ==> ring[i].prev == At(head, ring, i - 1))
  }

  /** The `n`th element met walking forwards from `e`. */
  ghost function Forwards(e: Entry, n: nat, all: set<Entry>): Entry?
    reads e, all
    decreases n
  {
    if n == 0 then e else if e.next == null || e.next !in all then null else Forwards(e.next, n - 1, all)
  }

  ghost function Backwards(e: Entry, n: nat, all: set<Entry>): Entry?
    reads e, all
    decreases n
  {
    if n == 0 then e else if e.prev == null || e.prev !in all then null else Backwards(e.prev, n - 1, all)
  }

  /** Walking forwards from the head meets `ring`, walking backwards meets its reverse, and both come home. */
  lemma WalksAgree(head: Entry, ring: seq<Entry>, n: nat)
    requires Circular(head, ring) && n <= |ring|
    ensures Forwards(head, n + 1, {head} + Elems(ring)) == At(head, ring, n)
    ensures Backwards(head, n + 1, {head} + Elems(ring)) == At(head, ring, |ring| - 1 - n)
  {
    ForwardsFrom(head, ring, 0, n);
    BackwardsFrom(head, ring, |ring|, n);
  }

  lemma {:induction false} ForwardsFrom(head: Entry, ring: seq<Entry>, i: nat, n: nat)
    requires Circular(head, ring) && i + n <= |ring|
    ensures Forwards(At(head, ring, i - 1), n + 1, {head} + Elems(ring)) == At(head, ring, i + n)
    decreases n
  {
    assert At(head, ring, i - 1).next == At(head, ring, i);
    if n > 0 { ForwardsFrom(head, ring, i + 1, n - 1); }
  }

  lemma {:induction false} BackwardsFrom(head: Entry, ring: seq<Entry>, i: nat, n: nat)
    requires Circular(head, ring) && n <= i <= |ring|
    ensures Backwards(At(head, ring, i), n + 1, {head} + Elems(ring)) == At(head, ring, i - 1 - n)
    decreases n
  {
    assert At(head, ring, i).prev == At(head, ring, i - 1);
    if n > 0 { BackwardsFrom(head, ring, i - 1, n - 1); }
  }

  /** Neighbours in a ring without its `k`th element are neighbours in the ring, but for that one. */
  lemma NeighboursWithout(head: Entry, ring: seq<Entry>, k: nat, i: nat)
    requires NoDup(ring) && head !in ring && k < |ring| && i < |ring| - 1
    ensures var rest, j := ring[..k] + ring[k + 1..], if i < k then i else i + 1;
            && rest[i] == ring[j]
            && At(head, rest, i + 1) == At(head, ring, if j + 1 == k then k + 1 else j + 1)
            && At(head, rest, i - 1) == At(head, ring, if j - 1 == k then k - 1 else j - 1)
            && (ring[j] == At(head, ring, k - 1) <==> j + 1 == k)
            && (ring[j] == At(head, ring, k + 1) <==> j - 1 == k)
  {
    var j := if i < k then i else i + 1;
    if 0 < k && j != k - 1 { NoDupAt(ring, j, k - 1); }
    if k + 1 < |ring| && j != k + 1 { NoDupAt(ring, j, k + 1); }
  }

  /** Unsplices `x`, which is `ring[k]`. */
  method QueueRemove(head: Entry, x: Entry, ghost ring: seq<Entry>, ghost k: nat)
    requires Circular(head, ring) && k < |ring| && ring[k] == x
    modifies head`next, head`prev, ring`next, ring`prev
    ensures Circular(head, ring[..k] + ring[k + 1..])
  {
    ghost var rest := ring[..k] + ring[k + 1..];
    NoDupWithout(ring, k);
    assert ring[k].next == At(head, ring, k + 1) && ring[k].prev == At(head, ring, k - 1);
    x.next.prev := x.prev;
    x.prev.next := x.next;
    forall i | 0 <= i < |rest|
      ensures rest[i].next == At(head, rest, i + 1) && rest[i].prev == At(head, rest, i - 1)
    {
      NeighboursWithout(head, ring, k, i);
      var j := if i < k then i else i + 1;
      assert old(ring[j].next) == At(head, ring, j + 1) && old(ring[j].prev) == At(head, ring, j - 1);
    }
  }

  /** Splices the unlinked `x` in at the front. */
  method QueueInsertAfter(head: Entry, x: Entry, ghost ring: seq<Entry>)
    requires Circular(head, ring) && x != head && x !in ring
    modifies head`next, head`prev, x`next, x`prev, ring`next, ring`prev
    ensures Circular(head, [x] + ring)
  {
    ghost var longer := [x] + ring;
    ghost var first := At(head, ring, 0);
    NoDupCons(x, ring);
    x.next := head.next;
    x.next.prev := x;
    x.prev := head;
    head.next := x;
    forall i | 0 <= i < |longer|
      ensures longer[i].next == At(head, longer, i + 1) && longer[i].prev == At(head, longer, i - 1)
    {
      if i > 0 {
        assert longer[i] == ring[i - 1];
        if i > 1 { NoDupAt(ring, 0, i - 1); }
        assert longer[i].next == old(ring[i - 1].next);
      }
    }
  }

  /** Moves `x`, which is `ring[i]`, to the front. */
  method QueueToFront(head: Entry, x: Entry, ghost ring: seq<Entry>, ghost i: nat)
    requires Circular(head, ring) && i < |ring| && ring[i] == x
    modifies head`next, head`prev, ring`next, ring`prev
    ensures Circular(head, ToFront(ring, i))
  {
    ghost var rest := ring[..i] + ring[i + 1..];
    NoDupWithout(ring, i);
    QueueRemove(head, x, ring, i);
    QueueInsertAfter(head, x, rest);
  }

  /** The entries of `ring` hold what `rows` says, in that order. */
  ghost predicate Shows(ring: seq<Entry>, rows: seq<Row>)
    reads ring`tag, ring`keys, ring`cap
  {
    && |ring| == |rows|
    && forall i {:trigger rows[i]} :: 0 <= i < |ring| ==> ring[i].Content() == rows[i]
  }

  ghost function TagsOf(rows: seq<Row>): set<Tag> {
    set i | 0 <= i < |rows| :: rows[i].tag
  }

  /** The map has exactly the tags of `rows`, each leading to the ring element in its place. */
  ghost predicate Agrees(entries: map<Tag, Entry>, ring: seq<Entry>, rows: seq<Row>) {
    && |ring| == |rows|
    && entries.Keys == TagsOf(rows)
    && forall i {:trigger rows[i]} :: 0 <= i < |rows| ==> rows[i].tag in entries && entries[rows[i].tag] == ring[i]
  }

  /** Looking a tag up in the map finds the ring element whose row holds it. */
  lemma EntryOf(entries: map<Tag, Entry>, ring: seq<Entry>, rows: seq<Row>, tag: Tag)
    requires Agrees(entries, ring, rows)
    ensures tag in entries <==> Holds(rows, tag)
    ensures tag in entries ==> entries[tag] == ring[Find(rows, tag)] && rows[Find(rows, tag)].tag == tag
  {
    assert tag in entries <==> tag in TagsOf(rows);
    if Holds(rows, tag) { assert rows[Find(rows, tag)].tag == tag; }
  }

  lemma ReorderedAgrees(entries: map<Tag, Entry>, ring: seq<Entry>, rows: seq<Row>, i: nat)
    requires Agrees(entries, ring, rows) && i < |ring|
    ensures Agrees(entries, ToFront(ring, i), ToFront(rows, i))
  {
    ToFrontAt(ring, i);
    ToFrontAt(rows, i);
    forall t | t in TagsOf(rows) ensures t in TagsOf(ToFront(rows, i)) {
      var j :| 0 <= j < |rows| && rows[j].tag == t;
      assert ToFront(rows, i)[if j == i then 0 else if j < i then j + 1 else j].tag == t;
    }
  }

  lemma ReorderedShows(ring: seq<Entry>, rows: seq<Row>, i: nat)
    requires Shows(ring, rows) && i < |ring|
    ensures Shows(ToFront(ring, i), ToFront(rows, i))
  {
    ToFrontAt(ring, i);
    ToFrontAt(rows, i);
  }

  function Without<T>(s: seq<T>, i: nat): seq<T>
    requires i < |s|
  {
    s[..i] + s[i + 1..]
  }

  lemma RemovedAgrees(entries: map<Tag, Entry>, ring: seq<Entry>, rows: seq<Row>, i: nat)
    requires Agrees(entries, ring, rows) && DistinctTags(rows) && i < |ring|
    ensures Agrees(entries - {rows[i].tag}, Without(ring, i), Without(rows, i))
  {
    var rest := Without(rows, i);
    assert forall j :: 0 <= j < |rest| ==> rest[j] == rows[if j < i then j else j + 1];
    forall t | t in TagsOf(rows) && t != rows[i].tag ensures t in TagsOf(rest) {
      var j :| 0 <= j < |rows| && rows[j].tag == t;
      assert rest[if j < i then j else j - 1].tag == t;
    }
  }

  lemma RemovedShows(ring: seq<Entry>, rows: seq<Row>, i: nat)
    requires Shows(ring, rows) && i < |ring|
    ensures Shows(Without(ring, i), Without(rows, i))
  {
    assert forall j :: 0 <= j < |ring| - 1 ==> Without(rows, i)[j] == rows[if j < i then j else j + 1];
  }

  lemma ReplacedAgrees(entries: map<Tag, Entry>, ring: seq<Entry>, rows: seq<Row>, i: nat, r: Row)
    requires Agrees(entries, ring, rows) && i < |ring| && r.tag == rows[i].tag
    ensures Agrees(entries, ring, rows[i := r])
  {
    forall t | t in TagsOf(rows) ensures t in TagsOf(rows[i := r]) {
      var j :| 0 <= j < |rows| && rows[j].tag == t;
      assert rows[i := r][j].tag == t;
    }
  }

  lemma PushedAgrees(entries: map<Tag, Entry>, ring: seq<Entry>, rows: seq<Row>, e: Entry, r: Row)
    requires Agrees(entries, ring, rows) && r.tag !in entries
    ensures Agrees(entries[r.tag := e], [e] + ring, [r] + rows)
  {
    var more := [r] + rows;
    assert forall j :: 0 < j < |more| ==> more[j] == rows[j - 1];
    assert more[0].tag in TagsOf(more);
    forall t | t in TagsOf(rows) ensures t in TagsOf(more) {
      var j :| 0 <= j < |rows| && rows[j].tag == t;
      assert more[j + 1].tag == t;
    }
  }

  class TagIndex {
    var entries: map<Tag, Entry>
    const lru: Entry
    var tags: nat
    var keys: nat
    var evicted: nat
    var dropped: nat
    ghost var ring: seq<Entry>  // the entries, most recently used first
    ghost var value: Index      // what this heap state stands for
    ghost var nodes: set<Entry> // the head and every entry ever allocated

    ghost predicate Valid()
      reads this, nodes
    {
      && lru in nodes
      && (forall i :: 0 <= i < |ring| ==> ring[i] in nodes)
      && Circular(lru, ring)
      && Agrees(entries, ring, value.rows)
      && Shows(ring, value.rows)
      && value.tags == tags && value.keys == keys && value.evicted == evicted && value.dropped == dropped
      && WellFormed(value)
    }

    /** An index just set up in shared memory, its queue head pointing at itself. */
    constructor ()
      ensures Valid() && value == EMPTY
      ensures fresh(nodes)
    {
      var head := new Entry([], [], 0);
      lru := head;
      entries := map[];
      tags, keys, evicted, dropped := 0, 0, 0, 0;
      ring, value, nodes := [], EMPTY, {head};
      new;
      lru.next, lru.prev := lru, lru;
    }

    /** Moves the entry at `i` to the front. */
    method Touch(link: Entry, ghost i: nat, ghost after: Index)
      requires Circular(lru, ring) && i < |ring| && ring[i] == link
      requires Shows(ToFront(ring, i), after.rows)
      modifies this`ring, this`value, lru`next, lru`prev, ring`next, ring`prev
      ensures Circular(lru, ring) && ring == ToFront(old(ring), i)
      ensures Shows(ring, after.rows) && value == after
    {
      QueueToFront(lru, link, ring, i);
      ring := ToFront(ring, i);
      value := after;
    }

    /** The map and the ring once the entry at `i` is in front. */
    lemma Reordering(i: nat)
      requires Valid() && i < |ring|
      ensures Agrees(entries, ToFront(ring, i), ToFront(value.rows, i))
      ensures Shows(ToFront(ring, i), ToFront(value.rows, i))
      ensures forall j :: 0 <= j < |ring| ==> ToFront(ring, i)[j] in nodes
    {
      ReorderedAgrees(entries, ring, value.rows, i);
      ReorderedShows(ring, value.rows, i);
    }

    /** The front-of-call half of an insert: names the tag, touching it if it is held. */
    method Mention(tag: Tag)
      requires Valid()
      modifies this, nodes
      ensures Valid() && nodes == old(nodes)
      ensures value == IndexModel.Mention(old(value), tag)
    {
      ghost var after := IndexModel.Mention(value, tag);
      EntryOf(entries, ring, value.rows, tag);
      MentionKeepsWellFormed(value, tag);
      if tag in entries {
        ghost var i := Find(value.rows, tag);
        Reordering(i);
        Touch(entries[tag], i, after);
      } else {
        value := after;
      }
    }

    /** What is left of the ring, the map and the counters without the entry at `k`. */
    lemma Remainder(k: nat)
      requires Valid() && k < |ring|
      ensures var row := value.rows[k];
              && row.tag == ring[k].tag && row.keys == ring[k].keys
              && 0 < |row.tag| <= MAX_TAG_LEN
              && row.tag in entries && entries[row.tag] == ring[k]
              && 0 < tags && |row.keys| <= keys
              && Find(value.rows, row.tag) == k
              && Agrees(entries - {row.tag}, Without(ring, k), Without(value.rows, k))
              && Shows(Without(ring, k), Without(value.rows, k))
              && forall j :: 0 <= j < |ring| - 1 ==> Without(ring, k)[j] in nodes
    {
      RemovedAgrees(entries, ring, value.rows, k);
      RemovedShows(ring, value.rows, k);
      KeyCountAt(value.rows, k);
      FindUnique(value.rows, value.rows[k].tag, k);
      assert RowOk(value.rows[k]);
    }

    /** Takes a tag out of the map and off the counters, the queue apart. */
    method Unregister(name: Tag, evicting: bool, ghost k: nat, ghost after: Index) returns (held: seq<CacheKey>)
      requires name in entries && 0 < tags && |entries[name].keys| <= keys && k < |ring|
      modifies `entries, `tags, `keys, `evicted, `ring, `value
      ensures held == old(entries[name].keys) && entries == old(entries) - {name}
      ensures tags == old(tags) - 1 && keys == old(keys) - |held|
      ensures evicted == old(evicted) + if evicting then 1 else 0
      ensures ring == Without(old(ring), k) && value == after
    {
      held := entries[name].keys;
      entries := entries - {name};
      tags := tags - 1;
      keys := keys - |held|;
      if evicting {
        evicted := evicted + 1;
      }
      ring, value := Without(ring, k), after;
    }

    /** Unlinks the entry at `k`, then takes it out of the map and off the counters. */
    method Discard(link: Entry, name: Tag, evicting: bool, ghost k: nat, ghost after: Index)
      returns (held: seq<CacheKey>)
      requires Circular(lru, ring) && k < |ring| && ring[k] == link
      requires name in entries && entries[name] == link && 0 < tags && |link.keys| <= keys
      requires Shows(Without(ring, k), after.rows)
      modifies `entries, `tags, `keys, `evicted, `ring, `value, lru`next, lru`prev, ring`next, ring`prev
      ensures evicted == old(evicted) + if evicting then 1 else 0
      ensures Circular(lru, ring) && ring == Without(old(ring), k)
      ensures held == link.keys
      ensures entries == old(entries) - {name} && tags == old(tags) - 1 && keys == old(keys) - |held|
      ensures Shows(ring, after.rows) && value == after
    {
      QueueRemove(lru, link, ring, k);
      held := Unregister(name, evicting, k, after);
    }

    /** The link at the cold end, if any, with a copy of the tag its entry is keyed by. */
    method Coldest() returns (last: Entry?, name: Tag)
      requires Valid()
      ensures last == null <==> value.rows == []
      ensures last != null ==> last == ring[|ring| - 1] && name == value.rows[|ring| - 1].tag
    {
      last, name := lru.prev, [];
      if ring != [] {
        assert lru.prev == ring[|ring| - 1];
        Remainder(|ring| - 1);
      }
      if last == null || last == lru {
        last := null;
      } else {
        var len := if |last.tag| < MAX_TAG_LEN then |last.tag| else MAX_TAG_LEN;
        name := last.tag[..len];
      }
    }

    /** Drops the coldest tag. Answers false only when there is none. */
    method Evict() returns (ok: bool)
      requires Valid()
      modifies this, nodes
      ensures Valid() && nodes == old(nodes)
      ensures ok <==> old(value.rows) != []
      ensures value == if ok then IndexModel.Evict(old(value)) else old(value)
    {
      ok := false;
      var last, name := Coldest();
      if last == null {
        return;
      }

      ghost var k := |ring| - 1;
      ghost var after := IndexModel.Evict(value);
      Remainder(k);
      EvictKeepsWellFormed(value);
      assert after.rows == Without(value.rows, k);
      if name in entries {
        var held := Discard(last, name, true, k, after);
        ok := true;
      }
    }

    /** Removes `tag` and hands out the keys recorded against it. */
    method Take(tag: Tag) returns (answer: Option<seq<CacheKey>>)
      requires Valid()
      modifies this, nodes
      ensures Valid() && nodes == old(nodes)
      ensures answer == Answered(old(value), tag)
      ensures value == IndexModel.Take(old(value), tag)
    {
      EntryOf(entries, ring, value.rows, tag);
      if tag !in entries {
        return None;
      }
      var entry := entries[tag];

      ghost var k := Find(value.rows, tag);
      ghost var after := IndexModel.Take(value, tag);
      Remainder(k);
      TakeKeepsWellFormed(value, tag);
      assert after.rows == Without(value.rows, k);

      var held := Discard(entry, tag, false, k, after);
      answer := Some(held);
    }
  
    /** Grows the entry at `i` in place, and counts what that changed. */
    method Grow(entry: Entry, key: CacheKey, alloc: Slab, ghost i: nat, ghost after: Index) returns (ok: bool)
      requires i < |ring| && ring[i] == entry && NoDup(ring) && Shows(ring, value.rows)
      requires 0 < |entry.keys| <= entry.cap && |entry.keys| <= MAX_KEYS_PER_TAG
      requires |entry.keys| <= keys
      requires var x := IndexModel.Extend(entry.Content(), key, alloc.answers, alloc.asked);
               after.rows == value.rows[i := x.row]
      modifies this`dropped, this`keys, this`value, entry`keys, entry`cap, alloc
      ensures var x := IndexModel.Extend(old(entry.Content()), key, alloc.answers, old(alloc.asked));
              && ok == x.ok && alloc.asked == x.asked
              && dropped == old(dropped) + x.lost && keys == old(keys) + x.added - x.lost
      ensures Shows(ring, after.rows) && value == after
    {
      ghost var before := value.rows;
      assert entry.Content() == before[i];
      var lost, added;
      ok, lost, added := entry.Extend(key, alloc);
      dropped := dropped + lost;
      keys := keys + added - lost;
      value := after;
      forall j | 0 <= j < |ring| ensures ring[j].Content() == after.rows[j] {
        if j != i {
          NoDupAt(ring, j, i);
          assert ring[j].Content() == before[j];
        }
      }
    }

    /** What appending to a held tag comes down to: one entry, at `i`, to be grown in place. */
    lemma PlanAppend(tag: Tag, key: CacheKey, ans: Oracle, n: nat) returns (i: nat)
      requires Valid() && Holds(value.rows, tag)
      ensures i < |ring| && tag in entries && entries[tag] == ring[i]
      ensures ring[i].Content() == value.rows[i] && RowOk(value.rows[i]) && |ring[i].keys| <= keys
      ensures var a, x := IndexModel.Append(value, tag, key, ans, n), IndexModel.Extend(value.rows[i], key, ans, n);
              && a == Attempt(a.index, x.ok, x.asked) && WellFormed(a.index)
              && a.index.rows == value.rows[i := x.row] && Agrees(entries, ring, a.index.rows)
              && a.index.tags == value.tags && a.index.evicted == value.evicted
              && a.index.keys == value.keys + x.added - x.lost && a.index.dropped == value.dropped + x.lost
    {
      i := Find(value.rows, tag);
      EntryOf(entries, ring, value.rows, tag);
      AppendIsReplace(value, tag, key, ans, n);
      ReplacedAgrees(entries, ring, value.rows, i, IndexModel.Extend(value.rows[i], key, ans, n).row);
      KeyCountAt(value.rows, i);
      assert ring[i].Content() == value.rows[i] && RowOk(value.rows[i]);
    }

    /** Grows a held tag's entry by one key, where the map finds it; an absent tag is refused. */
    method Append(tag: Tag, key: CacheKey, alloc: Slab) returns (ok: bool)
      requires Valid()
      modifies this, nodes, alloc
      ensures Valid() && nodes == old(nodes)
      ensures old(Holds(value.rows, tag)) ==>
                var a := IndexModel.Append(old(value), tag, key, alloc.answers, old(alloc.asked));
                ok == a.ok && value == a.index && alloc.asked == a.asked
      ensures !old(Holds(value.rows, tag)) ==> !ok && value == old(value) && unchanged(alloc)
    {
      EntryOf(entries, ring, value.rows, tag);
      if tag !in entries {
        return false;
      }
      ghost var i := PlanAppend(tag, key, alloc.answers, alloc.asked);
      ghost var after := IndexModel.Append(value, tag, key, alloc.answers, alloc.asked).index;
      ok := Grow(entries[tag], key, alloc, i, after);
    }

    /** Appending changes one row, in place. */
    lemma AppendIsReplace(s: Index, tag: Tag, key: CacheKey, ans: Oracle, n: nat)
      requires WellFormed(s) && Holds(s.rows, tag)
      ensures var a, i := IndexModel.Append(s, tag, key, ans, n), Find(s.rows, tag);
              var x := IndexModel.Extend(s.rows[i], key, ans, n);
              && a.index.rows == s.rows[i := x.row]
              && a.index.tags == s.tags && a.index.evicted == s.evicted
              && a.index.keys == s.keys + x.added - x.lost
              && a.index.dropped == s.dropped + x.lost
              && (!x.ok ==> a.index == s)
              && WellFormed(a.index)
    {
      var i := Find(s.rows, tag);
      assert RowOk(s.rows[i]);
      TryKeepsWellFormed(s, tag, key, ans, n);
    }
  
    /** Puts a fresh entry into the map and on the counters, the queue apart. */
    method Register(entry: Entry, ghost after: Index)
      modifies `entries, `tags, `keys, `ring, `value, `nodes
      ensures entries == old(entries)[entry.tag := entry] && tags == old(tags) + 1 && keys == old(keys) + 1
      ensures ring == [entry] + old(ring) && value == after && nodes == old(nodes) + {entry}
    {
      entries := entries[entry.tag := entry];
      tags := tags + 1;
      keys := keys + 1;
      ring, value, nodes := [entry] + ring, after, nodes + {entry};
    }

    /** Puts a new entry into the map, at the front of the ring and on the counters. */
    method Admit(tag: Tag, key: CacheKey, cap: nat, ghost after: Index)
      requires Circular(lru, ring) && Shows(ring, value.rows)
      requires after.rows == [Row(tag, [key], cap)] + value.rows
      modifies `entries, `tags, `keys, `ring, `value, `nodes, lru`next, lru`prev, ring`next, ring`prev
      ensures |ring| == |old(ring)| + 1 && ring == [ring[0]] + old(ring) && fresh(ring[0])
      ensures entries == old(entries)[tag := ring[0]] && tags == old(tags) + 1 && keys == old(keys) + 1
      ensures nodes == old(nodes) + {ring[0]}
      ensures Circular(lru, ring) && Shows(ring, after.rows) && value == after
    {
      var entry := new Entry(tag, [key], cap);
      assert forall j :: 0 < j < |after.rows| ==> after.rows[j] == value.rows[j - 1];
      assert Shows([entry] + ring, after.rows);
      QueueInsertAfter(lru, entry, ring);
      Register(entry, after);
    }

    /** Builds a new entry out of memory already granted. */
    method Enter(tag: Tag, key: CacheKey, cap: nat)
      requires Valid() && Acceptable(tag) && !Holds(value.rows, tag) && 0 < cap
      modifies this, nodes
      ensures Valid() && fresh(nodes - old(nodes))
      ensures value == PushRow(old(value), tag, key, cap)
    {
      ghost var was, rows, before := ring, value.rows, entries;
      PushRowKeepsWellFormed(value, tag, key, cap);
      EntryOf(entries, ring, value.rows, tag);
      Admit(tag, key, cap, PushRow(value, tag, key, cap));
      assert forall i :: 0 < i < |ring| ==> ring[i] == was[i - 1];
      PushedAgrees(before, was, rows, ring[0], value.rows[0]);
    }

    /** Makes an entry for an absent tag, once the slab has granted all its parts. */
    method Create(tag: Tag, key: CacheKey, alloc: Slab) returns (ok: bool)
      requires Valid() && Acceptable(tag) && !Holds(value.rows, tag)
      modifies this, nodes, alloc
      ensures Valid() && fresh(nodes - old(nodes))
      ensures var a := IndexModel.Create(old(value), tag, key, alloc.answers, old(alloc.asked));
              ok == a.ok && value == a.index && alloc.asked == a.asked
    {
      var cap;
      ok, cap := alloc.AskForEntry();
      if ok {
        Enter(tag, key, cap);
      }
    }

    /** One attempt of an insert. */
    method Try(tag: Tag, key: CacheKey, alloc: Slab) returns (ok: bool)
      requires Valid() && Acceptable(tag)
      modifies this, nodes, alloc
      ensures Valid() && fresh(nodes - old(nodes))
      ensures var a := IndexModel.Try(old(value), tag, key, alloc.answers, old(alloc.asked));
              ok == a.ok && value == a.index && alloc.asked == a.asked
    {
      EntryOf(entries, ring, value.rows, tag);
      if tag in entries {
        ok := Append(tag, key, alloc);
      } else {
        ok := Create(tag, key, alloc);
      }
    }

    /** One attempt and, should it fail, one eviction; `done` once the call is settled. */
    method Round(tag: Tag, key: CacheKey, alloc: Slab, ghost left: nat) returns (ok: bool, done: bool)
      requires Valid() && Acceptable(tag) && 0 < left
      modifies this, nodes, alloc
      ensures Valid() && fresh(nodes - old(nodes))
      ensures var goal := Attempts(old(value), tag, key, alloc.answers, old(alloc.asked), left);
              if done then Attempt(value, ok, alloc.asked) == goal
              else !ok && Attempts(value, tag, key, alloc.answers, alloc.asked, left - 1) == goal
    {
      AttemptsUnfold(value, tag, key, alloc.answers, alloc.asked, left);
      ok := Try(tag, key, alloc);
      done := ok;
      if !ok {
        var evicted := Evict();
        done := !evicted;
      }
    }

    /** Records `key` against `tag`, evicting cold tags while the slab refuses. */
    method Insert(alloc: Slab, tag: Tag, key: CacheKey) returns (ok: bool)
      requires Valid()
      modifies this, nodes, alloc
      ensures Valid() && fresh(nodes - old(nodes))
      ensures var a := IndexModel.Insert(old(value), tag, key, alloc.answers, old(alloc.asked));
              ok == a.ok && value == a.index && alloc.asked == a.asked
    {
      if tag == [] || |tag| > MAX_TAG_LEN {
        return false;
      }

      Mention(tag);

      ghost var left := InsertRetries(old(value), tag, key, alloc.answers, alloc.asked);
      ghost var goal := Attempts(value, tag, key, alloc.answers, alloc.asked, left);
      for attempt := 0 to EVICT_ATTEMPTS
        invariant left == EVICT_ATTEMPTS - attempt
        invariant Valid() && fresh(nodes - old(nodes))
        invariant Attempts(value, tag, key, alloc.answers, alloc.asked, left) == goal
      {
        var done;
        ok, done := Round(tag, key, alloc, left);
        if done {
          return;
        }
        left := left - 1;
      }
      return false;
    }
  }
}
