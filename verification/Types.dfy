/** Bytes, tags and cache keys, shared by every module of the model. */
module Types {
  type byte = x: int | 0 <= x < 256

  type Bytes = seq<byte>

  /** A surrogate key: an opaque label naming a group of cache entries. */
  type Tag = Bytes

  const CACHE_KEY_LEN: nat := 16

  const MAX_TAG_LEN: nat := 1024

  /** The MD5 of a cache key string, which addresses one cache entry. */
  type CacheKey = k: Bytes | |k| == CACHE_KEY_LEN witness seq(CACHE_KEY_LEN, _ => 0)

  datatype Option<+T> = None | Some(value: T)

  ghost predicate Differ<T>(s: seq<T>, i: int, j: int)
    requires 0 <= i < |s| && 0 <= j < |s|
  {
    s[i] != s[j]
  }

  /** No element occurs twice. */
  ghost predicate NoDup<T>(s: seq<T>) {
    forall i, j :: 0 <= i < j < |s| ==> Differ(s, i, j)
  }

  lemma NoDupAt<T>(s: seq<T>, i: nat, j: nat)
    requires NoDup(s) && i < |s| && j < |s| && i != j
    ensures s[i] != s[j]
  {
    assert i < j ==> Differ(s, i, j);
    assert j < i ==> Differ(s, j, i);
  }

  lemma NoDupSnoc<T>(s: seq<T>, x: T)
    requires NoDup(s) && x !in s
    ensures NoDup(s + [x])
  {
    forall i, j | 0 <= i < j < |s| + 1 ensures Differ(s + [x], i, j) {
      if j < |s| { NoDupAt(s, i, j); }
    }
  }

  lemma NoDupTail<T>(s: seq<T>)
    requires NoDup(s) && s != []
    ensures NoDup(s[1..]) && s[0] !in s[1..]
  {
    forall i, j | 0 <= i < j < |s| - 1 ensures Differ(s[1..], i, j) { NoDupAt(s, i + 1, j + 1); }
    forall i | 0 <= i < |s| - 1 ensures s[1..][i] != s[0] { NoDupAt(s, 0, i + 1); }
  }

  lemma NoDupCons<T>(x: T, s: seq<T>)
    requires NoDup(s) && x !in s
    ensures NoDup([x] + s)
  {
    forall i, j | 0 <= i < j < |s| + 1 ensures Differ([x] + s, i, j) {
      if i > 0 { NoDupAt(s, i - 1, j - 1); }
    }
  }

  lemma NoDupPrefix<T>(s: seq<T>, n: nat)
    requires NoDup(s) && n < |s|
    ensures NoDup(s[..n]) && s[n] !in s[..n]
  {
    forall i, j | 0 <= i < j < n ensures Differ(s[..n], i, j) { NoDupAt(s, i, j); }
    forall i | 0 <= i < n ensures s[..n][i] != s[n] { NoDupAt(s, i, n); }
  }

  lemma NoDupWithout<T>(s: seq<T>, k: nat)
    requires NoDup(s) && k < |s|
    ensures var rest := s[..k] + s[k + 1..]; NoDup(rest) && s[k] !in rest
  {
    var rest := s[..k] + s[k + 1..];
    forall i, j | 0 <= i < j < |rest| ensures Differ(rest, i, j) {
      NoDupAt(s, if i < k then i else i + 1, if j < k then j else j + 1);
    }
    forall i | 0 <= i < |rest| ensures rest[i] != s[k] { NoDupAt(s, if i < k then i else i + 1, k); }
  }

  /** The elements of a sequence as a set. */
  ghost function Elems<T>(s: seq<T>): set<T> {
    set x | x in s
  }

  // ASCII letters compare without regard to case.
  function Lower(c: byte): byte {
    if 65 <= c <= 90 then c + 32 else c
  }

  function LowerAll(s: Bytes): (r: Bytes)
    ensures |r| == |s|
    ensures forall i :: 0 <= i < |s| ==> r[i] == Lower(s[i])
  {
    if s == [] then [] else [Lower(s[0])] + LowerAll(s[1..])
  }

  predicate EqIgnoreCase(a: Bytes, b: Bytes) {
    LowerAll(a) == LowerAll(b)
  }

  /** Two names are the same exactly if they differ only in the case of letters. */
  lemma EqIgnoreCaseIff(a: Bytes, b: Bytes)
    ensures EqIgnoreCase(a, b) <==>
            && |a| == |b|
            && forall i :: 0 <= i < |a| ==>
                 a[i] == b[i] || (65 <= a[i] <= 90 && b[i] == a[i] + 32) || (65 <= b[i] <= 90 && a[i] == b[i] + 32)
  {
    var x, y := LowerAll(a), LowerAll(b);
    if x == y {
      forall i | 0 <= i < |a|
        ensures a[i] == b[i] || (65 <= a[i] <= 90 && b[i] == a[i] + 32) || (65 <= b[i] <= 90 && a[i] == b[i] + 32)
      {
        assert x[i] == y[i];
      }
    }
  }
}
