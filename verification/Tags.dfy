/** Splitting a tag header value into tags. */
module Tags {
  import opened Types

  const TAB: byte := 9
  const LF: byte := 10
  const FF: byte := 12
  const CR: byte := 13
  const SP: byte := 32
  const COMMA: byte := 44
  const COLON: byte := 58

  predicate IsSeparator(c: byte) {
    c == SP || c == TAB || c == COMMA || c == CR || c == LF
  }

  predicate IsWhitespace(c: byte) {
    c == SP || c == TAB || c == LF || c == FF || c == CR
  }

  predicate All(v: Bytes, p: byte -> bool) {
    forall i :: 0 <= i < |v| ==> p(v[i])
  }

  predicate NoneOf(v: Bytes, p: byte -> bool) {
    forall i :: 0 <= i < |v| ==> !p(v[i])
  }

  /** The pieces between the bytes satisfying `p`, empty ones included. */
  function SplitOn(v: Bytes, p: byte -> bool): (r: seq<Bytes>)
    ensures |r| >= 1
  {
    if v == [] then [[]]
    else
      var rest := SplitOn(v[1..], p);
      if p(v[0]) then [[]] + rest else [[v[0]] + rest[0]] + rest[1..]
  }

  function NonEmpty(pieces: seq<Bytes>): seq<Bytes> {
    if pieces == [] then []
    else (if pieces[0] == [] then [] else [pieces[0]]) + NonEmpty(pieces[1..])
  }

  function SplitTags(value: Bytes): seq<Tag> {
    NonEmpty(SplitOn(value, IsSeparator))
  }

  lemma {:induction false} SplitOnAt(a: Bytes, c: byte, b: Bytes, p: byte -> bool)
    requires p(c)
    ensures SplitOn(a + [c] + b, p) == SplitOn(a, p) + SplitOn(b, p)
  {
    var v := a + [c] + b;
    if a == [] {
      assert v[1..] == b;
    } else {
      assert v[1..] == a[1..] + [c] + b;
      SplitOnAt(a[1..], c, b, p);
    }
  }

  lemma {:induction false} SplitOnNothing(a: Bytes, p: byte -> bool)
    requires NoneOf(a, p)
    ensures SplitOn(a, p) == [a]
  {
    if a != [] {
      SplitOnNothing(a[1..], p);
      assert [a[0]] + a[1..] == a;
    }
  }

  lemma {:induction false} NonEmptyConcat(a: seq<Bytes>, b: seq<Bytes>)
    ensures NonEmpty(a + b) == NonEmpty(a) + NonEmpty(b)
  {
    if a == [] {
      assert a + b == b;
    } else {
      assert (a + b)[1..] == a[1..] + b;
      NonEmptyConcat(a[1..], b);
    }
  }

  /** Splitting around a separator is splitting both sides. */
  lemma SplitTagsAt(a: Bytes, c: byte, b: Bytes)
    requires IsSeparator(c)
    ensures SplitTags(a + [c] + b) == SplitTags(a) + SplitTags(b)
  {
    SplitOnAt(a, c, b, IsSeparator);
    NonEmptyConcat(SplitOn(a, IsSeparator), SplitOn(b, IsSeparator));
  }

  lemma SplitOneTag(tag: Tag)
    requires tag != [] && NoneOf(tag, IsSeparator)
    ensures SplitTags(tag) == [tag]
  {
    SplitOnNothing(tag, IsSeparator);
    assert NonEmpty([tag]) == [tag] + NonEmpty([tag][1..]);
  }

  lemma SplitNothing()
    ensures SplitTags([]) == []
  {
    var none: seq<Bytes> := [[]];
    assert SplitOn([], IsSeparator) == none;
    assert NonEmpty(none) == NonEmpty(none[1..]);
  }

  lemma {:induction false} SplitPadLeft(pad: Bytes, v: Bytes)
    requires All(pad, IsSeparator)
    ensures SplitTags(pad + v) == SplitTags(v)
  {
    if pad == [] {
      assert pad + v == v;
    } else {
      assert pad + v == [] + [pad[0]] + (pad[1..] + v);
      SplitTagsAt([], pad[0], pad[1..] + v);
      SplitPadLeft(pad[1..], v);
    }
  }

  lemma {:induction false} SplitPadRight(v: Bytes, pad: Bytes)
    requires All(pad, IsSeparator)
    ensures SplitTags(v + pad) == SplitTags(v)
  {
    if pad == [] {
      assert v + pad == v;
    } else {
      assert v + pad == v + [pad[0]] + pad[1..];
      SplitTagsAt(v, pad[0], pad[1..]);
      assert pad[1..] == pad[1..] + [];
      SplitPadLeft(pad[1..], []);
      SplitNothing();
    }
  }

  // ----- a split is the one way to read a value as tags between separators -----

  /** `seps` and `tags` alternate, starting and ending with a separator run. */
  function Weave(seps: seq<Bytes>, tags: seq<Tag>): Bytes
    requires |seps| == |tags| + 1
  {
    if tags == [] then seps[0] else seps[0] + tags[0] + Weave(seps[1..], tags[1..])
  }

  /** Tags are non-empty and free of separators, and inner separator runs are not empty. */
  ghost predicate Proper(seps: seq<Bytes>, tags: seq<Tag>) {
    && |seps| == |tags| + 1
    && (forall i :: 0 <= i < |seps| ==> All(seps[i], IsSeparator))
    && (forall i :: 0 < i < |tags| ==> seps[i] != [])
    && (forall i :: 0 <= i < |tags| ==> tags[i] != [] && NoneOf(tags[i], IsSeparator))
  }

  lemma {:induction false} SplitOfWeave(seps: seq<Bytes>, tags: seq<Tag>)
    requires Proper(seps, tags)
    ensures SplitTags(Weave(seps, tags)) == tags
  {
    if tags == [] {
      assert seps[0] == seps[0] + [];
      SplitPadLeft(seps[0], []);
      SplitNothing();
    } else {
      var rest := Weave(seps[1..], tags[1..]);
      SplitOfWeave(seps[1..], tags[1..]);
      assert Weave(seps, tags) == seps[0] + (tags[0] + rest);
      SplitPadLeft(seps[0], tags[0] + rest);
      assert rest == [] || rest[0] == seps[1][0];
      TagThenRest(tags[0], rest);
    }
  }

  /** A tag in front of a value that is empty or begins with a separator. */
  lemma TagThenRest(tag: Tag, rest: Bytes)
    requires tag != [] && NoneOf(tag, IsSeparator)
    requires rest == [] || IsSeparator(rest[0])
    ensures SplitTags(tag + rest) == [tag] + SplitTags(rest)
  {
    SplitOneTag(tag);
    if rest == [] {
      assert tag + rest == tag;
      SplitNothing();
    } else {
      var c, b := rest[0], rest[1..];
      assert rest == [] + [c] + b && tag + rest == tag + [c] + b;
      SplitTagsAt([], c, b);
      SplitTagsAt(tag, c, b);
      SplitNothing();
    }
  }

  /** Where the first separator is, or the length. */
  function FirstSeparator(v: Bytes): (i: nat)
    ensures i <= |v| && NoneOf(v[..i], IsSeparator) && (i < |v| ==> IsSeparator(v[i]))
  {
    if v == [] || IsSeparator(v[0]) then 0 else 1 + FirstSeparator(v[1..])
  }

  /** A value without separators is at most one tag. */
  lemma WeaveOfOne(v: Bytes) returns (seps: seq<Bytes>)
    requires NoneOf(v, IsSeparator)
    ensures Proper(seps, SplitTags(v)) && Weave(seps, SplitTags(v)) == v
  {
    if v == [] {
      SplitNothing();
      seps := [[]];
    } else {
      SplitOneTag(v);
      seps := [[], []];
    }
  }

  /** A tag in front of a value woven with a separator first. */
  lemma WeaveWithTag(a: Tag, seps: seq<Bytes>, tags: seq<Tag>)
    requires Proper(seps, tags) && seps[0] != [] && a != [] && NoneOf(a, IsSeparator)
    ensures var all := [[]] + seps; Proper(all, [a] + tags) && Weave(all, [a] + tags) == a + Weave(seps, tags)
  {
    var all, none: Bytes := [[]] + seps, [];
    assert all[1..] == seps && ([a] + tags)[1..] == tags;
    assert none + a + Weave(seps, tags) == a + Weave(seps, tags);
  }

  /** Every value is woven from the tags it splits into. */
  lemma {:induction false} WeaveOfSplit(v: Bytes) returns (seps: seq<Bytes>)
    ensures Proper(seps, SplitTags(v)) && Weave(seps, SplitTags(v)) == v
    decreases |v|
  {
    var i := FirstSeparator(v);
    var a := v[..i];
    if i == |v| {
      assert a == v;
      seps := WeaveOfOne(v);
    } else {
      var c, b := v[i], v[i + 1..];
      assert v == a + [c] + b == a + ([c] + b);
      SplitTagsAt(a, c, b);
      var inner := WeaveOfSplit(b);
      var tags := SplitTags(b);
      seps := [[c] + inner[0]] + inner[1..];
      WeaveLed(c, inner, tags);
      if a == [] {
        SplitNothing();
        assert [] + tags == tags;
      } else {
        SplitOneTag(a);
        WeaveWithTag(a, seps, tags);
        seps := [[]] + seps;
      }
    }
  }

  lemma WeaveLed(c: byte, seps: seq<Bytes>, tags: seq<Tag>)
    requires Proper(seps, tags) && IsSeparator(c)
    ensures var led := [[c] + seps[0]] + seps[1..];
            Proper(led, tags) && led[0] != [] && Weave(led, tags) == [c] + Weave(seps, tags)
  {
    var led := [[c] + seps[0]] + seps[1..];
    assert led[1..] == seps[1..];
    if tags != [] {
      assert ([c] + seps[0]) + tags[0] + Weave(seps[1..], tags[1..])
          == [c] + (seps[0] + tags[0] + Weave(seps[1..], tags[1..]));
    }
  }

  /** The tags of a value are exactly its maximal separator-free runs, in order. */
  lemma SplitIsExact(v: Bytes, tags: seq<Tag>)
    ensures SplitTags(v) == tags <==> exists seps :: Proper(seps, tags) && Weave(seps, tags) == v
  {
    if SplitTags(v) == tags {
      var seps := WeaveOfSplit(v);
    }
    forall seps | Proper(seps, tags) && Weave(seps, tags) == v ensures SplitTags(v) == tags {
      SplitOfWeave(seps, tags);
    }
  }

  // ----- in bytes -----

  /** Tab, line feed, carriage return, space and comma separate tags... */
  lemma TheseSeparate(a: Bytes, c: byte, b: Bytes)
    requires c == 9 || c == 10 || c == 13 || c == 32 || c == 44
    ensures SplitTags(a + [c] + b) == SplitTags(a) + SplitTags(b)
  {
    SplitTagsAt(a, c, b);
  }

  /** ...and nothing else does. */
  lemma NothingElseSeparates(v: Bytes)
    requires v != [] && forall i :: 0 <= i < |v| ==> v[i] != 9 && v[i] != 10 && v[i] != 13 && v[i] != 32 && v[i] != 44
    ensures SplitTags(v) == [v]
  {
    SplitOneTag(v);
  }
}
