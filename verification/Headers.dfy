/** Reading a tag header back out of a stored response header block. */
module Headers {
  import opened Types
  import opened Tags

  // ----- trim -----

  ghost predicate Trimmed(v: Bytes, left: Bytes, core: Bytes, right: Bytes) {
    && v == left + core + right
    && All(left, IsWhitespace)
    && All(right, IsWhitespace)
    && (core != [] ==> !IsWhitespace(core[0]) && !IsWhitespace(core[|core| - 1]))
    && (core == [] ==> right == [])
  }

  function LeadLen(v: Bytes): (n: nat)
    ensures n <= |v| && (n < |v| ==> !IsWhitespace(v[n]))
    ensures forall i :: 0 <= i < n ==> IsWhitespace(v[i])
  {
    if v == [] || !IsWhitespace(v[0]) then 0 else 1 + LeadLen(v[1..])
  }

  /** The length left once trailing whitespace is gone. */
  function KeptLen(v: Bytes): (n: nat)
    ensures n <= |v| && (n > 0 ==> !IsWhitespace(v[n - 1]))
    ensures forall i :: n <= i < |v| ==> IsWhitespace(v[i])
  {
    if v == [] || !IsWhitespace(v[|v| - 1]) then |v| else KeptLen(v[..|v| - 1])
  }

  function TrimStart(v: Bytes): Bytes {
    v[LeadLen(v)..]
  }

  function Trim(v: Bytes): Bytes {
    var s := TrimStart(v);
    s[..KeptLen(s)]
  }

  function TrimmedLeft(v: Bytes): Bytes {
    v[..LeadLen(v)]
  }

  function TrimmedRight(v: Bytes): Bytes {
    TrimStart(v)[KeptLen(TrimStart(v))..]
  }

  /** `s` with ASCII whitespace taken off both ends, one byte at a time. */
  method TrimInPlace(v: Bytes) returns (s: Bytes)
    ensures s == Trim(v)
  {
    s := v;
    while s != [] && IsWhitespace(s[0])
      invariant TrimStart(s) == TrimStart(v)
      decreases |s|
    {
      assert TrimStart(s) == TrimStart(s[1..]);
      s := s[1..];
    }
    assert s == TrimStart(v);
    while s != [] && IsWhitespace(s[|s| - 1])
      invariant s[..KeptLen(s)] == Trim(v)
      decreases |s|
    {
      s := s[..|s| - 1];
    }
    assert s[..|s|] == s;
  }

  lemma TrimParts(v: Bytes)
    ensures Trimmed(v, TrimmedLeft(v), Trim(v), TrimmedRight(v))
  {
    var s := TrimStart(v);
    assert v == TrimmedLeft(v) + s && s == Trim(v) + TrimmedRight(v);
    assert TrimmedLeft(v) + s == TrimmedLeft(v) + Trim(v) + TrimmedRight(v);
    assert s != [] ==> KeptLen(s) > 0;
  }

  lemma LeadLenIs(v: Bytes, n: nat)
    requires n <= |v| && (n < |v| ==> !IsWhitespace(v[n])) && forall i :: 0 <= i < n ==> IsWhitespace(v[i])
    ensures LeadLen(v) == n
  {
  }

  lemma KeptLenIs(v: Bytes, n: nat)
    requires n <= |v| && (n > 0 ==> !IsWhitespace(v[n - 1])) && forall i :: n <= i < |v| ==> IsWhitespace(v[i])
    ensures KeptLen(v) == n
  {
  }

  /** There is one way to trim. */
  lemma TrimUnique(v: Bytes, left: Bytes, core: Bytes, right: Bytes)
    requires Trimmed(v, left, core, right)
    ensures Trim(v) == core && TrimmedLeft(v) == left && TrimmedRight(v) == right
  {
    var s := core + right;
    assert v == left + s;
    LeadLenIs(v, |left|);
    assert TrimStart(v) == s;
    forall k | |core| <= k < |s| ensures IsWhitespace(s[k]) { assert s[k] == right[k - |core|]; }
    KeptLenIs(s, |core|);
  }

  // ----- find_header -----

  function ColonAt(line: Bytes): (i: nat)
    ensures i <= |line|
    ensures forall j :: 0 <= j < i ==> line[j] != COLON
    ensures i < |line| ==> line[i] == COLON
  {
    if line == [] || line[0] == COLON then 0 else 1 + ColonAt(line[1..])
  }

  predicate IsLineFeed(c: byte) {
    c == LF
  }

  /** The trimmed value a line gives for header `name`, if it is a line of that header. */
  function LineValue(raw: Bytes, name: Bytes): Option<Bytes> {
    var line := Trim(raw);
    var colon := ColonAt(line);
    if colon < |line| && EqIgnoreCase(line[..colon], name) then Some(Trim(line[colon + 1..])) else None
  }

  function FirstMatch(lines: seq<Bytes>, name: Bytes): Option<Bytes> {
    if lines == [] then None
    else if LineValue(lines[0], name).Some? then LineValue(lines[0], name)
    else FirstMatch(lines[1..], name)
  }

  function FindHeader(block: Bytes, name: Bytes): Option<Bytes> {
    FirstMatch(SplitOn(block, IsLineFeed), name)
  }

  predicate BlockHasTag(block: Bytes, name: Bytes, tag: Tag) {
    match FindHeader(block, name)
    case Some(value) => tag in SplitTags(value)
    case None => false
  }

  // ----- a stored block and the live headers it was written from -----

  datatype Header = Header(name: Bytes, value: Bytes)

  /** The value `record` reads: that of the first header whose name matches. */
  function LiveValue(headers: seq<Header>, name: Bytes): Option<Bytes> {
    if headers == [] then None
    else if EqIgnoreCase(headers[0].name, name) then Some(headers[0].value)
    else LiveValue(headers[1..], name)
  }

  /** A field name: not empty, no colon, no whitespace. */
  predicate IsFieldName(name: Bytes) {
    name != [] && forall c :: c in name ==> c != COLON && !IsWhitespace(c)
  }

  /** A status line opens with a version and a space, none of it a colon. */
  ghost predicate IsStatusLine(line: Bytes) {
    && NoneOf(line, IsLineFeed)
    && exists sp :: 0 < sp < |line| && line[sp] == SP && forall j :: 0 <= j < sp ==> line[j] != COLON && !IsWhitespace(line[j])
  }

  predicate IsLineEnd(eol: Bytes) {
    eol == [CR, LF] || eol == [LF]
  }

  function HeaderLine(h: Header): Bytes {
    h.name + [COLON, SP] + h.value
  }

  function RenderHeaders(headers: seq<Header>, eol: Bytes): Bytes {
    if headers == [] then eol else HeaderLine(headers[0]) + eol + RenderHeaders(headers[1..], eol)
  }

  /** The block NGINX stores: a status line, the headers and a blank line. */
  function Render(status: Bytes, headers: seq<Header>, eol: Bytes): Bytes {
    status + eol + RenderHeaders(headers, eol)
  }

  ghost predicate WellFormedHeaders(headers: seq<Header>) {
    forall h :: h in headers ==> IsFieldName(h.name) && NoneOf(h.value, IsLineFeed)
  }

  /** Peeling one line, ended either way, off a block. */
  lemma PeelLine(line: Bytes, eol: Bytes, rest: Bytes, name: Bytes)
    requires NoneOf(line, IsLineFeed) && IsLineEnd(eol)
    ensures FindHeader(line + eol + rest, name) ==
            var v := LineValue(line + eol[..|eol| - 1], name);
            if v.Some? then v else FindHeader(rest, name)
  {
    var raw := line + eol[..|eol| - 1];
    assert eol == eol[..|eol| - 1] + [LF];
    assert line + eol + rest == raw + [LF] + rest;
    SplitOnAt(raw, LF, rest, IsLineFeed);
    SplitOnNothing(raw, IsLineFeed);
    var lines := SplitOn(rest, IsLineFeed);
    assert ([raw] + lines)[1..] == lines;
  }

  lemma TrimPadRight(v: Bytes, pad: Bytes)
    requires All(pad, IsWhitespace)
    ensures Trim(v + pad) == Trim(v)
  {
    TrimParts(v);
    var left, core, right := TrimmedLeft(v), Trim(v), TrimmedRight(v);
    if core == [] {
      assert v + pad == (left + pad) + [] + [];
      TrimUnique(v + pad, left + pad, [], []);
    } else {
      assert v + pad == left + core + (right + pad);
      TrimUnique(v + pad, left, core, right + pad);
    }
  }

  lemma TrimPadLeft(pad: Bytes, v: Bytes)
    requires All(pad, IsWhitespace)
    ensures Trim(pad + v) == Trim(v)
  {
    TrimParts(v);
    var left, core, right := TrimmedLeft(v), Trim(v), TrimmedRight(v);
    assert pad + v == (pad + left) + core + right;
    TrimUnique(pad + v, pad + left, core, right);
  }

  lemma ColonAfterName(name: Bytes, rest: Bytes)
    requires IsFieldName(name)
    ensures ColonAt(name + [COLON] + rest) == |name|
  {
    var line := name + [COLON] + rest;
    assert line[|name|] == COLON;
    assert forall j :: 0 <= j < |name| ==> line[j] == name[j] && name[j] in name;
  }

  /** What trimming leaves of a rendered header line. */
  lemma HeaderLineTrims(h: Header, cr: Bytes) returns (kept: Bytes)
    requires IsFieldName(h.name) && All(cr, IsWhitespace)
    ensures Trim(HeaderLine(h) + cr) == h.name + [COLON] + kept
    ensures Trim(kept) == Trim(h.value)
  {
    var after := [SP] + h.value;
    kept := after[..KeptLen(after)];
    RawLineTrims(h.name, h.value, cr);
    TrimKept(after);
    TrimPadLeft([SP], h.value);
  }

  lemma RawLineTrims(name: Bytes, value: Bytes, cr: Bytes)
    requires IsFieldName(name) && All(cr, IsWhitespace)
    ensures var after := [SP] + value;
            Trim(name + [COLON, SP] + value + cr) == name + [COLON] + after[..KeptLen(after)]
  {
    var line := name + [COLON, SP] + value;
    assert line == name + [COLON] + ([SP] + value);
    TrimPadRight(line, cr);
    assert name[0] in name;
    TrimLine(name, [SP] + value);
  }

  lemma TrimKept(v: Bytes)
    ensures Trim(v[..KeptLen(v)]) == Trim(v)
  {
    var kept, pad := v[..KeptLen(v)], v[KeptLen(v)..];
    assert v == kept + pad;
    TrimPadRight(kept, pad);
  }

  /** A rendered header line gives its trimmed value to its own name and nothing to others. */
  lemma HeaderLineValue(h: Header, cr: Bytes, name: Bytes)
    requires IsFieldName(h.name) && All(cr, IsWhitespace)
    ensures LineValue(HeaderLine(h) + cr, name) ==
            if EqIgnoreCase(h.name, name) then Some(Trim(h.value)) else None
  {
    var kept := HeaderLineTrims(h, cr);
    NamedLine(h.name, kept);
  }

  lemma NamedLine(own: Bytes, kept: Bytes)
    requires IsFieldName(own)
    ensures var line := own + [COLON] + kept;
            var colon := ColonAt(line);
            colon < |line| && line[..colon] == own && line[colon + 1..] == kept
  {
    ColonAfterName(own, kept);
  }

  lemma TrimLine(name: Bytes, after: Bytes)
    requires name == [] || !IsWhitespace(name[0])
    ensures Trim(name + [COLON] + after) == name + [COLON] + after[..KeptLen(after)]
  {
    var kept, right := after[..KeptLen(after)], after[KeptLen(after)..];
    var core := name + [COLON] + kept;
    assert core[0] == if name == [] then COLON else name[0];
    assert core[|core| - 1] == if kept == [] then COLON else kept[|kept| - 1];
    assert after == kept + right;
    assert name + [COLON] + after == [] + core + right;
    TrimUnique(name + [COLON] + after, [], core, right);
  }

  /** No field name matches a status line. */
  lemma StatusLineValue(status: Bytes, cr: Bytes, name: Bytes)
    requires IsStatusLine(status) && All(cr, IsWhitespace) && IsFieldName(name)
    ensures LineValue(status + cr, name) == None
  {
    TrimPadRight(status, cr);
    var line := Trim(status);
    var sp :| 0 < sp < |status| && status[sp] == SP && forall j :: 0 <= j < sp ==> status[j] != COLON && !IsWhitespace(status[j]);
    assert LeadLen(status) == 0 && TrimStart(status) == status;
    assert line == status[..|line|];
    var colon := ColonAt(line);
    if colon < |line| {
      assert status[colon] == COLON;
      assert sp < colon;
      DifferAt(line[..colon], name, sp);
    }
  }

  lemma DifferAt(a: Bytes, name: Bytes, i: nat)
    requires i < |a| && a[i] == SP && IsFieldName(name)
    ensures !EqIgnoreCase(a, name)
  {
    assert LowerAll(a)[i] == SP;
    forall j | 0 <= j < |name| ensures LowerAll(name)[j] != SP {
      assert name[j] in name && LowerAll(name)[j] == Lower(name[j]);
    }
  }

  /** The blank line that ends a block holds no header. */
  lemma FindInBlank(eol: Bytes, name: Bytes)
    requires IsLineEnd(eol)
    ensures FindHeader(eol, name) == None
  {
    assert eol == [] + eol + [] && [] + eol[..|eol| - 1] == eol[..|eol| - 1];
    PeelLine([], eol, [], name);
    BlankLine(eol[..|eol| - 1], name);
    BlankLine([], name);
    var one: seq<Bytes> := [[]];
    assert SplitOn([], IsLineFeed) == one;
    assert FirstMatch(one, name) == FirstMatch(one[1..], name);
  }

  lemma FindPastHeader(h: Header, eol: Bytes, rest: Bytes, name: Bytes)
    requires IsFieldName(h.name) && NoneOf(h.value, IsLineFeed) && IsLineEnd(eol)
    ensures FindHeader(HeaderLine(h) + eol + rest, name) ==
            if EqIgnoreCase(h.name, name) then Some(Trim(h.value)) else FindHeader(rest, name)
  {
    assert forall i :: 0 <= i < |h.name| ==> h.name[i] in h.name;
    PeelLine(HeaderLine(h), eol, rest, name);
    HeaderLineValue(h, eol[..|eol| - 1], name);
  }

  lemma {:induction false} FindInHeaders(headers: seq<Header>, eol: Bytes, name: Bytes)
    requires WellFormedHeaders(headers) && IsLineEnd(eol)
    ensures FindHeader(RenderHeaders(headers, eol), name) ==
            match LiveValue(headers, name) case Some(v) => Some(Trim(v)) case None => None
  {
    if headers == [] {
      FindInBlank(eol, name);
    } else {
      FindPastHeader(headers[0], eol, RenderHeaders(headers[1..], eol), name);
      FindInHeaders(headers[1..], eol, name);
    }
  }

  lemma BlankLine(line: Bytes, name: Bytes)
    requires All(line, IsWhitespace)
    ensures LineValue(line, name) == None
  {
    assert line == line + [] + [];
    TrimUnique(line, line, [], []);
  }

  /** Looking a header up in the stored block gives the trimmed form of what the live lookup gave. */
  lemma StoredMatchesLive(status: Bytes, headers: seq<Header>, eol: Bytes, name: Bytes)
    requires IsStatusLine(status) && WellFormedHeaders(headers) && IsLineEnd(eol) && IsFieldName(name)
    ensures FindHeader(Render(status, headers, eol), name) ==
            match LiveValue(headers, name) case Some(v) => Some(Trim(v)) case None => None
  {
    PeelLine(status, eol, RenderHeaders(headers, eol), name);
    StatusLineValue(status, eol[..|eol| - 1], name);
    FindInHeaders(headers, eol, name);
  }

  // ----- in bytes -----

  /** What is trimmed off is tabs, line feeds, form feeds, carriage returns and spaces, and all there are of them. */
  lemma TrimInBytes(v: Bytes) returns (left: Bytes, right: Bytes)
    ensures v == left + Trim(v) + right
    ensures forall c :: c in left || c in right ==> c == 9 || c == 10 || c == 12 || c == 13 || c == 32
    ensures Trim(v) != [] ==>
              var first, last := Trim(v)[0], Trim(v)[|Trim(v)| - 1];
              && first != 9 && first != 10 && first != 12 && first != 13 && first != 32
              && last != 9 && last != 10 && last != 12 && last != 13 && last != 32
  {
    left, right := TrimmedLeft(v), TrimmedRight(v);
    TrimParts(v);
  }

  /** The value read live is that of the first header with the name, if there is one. */
  lemma {:induction false} LiveValueIsFirst(headers: seq<Header>, name: Bytes) returns (i: nat)
    ensures i <= |headers| && forall j :: 0 <= j < i ==> !EqIgnoreCase(headers[j].name, name)
    ensures if i == |headers| then LiveValue(headers, name) == None
            else EqIgnoreCase(headers[i].name, name) && LiveValue(headers, name) == Some(headers[i].value)
  {
    if headers == [] || EqIgnoreCase(headers[0].name, name) {
      i := 0;
    } else {
      i := LiveValueIsFirst(headers[1..], name);
      i := i + 1;
    }
  }

  /** A line is cut at its first colon, once it is trimmed. */
  lemma LineIsCut(pre: Bytes, found: Bytes, after: Bytes, name: Bytes)
    requires All(pre, IsWhitespace) && 58 !in found && (found == [] || !IsWhitespace(found[0]))
    ensures LineValue(pre + found + [58] + after, name) == if EqIgnoreCase(found, name) then Some(Trim(after)) else None
  {
    var kept := after[..KeptLen(after)];
    CutTrims(pre, found, after);
    var line := found + [58] + kept;
    assert line[|found|] == 58;
    forall j | 0 <= j < |found| ensures line[j] != COLON { assert line[j] == found[j] && found[j] in found; }
    assert ColonAt(line) == |found| && line[..|found|] == found && line[|found| + 1..] == kept;
    TrimKept(after);
  }

  lemma CutTrims(pre: Bytes, found: Bytes, after: Bytes)
    requires All(pre, IsWhitespace) && (found == [] || !IsWhitespace(found[0]))
    ensures Trim(pre + found + [58] + after) == found + [58] + after[..KeptLen(after)]
  {
    assert pre + found + [58] + after == pre + (found + [58] + after);
    TrimPadLeft(pre, found + [58] + after);
    TrimLine(found, after);
  }

  lemma NoColonNoValue(line: Bytes, name: Bytes)
    requires 58 !in line
    ensures LineValue(line, name) == None
  {
    var trimmed := Trim(line);
    TrimParts(line);
    forall i | 0 <= i < |trimmed| ensures trimmed[i] != COLON {
      assert line[|TrimmedLeft(line)| + i] == trimmed[i];
      assert trimmed[i] in line;
    }
  }

  /**
   Line by line: a block's first line, up to its line feed, gives the value after its first colon if what
   precedes the colon, but for leading whitespace, is the name; any other line is passed over.
   */
  lemma FirstLineDecides(pre: Bytes, found: Bytes, after: Bytes, rest: Bytes, name: Bytes)
    requires forall c :: c in pre ==> c == 9 || c == 12 || c == 13 || c == 32
    requires 58 !in found && 10 !in found && 10 !in after
    requires found != [] ==> found[0] != 9 && found[0] != 12 && found[0] != 13 && found[0] != 32
    ensures FindHeader(pre + found + [58] + after + [10] + rest, name) ==
            if EqIgnoreCase(found, name) then Some(Trim(after)) else FindHeader(rest, name)
    ensures FindHeader(pre + found + [58] + after, name) == if EqIgnoreCase(found, name) then Some(Trim(after)) else None
    ensures FindHeader(pre + found + [10] + rest, name) == FindHeader(rest, name)
    ensures FindHeader(pre + found, name) == None
  {
    forall i | 0 <= i < |pre| ensures IsWhitespace(pre[i]) && !IsLineFeed(pre[i]) && pre[i] != 58 { assert pre[i] in pre; }
    forall i | 0 <= i < |found| ensures !IsLineFeed(found[i]) && found[i] != 58 { assert found[i] in found; }
    forall i | 0 <= i < |after| ensures !IsLineFeed(after[i]) { assert after[i] in after; }
    var line, bare := pre + found + [58] + after, pre + found;
    LineIsCut(pre, found, after, name);
    NoColonNoValue(bare, name);
    OneLine(line, rest, name);
    OneLine(bare, rest, name);
  }

  /** A line in front of others, and a line on its own. */
  lemma OneLine(line: Bytes, rest: Bytes, name: Bytes)
    requires NoneOf(line, IsLineFeed)
    ensures FindHeader(line + [10] + rest, name) ==
            if LineValue(line, name).Some? then LineValue(line, name) else FindHeader(rest, name)
    ensures FindHeader(line, name) == LineValue(line, name)
  {
    PeelLine(line, [LF], rest, name);
    assert line + [LF][..0] == line;
    SplitOnNothing(line, IsLineFeed);
    assert FirstMatch([line], name) ==
           if LineValue(line, name).Some? then LineValue(line, name) else FirstMatch([line][1..], name);
  }

  // ----- the same tags, unless a form feed is trimmed -----

  function FormFeeds(v: Bytes): nat {
    if v == [] then 0 else (if v[0] == FF then 1 else 0) + FormFeeds(v[1..])
  }

  function FormFeedsIn(tags: seq<Bytes>): nat {
    if tags == [] then 0 else FormFeeds(tags[0]) + FormFeedsIn(tags[1..])
  }

  lemma {:induction false} FormFeedsConcat(a: Bytes, b: Bytes)
    ensures FormFeeds(a + b) == FormFeeds(a) + FormFeeds(b)
  {
    if a == [] {
      assert a + b == b;
    } else {
      assert (a + b)[1..] == a[1..] + b;
      FormFeedsConcat(a[1..], b);
    }
  }

  lemma {:induction false} NoFormFeeds(v: Bytes)
    ensures FormFeeds(v) == 0 <==> FF !in v
  {
    if v != [] {
      NoFormFeeds(v[1..]);
      assert v == [v[0]] + v[1..];
    }
  }

  /** No form feed is lost by splitting: it is whitespace, but it separates nothing. */
  lemma {:induction false} SplitKeepsFormFeeds(v: Bytes)
    ensures FormFeedsIn(SplitTags(v)) == FormFeeds(v)
  {
    PiecesKeepFormFeeds(v);
    NonEmptyKeepsFormFeeds(SplitOn(v, IsSeparator));
  }

  lemma {:induction false} PiecesKeepFormFeeds(v: Bytes)
    ensures FormFeedsIn(SplitOn(v, IsSeparator)) == FormFeeds(v)
  {
    if v == [] {
      var one: seq<Bytes> := [[]];
      assert SplitOn(v, IsSeparator) == one;
      assert FormFeedsIn(one) == FormFeeds([]) + FormFeedsIn(one[1..]);
    } else {
      PiecesKeepFormFeeds(v[1..]);
      var rest := SplitOn(v[1..], IsSeparator);
      if IsSeparator(v[0]) {
        assert ([[]] + rest)[1..] == rest;
      } else {
        var grown := [[v[0]] + rest[0]] + rest[1..];
        assert grown[1..] == rest[1..];
        FormFeedsConcat([v[0]], rest[0]);
        assert [v[0]][1..] == [];
      }
    }
  }

  lemma {:induction false} NonEmptyKeepsFormFeeds(pieces: seq<Bytes>)
    ensures FormFeedsIn(NonEmpty(pieces)) == FormFeedsIn(pieces)
  {
    if pieces != [] {
      NonEmptyKeepsFormFeeds(pieces[1..]);
      var rest := NonEmpty(pieces[1..]);
      if pieces[0] != [] {
        assert ([pieces[0]] + rest)[1..] == rest;
      } else {
        assert [] + rest == rest;
      }
    }
  }

  /** Trimming a value changes its tags exactly when a form feed is trimmed off. */
  lemma TrimKeepsTagsIff(v: Bytes)
    ensures SplitTags(Trim(v)) == SplitTags(v) <==> FF !in TrimmedLeft(v) && FF !in TrimmedRight(v)
  {
    TrimParts(v);
    if FF !in TrimmedLeft(v) && FF !in TrimmedRight(v) {
      PaddingSplitsAway(TrimmedLeft(v), Trim(v), TrimmedRight(v));
    } else {
      PaddingLosesFormFeeds(TrimmedLeft(v), Trim(v), TrimmedRight(v));
    }
  }

  lemma PaddingSplitsAway(left: Bytes, core: Bytes, right: Bytes)
    requires All(left, IsWhitespace) && All(right, IsWhitespace) && FF !in left && FF !in right
    ensures SplitTags(left + core + right) == SplitTags(core)
  {
    assert forall i :: 0 <= i < |left| ==> left[i] in left && IsSeparator(left[i]);
    assert forall i :: 0 <= i < |right| ==> right[i] in right && IsSeparator(right[i]);
    SplitPadLeft(left, core);
    SplitPadRight(left + core, right);
  }

  lemma PaddingLosesFormFeeds(left: Bytes, core: Bytes, right: Bytes)
    requires FF in left || FF in right
    ensures SplitTags(left + core + right) != SplitTags(core)
  {
    SplitKeepsFormFeeds(left + core + right);
    SplitKeepsFormFeeds(core);
    FormFeedsConcat(left + core, right);
    FormFeedsConcat(left, core);
    NoFormFeeds(left);
    NoFormFeeds(right);
  }

  /**
   A scan of the stored block sees the tags that recording saw in the live headers, exactly when
   trimming takes no form feed off the value.
   */
  lemma ScanSeesRecordedTags(status: Bytes, headers: seq<Header>, eol: Bytes, name: Bytes)
    requires IsStatusLine(status) && WellFormedHeaders(headers) && IsLineEnd(eol) && IsFieldName(name)
    requires LiveValue(headers, name).Some?
    ensures var v := LiveValue(headers, name).value;
            var stored := FindHeader(Render(status, headers, eol), name);
            && stored.Some?
            && (SplitTags(stored.value) == SplitTags(v) <==> FF !in TrimmedLeft(v) && FF !in TrimmedRight(v))
  {
    StoredMatchesLive(status, headers, eol, name);
    TrimKeepsTagsIff(LiveValue(headers, name).value);
  }

  /** A lone form feed is recorded as a tag, but no scan finds it. */
  lemma FormFeedTagIsLost()
    ensures SplitTags([FF]) == [[FF]] && SplitTags(Trim([FF])) == []
  {
    SplitOneTag([FF]);
    assert [FF] == [FF] + [] + [];
    TrimUnique([FF], [FF], [], []);
    SplitNothing();
  }
}
