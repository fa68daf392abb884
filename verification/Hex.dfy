/** Cache keys as file names: lowercase hex out, either case in, and the path a key is read back from. */
module Hex {
  import opened Types

  /** "0123456789abcdef" */
  const DIGITS: Bytes := [48, 49, 50, 51, 52, 53, 54, 55, 56, 57, 97, 98, 99, 100, 101, 102]

  const DOT: byte := 46

  const HEX_LEN: nat := 2 * CACHE_KEY_LEN

  /** "." and a ten-digit serial, as appended to a temporary file. */
  const TEMP_SUFFIX_LEN: nat := 11

  function HexOf(src: Bytes): (r: Bytes)
    ensures |r| == 2 * |src|
  {
    if src == [] then [] else [DIGITS[src[0] / 16], DIGITS[src[0] % 16]] + HexOf(src[1..])
  }

  function Nibble(c: byte): (r: Option<byte>)
    ensures r.Some? ==> r.value < 16
  {
    if 48 <= c <= 57 then Some(c - 48)
    else if 97 <= c <= 102 then Some(c - 97 + 10)
    else if 65 <= c <= 70 then Some(c - 65 + 10)
    else None
  }

  /** The byte two characters spell, if both are hex digits. */
  function Pair(hi: byte, lo: byte): Option<byte> {
    if Nibble(hi).Some? && Nibble(lo).Some? then Some(Nibble(hi).value * 16 + Nibble(lo).value) else None
  }

  function ValueOf(src: Bytes): (r: Option<Bytes>)
    ensures r.Some? ==> |src| == 2 * |r.value|
  {
    if src == [] then Some([])
    else if |src| == 1 then None
    else
      var rest := ValueOf(src[2..]);
      if Pair(src[0], src[1]).Some? && rest.Some? then Some([Pair(src[0], src[1]).value] + rest.value) else None
  }

  // ----- hex_encode and hex_decode -----

  lemma HexOfCons(b: byte, rest: Bytes)
    ensures HexOf([b] + rest) == [DIGITS[b / 16], DIGITS[b % 16]] + HexOf(rest)
  {
    assert ([b] + rest)[1..] == rest;
  }

  lemma {:induction false} HexOfSnoc(src: Bytes, b: byte)
    ensures HexOf(src + [b]) == HexOf(src) + [DIGITS[b / 16], DIGITS[b % 16]]
  {
    if src == [] {
      assert [b][1..] == [];
    } else {
      var first, rest, last := src[0], src[1..], [DIGITS[b / 16], DIGITS[b % 16]];
      HexOfSnoc(rest, b);
      assert src == [first] + rest && src + [b] == [first] + (rest + [b]);
      HexOfCons(first, rest);
      HexOfCons(first, rest + [b]);
      var head := [DIGITS[first / 16], DIGITS[first % 16]];
      assert head + (HexOf(rest) + last) == head + HexOf(rest) + last;
    }
  }

  /** Writes `src` as lowercase hex, or refuses a buffer that cannot hold it. */
  method HexEncode(src: Bytes, dst: array<byte>) returns (written: Option<nat>)
    modifies dst
    ensures dst.Length < 2 * |src| ==> written == None && dst[..] == old(dst[..])
    ensures dst.Length >= 2 * |src| ==>
              written == Some(2 * |src|) && dst[..] == HexOf(src) + old(dst[2 * |src|..])
  {
    var needed := |src| * 2;
    if dst.Length < needed {
      return None;
    }
    for i := 0 to |src|
      invariant dst[..2 * i] == HexOf(src[..i])
      invariant dst[2 * i..] == old(dst[2 * i..])
    {
      HexOfSnoc(src[..i], src[i]);
      assert src[..i + 1] == src[..i] + [src[i]];
      ghost var done, last := dst[..2 * i], [DIGITS[src[i] / 16], DIGITS[src[i] % 16]];
      dst[i * 2] := DIGITS[src[i] / 16];
      dst[i * 2 + 1] := DIGITS[src[i] % 16];
      assert dst[..2 * (i + 1)] == done + last;
      assert forall j :: 2 * (i + 1) <= j < dst.Length ==> dst[j] == old(dst[2 * i..])[j - 2 * i];
    }
    assert src[..|src|] == src;
    assert dst[..] == dst[..needed] + dst[needed..];
    written := Some(needed);
  }

  lemma {:induction false} ValueOfSnoc(src: Bytes, hi: byte, lo: byte)
    requires |src| % 2 == 0
    ensures ValueOf(src + [hi, lo]) ==
            if ValueOf(src).Some? && Pair(hi, lo).Some? then Some(ValueOf(src).value + [Pair(hi, lo).value]) else None
  {
    var all := src + [hi, lo];
    if src == [] {
      assert all == [hi, lo] && all[2..] == [];
      assert ValueOf(all[2..]) == Some([]);
      assert forall b: byte :: [b] + [] == [] + [b];
    } else {
      assert all[2..] == src[2..] + [hi, lo];
      ValueOfSnoc(src[2..], hi, lo);
      if ValueOf(src).Some? && Pair(hi, lo).Some? {
        assert ValueOf(src).value == [Pair(src[0], src[1]).value] + ValueOf(src[2..]).value;
        assert ValueOf(src).value + [Pair(hi, lo).value]
            == [Pair(src[0], src[1]).value] + (ValueOf(src[2..]).value + [Pair(hi, lo).value]);
      }
    }
  }

  /** Nothing decodes once some pair does not. */
  lemma {:induction false} ValueOfBadPair(src: Bytes, i: nat)
    requires 2 * i + 1 < |src| && Pair(src[2 * i], src[2 * i + 1]).None?
    ensures ValueOf(src) == None
  {
    if i == 0 {
      assert Pair(src[0], src[1]).None?;
    } else {
      assert src[2..][2 * (i - 1)] == src[2 * i] && src[2..][2 * (i - 1) + 1] == src[2 * i + 1];
      ValueOfBadPair(src[2..], i - 1);
    }
  }

  /** Fills `dst` from hex of exactly twice its length; a failure may leave it partly written. */
  method HexDecode(src: Bytes, dst: array<byte>) returns (ok: bool)
    modifies dst
    ensures ok <==> |src| == 2 * dst.Length && ValueOf(src).Some?
    ensures ok ==> Some(dst[..]) == ValueOf(src)
    ensures |src| != 2 * dst.Length ==> dst[..] == old(dst[..])
  {
    if |src| != dst.Length * 2 {
      return false;
    }
    for i := 0 to dst.Length
      invariant ValueOf(src[..2 * i]) == Some(dst[..i])
    {
      assert src[..2 * (i + 1)] == src[..2 * i] + [src[2 * i], src[2 * i + 1]];
      ValueOfSnoc(src[..2 * i], src[2 * i], src[2 * i + 1]);
      var hi, lo := Nibble(src[i * 2]), Nibble(src[i * 2 + 1]);
      if hi.None? || lo.None? {
        ValueOfBadPair(src, i);
        return false;
      }
      dst[i] := hi.value * 16 + lo.value;
      assert dst[..i + 1] == dst[..i] + [dst[i]];
    }
    assert src[..|src|] == src;
    assert dst[..dst.Length] == dst[..];
    ok := true;
  }

  // ----- round trips -----

  lemma DigitNibble(n: nat)
    requires n < 16
    ensures Nibble(DIGITS[n]) == Some(n)
  {
  }

  lemma DigitsPair(b: byte)
    ensures Pair(DIGITS[b / 16], DIGITS[b % 16]) == Some(b)
  {
    DigitNibble(b / 16);
    DigitNibble(b % 16);
  }

  lemma {:induction false} DecodeEncoded(src: Bytes)
    ensures ValueOf(HexOf(src)) == Some(src)
  {
    if src != [] {
      var hex, rest := HexOf(src), HexOf(src[1..]);
      assert hex == [DIGITS[src[0] / 16], DIGITS[src[0] % 16]] + rest;
      assert hex[2..] == rest;
      DigitsPair(src[0]);
      DecodeEncoded(src[1..]);
      assert src == [src[0]] + src[1..];
    }
  }

  lemma PairDigits(hi: byte, lo: byte)
    requires Pair(hi, lo).Some?
    ensures var b := Pair(hi, lo).value; DIGITS[b / 16] == Lower(hi) && DIGITS[b % 16] == Lower(lo)
  {
    NibbleDigit(hi);
    NibbleDigit(lo);
    var h, l, b := Nibble(hi).value, Nibble(lo).value, Pair(hi, lo).value;
    assert b == h * 16 + l && b / 16 == h && b % 16 == l;
  }

  lemma NibbleDigit(c: byte)
    ensures Nibble(c).Some? ==> DIGITS[Nibble(c).value] == Lower(c)
  {
  }

  lemma {:induction false} EncodeDecoded(src: Bytes)
    requires ValueOf(src).Some?
    ensures HexOf(ValueOf(src).value) == LowerAll(src)
  {
    if src != [] {
      var b, rest := Pair(src[0], src[1]).value, ValueOf(src[2..]).value;
      assert ValueOf(src).value == [b] + rest;
      EncodeDecoded(src[2..]);
      PairDigits(src[0], src[1]);
      HexOfCons(b, rest);
      LowerAllOfTwo(src);
    }
  }

  lemma LowerAllOfTwo(src: Bytes)
    requires |src| >= 2
    ensures LowerAll(src) == [Lower(src[0]), Lower(src[1])] + LowerAll(src[2..])
  {
    assert src[1..][1..] == src[2..];
  }

  // ----- key_from_path -----

  /** The key a cache file is named after; a name with a temporary suffix is skipped. */
  method KeyFromPath(path: Bytes) returns (r: Option<CacheKey>)
    ensures r == KeyOf(path)
  {
    var n := |path|;
    if n < HEX_LEN {
      return None;
    }
    if n >= HEX_LEN + TEMP_SUFFIX_LEN && path[n - TEMP_SUFFIX_LEN] == DOT {
      DottedNameHasNoKey(path);
      return None;
    }
    var key := new byte[CACHE_KEY_LEN](_ => 0);
    var ok := HexDecode(path[n - HEX_LEN..], key);
    r := if ok then Some(key[..]) else None;
  }

  /** The key spelt by the last characters of a path: what `KeyFromPath` amounts to. */
  function KeyOf(path: Bytes): Option<CacheKey> {
    if |path| < HEX_LEN then None
    else
      match ValueOf(path[|path| - HEX_LEN..])
      case None => None
      case Some(key) => Some(key)
  }

  /** The test for a temporary suffix changes no answer: that dot lies where a hex digit must. */
  lemma DottedNameHasNoKey(path: Bytes)
    requires |path| >= HEX_LEN && path[|path| - TEMP_SUFFIX_LEN] == DOT
    ensures KeyOf(path) == None
  {
    var name := path[|path| - HEX_LEN..];
    var at := HEX_LEN - TEMP_SUFFIX_LEN;
    assert name[at] == DOT;
    assert at == 2 * 10 + 1;
    ValueOfBadPair(name, 10);
  }

  /** A path names `key` exactly when it ends in that key's hex, in either case. */
  lemma PathNamesKey(path: Bytes, key: CacheKey)
    ensures KeyOf(path) == Some(key) <==>
            |path| >= HEX_LEN && LowerAll(path[|path| - HEX_LEN..]) == HexOf(key)
  {
    if |path| >= HEX_LEN {
      var name := path[|path| - HEX_LEN..];
      if ValueOf(name).Some? {
        EncodeDecoded(name);
        DecodeEncoded(key);
        DecodeEncoded(ValueOf(name).value);
      } else if LowerAll(name) == HexOf(key) {
        LoweredStillDecodes(name);
        DecodeEncoded(key);
      }
    }
  }

  lemma {:induction false} LoweredStillDecodes(src: Bytes)
    ensures ValueOf(LowerAll(src)) == ValueOf(src)
  {
    if |src| >= 2 {
      assert LowerAll(src)[2..] == LowerAll(src[2..]);
      LoweredStillDecodes(src[2..]);
    }
  }

  lemma KeyOfOwnPath(prefix: Bytes, key: CacheKey)
    ensures KeyOf(prefix + HexOf(key)) == Some(key)
  {
    var path := prefix + HexOf(key);
    assert path[|path| - HEX_LEN..] == HexOf(key);
    DecodeEncoded(key);
  }

  // ----- in characters -----

  /** Each byte is written as its high digit and then its low one, "0" to "9" and "a" to "f". */
  lemma {:induction false} HexOfAt(src: Bytes, i: nat)
    requires i < |src|
    ensures var high, low := src[i] / 16, src[i] % 16;
            && HexOf(src)[2 * i] == (if high < 10 then 48 + high else 87 + high)
            && HexOf(src)[2 * i + 1] == (if low < 10 then 48 + low else 87 + low)
  {
    if i == 0 {
      DigitAt(src[0] / 16);
      DigitAt(src[0] % 16);
    } else {
      HexOfAt(src[1..], i - 1);
    }
  }

  lemma DigitAt(n: nat)
    requires n < 16
    ensures DIGITS[n] == if n < 10 then 48 + n else 87 + n
  {
  }

  /** Exactly an even number of characters "0" to "9", "a" to "f" and "A" to "F" decodes. */
  lemma {:induction false} DecodesIff(src: Bytes)
    ensures ValueOf(src).Some? <==>
            && |src| % 2 == 0
            && forall i :: 0 <= i < |src| ==> 48 <= src[i] <= 57 || 65 <= src[i] <= 70 || 97 <= src[i] <= 102
  {
    if |src| >= 2 {
      DecodesIff(src[2..]);
      assert src == [src[0], src[1]] + src[2..];
    }
  }

  /** A path has a key exactly if it is at least 32 characters long and the last 32 are hex digits. */
  lemma HasKeyIff(path: Bytes)
    ensures KeyOf(path).Some? <==>
            && |path| >= 32
            && forall i :: |path| - 32 <= i < |path| ==>
                 48 <= path[i] <= 57 || 65 <= path[i] <= 70 || 97 <= path[i] <= 102
  {
    if |path| >= 32 {
      var name := path[|path| - 32..];
      DecodesIff(name);
      assert forall i :: 0 <= i < 32 ==> name[i] == path[|path| - 32 + i];
      assert forall i :: |path| - 32 <= i < |path| ==> path[i] == name[i - (|path| - 32)];
    }
  }
}
