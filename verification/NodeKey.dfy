/** How a cache key is ordered in NGINX's cache tree: a native-endian word, then the remaining bytes. */
module NodeKey {
  import opened Types

  /** Pointer width in bytes and byte order of the host. */
  datatype Arch = Arch(width: nat, bigEndian: bool) {
    predicate Valid() {
      width == 4 || width == 8
    }
  }

  function LittleEndian(b: Bytes): nat {
    if b == [] then 0 else b[0] + 256 * LittleEndian(b[1..])
  }

  function BigEndian(b: Bytes): nat {
    if b == [] then 0 else 256 * BigEndian(b[..|b| - 1]) + b[|b| - 1]
  }

  /** The leading bytes of the key, read as the host reads an integer. */
  function WordOf(arch: Arch, key: CacheKey): nat
    requires arch.Valid()
  {
    if arch.bigEndian then BigEndian(key[..arch.width]) else LittleEndian(key[..arch.width])
  }

  function RestOf(arch: Arch, key: CacheKey): Bytes
    requires arch.Valid()
  {
    key[arch.width..]
  }

  /** Bytewise, shorter first. */
  predicate Less(a: Bytes, b: Bytes) {
    b != [] && (a == [] || a[0] < b[0] || (a[0] == b[0] && Less(a[1..], b[1..])))
  }

  /** The order of the cache tree. */
  predicate NodeLess(arch: Arch, a: CacheKey, b: CacheKey)
    requires arch.Valid()
  {
    || WordOf(arch, a) < WordOf(arch, b)
    || (WordOf(arch, a) == WordOf(arch, b) && Less(RestOf(arch, a), RestOf(arch, b)))
  }

  // ----- a strict total order in which only equal keys tie -----

  lemma {:induction false} LittleEndianInjective(a: Bytes, b: Bytes)
    requires |a| == |b| && LittleEndian(a) == LittleEndian(b)
    ensures a == b
  {
    if a != [] {
      LittleEndianInjective(a[1..], b[1..]);
      assert a == [a[0]] + a[1..] && b == [b[0]] + b[1..];
    }
  }

  lemma {:induction false} BigEndianInjective(a: Bytes, b: Bytes)
    requires |a| == |b| && BigEndian(a) == BigEndian(b)
    ensures a == b
  {
    if a != [] {
      var n := |a| - 1;
      BigEndianInjective(a[..n], b[..n]);
      assert a == a[..n] + [a[n]] && b == b[..n] + [b[n]];
    }
  }

  lemma {:induction false} LessTotal(a: Bytes, b: Bytes)
    ensures Less(a, b) || Less(b, a) || a == b
    ensures !(Less(a, b) && Less(b, a))
    ensures !Less(a, a)
  {
    if a != [] {
      LessTotal(a[1..], a[1..]);
      if b != [] {
        LessTotal(a[1..], b[1..]);
        assert a == [a[0]] + a[1..] && b == [b[0]] + b[1..];
      }
    }
  }

  lemma {:induction false} LessTransitive(a: Bytes, b: Bytes, c: Bytes)
    requires Less(a, b) && Less(b, c)
    ensures Less(a, c)
  {
    if a != [] && a[0] == b[0] == c[0] { LessTransitive(a[1..], b[1..], c[1..]); }
  }

  /** Word and remainder together determine the key. */
  lemma NodeKeyDetermines(arch: Arch, a: CacheKey, b: CacheKey)
    requires arch.Valid()
    ensures a == b <==> WordOf(arch, a) == WordOf(arch, b) && RestOf(arch, a) == RestOf(arch, b)
  {
    var w := arch.width;
    if WordOf(arch, a) == WordOf(arch, b) && RestOf(arch, a) == RestOf(arch, b) {
      if arch.bigEndian {
        BigEndianInjective(a[..w], b[..w]);
      } else {
        LittleEndianInjective(a[..w], b[..w]);
      }
      assert a == a[..w] + a[w..] && b == b[..w] + b[w..];
    }
  }

  lemma NodeOrderTotal(arch: Arch, a: CacheKey, b: CacheKey)
    requires arch.Valid()
    ensures NodeLess(arch, a, b) || NodeLess(arch, b, a) || a == b
    ensures !(NodeLess(arch, a, b) && NodeLess(arch, b, a))
    ensures !NodeLess(arch, a, a)
  {
    LessTotal(RestOf(arch, a), RestOf(arch, b));
    LessTotal(RestOf(arch, a), RestOf(arch, a));
    NodeKeyDetermines(arch, a, b);
  }

  lemma NodeOrderTransitive(arch: Arch, a: CacheKey, b: CacheKey, c: CacheKey)
    requires arch.Valid() && NodeLess(arch, a, b) && NodeLess(arch, b, c)
    ensures NodeLess(arch, a, c)
  {
    if WordOf(arch, a) == WordOf(arch, b) == WordOf(arch, c) {
      LessTransitive(RestOf(arch, a), RestOf(arch, b), RestOf(arch, c));
    }
  }

  // ----- it is the bytewise order on big-endian hosts and on no others -----

  lemma {:induction false} LessConcat(a: Bytes, b: Bytes, c: Bytes, d: Bytes)
    requires |a| == |b|
    ensures Less(a + c, b + d) <==> Less(a, b) || (a == b && Less(c, d))
  {
    if a == [] {
      assert a + c == c && b + d == d;
    } else {
      assert (a + c)[1..] == a[1..] + c && (b + d)[1..] == b[1..] + d;
      LessConcat(a[1..], b[1..], c, d);
      assert a == [a[0]] + a[1..] && b == [b[0]] + b[1..];
    }
  }

  lemma {:induction false} BigEndianOrder(a: Bytes, b: Bytes)
    requires |a| == |b|
    ensures BigEndian(a) < BigEndian(b) <==> Less(a, b)
  {
    if a != [] {
      var n := |a| - 1;
      BigEndianOrder(a[..n], b[..n]);
      LessConcat(a[..n], b[..n], [a[n]], [b[n]]);
      assert a == a[..n] + [a[n]] && b == b[..n] + [b[n]];
      LessTotal(a[..n], b[..n]);
      if BigEndian(a[..n]) == BigEndian(b[..n]) { BigEndianInjective(a[..n], b[..n]); }
    }
  }

  lemma BigEndianIsBytewise(arch: Arch, a: CacheKey, b: CacheKey)
    requires arch.Valid() && arch.bigEndian
    ensures NodeLess(arch, a, b) <==> Less(a, b)
  {
    var w := arch.width;
    BigEndianOrder(a[..w], b[..w]);
    LessConcat(a[..w], b[..w], a[w..], b[w..]);
    NodePrefixEqual(arch, a, b);
    assert a == a[..w] + a[w..] && b == b[..w] + b[w..];
  }

  lemma NodePrefixEqual(arch: Arch, a: CacheKey, b: CacheKey)
    requires arch.Valid() && arch.bigEndian
    ensures WordOf(arch, a) == WordOf(arch, b) <==> a[..arch.width] == b[..arch.width]
  {
    if WordOf(arch, a) == WordOf(arch, b) { BigEndianInjective(a[..arch.width], b[..arch.width]); }
  }

  /** Two keys a little-endian host orders one way and their bytes the other. */
  lemma LittleEndianIsNot(arch: Arch) returns (a: CacheKey, b: CacheKey)
    requires arch.Valid() && !arch.bigEndian
    ensures NodeLess(arch, a, b) && Less(b, a)
  {
    a := seq(CACHE_KEY_LEN, i => if i == 0 then 1 else 0);
    b := seq(CACHE_KEY_LEN, i => if i == 1 then 1 else 0);
    var p, q := a[..arch.width], b[..arch.width];
    LittleEndianZero(p[1..]);
    LittleEndianZero(q[2..]);
    assert q[1..][1..] == q[2..];
    assert LittleEndian(p) == 1;
    assert LittleEndian(q[1..]) == 1;
    assert LittleEndian(q) == 256;
  }

  lemma {:induction false} LittleEndianZero(b: Bytes)
    requires forall i :: 0 <= i < |b| ==> b[i] == 0
    ensures LittleEndian(b) == 0
  {
    if b != [] { LittleEndianZero(b[1..]); }
  }

  lemma BytewiseIffBigEndian(arch: Arch)
    requires arch.Valid()
    ensures arch.bigEndian <==> forall a: CacheKey, b: CacheKey :: NodeLess(arch, a, b) <==> Less(a, b)
  {
    if arch.bigEndian {
      forall a: CacheKey, b: CacheKey ensures NodeLess(arch, a, b) <==> Less(a, b) { BigEndianIsBytewise(arch, a, b); }
    } else {
      var a, b := LittleEndianIsNot(arch);
      LessTotal(a, b);
    }
  }

  // ----- in numbers -----

  lemma LittleEndianOfFour(b: Bytes)
    requires |b| >= 4
    ensures var c: seq<int> := b;
            LittleEndian(b) == c[0] + 0x100 * c[1] + 0x1_0000 * c[2] + 0x100_0000 * c[3] + 0x1_0000_0000 * LittleEndian(b[4..])
  {
    assert b[1..][1..] == b[2..] && b[2..][1..] == b[3..] && b[3..][1..] == b[4..];
    var c: seq<int> := b;
    assert LittleEndian(b[1..]) == c[1] + 256 * LittleEndian(b[2..]);
    assert LittleEndian(b[2..]) == c[2] + 256 * LittleEndian(b[3..]);
    assert LittleEndian(b[3..]) == c[3] + 256 * LittleEndian(b[4..]);
  }

  lemma BigEndianOfFour(b: Bytes)
    requires |b| >= 4
    ensures var n: nat, c: seq<int> := |b| - 4, b;
            BigEndian(b) == 0x1_0000_0000 * BigEndian(b[..n]) + 0x100_0000 * c[n] + 0x1_0000 * c[n + 1] + 0x100 * c[n + 2] + c[n + 3]
  {
    var n: nat, c: seq<int> := |b| - 4, b;
    var b3, b2, b1 := b[..n + 3], b[..n + 2], b[..n + 1];
    assert b3[..n + 2] == b2 && b2[..n + 1] == b1 && b1[..n] == b[..n];
    assert BigEndian(b3) == 256 * BigEndian(b2) + c[n + 2];
    assert BigEndian(b2) == 256 * BigEndian(b1) + c[n + 1];
    assert BigEndian(b1) == 256 * BigEndian(b[..n]) + c[n];
  }

  /** The word is the leading bytes of the key as the host weighs them. */
  lemma WordInBytes(arch: Arch, key: CacheKey)
    requires arch.Valid()
    ensures var k: seq<int> := key;
            WordOf(arch, key) ==
              if arch.width == 4 then
                if arch.bigEndian then 0x100_0000 * k[0] + 0x1_0000 * k[1] + 0x100 * k[2] + k[3]
                else k[0] + 0x100 * k[1] + 0x1_0000 * k[2] + 0x100_0000 * k[3]
              else if arch.bigEndian then
                0x100_0000_0000_0000 * k[0] + 0x1_0000_0000_0000 * k[1] + 0x100_0000_0000 * k[2] + 0x1_0000_0000 * k[3]
                + 0x100_0000 * k[4] + 0x1_0000 * k[5] + 0x100 * k[6] + k[7]
              else
                k[0] + 0x100 * k[1] + 0x1_0000 * k[2] + 0x100_0000 * k[3]
                + 0x1_0000_0000 * k[4] + 0x100_0000_0000 * k[5] + 0x1_0000_0000_0000 * k[6] + 0x100_0000_0000_0000 * k[7]
    ensures RestOf(arch, key) == key[arch.width..16]
  {
    var b := key[..arch.width];
    if arch.bigEndian {
      BigEndianOfFour(b);
      if arch.width == 8 { BigEndianOfFour(b[..4]); }
    } else {
      LittleEndianOfFour(b);
      if arch.width == 8 { LittleEndianOfFour(b[4..]); }
    }
  }

  /** Of two byte strings of one length the lesser has the smaller byte where they first differ. */
  lemma {:induction false} LessIff(a: Bytes, b: Bytes)
    requires |a| == |b|
    ensures Less(a, b) <==> exists i :: 0 <= i < |a| && a[..i] == b[..i] && a[i] < b[i]
  {
    if a != [] {
      LessIff(a[1..], b[1..]);
      if Less(a, b) {
        if a[0] < b[0] {
          assert a[..0] == b[..0];
        } else {
          var i :| 0 <= i < |a| - 1 && a[1..][..i] == b[1..][..i] && a[1..][i] < b[1..][i];
          assert a[..i + 1] == [a[0]] + a[1..][..i] && b[..i + 1] == [b[0]] + b[1..][..i];
        }
      }
      forall i | 0 <= i < |a| && a[..i] == b[..i] && a[i] < b[i] ensures Less(a, b) {
        if i > 0 {
          assert a[..i][0] == b[..i][0];
          assert a[1..][..i - 1] == a[..i][1..] && b[1..][..i - 1] == b[..i][1..];
        }
      }
    }
  }

  /** Nodes are ordered by word, and those of one word by the first of the remaining bytes in which they differ. */
  lemma NodeLessIff(arch: Arch, a: CacheKey, b: CacheKey)
    requires arch.Valid()
    ensures NodeLess(arch, a, b) <==>
            || WordOf(arch, a) < WordOf(arch, b)
            || (WordOf(arch, a) == WordOf(arch, b) &&
                exists i :: 0 <= i < 16 - arch.width &&
                  a[arch.width..][..i] == b[arch.width..][..i] && a[arch.width..][i] < b[arch.width..][i])
  {
    LessIff(RestOf(arch, a), RestOf(arch, b));
  }
}
