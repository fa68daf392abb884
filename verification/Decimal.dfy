/** Counts in response headers, written in decimal. */
module Decimal {
  import opened Types

  const BUFFER_LEN: nat := 20

  const WORD_LIMIT: nat := 0x1_0000_0000_0000_0000

  /** What a run of decimal digits reads as when `high` stands in front of it. */
  function ReadsAfter(high: nat, s: Bytes): int {
    if s == [] then high else ReadsAfter(high, s[..|s| - 1]) * 10 + (s[|s| - 1] as int - 48)
  }

  /** What a run of decimal digits reads as. */
  function Reads(s: Bytes): int {
    ReadsAfter(0, s)
  }

  /** `n` has at most `room` digits. */
  predicate Fits(n: nat, room: nat) {
    if room == 0 then n == 0 else Fits(n / 10, room - 1)
  }

  /** The last digit of `high` may as well be written in front of the rest. */
  lemma {:induction false} MoveDigit(high: nat, s: Bytes)
    ensures ReadsAfter(high / 10, [(48 + high % 10) as byte] + s) == ReadsAfter(high, s)
  {
    var all := [(48 + high % 10) as byte] + s;
    if s == [] {
      assert all[..0] == [] && ReadsAfter(high / 10, []) == high / 10;
    } else {
      assert all[..|all| - 1] == [all[0]] + s[..|s| - 1];
      MoveDigit(high, s[..|s| - 1]);
    }
  }

  /** Fills the end of `buf` with the digits of `n`; `buf[start..]` is the result. */
  method FormatUsize(buf: array<byte>, n: nat) returns (start: nat)
    requires buf.Length == BUFFER_LEN && n < WORD_LIMIT
    modifies buf
    ensures start < BUFFER_LEN
    ensures Reads(buf[start..]) == n
    ensures forall i :: start <= i < BUFFER_LEN ==> 48 <= buf[i] <= 57
    ensures buf[start] == 48 ==> n == 0 && start == BUFFER_LEN - 1
    ensures forall i :: 0 <= i < start ==> buf[i] == old(buf[i])
  {
    var i := buf.Length;
    var m: nat := n;
    ghost var done: Bytes := [];
    TwentyDigitsDo(n);
    while true
      invariant 0 <= i <= BUFFER_LEN
      invariant done == buf[i..] && ReadsAfter(m, done) == n
      invariant forall j :: i <= j < BUFFER_LEN ==> 48 <= buf[j] <= 57
      invariant Fits(m, i)
      invariant m == 0 ==> n == 0 && i == BUFFER_LEN
      invariant forall j :: 0 <= j < i ==> buf[j] == old(buf[j])
      decreases i
    {
      OneMoreDigit(n, m, i, done);
      i := i - 1;
      buf[i] := 48 + m % 10;
      done := [buf[i]] + done;
      m := m / 10;
      assert done == buf[i..];
      if m == 0 {
        break;
      }
    }
    start := i;
  }

  /** With the last digit of `m` moved in front of `done`, as much is written and as much is left. */
  lemma OneMoreDigit(n: nat, m: nat, room: nat, done: Bytes)
    requires ReadsAfter(m, done) == n && Fits(m, room) && (m == 0 ==> n == 0 && 0 < room)
    ensures 0 < room && Fits(m / 10, room - 1)
    ensures ReadsAfter(m / 10, [(48 + m % 10) as byte] + done) == n
  {
    MoveDigit(m, done);
  }

  lemma TwentyDigitsDo(n: nat)
    requires n < WORD_LIMIT
    ensures Fits(n, BUFFER_LEN)
  {
    var high := n / 10_000_000_000;
    assert Fits(high / 10_000_000_000, 0);
    TenMore(high, 0);
    TenMore(n, 10);
  }

  lemma TenMore(n: nat, room: nat)
    requires Fits(n / 10_000_000_000, room)
    ensures Fits(n, room + 10)
  {
    FiveMore(n / 100_000, room);
    FiveMore(n, room + 5);
  }

  lemma FiveMore(n: nat, room: nat)
    requires Fits(n / 100_000, room)
    ensures Fits(n, room + 5)
  {
    assert Fits(n / 10_000, room + 1);
    assert Fits(n / 1000, room + 2);
    assert Fits(n / 100, room + 3);
    assert Fits(n / 10, room + 4);
  }

  /** Reading is in base ten: each further digit makes what stands before it ten times as much. */
  lemma ReadsInTens(s: Bytes, d: byte)
    ensures Reads([]) == 0 && Reads(s + [d]) == 10 * Reads(s) + (d as int - 48)
  {
    assert (s + [d])[..|s|] == s;
  }
}
