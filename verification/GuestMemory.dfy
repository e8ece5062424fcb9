/**
 Guest memory as a sequence of bytes: writing, big-endian longs, NUL-terminated strings, tables of pointers
 ended by zero, and the chunks that a moving cursor leaves behind.
 */
module GuestMemory {
  import opened Numbers

  // ----- writing -----

  function Poke(m: seq<Byte>, a: nat, bs: seq<Byte>): (r: seq<Byte>)
    requires a + |bs| <= |m|
    ensures |r| == |m|
  {
    m[..a] + bs + m[a + |bs|..]
  }

  predicate Has(m: seq<Byte>, a: nat, bs: seq<Byte>) { a + |bs| <= |m| && m[a..a + |bs|] == bs }

  /** Nothing differs outside two ranges, the first before the second. */
  predicate SameExcept(m: seq<Byte>, r: seq<Byte>, a: nat, n: nat, b: nat, k: nat) {
    |m| == |r| && a + n <= b && b + k <= |m| &&
    m[..a] == r[..a] && m[a + n..b] == r[a + n..b] && m[b + k..] == r[b + k..]
  }

  predicate SameOutside(m: seq<Byte>, r: seq<Byte>, a: nat, n: nat) {
    |m| == |r| && a + n <= |m| && m[..a] == r[..a] && m[a + n..] == r[a + n..]
  }

  lemma PokeHas(m: seq<Byte>, a: nat, bs: seq<Byte>)
    requires a + |bs| <= |m|
    ensures Has(Poke(m, a, bs), a, bs)
  {
  }

  lemma PokeKeeps(m: seq<Byte>, a: nat, bs: seq<Byte>, b: nat, cs: seq<Byte>)
    requires a + |bs| <= |m| && Has(m, b, cs) && (b + |cs| <= a || a + |bs| <= b)
    ensures Has(Poke(m, a, bs), b, cs)
  {
    assert Poke(m, a, bs)[b..b + |cs|] == m[b..b + |cs|];
  }

  lemma PokesJoin(m: seq<Byte>, a: nat, bs: seq<Byte>, cs: seq<Byte>)
    requires a + |bs| + |cs| <= |m|
    ensures Poke(Poke(m, a, bs), a + |bs|, cs) == Poke(m, a, bs + cs)
  {
    var r := m[..a] + bs + cs + m[a + |bs| + |cs|..];
    assert Poke(Poke(m, a, bs), a + |bs|, cs) == r;
    assert Poke(m, a, bs + cs) == r;
  }

  lemma PokeNothing(m: seq<Byte>, a: nat)
    requires a <= |m|
    ensures Poke(m, a, []) == m
  {
  }

  lemma PokesCommute(m: seq<Byte>, a: nat, bs: seq<Byte>, b: nat, cs: seq<Byte>)
    requires a + |bs| <= b && b + |cs| <= |m|
    ensures Poke(Poke(m, a, bs), b, cs) == Poke(Poke(m, b, cs), a, bs)
  {
    var r := m[..a] + bs + m[a + |bs|..b] + cs + m[b + |cs|..];
    assert Poke(Poke(m, a, bs), b, cs) == r;
    assert Poke(Poke(m, b, cs), a, bs) == r;
  }

  lemma PokeInside(o: seq<Byte>, m: seq<Byte>, lo: nat, n: nat, a: nat, bs: seq<Byte>)
    requires SameOutside(o, m, lo, n) && lo <= a && a + |bs| <= lo + n
    ensures SameOutside(o, Poke(m, a, bs), lo, n)
  {
    assert Poke(m, a, bs)[..lo] == m[..lo];
    assert Poke(m, a, bs)[lo + n..] == m[lo + n..];
  }

  lemma HasBoth(m: seq<Byte>, a: nat, bs: seq<Byte>, cs: seq<Byte>)
    ensures Has(m, a, bs + cs) <==> Has(m, a, bs) && Has(m, a + |bs|, cs)
  {
    if a + |bs| + |cs| <= |m| {
      var w := m[a..a + |bs| + |cs|];
      assert w[..|bs|] == m[a..a + |bs|] && w[|bs|..] == m[a + |bs|..a + |bs| + |cs|];
      assert w == w[..|bs|] + w[|bs|..];
      assert (bs + cs)[..|bs|] == bs && (bs + cs)[|bs|..] == cs;
    }
  }

  /** What a change in two ranges leaves alone. */
  lemma Survives(m: seq<Byte>, r: seq<Byte>, a: nat, n: nat, b: nat, k: nat, c: nat, cs: seq<Byte>)
    requires SameExcept(m, r, a, n, b, k) && Has(m, c, cs)
    requires c + |cs| <= a || (a + n <= c && c + |cs| <= b) || b + k <= c
    ensures Has(r, c, cs)
  {
    if c + |cs| <= a {
      SliceOfSlice(m, 0, a, c, c + |cs|);
      SliceOfSlice(r, 0, a, c, c + |cs|);
    } else if c + |cs| <= b && a + n <= c {
      SliceOfSlice(m, a + n, b, c - (a + n), c + |cs| - (a + n));
      SliceOfSlice(r, a + n, b, c - (a + n), c + |cs| - (a + n));
    } else {
      SliceOfSlice(m, b + k, |m|, c - (b + k), c + |cs| - (b + k));
      SliceOfSlice(r, b + k, |r|, c - (b + k), c + |cs| - (b + k));
    }
  }

  lemma SliceOfSlice(m: seq<Byte>, x: nat, y: nat, d: nat, e: nat)
    requires d <= e <= y - x && x <= y <= |m|
    ensures m[x..y][d..e] == m[x + d..x + e]
  {
    var u, v := m[x..y][d..e], m[x + d..x + e];
    assert |u| == |v| && forall i :: 0 <= i < |u| ==> u[i] == v[i];
  }

  lemma ExceptIsInside(m: seq<Byte>, r: seq<Byte>, a: nat, n: nat, b: nat, k: nat, o: seq<Byte>, lo: nat, w: nat)
    requires SameExcept(m, r, a, n, b, k) && SameOutside(o, m, lo, w) && lo <= a && b + k <= lo + w
    ensures SameOutside(o, r, lo, w)
  {
    assert r[..lo] == r[..a][..lo] == m[..a][..lo] == m[..lo];
    var d := lo + w - (b + k);
    assert r[lo + w..] == r[b + k..][d..] == m[b + k..][d..] == m[lo + w..];
  }

  // ----- which bytes have been written, and how often -----

  ghost function Span(a: int, n: nat): (s: multiset<int>)
  {
    if n == 0 then multiset{} else Span(a, n - 1) + multiset{a + n - 1}
  }

  /** Every address of the range once, and no other. */
  lemma {:induction false} SpanIsOnce(a: int, n: nat, x: int)
    ensures Span(a, n)[x] == if a <= x < a + n then 1 else 0
  {
    if n > 0 { SpanIsOnce(a, n - 1, x); }
  }

  lemma SpanJoin(a: int, n: nat, k: nat)
    ensures Span(a, n) + Span(a + n, k) == Span(a, n + k)
  {
    hide Span;
    var two, one := Span(a, n) + Span(a + n, k), Span(a, n + k);
    forall x: int
      ensures two[x] == one[x]
    {
      SpanIsOnce(a, n, x);
      SpanIsOnce(a + n, k, x);
      SpanIsOnce(a, n + k, x);
    }
  }

  // ----- longs -----

  /** Most significant byte first. */
  function Long4(v: nat): (bs: seq<Byte>)
    requires v < TWO32
    ensures |bs| == 4
  {
    [v / 0x100_0000, v / 0x1_0000 % 256, v / 256 % 256, v % 256]
  }

  function GetLong(m: seq<Byte>, a: nat): nat
    requires a + 4 <= |m|
  {
    m[a] as int * 0x100_0000 + m[a + 1] as int * 0x1_0000 + m[a + 2] as int * 256 + m[a + 3] as int
  }

  lemma LongReadsBack(m: seq<Byte>, a: nat, v: nat)
    requires v < TWO32 && Has(m, a, Long4(v))
    ensures GetLong(m, a) == v
  {
    var w := m[a..a + 4];
    assert w[0] == m[a] && w[1] == m[a + 1] && w[2] == m[a + 2] && w[3] == m[a + 3];
    var x, y := v / 256, v / 0x1_0000;
    assert y == x / 256 && v / 0x100_0000 == y / 256;
  }

  // ----- chunks left by a cursor -----

  function Joined(cs: seq<seq<Byte>>): (bs: seq<Byte>)
    decreases |cs|
  {
    if cs == [] then [] else Joined(cs[..|cs| - 1]) + cs[|cs| - 1]
  }

  /** Where each chunk starts when the first is at `at`. */
  function Starts(at: nat, cs: seq<seq<Byte>>): (ps: seq<nat>)
    ensures |ps| == |cs|
    decreases |cs|
  {
    if cs == [] then [] else Starts(at, cs[..|cs| - 1]) + [at + |Joined(cs[..|cs| - 1])|]
  }

  /** Each chunk lies where its pointer says, inside the run of chunks. */
  lemma {:induction false} ChunkIsThere(m: seq<Byte>, at: nat, cs: seq<seq<Byte>>, i: nat)
    requires Has(m, at, Joined(cs)) && i < |cs|
    ensures var p := Starts(at, cs)[i];
            Has(m, p, cs[i]) && at <= p && p + |cs[i]| <= at + |Joined(cs)|
    decreases |cs|
  {
    var n := |cs| - 1;
    HasBoth(m, at, Joined(cs[..n]), cs[n]);
    if i < n { ChunkIsThere(m, at, cs[..n], i); }
  }

  // ----- tables of pointers -----

  predicate Small(ps: seq<nat>) { forall i :: 0 <= i < |ps| ==> 0 < ps[i] < TWO32 }

  function Table(ps: seq<nat>): (bs: seq<Byte>)
    requires Small(ps)
    ensures |bs| == 4 * |ps|
    decreases |ps|
  {
    if ps == [] then [] else Table(ps[..|ps| - 1]) + Long4(ps[|ps| - 1])
  }

  /** A table as the guest walks it: until the zero, or the end of memory. */
  function ReadTable(m: seq<Byte>, a: nat): seq<nat>
    decreases |m| - a
  {
    if a + 4 > |m| || GetLong(m, a) == 0 then [] else [GetLong(m, a)] + ReadTable(m, a + 4)
  }

  lemma {:induction false} TableEntry(m: seq<Byte>, a: nat, ps: seq<nat>, i: nat)
    requires Small(ps) && Has(m, a, Table(ps)) && i < |ps|
    ensures Has(m, a + 4 * i, Long4(ps[i]))
    decreases |ps|
  {
    var n := |ps| - 1;
    HasBoth(m, a, Table(ps[..n]), Long4(ps[n]));
    if i < n { TableEntry(m, a, ps[..n], i); }
  }

  lemma {:induction false} TableReadsBack(m: seq<Byte>, a: nat, ps: seq<nat>, i: nat)
    requires Small(ps) && Has(m, a, Table(ps)) && Has(m, a + 4 * |ps|, Long4(0)) && i <= |ps|
    ensures ReadTable(m, a + 4 * i) == ps[i..]
    decreases |ps| - i
  {
    hide Table, Long4, GetLong;
    if i == |ps| {
      LongReadsBack(m, a + 4 * i, 0);
    } else {
      TableEntry(m, a, ps, i);
      LongReadsBack(m, a + 4 * i, ps[i]);
      TableReadsBack(m, a, ps, i + 1);
      assert ps[i..] == [ps[i]] + ps[i + 1..];
    }
  }

  // ----- strings -----

  type Text = s: seq<Byte> | forall i :: 0 <= i < |s| ==> s[i] != 0 witness []

  function ReadText(m: seq<Byte>, a: nat): seq<Byte>
    decreases |m| - a
  {
    if a >= |m| || m[a] == 0 then [] else [m[a]] + ReadText(m, a + 1)
  }

  lemma {:induction false} TextReadsBack(m: seq<Byte>, a: nat, s: Text)
    requires Has(m, a, s + [0])
    ensures ReadText(m, a) == s
    decreases |s|
  {
    assert m[a..a + |s| + 1][0] == m[a] == (s + [0])[0];
    if s != [] {
      assert s + [0] == [s[0]] + (s[1..] + [0]);
      HasBoth(m, a, [s[0]], s[1..] + [0]);
      TextReadsBack(m, a + 1, s[1..]);
    }
  }
}
