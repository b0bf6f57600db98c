/** The stream cipher behind arc4random, and the arithmetic of arc4random_uniform. */
module Arc4 {

  import opened Options

  const U32: nat := 0x1_0000_0000
  const HALF: nat := 0x8000_0000

  type uchar = x: nat | x < 256
  type uint32 = x: nat | x < U32

  // -------------------------------------------------------------------------------------------
  // arc4random_uniform
  // -------------------------------------------------------------------------------------------

  /** Unsigned 32-bit arithmetic */
  function Wrap(x: int): uint32 {
    x % U32
  }

  /** ~x on 32 bits */
  function Complement(x: uint32): uint32 {
    U32 - 1 - x
  }

  /** min in arc4random_uniform, computed without a 64-bit division */
  function Threshold(bound: uint32): uint32
    requires 2 <= bound
  {
    if bound > HALF then Wrap(1 + Complement(bound))
    else Wrap(Wrap(0xFFFF_FFFF - Wrap(bound * 2)) + 1) % bound
  }

  lemma ModAdd(x: nat, m: nat, k: nat)
    requires 0 < m
    ensures (x + k * m) % m == x % m
  {
    if k > 0 {
      ModAdd(x, m, k - 1);
      assert x + k * m == (x + (k - 1) * m) + m;
      ModPlus(x + (k - 1) * m, m);
    }
  }

  lemma ModPlus(y: nat, m: nat)
    requires 0 < m
    ensures (y + m) % m == y % m
  {
    var q, r := y / m, y % m;
    assert y + m == (q + 1) * m + r;
    ModUnique(y + m, m, q + 1, r);
  }

  lemma ModUnique(y: nat, m: nat, q: nat, r: nat)
    requires 0 < m && r < m && y == q * m + r
    ensures y % m == r && y / m == q
  {
    var p := y / m;
    assert p * m <= y < p * m + m;
    MonoNext(p, q, m);
    MonoNext(q, p, m);
  }

  lemma MonoNext(a: nat, b: nat, m: nat)
    ensures a < b ==> a * m + m <= b * m
  {
    if a < b {
      Mono(a + 1, b, m);
    }
  }

  lemma Mono(a: nat, b: nat, m: nat)
    requires a <= b
    ensures a * m <= b * m
  {
  }

  lemma HalfIs()
    ensures Threshold(HALF) == 0
  {
  }

  lemma WrapSmall(x: nat)
    requires x < U32
    ensures Wrap(x) == x
  {
  }

  /** The threshold is what 2^32 leaves when divided by the bound, and less than half the range. */
  lemma ThresholdIs(bound: uint32)
    requires 2 <= bound
    ensures Threshold(bound) == U32 % bound && Threshold(bound) < HALF
  {
    hide Wrap;
    if bound > HALF {
      WrapSmall(U32 - bound);
      ModUnique(U32, bound, 1, U32 - bound);
    } else if bound == HALF {
      assert Threshold(bound) == 0 by { HalfIs(); }
      ModUnique(U32, bound, 2, 0);
    } else {
      WrapSmall(bound * 2);
      WrapSmall(0xFFFF_FFFF - bound * 2);
      WrapSmall(U32 - bound * 2);
      ModAdd(U32 - bound * 2, bound, 2);
    }
  }

  /** The draws between two limits that reduce to a value. */
  function Hits(lo: nat, hi: nat, bound: nat, v: nat): set<nat>
    requires 0 < bound
  {
    set r | lo <= r < hi && r % bound == v
  }

  /** There is one in every stretch. */
  lemma Find(x: nat, bound: nat, v: nat) returns (r: nat)
    requires v < bound
    ensures x <= r < x + bound && r % bound == v
  {
    var q, y := x / bound, x % bound;
    assert x == q * bound + y;
    if y <= v {
      r := x + (v - y);
      ModUnique(r, bound, q, v);
    } else {
      r := x + (bound + v - y);
      assert (q + 1) * bound == q * bound + bound;
      ModUnique(r, bound, q + 1, v);
    }
  }

  /** Every stretch as long as the bound has one of each value. */
  lemma OneEach(x: nat, bound: nat, v: nat) returns (r: nat)
    requires v < bound
    ensures Hits(x, x + bound, bound, v) == {r}
  {
    r := Find(x, bound, v);
    forall s | x <= s < x + bound && s % bound == v
      ensures s == r
    {
      Same(s, r, bound);
    }
  }

  lemma Same(s: nat, r: nat, bound: nat)
    requires 0 < bound && s % bound == r % bound && s < r + bound && r < s + bound
    ensures s == r
  {
    var p, q := s / bound, r / bound;
    assert s == p * bound + s % bound && r == q * bound + r % bound;
    MonoNext(p, q, bound);
    MonoNext(q, p, bound);
  }

  lemma {:induction false} HitsCount(lo: nat, k: nat, bound: nat, v: nat)
    requires v < bound
    ensures |Hits(lo, lo + k * bound, bound, v)| == k
  {
    if k == 0 {
      assert Hits(lo, lo + k * bound, bound, v) == {};
    } else {
      HitsCount(lo, k - 1, bound, v);
      var mid := lo + (k - 1) * bound;
      assert mid + bound == lo + k * bound;
      Mono(0, k - 1, bound);
      var r := OneEach(mid, bound, v);
      assert r in Hits(mid, mid + bound, bound, v);
      assert Hits(lo, mid + bound, bound, v) == Hits(lo, mid, bound, v) + {r} by { HitsSplit(lo, mid, mid + bound, bound, v); }
    }
  }

  lemma HitsSplit(lo: nat, mid: nat, hi: nat, bound: nat, v: nat)
    requires lo <= mid <= hi && 0 < bound
    ensures Hits(lo, hi, bound, v) == Hits(lo, mid, bound, v) + Hits(mid, hi, bound, v)
  {
  }

  /** So a draw that is accepted is each value below the bound equally often, in floor(2^32 / bound) ways. */
  lemma UniformExactly(bound: uint32, v: nat)
    requires 2 <= bound && v < bound
    ensures |Hits(Threshold(bound), U32, bound, v)| == U32 / bound
  {
    ThresholdIs(bound);
    var q := U32 / bound;
    assert U32 == Threshold(bound) + q * bound;
    HitsCount(Threshold(bound), q, bound, v);
  }

  /** The first draw from an index on that is accepted, or the number of draws. */
  function FirstAccepted(draws: seq<uint32>, least: nat, from: nat): (r: nat)
    requires from <= |draws|
    ensures from <= r <= |draws| && (r < |draws| ==> draws[r] >= least)
    ensures forall j :: from <= j < r ==> draws[j] < least
    decreases |draws| - from
  {
    if from == |draws| || draws[from] >= least then from else FirstAccepted(draws, least, from + 1)
  }

  /** arc4random_uniform over what arc4random would return; None if it would go on past the draws given. */
  method Uniform(bound: uint32, draws: seq<uint32>) returns (r: Option<uint32>)
    ensures bound < 2 ==> r == Some(0)
    ensures 2 <= bound ==>
      var k := FirstAccepted(draws, U32 % bound, 0);
      r == if k < |draws| then Some(draws[k] % bound) else None
    ensures r.Some? && 2 <= bound ==> r.value < bound
  {
    if bound < 2 {
      return Some(0);
    }
    ThresholdIs(bound);
    var least := Threshold(bound);
    var n := 0;
    while n < |draws|
      invariant 0 <= n <= |draws|
      invariant FirstAccepted(draws, least, 0) == FirstAccepted(draws, least, n)
    {
      if draws[n] >= least {
        return Some(draws[n] % bound);
      }
      n := n + 1;
    }
    return None;
  }

  // -------------------------------------------------------------------------------------------
  // The cipher
  // -------------------------------------------------------------------------------------------

  /** struct arc4_stream */
  datatype Stream = Stream(i: uchar, j: uchar, s: seq<uchar>) {
    /** A permutation of the bytes. */
    predicate Ok() {
      |s| == 256 && forall a, b :: 0 <= a < b < 256 ==> s[a] != s[b]
    }
  }

  function Byte(x: int): uchar {
    x % 256
  }

  /** Two entries exchanged. */
  function Swap(s: seq<uchar>, a: uchar, b: uchar): (r: seq<uchar>)
    requires |s| == 256
    ensures |r| == 256
  {
    s[a := s[b]][b := s[a]]
  }

  /** arc4_getbyte on values: the state after, and the byte */
  function Next(st: Stream): (Stream, uchar)
    requires |st.s| == 256
  {
    var i := Byte(st.i + 1);
    var si: int := st.s[i];
    var j := Byte(st.j + si);
    var sj: int := st.s[j];
    var s := Swap(st.s, i, j);
    (Stream(i, j, s), s[Byte(si + sj)])
  }

  /** The state one byte earlier. */
  function Back(st: Stream): Stream
    requires |st.s| == 256
  {
    var s := Swap(st.s, st.i, st.j);
    Stream(Byte(st.i - 1), Byte(st.j - s[st.i]), s)
  }

  lemma SwapOk(s: seq<uchar>, a: uchar, b: uchar)
    requires |s| == 256 && forall x, y :: 0 <= x < y < 256 ==> s[x] != s[y]
    ensures forall x, y :: 0 <= x < y < 256 ==> Swap(s, a, b)[x] != Swap(s, a, b)[y]
    ensures Swap(Swap(s, a, b), a, b) == s
  {
  }

  /** A byte leaves the state a permutation, and no two states lead to the same one. */
  lemma NextInvertible(st: Stream)
    requires st.Ok()
    ensures Next(st).0.Ok() && Back(Next(st).0) == st
  {
    var i := Byte(st.i + 1);
    var si: int := st.s[i];
    var j := Byte(st.j + si);
    SwapOk(st.s, i, j);
    assert Swap(st.s, i, j)[j] == si;
    ByteBack(st.i, 1);
    ByteBack(st.j, si);
  }

  lemma ByteBack(x: uchar, d: int)
    ensures Byte(Byte(x + d) - d) == x
  {
  }

  /** One step of arc4_addrandom */
  function Stir(st: Stream, d: uchar): Stream
    requires |st.s| == 256
  {
    var i := Byte(st.i + 1);
    var j := Byte(st.j + st.s[i] + d);
    Stream(i, j, Swap(st.s, i, j))
  }

  /**
   A byte of the stream: i goes on by one, j by the entry at i, the two entries are exchanged, and the byte
   handed out is the entry at their sum.
   */
  lemma NextSays(st: Stream)
    requires |st.s| == 256
    ensures var (t, b) := Next(st);
      && t.i == (st.i + 1) % 256 && t.j == (st.j + st.s[t.i]) % 256 && |t.s| == 256
      && t.s[t.i] == st.s[t.j] && t.s[t.j] == st.s[t.i]
      && (forall k :: 0 <= k < 256 && k != t.i && k != t.j ==> t.s[k] == st.s[k])
      && (var sum: int := t.s[t.i]; b == t.s[(sum + t.s[t.j]) % 256])
  {
  }

  /** Stirring in a byte of 0 is a step of the stream, and the byte that was stirred in can be read off. */
  lemma StirSays(st: Stream, d: uchar)
    requires |st.s| == 256
    ensures Stir(st, 0) == Next(st).0
    ensures var t := Stir(st, d);
      && t.i == (st.i + 1) % 256 && t.j == (st.j + st.s[t.i] + d) % 256 && (t.j - st.j - st.s[t.i]) % 256 == d
      && t.s[t.i] == st.s[t.j] && t.s[t.j] == st.s[t.i]
      && (forall k :: 0 <= k < 256 && k != t.i && k != t.j ==> t.s[k] == st.s[k])
  {
    var si: int := st.s[Byte(st.i + 1)];
    ReadOff(st.j, si, d);
  }

  lemma ReadOff(j: uchar, si: int, d: uchar)
    ensures ((j + si + d) % 256 - j - si) % 256 == d
  {
  }

  /** Step n stirs in byte n of the data, which is repeated as long as it takes. */
  lemma StirredSays(st: Stream, dat: seq<uchar>, n: nat)
    requires |st.s| == 256 && dat != []
    ensures Stirred(st, dat, 0) == st
    ensures Stirred(st, dat, n + 1) == Stir(Stirred(st, dat, n), dat[n % |dat|])
  {
    hide Stir;
  }

  /** The data repeated */
  function At(dat: seq<uchar>, n: nat): uchar
    requires dat != []
  {
    dat[n % |dat|]
  }

  /** n steps, with the data repeated. */
  function Stirred(st: Stream, dat: seq<uchar>, n: nat): (r: Stream)
    requires |st.s| == 256 && dat != []
    ensures |r.s| == 256
  {
    if n == 0 then st else Stir(Stirred(st, dat, n - 1), At(dat, n - 1))
  }

  lemma {:induction false} StirredOk(st: Stream, dat: seq<uchar>, n: nat)
    requires st.Ok() && dat != []
    ensures Stirred(st, dat, n).Ok() && Stirred(st, dat, n).i == Byte(st.i + n)
  {
    hide Stir, At, Byte;
    if n == 0 {
      ByteAdds(st.i, 0);
    } else {
      StirredOk(st, dat, n - 1);
      StirOk(Stirred(st, dat, n - 1), At(dat, n - 1));
      ByteAdds(st.i, n - 1);
    }
  }

  lemma ByteAdds(i: uchar, n: nat)
    ensures Byte(Byte(i + n) + 1) == Byte(i + n + 1) && Byte(i + 0) == i
  {
  }

  lemma StirOk(st: Stream, d: uchar)
    requires st.Ok()
    ensures Stir(st, d).Ok() && Stir(st, d).i == Byte(st.i + 1)
  {
    var i := Byte(st.i + 1);
    SwapOk(st.s, i, Byte(st.j + st.s[i] + d));
  }

  /** What arc4_addrandom leaves. */
  function Added(st: Stream, dat: seq<uchar>): Stream
    requires |st.s| == 256 && dat != []
  {
    var after := Stirred(st.(i := Byte(st.i - 1)), dat, 256);
    after.(j := after.i)
  }

  /** Adding data keeps a permutation, and looks at no more than 256 bytes of it. */
  lemma AddedOk(st: Stream, dat: seq<uchar>)
    requires st.Ok() && dat != []
    ensures Added(st, dat).Ok() && Added(st, dat).i == Added(st, dat).j == Byte(st.i - 1)
    ensures |dat| > 256 ==> Added(st, dat) == Added(st, dat[..256])
  {
    hide Stirred, Byte;
    StirredOk(st.(i := Byte(st.i - 1)), dat, 256);
    ByteTurn(Byte(st.i - 1));
    if |dat| > 256 {
      SameData(st.(i := Byte(st.i - 1)), dat, 256);
    }
  }

  lemma ByteTurn(i: uchar)
    ensures Byte(i + 256) == i
  {
  }

  lemma {:induction false} SameData(st: Stream, dat: seq<uchar>, n: nat)
    requires |st.s| == 256 && |dat| > 256 && n <= 256
    ensures Stirred(st, dat, n) == Stirred(st, dat[..256], n)
  {
    hide Stir, At;
    if n > 0 {
      SameData(st, dat, n - 1);
      SameAt(dat, n - 1);
    }
  }

  lemma SameAt(dat: seq<uchar>, n: nat)
    requires n < 256 < |dat|
    ensures At(dat, n) == At(dat[..256], n)
  {
  }

  /** The state on an array */
  class Rs {
    var i: uchar
    var j: uchar
    const s: array<uchar>

    function View(): Stream
      reads this, s
    {
      Stream(i, j, s[..])
    }

    predicate Valid()
      reads this, s
    {
      s.Length == 256 && View().Ok()
    }

    /** arc4_init */
    constructor ()
      ensures Valid() && View() == Stream(0, 0, seq(256, k requires 0 <= k < 256 => k)) && fresh(s)
    {
      s := new uchar[256](k requires 0 <= k < 256 => k);
      i, j := 0, 0;
    }

    /** arc4_getbyte */
    method GetByte() returns (b: uchar)
      requires Valid()
      modifies this, s
      ensures Valid() && (View(), b) == Next(old(View()))
    {
      NextInvertible(View());
      i := (i + 1) % 256;
      var si: int := s[i];
      j := (j + si) % 256;
      var sj: int := s[j];
      s[i] := sj;
      s[j] := si;
      b := s[(si + sj) % 256];
    }

    /** arc4_getword */
    method GetWord() returns (val: uint32)
      requires Valid()
      modifies this, s
      ensures Valid()
      ensures var a := Next(old(View())); var b := Next(a.0); var c := Next(b.0); var d := Next(c.0);
        View() == d.0 && val == a.1 * 0x100_0000 + b.1 * 0x1_0000 + c.1 * 0x100 + d.1
    {
      hide Next;
      var b0: int := GetByte();
      var b1: int := GetByte();
      var b2: int := GetByte();
      var b3: int := GetByte();
      val := b0 * 0x100_0000 + b1 * 0x1_0000 + b2 * 0x100 + b3;
    }

    /** The body of the loop in arc4_addrandom */
    method StirOnce(d: uchar)
      requires s.Length == 256
      modifies this, s
      ensures View() == Stir(old(View()), d)
    {
      i := (i + 1) % 256;
      var si: int := s[i];
      j := (j + si + d) % 256;
      s[i] := s[j];
      s[j] := si;
    }

    /** arc4_addrandom */
    method AddRandom(dat: seq<uchar>)
      requires Valid() && dat != []
      modifies this, s
      ensures Valid() && View() == Added(old(View()), dat)
    {
      hide At, Stream.Ok, Stir;
      AddedOk(View(), dat);
      ghost var start := View().(i := Byte(i - 1));
      i := (i - 1) % 256;
      var n := 0;
      while n < 256
        invariant 0 <= n <= 256 && s.Length == 256
        invariant View() == Stirred(start, dat, n)
      {
        StirOnce(At(dat, n));
        n := n + 1;
      }
      j := i;
    }
  }
}
