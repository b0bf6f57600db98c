/** Finding and taking out lines. */
module EvBufferLines {
  import opened ChainValues
  import opened EvBuffers
  import opened EvBufferSearch
  import opened Options

  const CR: byte := 13
  const LF: byte := 10
  const NUL: byte := 0
  const CHUNK_SZ: nat := 128

  /** enum evbuffer_eol_style */
  datatype EolStyle = EolAny | EolCrlf | EolCrlfStrict | EolLf | EolNul

  // ---- what a line terminator is ----

  /** No byte of `set` in `data[from..to]`. */
  ghost predicate Clean(data: seq<byte>, chars: set<byte>, from: int, to: int) {
    forall i :: from <= i < to && 0 <= i < |data| ==> data[i] !in chars
  }

  /** The first byte of `chars` at or behind `from` is at `i`. */
  ghost predicate FirstOf(data: seq<byte>, chars: set<byte>, from: nat, i: int) {
    from <= i < |data| && data[i] in chars && Clean(data, chars, from, i)
  }

  /** `n` is the length of the longest run of bytes of `chars` that starts at `i`. */
  ghost predicate LongestRun(data: seq<byte>, chars: set<byte>, i: nat, n: nat) {
    && i + n <= |data|
    && (forall j :: i <= j < i + n ==> data[j] in chars)
    && (i + n < |data| ==> data[i + n] !in chars)
  }

  /** Looking from `from` on, the first terminator of this style is the `n` bytes at `i`. */
  ghost predicate Terminator(data: seq<byte>, style: EolStyle, from: nat, i: nat, n: nat) {
    match style
    case EolAny => FirstOf(data, {CR, LF}, from, i) && LongestRun(data, {CR, LF}, i, n)
    case EolCrlfStrict => n == 2 && from <= i && Occurs(data, [CR, LF], i) && NoneIn(data, [CR, LF], from, i)
    case EolCrlf => 1 <= n <= 2 && FirstOf(data, {LF}, from, i + n - 1) && from <= i
      && if n == 2 then data[i] == CR else from == i || data[i - 1] != CR
    case EolLf => n == 1 && FirstOf(data, {LF}, from, i)
    case EolNul => n == 1 && FirstOf(data, {NUL}, from, i)
  }

  /** There is at most one such terminator. */
  lemma TerminatorUnique(data: seq<byte>, style: EolStyle, from: nat, i: nat, n: nat, i': nat, n': nat)
    requires Terminator(data, style, from, i, n) && Terminator(data, style, from, i', n')
    ensures i == i' && n == n'
  {
    match style
    case EolAny =>
      assert i == i' by { assert data[i] in {CR, LF} && data[i'] in {CR, LF}; }
    case EolCrlf =>
      assert i + n - 1 == i' + n' - 1;
    case _ =>
  }

  /** What a writer may end a line with so that it is one of this style. */
  predicate EndsLine(style: EolStyle, eol: seq<byte>) {
    match style
    case EolAny => eol != [] && forall j :: 0 <= j < |eol| ==> eol[j] == 13 || eol[j] == 10
    case EolCrlfStrict => eol == [13, 10]
    case EolCrlf => eol == [10] || eol == [13, 10]
    case EolLf => eol == [10]
    case EolNul => eol == [0]
  }

  /** A line written with its terminator is found again, as it was written, whatever follows. */
  lemma LineComesBack(line: seq<byte>, eol: seq<byte>, rest: seq<byte>, style: EolStyle)
    requires EndsLine(style, eol) && forall j :: 0 <= j < |line| ==> line[j] != 13 && line[j] != 10 && line[j] != 0
    requires style == EolAny && rest != [] ==> rest[0] != 13 && rest[0] != 10
    ensures Terminator(line + eol + rest, style, 0, |line|, |eol|)
  {
    var data := line + eol + rest;
    assert forall j :: 0 <= j < |line| ==> data[j] == line[j];
    assert forall j :: 0 <= j < |eol| ==> data[|line| + j] == eol[j];
    assert rest != [] ==> data[|line| + |eol|] == rest[0];
    if style == EolCrlfStrict {
      assert data[|line|..][..2] == [CR, LF];
      forall i: nat | i < |line|
        ensures !Occurs(data, [CR, LF], i)
      {
        assert i + 2 <= |data| ==> data[i..][..2][0] == data[i];
      }
    }
  }

  // ---- scanning ----

  /** find_eol_char: the offset of the first CR or LF in `n` bytes, or -1 */
  method FindEolInRun(a: array<byte>, from: nat, n: nat) returns (r: int)
    requires from + n <= a.Length
    ensures r == -1 || (0 <= r < n && a[from + r] in {CR, LF})
    ensures forall j :: from <= j < from + (if r < 0 then n else r) ==> a[j] !in {CR, LF}
  {
    var s := 0;
    while s < n
      invariant forall j :: from <= j < from + s && j < from + n ==> a[j] !in {CR, LF}
    {
      var chunk := if s + CHUNK_SZ < n then CHUNK_SZ else n - s;
      var cr := Memchr(a, from + s, chunk, CR);
      var lf := Memchr(a, from + s, chunk, LF);
      if cr >= 0 {
        if lf >= 0 && lf < cr {
          return s + lf;
        }
        return s + cr;
      } else if lf >= 0 {
        return s + lf;
      }
      s := s + CHUNK_SZ;
    }
    return -1;
  }

  /** A run of chunk `k` without a byte of `chars`. */
  lemma CleanRun(vs: seq<Val>, k: nat, o: nat, n: nat, chars: set<byte>)
    requires k < |vs| && vs[k].Ok() && o + n <= vs[k].off
    requires forall j :: vs[k].misalign + o <= j < vs[k].misalign + o + n ==> vs[k].mem[j] !in chars
    ensures Clean(Content(vs), chars, |Content(vs[..k])| + o, |Content(vs[..k])| + o + n)
  {
    hide Content; hide Val.Bytes;
    var start := |Content(vs[..k])|;
    forall i | start + o <= i < start + o + n && 0 <= i < |Content(vs)|
      ensures Content(vs)[i] !in chars
    {
      ByteAt(vs, k, i - start);
    }
  }

  lemma CleanJoin(data: seq<byte>, chars: set<byte>, a: int, b: int, c: int)
    requires Clean(data, chars, a, b) && Clean(data, chars, b, c)
    ensures Clean(data, chars, a, c)
  {
  }

  /** Looks through one chain from `p` on; eol says whether for CR or LF, or for the one byte `c`. */
  method FindInChain(buf: EvBuffer, p: Ptr, eol: bool, c: byte, ghost k: nat) returns (q: Ptr, found: bool)
    requires buf.Valid() && Denotes(buf, p, k) && k < |buf.chains|
    ensures var chars := if eol then {CR, LF} else {c};
      && q.pos >= p.pos && Clean(buf.Contents(), chars, p.pos, q.pos)
      && (found ==> Denotes(buf, q, k) && q.inChain < buf.vals[k].off && 0 <= q.pos < |buf.Contents()| && buf.Contents()[q.pos] in chars)
      && (!found ==> Denotes(buf, q, k + 1))
  {
    hide Content; hide Val.Bytes; hide EvBuffer.Spine;
    buf.WiredShape();
    buf.WiredAt(k);
    BufferOk(buf, k);
    var chain, r := p.chain, 0;
    if eol {
      r := FindEolInRun(chain.buffer, chain.misalign + p.inChain, chain.off - p.inChain);
    } else {
      r := Memchr(chain.buffer, chain.misalign + p.inChain, chain.off - p.inChain, c);
    }
    ghost var chars := if eol then {CR, LF} else {c};
    if r >= 0 {
      CleanRun(buf.vals, k, p.inChain, r, chars);
      ByteAt(buf.vals, k, p.inChain + r);
      return Ptr(p.pos + r, chain, p.inChain + r), true;
    }
    CleanRun(buf.vals, k, p.inChain, chain.off - p.inChain, chars);
    PrefixLength(buf.vals, k);
    return Ptr(p.pos + chain.off - p.inChain, chain.next, 0), false;
  }

  /** evbuffer_find_eol_char (eol) and evbuffer_strchr (otherwise) */
  method Find(buf: EvBuffer, it: Ptr, eol: bool, c: byte) returns (q: Ptr, found: bool)
    requires buf.Valid() && Good(buf, it)
    ensures var chars := if eol then {CR, LF} else {c};
      && (found ==> FirstOf(buf.Contents(), chars, it.pos, q.pos) && q == Position(buf, q.pos) && Good(buf, q))
      && (!found ==> Clean(buf.Contents(), chars, it.pos, |buf.Contents()|))
  {
    hide Content; hide Val.Bytes; hide EvBuffer.Wired; hide Denotes; hide Clean; hide DataIndex;
    ghost var chars := if eol then {CR, LF} else {c};
    ghost var k: nat :| Denotes(buf, it, k);
    q := it;
    InData(buf, q, k);
    CleanNone(buf.Contents(), chars, it.pos);
    while q.chain != null
      invariant Denotes(buf, q, k) && it.pos <= q.pos && Clean(buf.Contents(), chars, it.pos, q.pos)
      decreases |buf.chains| - k
    {
      InData(buf, q, k);
      ghost var before := q.pos;
      q, found := FindInChain(buf, q, eol, c, k);
      CleanJoin(buf.Contents(), chars, it.pos, before, q.pos);
      if found {
        InData(buf, q, k);
        PositionAt(buf, q, k);
        return;
      }
      k := k + 1;
    }
    AtEnd(buf, q, k);
    return q, false;
  }

  lemma CleanNone(data: seq<byte>, chars: set<byte>, i: int)
    ensures Clean(data, chars, i, i)
  {
  }

  lemma PositionAt(buf: EvBuffer, p: Ptr, k: nat)
    requires buf.Valid() && Denotes(buf, p, k) && k < |buf.vals| && p.inChain < buf.vals[k].off
    ensures p == Position(buf, p.pos)
  {
    hide Content; hide Locate; hide Val.Bytes; hide EvBuffer.Valid;
    BufferOk(buf, k);
    LocateAt(buf.vals, k, p.inChain);
  }

  lemma AtEnd(buf: EvBuffer, p: Ptr, k: nat)
    requires buf.Valid() && Denotes(buf, p, k) && p.chain == null
    ensures p.pos == |buf.Contents()|
  {
    WholeContent(buf.vals);
  }

  /** All bytes of `data[from..to]` are of `chars`. */
  ghost predicate AllOf(data: seq<byte>, chars: set<byte>, from: int, to: int) {
    forall i :: from <= i < to && 0 <= i < |data| ==> data[i] in chars
  }

  /** How many bytes of `chars` stand at the start of the rest of one chain. */
  method SpanInChain(buf: EvBuffer, chain: Chain, at: nat, ghost k: nat) returns (n: nat)
    requires buf.Valid() && k < |buf.chains| && chain == buf.chains[k] && at <= buf.vals[k].off
    ensures at + n <= buf.vals[k].off && chain.off == buf.vals[k].off && chain.next == buf.At(k + 1)
    ensures AllOf(buf.Contents(), {CR, LF}, |Content(buf.vals[..k])| + at, |Content(buf.vals[..k])| + at + n)
    ensures at + n < buf.vals[k].off ==>
      && |Content(buf.vals[..k])| + at + n < |buf.Contents()|
      && buf.Contents()[|Content(buf.vals[..k])| + at + n] !in {CR, LF}
  {
    hide Content; hide Val.Bytes; hide EvBuffer.Spine;
    buf.WiredAt(k);
    BufferOk(buf, k);
    n := 0;
    while at + n < chain.off
      invariant at + n <= chain.off
      invariant AllOf(buf.Contents(), {CR, LF}, |Content(buf.vals[..k])| + at, |Content(buf.vals[..k])| + at + n)
    {
      ByteAt(buf.vals, k, at + n);
      if chain.buffer[chain.misalign + at + n] !in {CR, LF} {
        return;
      }
      n := n + 1;
    }
  }

  /** evbuffer_strspn for the set CR, LF */
  method Span(buf: EvBuffer, p: Ptr) returns (count: nat)
    requires buf.Valid() && Good(buf, p)
    ensures LongestRun(buf.Contents(), {CR, LF}, p.pos, count)
  {
    hide Content; hide Val.Bytes; hide EvBuffer.Valid; hide EvBuffer.Contents; hide AllOf;
    ghost var k: nat :| Denotes(buf, p, k);
    ghost var from := p.pos;
    TotalIs(buf);
    InData(buf, p, k);
    var chain, i: nat := p.chain, p.inChain;
    count := 0;
    if chain == null {
      AtEnd(buf, p, k);
      return;
    }
    AllNone(buf.Contents(), from);
    while true
      invariant k < |buf.chains| && chain == buf.chains[k] && i <= buf.vals[k].off
      invariant from + count == |Content(buf.vals[..k])| + i
      invariant AllOf(buf.Contents(), {CR, LF}, from, from + count)
      decreases |buf.chains| - k
    {
      var n := SpanInChain(buf, chain, i, k);
      AllJoin(buf.Contents(), from, from + count, from + count + n);
      count := count + n;
      ghost var here := Ptr(from + count, chain, i + n);
      assert Denotes(buf, here, k);
      InData(buf, here, k);
      if i + n < chain.off {
        RunEnds(buf.Contents(), from, count);
        return;
      }
      BufferOk(buf, k);
      PrefixLength(buf.vals, k);
      if chain.next == null {
        WholeContent(buf.vals);
        RunEnds(buf.Contents(), from, count);
        return;
      }
      chain, i, k := chain.next, 0, k + 1;
    }
  }

  lemma AllNone(data: seq<byte>, i: int)
    ensures AllOf(data, {CR, LF}, i, i)
  {
  }

  lemma AllJoin(data: seq<byte>, a: int, b: int, c: int)
    requires AllOf(data, {CR, LF}, a, b) && AllOf(data, {CR, LF}, b, c)
    ensures AllOf(data, {CR, LF}, a, c)
  {
  }

  lemma RunEnds(data: seq<byte>, i: nat, n: nat)
    requires AllOf(data, {CR, LF}, i, i + n) && i + n <= |data|
    requires i + n < |data| ==> data[i + n] !in {CR, LF}
    ensures LongestRun(data, {CR, LF}, i, n)
  {
  }

  /** evbuffer_getchr, as a test for one byte */
  method IsChar(buf: EvBuffer, it: Ptr, c: byte) returns (yes: bool)
    requires buf.Valid() && 0 <= it.pos < buf.totalLen && it == Position(buf, it.pos)
    ensures yes <==> buf.Contents()[it.pos] == c
  {
    hide Content; hide Val.Bytes; hide EvBuffer.Wired; hide DataIndex;
    buf.WiredShape();
    ghost var (k, o) := Locate(buf.vals, it.pos);
    LocateGood(buf.vals, it.pos);
    WholeContent(buf.vals);
    var chain := it.chain;
    buf.WiredAt(k);
    BufferOk(buf, k);
    ByteAt(buf.vals, k, o);
    return chain.buffer[chain.misalign + it.inChain] == c;
  }

  // ---- evbuffer_search_eol ----

  /** What evbuffer_search_eol promises. */
  ghost predicate EolFound(buf: EvBuffer, style: EolStyle, from: nat, it: Ptr, eolLen: nat)
    reads buf
  {
    if it.pos >= 0 then Terminator(buf.Contents(), style, from, it.pos, eolLen)
    else it == NOT_FOUND && eolLen == 0 && forall i: nat, n: nat :: !Terminator(buf.Contents(), style, from, i, n)
  }

  lemma NoTerminator(data: seq<byte>, style: EolStyle, from: nat)
    requires match style
      case EolAny => Clean(data, {CR, LF}, from, |data|)
      case EolCrlfStrict => forall i: nat :: from <= i ==> !Occurs(data, [CR, LF], i)
      case EolCrlf => Clean(data, {LF}, from, |data|)
      case EolLf => Clean(data, {LF}, from, |data|)
      case EolNul => Clean(data, {NUL}, from, |data|)
    ensures forall i: nat, n: nat :: !Terminator(data, style, from, i, n)
  {
  }

  /** The case of EVBUFFER_EOL_CRLF: an LF, and the CR in front of it if there is one. */
  method SearchCrlf(buf: EvBuffer, start: Ptr) returns (it: Ptr, eolLen: nat)
    requires buf.Valid() && buf.totalLen <= SIZE_MAX && Good(buf, start) && start.pos >= 0
    ensures EolFound(buf, EolCrlf, start.pos, it, eolLen)
  {
    hide Content; hide Val.Bytes; hide EvBuffer.Wired; hide Good; hide Position; hide NoneIn; hide Occurs;
    var found;
    it, found := Find(buf, start, false, LF);
    if !found {
      NoTerminator(buf.Contents(), EolCrlf, start.pos);
      return NOT_FOUND, 0;
    }
    if it.pos == start.pos {
      return it, 1;
    }
    eolLen := 1;
    var r, it2 := SubtractPtr(buf, it, 1);
    if r >= 0 {
      var cr := IsChar(buf, it2, CR);
      if cr {
        return it2, 2;
      }
    }
  }

  /** evbuffer_search_eol */
  method SearchEol(buf: EvBuffer, start: Option<Ptr>, style: EolStyle) returns (it: Ptr, eolLen: nat)
    requires buf.Valid() && buf.totalLen <= SIZE_MAX
    requires start.Some? ==> start.value.chain == null || (Good(buf, start.value) && start.value.pos >= 0)
    ensures start.Some? && start.value.chain == null ==> it == NOT_FOUND && eolLen == 0
    ensures !(start.Some? && start.value.chain == null) ==> EolFound(buf, style, if start.Some? then start.value.pos else 0, it, eolLen)
  {
    hide Content; hide Val.Bytes; hide EvBuffer.Wired; hide Good; hide Position; hide NoneIn; hide Occurs; hide Denotes;
    if start.Some? && start.value.chain == null {
      return NOT_FOUND, 0;
    }
    it := if start.Some? then start.value else Ptr(0, buf.first, 0);
    if start.None? {
      StartGood(buf);
    }
    ghost var from := it.pos;
    var found;
    match style {
      case EolAny =>
        it, found := Find(buf, it, true, LF);
        if !found {
          NoTerminator(buf.Contents(), style, from);
          return NOT_FOUND, 0;
        }
        eolLen := Span(buf, it);
      case EolCrlfStrict =>
        it := SearchRange(buf, [CR, LF], Some(it), None);
        if it.pos < 0 {
          NoTerminator(buf.Contents(), style, from);
          return NOT_FOUND, 0;
        }
        eolLen := 2;
      case EolCrlf =>
        it, eolLen := SearchCrlf(buf, it);
      case EolLf =>
        it, found := Find(buf, it, false, LF);
        if !found {
          NoTerminator(buf.Contents(), style, from);
          return NOT_FOUND, 0;
        }
        eolLen := 1;
      case EolNul =>
        it, found := Find(buf, it, false, NUL);
        if !found {
          NoTerminator(buf.Contents(), style, from);
          return NOT_FOUND, 0;
        }
        eolLen := 1;
    }
  }

  // ---- evbuffer_readln ----

  lemma TerminatorInData(data: seq<byte>, style: EolStyle, from: nat, i: nat, n: nat)
    requires Terminator(data, style, from, i, n)
    ensures 0 < n && i + n <= |data|
  {
    hide NoneIn;
    assert style == EolAny ==> data[i] in {CR, LF};
  }

  /** evbuffer_readln */
  method ReadLn(buf: EvBuffer, style: EolStyle) returns (line: Option<seq<byte>>, nRead: nat, ghost eolLen: nat)
    requires buf.Valid() && buf.totalLen <= SIZE_MAX
    modifies buf.Repr
    ensures buf.Valid() && fresh(buf.Repr - old(buf.Repr))
    ensures line.Some? ==>
      && !buf.freezeStart && nRead == |line.value|
      && Terminator(old(buf.Contents()), style, 0, nRead, eolLen)
      && nRead + eolLen <= |old(buf.Contents())|
      && line.value == old(buf.Contents())[..nRead]
      && buf.Contents() == old(buf.Contents())[nRead + eolLen..]
    ensures line.None? ==>
      && nRead == 0 && buf.Contents() == old(buf.Contents())
      && (buf.freezeStart || forall i: nat, n: nat :: !Terminator(buf.Contents(), style, 0, i, n))
    ensures buf.freezeEnd == old(buf.freezeEnd) && buf.freezeStart == old(buf.freezeStart)
  {
    hide Content; hide EvBuffer.Wired; hide Terminator;
    line, nRead, eolLen := None, 0, 0;
    if buf.freezeStart {
      return;
    }
    var it, extraDrain := SearchEol(buf, None, style);
    if it.pos < 0 {
      return;
    }
    TerminatorInData(buf.Contents(), style, 0, it.pos, extraDrain);
    var n, data := Remove(buf, it.pos);
    var ok, uses := buf.Drain(extraDrain);
    line, nRead, eolLen := Some(data), it.pos, extraDrain;
  }
}
