/** Command submission through two rings: words in the push buffer, and segments of it in the
    indirect buffer. The device consumes both; whatever the interleaving, it receives a prefix
    of the words written. */
module Fifo {
  import opened Arith
  import opened Bits

  /** Words `start` up to `start + len` of the stream, published together. */
  datatype Segment = Segment(start: nat, len: nat)

  /** Where the published part of the stream ends. */
  ghost function End(es: seq<Segment>): nat {
    if es == [] then 0 else es[|es| - 1].start + es[|es| - 1].len
  }

  /** Where the part before entry `i` ends. */
  ghost function StartAt(es: seq<Segment>, i: nat): nat
    requires i <= |es|
  {
    if i < |es| then es[i].start else End(es)
  }

  /** A segment that is not empty, does not wrap in a ring of `n` words, and begins at `start`. */
  ghost predicate Follows(seg: Segment, start: nat, n: nat)
    requires 0 < n
  {
    0 < seg.len && Slot(seg.start, n) + seg.len <= n && seg.start == start
  }

  /** Segments follow each other without gaps from the start of the stream. */
  ghost predicate Contiguous(es: seq<Segment>, n: nat)
    requires 0 < n
  {
    es == [] || (Contiguous(es[..|es| - 1], n) && Follows(es[|es| - 1], End(es[..|es| - 1]), n))
  }

  /** Each segment ends where the next begins. */
  lemma {:induction false} NextStart(es: seq<Segment>, n: nat, i: nat)
    requires 0 < n && Contiguous(es, n) && i < |es|
    ensures Follows(es[i], StartAt(es, i), n) && StartAt(es, i + 1) == es[i].start + es[i].len
  {
    if i < |es| - 1 {
      NextStart(es[..|es| - 1], n, i);
    }
  }

  lemma StartBeforeEnd(es: seq<Segment>, n: nat, i: nat)
    requires 0 < n && Contiguous(es, n) && i <= |es|
    ensures StartAt(es, i) <= End(es)
    decreases |es| - i
  {
    if i < |es| {
      NextStart(es, n, i);
      StartBeforeEnd(es, n, i + 1);
    }
  }

  lemma ContiguousAppend(es: seq<Segment>, seg: Segment, n: nat, i: nat)
    requires 0 < n && Contiguous(es, n) && i <= |es| && Follows(seg, End(es), n)
    ensures Contiguous(es + [seg], n) && End(es + [seg]) == seg.start + seg.len
    ensures StartAt(es + [seg], i) == StartAt(es, i)
  {
    assert (es + [seg])[..|es|] == es;
  }

  /** The words from `p` to the end of a ring of `n` words. */
  ghost function ToEnd(p: nat, n: nat): Segment
    requires 0 < n
  {
    Segment(p, n - Slot(p, n))
  }

  /** What one fire publishes: nothing, one segment, or two around the end of the ring. */
  ghost function Fired(p: nat, w: nat, n: nat): seq<Segment>
    requires p <= w < p + n
  {
    var rest := ToEnd(p, n).len;
    if p == w then []
    else if w - p < rest then [Segment(p, w - p)]
    else if w - p == rest then [ToEnd(p, n)]
    else [ToEnd(p, n), Segment(p + rest, w - p - rest)]
  }

  // ---------------------------------------------------------------- entry encoding

  const BYTE40: nat := 0x100_0000_0000
  const WORD32: nat := 0x1_0000_0000

  /** `base | len << 40 | flags << 40` with no flags. */
  function EntryWord(base: nat, len: nat): nat {
    Or(Or(base, len * Pow2(40)), 0 * Pow2(40))
  }

  /** The two 32-bit halves of an entry. */
  function Pack(base: nat, len: nat): (nat, nat) {
    (EntryWord(base, len) % WORD32, EntryWord(base, len) / WORD32 % WORD32)
  }

  /** The device's reading of an entry: 40 bits of address, 24 bits of length. */
  function Unpack(lo: nat, hi: nat): (nat, nat) {
    (lo + hi % 0x100 * WORD32, hi / 0x100)
  }

  lemma Pow2of40()
    ensures Pow2(40) == BYTE40
  {
    assert Pow2(10) == 1024;
    Pow2Add(10, 10);
    Pow2Add(20, 20);
  }

  lemma Pow2Add(a: nat, b: nat)
    ensures Pow2(a + b) == Pow2(a) * Pow2(b)
  {
    if a > 0 {
      Pow2Add(a - 1, b);
    }
  }

  /** Packing loses nothing of a 40-bit address and a 24-bit length: the address is in the lower 40 bits of
      the two words and the length in the upper 24. */
  lemma UnpackPack(base: nat, len: nat)
    requires base < BYTE40 && len < 0x100_0000
    ensures
      var (lo, hi) := Pack(base, len);
      && lo < WORD32 && hi < WORD32 && Unpack(lo, hi) == (base, len)
      && lo + hi * WORD32 == base + len * BYTE40
  {
    EntryWordIsSum(base, len);
    HalvesOf(base, len);
    WrapAt(EntryWord(base, len) / WORD32, WORD32);
  }

  lemma EntryWordIsSum(base: nat, len: nat)
    requires base < BYTE40
    ensures EntryWord(base, len) == base + len * BYTE40
  {
    Pow2of40();
    OrField(base, len, 40);
  }

  lemma HalvesOf(base: nat, len: nat)
    requires base < BYTE40 && len < 0x100_0000
    ensures
      var w := base + len * BYTE40;
      var lo, hi := w % WORD32, w / WORD32;
      hi < WORD32 && hi / 0x100 == len && lo + hi % 0x100 * WORD32 == base
  {
    var w, top, low := base + len * BYTE40, base / WORD32, base % WORD32;
    var hi := top + len * 0x100;
    assert w == hi * WORD32 + low;
    assert w / WORD32 == hi && w % WORD32 == low;
    assert hi / 0x100 == len && hi % 0x100 == top;
  }

  /** The position registers: 40 bits of address in two halves, with a valid bit on top. The distance from
      the base is kept in 32 bits. */
  function DecodeGet(lo: nat, hi: nat, pbBase: nat): (r: nat)
    ensures r < WORD32
  {
    if hi / 0x8000_0000 % 2 == 1 then ((hi * WORD32 + lo) % BYTE40 - pbBase) % WORD32 else 0
  }

  /** The halves are read one after the other, and the device may move in between, from address `a` to
      address `b`. What is decoded is the position at the first read, since the upper halves differ by a
      multiple of what is cut off. */
  lemma DecodeAddress(a: nat, b: nat, junk: nat, pbBase: nat)
    requires a < BYTE40 && b < BYTE40 && junk < 0x80_0000 && pbBase <= a < pbBase + WORD32
    ensures DecodeGet(a % WORD32, 0x8000_0000 + junk * 0x100 + b / WORD32, pbBase) == a - pbBase
  {
    MixedHalves(a % WORD32, b, junk);
    var mixed := b / WORD32 * WORD32 + a % WORD32;
    assert a == a / WORD32 * WORD32 + a % WORD32;
    assert mixed - pbBase == a - pbBase + (b / WORD32 - a / WORD32) * WORD32;
    CutOff(a - pbBase, b / WORD32 - a / WORD32);
  }

  lemma MixedHalves(low: nat, b: nat, junk: nat)
    requires low < WORD32 && b < BYTE40 && junk < 0x80_0000
    ensures
      var hi := 0x8000_0000 + junk * 0x100 + b / WORD32;
      hi / 0x8000_0000 % 2 == 1 && (hi * WORD32 + low) % BYTE40 == b / WORD32 * WORD32 + low
  {
    HalvesSum(b / WORD32, low, junk);
  }

  lemma HalvesSum(h: nat, low: nat, junk: nat)
    requires low < WORD32 && h < 0x100 && junk < 0x80_0000
    ensures
      var hi := 0x8000_0000 + junk * 0x100 + h;
      hi / 0x8000_0000 == 1 && (hi * WORD32 + low) % BYTE40 == h * WORD32 + low
  {
    var hi := 0x8000_0000 + junk * 0x100 + h;
    assert hi * WORD32 + low == (0x80_0000 + junk) * BYTE40 + (h * WORD32 + low);
  }

  lemma CutOff(x: nat, k: int)
    requires x < WORD32
    ensures (x + k * WORD32) % WORD32 == x
  {
  }

  /** If the device reports no position at the first read, but one at the second, the result is right just
      when the low register happens to hold that of the base. */
  lemma FirstReportIff(low: nat, b: nat, junk: nat, pbBase: nat)
    requires low < WORD32 && b < BYTE40 && junk < 0x80_0000
    ensures DecodeGet(low, 0x8000_0000 + junk * 0x100 + b / WORD32, pbBase) == 0 <==> low == pbBase % WORD32
  {
    MixedHalves(low, b, junk);
    var x := b / WORD32 * WORD32 + low - pbBase;
    SameRest(x, b / WORD32, low, pbBase);
  }

  lemma SameRest(x: int, h: nat, low: nat, base: nat)
    requires x == h * WORD32 + low - base && low < WORD32
    ensures x % WORD32 == 0 <==> low == base % WORD32
  {
    assert base == base / WORD32 * WORD32 + base % WORD32;
    assert x == (h - base / WORD32) * WORD32 + (low - base % WORD32);
  }

  // ---------------------------------------------------------------- ring positions

  /** Advancing a byte position by one word under the mask. */
  lemma MaskAdvance(x: nat, order: nat)
    requires 2 <= order
    ensures
      var words := Pow2(order - 2);
      && Pow2(order) == 4 * words
      && And(4 * Slot(x, words) + 4, Pow2(order) - 1) == 4 * Slot(x + 1, words)
  {
    var words := Pow2(order - 2);
    assert Pow2(order - 1) == 2 * words;
    AndMask(4 * Slot(x, words) + 4, order);
    SlotAdd(x, 1, words);
    WrapAt(4 * Slot(x, words) + 4, 4 * words);
  }

  lemma WrapAt(x: nat, m: nat)
    requires 0 < m && x <= m
    ensures x % m == if x == m then 0 else x
  {
  }

  /** Advancing an entry index under the mask. */
  lemma MaskNext(x: nat, order: nat)
    ensures And(Slot(x, Pow2(order)) + 1, Pow2(order) - 1) == Slot(x + 1, Pow2(order))
  {
    var m := Pow2(order);
    AndMask(Slot(x, m) + 1, order);
    SlotAdd(x, 1, m);
    WrapAt(Slot(x, m) + 1, m);
  }

  /** The stream from word `from` on lies in the ring. */
  ghost predicate WordsAt(ring: seq<nat>, from: nat, stream: seq<nat>)
    requires 0 < |ring|
    decreases |stream|
  {
    |stream| <= from ||
    (ring[Slot(|stream| - 1, |ring|)] == stream[|stream| - 1] && WordsAt(ring, from, stream[..|stream| - 1]))
  }

  lemma {:induction false} WordAt(ring: seq<nat>, from: nat, stream: seq<nat>)
    requires 0 < |ring| && WordsAt(ring, from, stream) && from < |stream|
    ensures ring[Slot(from, |ring|)] == stream[from] && WordsAt(ring, from + 1, stream)
    decreases |stream|
  {
    if from < |stream| - 1 {
      WordAt(ring, from, stream[..|stream| - 1]);
    }
  }

  /** A cell that no word from `from` on uses can be overwritten. */
  lemma {:induction false} WordsKept(ring: seq<nat>, from: nat, stream: seq<nat>, w: nat, word: nat)
    requires 0 < |ring| && WordsAt(ring, from, stream) && |stream| <= w < from + |ring|
    ensures WordsAt(ring[Slot(w, |ring|) := word], from, stream)
    decreases |stream|
  {
    if from < |stream| {
      SlotDiffer(|stream| - 1, w, |ring|);
      WordsKept(ring, from, stream[..|stream| - 1], w, word);
    }
  }

  /** What an entry says in bytes. */
  ghost function Extent(seg: Segment, pbBase: nat, n: nat): (nat, nat)
    requires 0 < n
  {
    (pbBase + 4 * Slot(seg.start, n), 4 * seg.len)
  }

  /** Two words that, the second above the first, hold the address of the segment in the lower 40 bits and
      its length in bytes in the upper 24. */
  ghost predicate Describes(lo: nat, hi: nat, seg: Segment, pbBase: nat, n: nat)
    requires 0 < n
  {
    && lo < 0x1_0000_0000 && hi < 0x1_0000_0000
    && lo + hi * 0x1_0000_0000 == pbBase + 4 * Slot(seg.start, n) + 4 * seg.len * 0x100_0000_0000
  }

  /** So the device reads the segment from them. */
  lemma DescribedIsRead(lo: nat, hi: nat, seg: Segment, pbBase: nat, n: nat)
    requires 0 < n && pbBase + 4 * n <= BYTE40 && Describes(lo, hi, seg, pbBase, n)
    ensures Unpack(lo, hi) == Extent(seg, pbBase, n)
  {
    FieldsOf(lo, hi, pbBase + 4 * Slot(seg.start, n), 4 * seg.len);
  }

  lemma FieldsOf(lo: nat, hi: nat, base: nat, len: nat)
    requires lo < WORD32 && base < BYTE40 && lo + hi * WORD32 == base + len * BYTE40
    ensures Unpack(lo, hi) == (base, len)
  {
    var top := base / WORD32;
    assert base == top * WORD32 + base % WORD32 && top < 0x100;
    assert hi == top + len * 0x100 && lo == base % WORD32;
    assert hi % 0x100 == top && hi / 0x100 == len;
  }

  /** Cell pair `i` of the indirect ring describes the segment. */
  ghost predicate EntryAt(ring: seq<nat>, i: nat, seg: Segment, pbBase: nat, n: nat)
    requires 2 * i + 1 < |ring| && 0 < n
  {
    Describes(ring[2 * i], ring[2 * i + 1], seg, pbBase, n)
  }

  /** The entries from `from` on lie in the indirect ring of `m` entries. */
  ghost predicate EntriesAt(ring: seq<nat>, m: nat, from: nat, es: seq<Segment>, pbBase: nat, n: nat)
    requires 0 < m && |ring| == 2 * m && 0 < n
    decreases |es|
  {
    |es| <= from ||
    (EntryAt(ring, Slot(|es| - 1, m), es[|es| - 1], pbBase, n) && EntriesAt(ring, m, from, es[..|es| - 1], pbBase, n))
  }

  lemma {:induction false} EntryOf(ring: seq<nat>, m: nat, from: nat, es: seq<Segment>, pbBase: nat, n: nat)
    requires 0 < m && |ring| == 2 * m && 0 < n && EntriesAt(ring, m, from, es, pbBase, n) && from < |es|
    ensures EntryAt(ring, Slot(from, m), es[from], pbBase, n) && EntriesAt(ring, m, from + 1, es, pbBase, n)
    decreases |es|
  {
    if from < |es| - 1 {
      EntryOf(ring, m, from, es[..|es| - 1], pbBase, n);
    }
  }

  /** A pair of cells that no entry from `from` on uses can be overwritten. */
  lemma {:induction false} EntriesKept(
    ring: seq<nat>, ring': seq<nat>, m: nat, from: nat, es: seq<Segment>, pbBase: nat, n: nat, e: nat)
    requires 0 < m && |ring| == |ring'| == 2 * m && 0 < n
    requires EntriesAt(ring, m, from, es, pbBase, n) && |es| <= e < from + m
    requires forall i :: 0 <= i < 2 * m && i / 2 != Slot(e, m) ==> ring[i] == ring'[i]
    ensures EntriesAt(ring', m, from, es, pbBase, n)
    decreases |es|
  {
    if from < |es| {
      SlotDiffer(|es| - 1, e, m);
      EntriesKept(ring, ring', m, from, es[..|es| - 1], pbBase, n, e);
    }
  }

  // ---------------------------------------------------------------- the stream behind the rings

  /** The two rings of `n` words and `m` entries, the stream so far, and the counters of both sides. */
  datatype Stream = Stream(
    n: nat, m: nat, base: nat, ring: seq<nat>, ib: seq<nat>,
    written: seq<nat>, entries: seq<Segment>, known: nat, knownIb: nat,
    received: seq<nat>, fetched: nat)

  /** Words the device still has to read of the entries it has fetched. */
  ghost function Left(v: Stream): int
    requires v.fetched <= |v.entries|
  {
    StartAt(v.entries, v.fetched) - |v.received|
  }

  /** The counters are in order and less than a ring apart, unread data is where they say, and
      the device has received the stream so far. */
  ghost predicate Core(v: Stream) {
    && 0 < v.n && 0 < v.m && |v.ring| == v.n && |v.ib| == 2 * v.m
    && v.knownIb <= v.fetched <= |v.entries| < v.knownIb + v.m
    && v.known <= |v.received| <= End(v.entries) && 0 <= Left(v)
    && End(v.entries) <= |v.written| < v.known + v.n
    && |v.received| <= |v.written| && v.received == v.written[..|v.received|]
    && Contiguous(v.entries, v.n)
    && WordsAt(v.ring, |v.received|, v.written)
    && EntriesAt(v.ib, v.m, v.fetched, v.entries, v.base, v.n)
    && (0 < Left(v) ==> Slot(|v.received|, v.n) + Left(v) <= v.n)
  }

  ghost function AfterRead(v: Stream): Stream
    requires 0 < v.n && |v.ring| == v.n
  {
    v.(received := v.received + [v.ring[Slot(|v.received|, v.n)]])
  }

  /** The device reads the next word of its segment: it is the next word of the stream. */
  lemma ReadKeepsCore(v: Stream)
    requires Core(v) && 0 < Left(v)
    ensures Core(AfterRead(v)) && Left(AfterRead(v)) == Left(v) - 1
    ensures |AfterRead(v).received| <= End(v.entries)
    ensures 0 < Left(AfterRead(v)) ==> Slot(|v.received| + 1, v.n) == Slot(|v.received|, v.n) + 1
  {
    var r := |v.received|;
    StartBeforeEnd(v.entries, v.n, v.fetched);
    WordAt(v.ring, r, v.written);
    assert v.written[..r + 1] == v.written[..r] + [v.written[r]];
    SlotAdd(r, 1, v.n);
  }

  /** The device fetches the next entry: it describes the next words of the stream. */
  lemma FetchKeepsCore(v: Stream)
    requires Core(v) && Left(v) == 0 && v.fetched < |v.entries|
    ensures
      var seg := v.entries[v.fetched];
      && EntryAt(v.ib, Slot(v.fetched, v.m), seg, v.base, v.n) && seg.start == |v.received|
      && Left(v.(fetched := v.fetched + 1)) == seg.len > 0
    ensures Core(v.(fetched := v.fetched + 1))
  {
    NextStart(v.entries, v.n, v.fetched);
    EntryOf(v.ib, v.m, v.fetched, v.entries, v.base, v.n);
  }

  lemma DrainedStream(v: Stream)
    requires Core(v) && Left(v) == 0 && Slot(v.fetched, v.m) == Slot(|v.entries|, v.m)
    ensures v.fetched == |v.entries| && |v.received| == End(v.entries)
  {
    if v.fetched < |v.entries| {
      SlotDiffer(v.fetched, |v.entries|, v.m);
    }
  }

  ghost function AfterWrite(v: Stream, word: nat): Stream
    requires 0 < v.n && |v.ring| == v.n
  {
    v.(written := v.written + [word], ring := v.ring[Slot(|v.written|, v.n) := word])
  }

  /** Writing into a free cell overwrites no unread word. */
  lemma WriteKeepsCore(v: Stream, word: nat)
    requires Core(v) && |v.written| + 1 < v.known + v.n
    ensures Core(AfterWrite(v, word))
  {
    var w, v' := |v.written|, AfterWrite(v, word);
    WordsKept(v.ring, |v.received|, v.written, w, word);
    assert v'.written[..w] == v.written && v'.written[..|v.received|] == v.written[..|v.received|];
  }

  ghost function AfterPush(v: Stream, seg: Segment, lo: nat, hi: nat): Stream
    requires 0 < v.m && |v.ib| == 2 * v.m
  {
    var i := Slot(|v.entries|, v.m);
    v.(entries := v.entries + [seg], ib := v.ib[2 * i := lo][2 * i + 1 := hi])
  }

  /** A stretch of unpublished words that does not wrap, next in line. */
  ghost predicate Publishable(v: Stream, seg: Segment)
    requires 0 < v.n
  {
    Follows(seg, End(v.entries), v.n) && seg.start + seg.len <= |v.written|
  }

  /** Publishing the words after the published ones overwrites no unfetched entry. */
  lemma PushKeepsCore(v: Stream, seg: Segment, lo: nat, hi: nat)
    requires Core(v) && |v.entries| + 1 < v.knownIb + v.m
    requires Publishable(v, seg)
    requires Describes(lo, hi, seg, v.base, v.n)
    ensures Core(AfterPush(v, seg, lo, hi)) && End(AfterPush(v, seg, lo, hi).entries) == seg.start + seg.len
  {
    var v' := AfterPush(v, seg, lo, hi);
    ContiguousAppend(v.entries, seg, v.n, v.fetched);
    PushEntries(v, seg, lo, hi);
  }

  lemma PushEntries(v: Stream, seg: Segment, lo: nat, hi: nat)
    requires 0 < v.n && 0 < v.m && |v.ib| == 2 * v.m && |v.entries| < v.fetched + v.m
    requires EntriesAt(v.ib, v.m, v.fetched, v.entries, v.base, v.n)
    requires Describes(lo, hi, seg, v.base, v.n)
    ensures
      var v' := AfterPush(v, seg, lo, hi);
      EntriesAt(v'.ib, v.m, v.fetched, v'.entries, v.base, v.n)
  {
    var n, v' := |v.entries|, AfterPush(v, seg, lo, hi);
    EntriesKept(v.ib, v'.ib, v.m, v.fetched, v.entries, v.base, v.n, n);
    assert v'.entries[..n] == v.entries;
  }

  /** The producer learns how far the device has come, or had come a little earlier. */
  lemma LearnKeepsCore(v: Stream, k: nat)
    requires Core(v) && v.known <= k <= |v.received|
    ensures Core(v.(known := k)) && Core(v.(knownIb := v.fetched))
  {
  }

  // ---------------------------------------------------------------- positions and registers

  /** The producer's positions, in bytes of the push buffer and entries of the indirect buffer;
      the device's index registers and the address and bytes left of the segment it reads. */
  datatype Regs = Regs(
    pbPos: nat, pbGet: nat, ibPut: nat, ibGet: nat,
    devIbPut: nat, devIbGet: nat, devAddr: nat, devLeft: nat)

  /** Positions and registers match the counters. */
  ghost predicate Match(v: Stream, r: Regs)
    requires Core(v)
  {
    && r.pbPos == 4 * Slot(|v.written|, v.n) && r.pbGet == 4 * Slot(v.known, v.n)
    && r.ibPut == Slot(|v.entries|, v.m) && r.ibGet == Slot(v.knownIb, v.m)
    && r.devIbPut == Slot(|v.entries|, v.m) && r.devIbGet == Slot(v.fetched, v.m)
    && r.devLeft == 4 * Left(v)
    && (0 < Left(v) ==> r.devAddr == v.base + 4 * Slot(|v.received|, v.n))
  }

  /** Everything but the position of the last fire. */
  ghost predicate Ok(v: Stream, r: Regs) {
    Core(v) && Match(v, r)
  }

  /** The device's registers after it has loaded the next entry. */
  ghost function FetchedRegs(v: Stream, r: Regs): Regs
    requires 0 < v.n && 0 < v.m && v.fetched < |v.entries|
  {
    var seg := v.entries[v.fetched];
    r.(devIbGet := Slot(v.fetched + 1, v.m), devAddr := v.base + 4 * Slot(seg.start, v.n), devLeft := 4 * seg.len)
  }

  lemma FetchOk(v: Stream, r: Regs)
    requires Ok(v, r) && r.devLeft == 0
    ensures r.devIbGet == r.devIbPut ==> |v.received| == End(v.entries)
    ensures r.devIbGet != r.devIbPut ==>
              && v.fetched < |v.entries| && r.devIbGet == Slot(v.fetched, v.m)
              && var seg := v.entries[v.fetched];
              && EntryAt(v.ib, r.devIbGet, seg, v.base, v.n)
              && 0 < seg.len && Ok(v.(fetched := v.fetched + 1), FetchedRegs(v, r))
  {
    if r.devIbGet == r.devIbPut {
      DrainedStream(v);
    } else {
      FetchKeepsCore(v);
    }
  }

  lemma ReadOk(v: Stream, r: Regs)
    requires Ok(v, r) && 0 < r.devLeft
    ensures r.devAddr == v.base + 4 * Slot(|v.received|, v.n)
    ensures Ok(AfterRead(v), r.(devAddr := r.devAddr + 4, devLeft := r.devLeft - 4))
    ensures |v.received| + 1 <= End(v.entries)
  {
    ReadKeepsCore(v);
  }

  /** The guard of the producer's waiting loop is exactly that the next word may be written. */
  lemma WriteOk(v: Stream, r: Regs, word: nat)
    requires Ok(v, r)
    ensures 4 * Slot(|v.written| + 1, v.n) == r.pbGet <==> |v.written| + 1 == v.known + v.n
    ensures 4 * Slot(|v.written| + 1, v.n) != r.pbGet ==>
              Ok(AfterWrite(v, word), r.(pbPos := 4 * Slot(|v.written| + 1, v.n)))
  {
    Gap(v.known, |v.written| + 1, v.n);
    if |v.written| + 1 < v.known + v.n {
      WriteKeepsCore(v, word);
    }
  }

  /** Counters at most a ring apart, the first one not behind, fall on one cell just when a whole ring
      lies between them. */
  lemma Gap(a: nat, b: nat, n: nat)
    requires 0 < n && a < b <= a + n
    ensures Slot(a, n) == Slot(b, n) <==> b == a + n
  {
    if b < a + n {
      SlotDiffer(a, b, n);
    } else {
      SlotAdd(a, n, n);
    }
  }

  /** The same for the waiting loop of the indirect buffer and the entry behind it. */
  lemma PushOk(v: Stream, r: Regs, seg: Segment, lo: nat, hi: nat)
    requires Ok(v, r)
    ensures Slot(|v.entries| + 1, v.m) == r.ibGet <==> |v.entries| + 1 == v.knownIb + v.m
    ensures
      && Slot(|v.entries| + 1, v.m) != r.ibGet
      && Publishable(v, seg) && Describes(lo, hi, seg, v.base, v.n)
      ==> Ok(AfterPush(v, seg, lo, hi),
             r.(ibPut := Slot(|v.entries| + 1, v.m), devIbPut := Slot(|v.entries| + 1, v.m)))
  {
    var e := |v.entries| + 1;
    Gap(v.knownIb, e, v.m);
    if e < v.knownIb + v.m && Publishable(v, seg) && Describes(lo, hi, seg, v.base, v.n) {
      PushKeepsCore(v, seg, lo, hi);
      ContiguousAppend(v.entries, seg, v.n, v.fetched);
    }
  }

  lemma LearnOk(v: Stream, r: Regs, k: nat)
    requires Ok(v, r) && v.known <= k <= |v.received|
    ensures Ok(v.(known := k), r.(pbGet := 4 * Slot(k, v.n)))
    ensures Ok(v.(knownIb := v.fetched), r.(ibGet := r.devIbGet))
  {
    LearnKeepsCore(v, k);
  }

  /** Comparing the two positions tells how the unpublished words lie in the ring. */
  lemma FireCases(p: nat, w: nat, n: nat)
    requires 0 < n && p <= w < p + n
    ensures Slot(p, n) == Slot(w, n) <==> p == w
    ensures Slot(p, n) < Slot(w, n) ==> Slot(w, n) - Slot(p, n) == w - p < ToEnd(p, n).len
    ensures Slot(w, n) < Slot(p, n) ==>
              var q := p + ToEnd(p, n).len;
              Follows(ToEnd(p, n), p, n) && q + Slot(w, n) == w && Slot(q, n) == 0
  {
    SlotAdd(p, w - p, n);
    SlotAdd(p, n - Slot(p, n), n);
  }

  /** The two pushes around the end of the ring make up one fire. */
  lemma FiredTwice(p: nat, w: nat, n: nat, es: seq<Segment>, first: seq<Segment>, all: seq<Segment>)
    requires 0 < n && p < w < p + n && ToEnd(p, n).len <= w - p
    requires first == es + [ToEnd(p, n)]
    requires all == if End(first) < w then first + [Segment(End(first), w - End(first))] else first
    ensures all == es + Fired(p, w, n)
  {
  }

  /** Whatever the device has received is a prefix of the stream; all of it, if it is as long. */
  lemma ReceivedPrefix(v: Stream)
    requires Core(v)
    ensures v.received <= v.written
    ensures |v.received| == |v.written| ==> v.received == v.written
  {
    assert v.written[..|v.received|] <= v.written;
  }
}
