/** The channel as the library runs it: the rings are arrays updated in place, the waiting
    loops poll the device, and the device reads the rings in between. */
module FifoChannel {
  import opened Arith
  import opened Bits
  import opened Fifo

  /** One poll of the device: how many words it fetches before, and how many between the reads of the two
      halves of its position; the unrelated bits of the registers; and whether a device that has fetched
      nothing reports no position. */
  datatype Poll = Poll(progress: nat, between: nat, junk: OtherBits, low: Half, silent: bool)

  type Half = h: nat | h < WORD32

  type OtherBits = b: nat | b < 0x80_0000

  /** A poll before which the device has the time to read a whole ring of `n` words. */
  predicate Drains(poll: Poll, n: nat) { n <= poll.progress }

  /** How many of the polls leave the device that much time. */
  function Draining(polls: seq<Poll>, n: nat): nat {
    if polls == [] then 0 else (if Drains(polls[0], n) then 1 else 0) + Draining(polls[1..], n)
  }

  /** The producer knows of a free entry. */
  ghost predicate EntryFree(v: Stream) { |v.entries| + 1 < v.knownIb + v.m }

  /** The producer knows of a free cell. */
  ghost predicate CellFree(v: Stream) { |v.written| + 1 < v.known + v.n }

  /** What a fire has to publish. */
  ghost function Unpublished(v: Stream): seq<Segment>
    requires Core(v)
  {
    Fired(End(v.entries), |v.written|, v.n)
  }

  /** A device that has read everything has fetched every entry. */
  lemma AllFetched(v: Stream)
    requires Core(v) && |v.received| == End(v.entries)
    ensures v.fetched == |v.entries|
  {
    if v.fetched < |v.entries| {
      NextStart(v.entries, v.n, v.fetched);
      StartBeforeEnd(v.entries, v.n, v.fetched + 1);
    }
  }

  class Channel {
    const pbOrder: nat
    const ibOrder: nat
    const pbBase: nat
    const pbMap: array<nat>
    const ibMap: array<nat>
    // the producer's positions
    var pbPos: nat
    var pbPut: nat
    var pbGet: nat
    var ibPut: nat
    var ibGet: nat
    // the device's registers and what it has fetched
    var devIbPut: nat
    var devIbGet: nat
    var devAddr: nat
    var devLeft: nat
    var received: seq<nat>
    // the stream behind the rings
    ghost var v: Stream
    ghost var r: Regs

    /** The ghost view is the view of the concrete fields. */
    ghost predicate Tied()
      reads this, pbMap, ibMap
    {
      && 2 <= pbOrder && pbMap.Length == Pow2(pbOrder - 2) && ibMap.Length == 2 * Pow2(ibOrder)
      && pbMap.Length < 0x40_0000 && pbBase + 4 * pbMap.Length <= BYTE40 && pbMap != ibMap
      && v.n == pbMap.Length && v.m == Pow2(ibOrder) && v.base == pbBase
      && v.ring == pbMap[..] && v.ib == ibMap[..] && v.received == received
      && r == Regs(pbPos, pbGet, ibPut, ibGet, devIbPut, devIbGet, devAddr, devLeft)
    }

    /** Everything but the position of the last fire. */
    ghost predicate Consistent()
      reads this, pbMap, ibMap
    {
      Tied() && Ok(v, r)
    }

    ghost predicate Valid()
      reads this, pbMap, ibMap
    {
      Consistent() && pbPut == 4 * Slot(End(v.entries), v.n)
    }

    constructor (pbOrder: nat, ibOrder: nat, pbBase: nat)
      requires 2 <= pbOrder && Pow2(pbOrder) < 0x100_0000 && pbBase + Pow2(pbOrder) <= BYTE40
      ensures Valid() && fresh(pbMap) && fresh(ibMap)
      ensures v.written == received == [] && v.entries == []
      ensures 3 <= pbOrder && 1 <= ibOrder ==> 2 <= v.n && 2 <= v.m
    {
      this.pbOrder, this.ibOrder, this.pbBase := pbOrder, ibOrder, pbBase;
      MaskAdvance(0, pbOrder);
      pbMap := new nat[Pow2(pbOrder - 2)];
      ibMap := new nat[2 * Pow2(ibOrder)];
      pbPos, pbPut, pbGet, ibPut, ibGet := 0, 0, 0, 0, 0;
      devIbPut, devIbGet, devAddr, devLeft, received := 0, 0, 0, 0, [];
      new;
      v := Stream(pbMap.Length, Pow2(ibOrder), pbBase, pbMap[..], ibMap[..], [], [], 0, 0, [], 0);
      r := Regs(0, 0, 0, 0, 0, 0, 0, 0);
    }

    // -------------------------------------------------------------- mask arithmetic and encoding

    /** `(i + 1) & ib_mask`. */
    method IbNext(i: nat, ghost x: nat) returns (j: nat)
      requires i == Slot(x, Pow2(ibOrder))
      ensures j == Slot(x + 1, Pow2(ibOrder))
    {
      MaskNext(x, ibOrder);
      j := And(i + 1, Pow2(ibOrder) - 1);
    }

    /** `(p + 4) & pb_mask`. */
    method PbNext(p: nat, ghost x: nat) returns (q: nat)
      requires 2 <= pbOrder && p == 4 * Slot(x, Pow2(pbOrder - 2))
      ensures q == 4 * Slot(x + 1, Pow2(pbOrder - 2))
    {
      MaskAdvance(x, pbOrder);
      q := And(p + 4, Pow2(pbOrder) - 1);
    }

    /** The device's reading of one cell pair. */
    method DecodeEntry(i: nat, ghost seg: Segment) returns (addr: nat, len: nat)
      requires 2 * i + 1 < ibMap.Length && 0 < pbMap.Length
      requires EntryAt(ibMap[..], i, seg, pbBase, pbMap.Length) && pbBase + 4 * pbMap.Length <= BYTE40
      ensures addr == pbBase + 4 * Slot(seg.start, pbMap.Length) && len == 4 * seg.len
    {
      DescribedIsRead(ibMap[2 * i], ibMap[2 * i + 1], seg, pbBase, pbMap.Length);
      var (base, bytes) := Unpack(ibMap[2 * i], ibMap[2 * i + 1]);
      addr, len := base, bytes;
    }

    /** The two halves of an entry. */
    method EncodeEntry(base: nat, len: nat, ghost seg: Segment) returns (lo: nat, hi: nat)
      requires 0 < pbMap.Length < 0x40_0000 && pbBase + 4 * pbMap.Length <= BYTE40
      requires Slot(seg.start, pbMap.Length) + seg.len <= pbMap.Length
      requires (base, len) == Extent(seg, pbBase, pbMap.Length)
      ensures Describes(lo, hi, seg, pbBase, pbMap.Length)
    {
      UnpackPack(base, len);
      var (l, h) := Pack(base, len);
      lo, hi := l, h;
    }

    // -------------------------------------------------------------- the device

    /** The device fetches its next word, if anything is published. */
    method DeviceFetch()
      requires Consistent()
      modifies this`devIbGet, this`devAddr, this`devLeft, this`received, this`v, this`r
      ensures Consistent() && v == old(v).(fetched := v.fetched, received := received)
      ensures |received| == if |old(received)| < End(v.entries) then |old(received)| + 1 else |old(received)|
      ensures r == old(r).(devIbGet := devIbGet, devAddr := devAddr, devLeft := devLeft)
    {
      if devLeft == 0 {
        FetchOk(v, r);
        if devIbGet == devIbPut {
          return;
        }
        NextEntry();
      }
      ReadWord();
    }

    method NextEntry()
      requires Consistent() && devLeft == 0 && devIbGet != devIbPut
      modifies this`devIbGet, this`devAddr, this`devLeft, this`v, this`r
      ensures Consistent() && 0 < devLeft && v == old(v).(fetched := v.fetched)
      ensures r == old(r).(devIbGet := devIbGet, devAddr := devAddr, devLeft := devLeft)
    {
      FetchOk(v, r);
      LoadEntry(v.entries[v.fetched], v.fetched);
      r := FetchedRegs(v, r);
      v := v.(fetched := v.fetched + 1);
    }

    method LoadEntry(ghost seg: Segment, ghost x: nat)
      requires 2 * devIbGet + 1 < ibMap.Length && 0 < pbMap.Length && devIbGet == Slot(x, Pow2(ibOrder))
      requires EntryAt(ibMap[..], devIbGet, seg, pbBase, pbMap.Length) && pbBase + 4 * pbMap.Length <= BYTE40
      modifies this`devIbGet, this`devAddr, this`devLeft
      ensures devAddr == pbBase + 4 * Slot(seg.start, pbMap.Length) && devLeft == 4 * seg.len
      ensures devIbGet == Slot(x + 1, Pow2(ibOrder))
    {
      devAddr, devLeft := DecodeEntry(devIbGet, seg);
      devIbGet := IbNext(devIbGet, x);
    }

    method ReadWord()
      requires Consistent() && 0 < devLeft
      modifies this`devAddr, this`devLeft, this`received, this`v, this`r
      ensures Consistent() && v == old(v).(received := received)
      ensures |received| == |old(received)| + 1 <= End(v.entries)
      ensures r == old(r).(devAddr := devAddr, devLeft := devLeft)
    {
      ReadOk(v, r);
      var word := WordAtAddress(|received|);
      received := received + [word];
      devAddr, devLeft := devAddr + 4, devLeft - 4;
      v := AfterRead(v);
      r := r.(devAddr := devAddr, devLeft := devLeft);
    }

    method WordAtAddress(ghost x: nat) returns (word: nat)
      requires 0 < pbMap.Length && devAddr == pbBase + 4 * Slot(x, pbMap.Length)
      ensures word == pbMap[Slot(x, pbMap.Length)]
    {
      word := pbMap[(devAddr - pbBase) / 4];
    }

    /** The device runs for up to `k` words. */
    method DeviceRun(k: nat)
      requires Consistent()
      modifies this`devIbGet, this`devAddr, this`devLeft, this`received, this`v, this`r
      ensures Consistent() && v == old(v).(fetched := v.fetched, received := received)
      ensures |received| == if |old(received)| + k <= End(v.entries) then |old(received)| + k else End(v.entries)
      ensures pbMap.Length <= k ==> |received| == End(v.entries) && v.fetched == |v.entries|
      ensures r == old(r).(devIbGet := devIbGet, devAddr := devAddr, devLeft := devLeft)
    {
      for i := 0 to k
        invariant Consistent() && v == old(v).(fetched := v.fetched, received := received)
        invariant |received| == if |old(received)| + i <= End(v.entries) then |old(received)| + i else End(v.entries)
        invariant r == old(r).(devIbGet := devIbGet, devAddr := devAddr, devLeft := devLeft)
      {
        DeviceFetch();
      }
      if |received| == End(v.entries) {
        AllFetched(v);
      }
    }

    // -------------------------------------------------------------- the producer

    /** Both rings have more than one place. */
    ghost predicate Roomy()
      reads this
    {
      2 <= v.n && 2 <= v.m
    }

    /** Reading the device's indirect-buffer index register. */
    method UpdateIbGet(poll: Poll)
      requires Consistent()
      modifies this`ibGet, this`devIbGet, this`devAddr, this`devLeft, this`received, this`v, this`r
      ensures Consistent() && v == old(v).(fetched := v.fetched, received := received, knownIb := v.fetched)
      ensures |received| == Farthest(|old(received)|, poll.progress, End(v.entries))
      ensures Drains(poll, v.n) ==> v.knownIb == |v.entries|
    {
      DeviceRun(poll.progress);
      LearnOk(v, r, v.known);
      ibGet := devIbGet;
      v := v.(knownIb := v.fetched);
      r := r.(ibGet := devIbGet);
    }

    /** `update_get`: reading the device's push-buffer position in two halves. The producer then knows the
        position at the first read, wherever the device has gone in between. */
    method UpdateGet(poll: Poll)
      requires Consistent()
      modifies this`pbGet, this`devIbGet, this`devAddr, this`devLeft, this`received, this`v, this`r
      ensures Consistent() && v == old(v).(fetched := v.fetched, received := received, known := v.known)
      ensures v.known == Farthest(|old(received)|, poll.progress, End(v.entries))
      ensures |received| == v.known || |received| == Farthest(v.known, poll.between, End(v.entries))
      ensures Drains(poll, v.n) ==> v.known == End(v.entries)
    {
      ghost var k;
      pbGet, k := ReadPosition(poll);
      LearnOk(v, r, k);
      v := v.(known := k);
      r := r.(pbGet := pbGet);
    }

    /** The two reads, with the device running before and in between. */
    method ReadPosition(poll: Poll) returns (get: nat, ghost k: nat)
      requires Consistent()
      modifies this`devIbGet, this`devAddr, this`devLeft, this`received, this`v, this`r
      ensures Consistent() && v == old(v).(fetched := v.fetched, received := received)
      ensures r == old(r).(devIbGet := devIbGet, devAddr := devAddr, devLeft := devLeft)
      ensures k == Farthest(|old(received)|, poll.progress, End(v.entries)) && get == 4 * Slot(k, v.n)
      ensures |received| == k || |received| == Farthest(k, poll.between, End(v.entries))
    {
      DeviceRun(poll.progress);
      k := |received|;
      var lo := LowHalf(poll);
      if received != [] || !poll.silent {
        DeviceRun(poll.between);
      }
      var hi := HighHalf(poll);
      Decoded(lo, hi, k, poll);
      get := DecodeGet(lo, hi, pbBase);
    }

    /** The address of the next word of the device. */
    function Position(k: nat): nat
      requires 0 < pbMap.Length
    {
      pbBase + 4 * Slot(k, pbMap.Length)
    }

    /** The low register. */
    method LowHalf(poll: Poll) returns (lo: nat)
      requires 0 < pbMap.Length
      ensures lo == if received == [] && poll.silent then poll.low else Position(|received|) % WORD32
    {
      lo := if received == [] && poll.silent then poll.low else Position(|received|) % WORD32;
    }

    /** The high register, with the valid bit. */
    method HighHalf(poll: Poll) returns (hi: nat)
      requires 0 < pbMap.Length
      ensures hi == if received == [] && poll.silent then 0
                    else 0x8000_0000 + poll.junk * 0x100 + Position(|received|) / WORD32
    {
      hi := if received == [] && poll.silent then 0
      else 0x8000_0000 + poll.junk * 0x100 + Position(|received|) / WORD32;
    }

    /** The halves of two positions, the second not before the first. */
    lemma Decoded(lo: nat, hi: nat, k: nat, poll: Poll)
      requires 0 < pbMap.Length < 0x40_0000 && pbBase + 4 * pbMap.Length <= BYTE40
      requires k <= |received| && (k == 0 && poll.silent ==> received == [])
      requires lo == if k == 0 && poll.silent then poll.low else Position(k) % WORD32
      requires hi == if received == [] && poll.silent then 0
                     else 0x8000_0000 + poll.junk * 0x100 + Position(|received|) / WORD32
      ensures DecodeGet(lo, hi, pbBase) == 4 * Slot(k, pbMap.Length)
    {
      if !(received == [] && poll.silent) {
        DecodeAddress(Position(k), Position(|received|), poll.junk, pbBase);
      }
    }

    method StoreAt(lo: nat, hi: nat, ghost e: nat)
      requires ibMap.Length == 2 * Pow2(ibOrder) && ibPut == Slot(e, Pow2(ibOrder))
      modifies ibMap, this`ibPut, this`devIbPut
      ensures ibMap[..] == old(ibMap[..])[2 * Slot(e, Pow2(ibOrder)) := lo][2 * Slot(e, Pow2(ibOrder)) + 1 := hi]
      ensures ibPut == devIbPut == Slot(e + 1, Pow2(ibOrder))
    {
      ibMap[ibPut * 2] := lo;
      ibMap[ibPut * 2 + 1] := hi;
      ibPut := IbNext(ibPut, e);
      devIbPut := ibPut;
    }

    /** The two cells of entry `e`, the lower half first. */
    ghost predicate CellsHold(e: nat, lo: nat, hi: nat)
      reads ibMap
    {
      var i := Slot(e, Pow2(ibOrder));
      2 * i + 1 < ibMap.Length && ibMap[2 * i] == lo && ibMap[2 * i + 1] == hi
    }

    /** Storing one entry and publishing it. */
    method StoreEntry(lo: nat, hi: nat, ghost seg: Segment)
      requires Consistent() && Publishable(v, seg) && EntryFree(v)
      requires Describes(lo, hi, seg, v.base, v.n)
      modifies ibMap, this`ibPut, this`devIbPut, this`v, this`r
      ensures Consistent() && v == old(v).(entries := old(v.entries) + [seg], ib := v.ib)
      ensures CellsHold(|old(v.entries)|, lo, hi)
    {
      PushOk(v, r, seg, lo, hi);
      StoreAt(lo, hi, |v.entries|);
      v := AfterPush(v, seg, lo, hi);
      r := r.(ibPut := ibPut, devIbPut := devIbPut);
    }

    /** The guard of the waiting loop of `push`. */
    method EntryTaken() returns (taken: bool)
      requires Consistent()
      ensures taken <==> !EntryFree(v)
    {
      var next := IbNext(ibPut, |v.entries|);
      PushOk(v, r, Segment(0, 0), 0, 0);
      taken := next == ibGet;
    }

    /** What the waiting loop has used up of the polls: nothing while an entry was free, and at most one
        poll that drains the device. */
    ghost predicate WaitedFor(was: Stream, polls: seq<Poll>, rest: seq<Poll>)
      reads this
    {
      && |rest| <= |polls| && |was.received| <= |v.received|
      && (EntryFree(was) ==> rest == polls && v == was)
      && (Roomy() ==>
            Draining(rest, v.n) == Draining(polls, v.n) ||
            (EntryFree(v) && Draining(rest, v.n) + 1 == Draining(polls, v.n)))
    }

    /** The waiting loop of `push`: poll the device until an entry is free, or give up. */
    method WaitForEntry(polls: seq<Poll>) returns (free: bool, rest: seq<Poll>)
      requires Consistent()
      modifies this`ibGet, this`devIbGet, this`devAddr, this`devLeft, this`received, this`v, this`r
      ensures Consistent() && WaitedFor(old(v), polls, rest)
      ensures v == old(v).(fetched := v.fetched, received := received, knownIb := v.knownIb)
      ensures free <==> EntryFree(v)
      ensures !free ==> rest == []
    {
      rest := polls;
      var taken := EntryTaken();
      while taken
        invariant Consistent() && WaitedFor(old(v), polls, rest)
        invariant v == old(v).(fetched := v.fetched, received := received, knownIb := v.knownIb)
        invariant taken <==> !EntryFree(v)
        decreases |rest|
      {
        if rest == [] {
          return false, rest;
        }
        UpdateIbGet(rest[0]);
        rest := rest[1..];
        taken := EntryTaken();
      }
      free := true;
    }

    /** `push`: wait for a free entry, then store one. It completes when an entry is free, or when one of
        the polls lets the device drain; otherwise the polls are used up, the caller is still waiting
        and nothing is published. */
    method Push(base: nat, len: nat, ghost seg: Segment, polls: seq<Poll>) returns (done: bool, rest: seq<Poll>)
      requires Consistent() && Publishable(v, seg) && (base, len) == Extent(seg, v.base, v.n)
      modifies ibMap, this`ibPut, this`ibGet, this`v, this`r
      modifies this`devIbPut, this`devIbGet, this`devAddr, this`devLeft, this`received
      ensures Consistent() && Kept(old(v)) && |rest| <= |polls|
      ensures v.entries == if done then old(v).entries + [seg] else old(v).entries
      ensures done ==> End(v.entries) == seg.start + seg.len
      ensures done ==> exists lo, hi :: CellsHold(|old(v.entries)|, lo, hi) && Describes(lo, hi, seg, v.base, v.n)
      ensures EntryFree(old(v)) ==> done && rest == polls && v.knownIb == old(v).knownIb
      ensures Roomy() && 0 < Draining(polls, v.n) ==> done
      ensures Roomy() ==> Draining(polls, v.n) <= Draining(rest, v.n) + 1
      ensures !done ==> rest == []
    {
      var lo, hi := EncodeEntry(base, len, seg);
      done, rest := WaitForEntry(polls);
      if done {
        StoreEntry(lo, hi, seg);
      }
    }

    /** What publishing never changes, and the device only goes forward. */
    ghost predicate Kept(was: Stream)
      reads this
    {
      && v.written == was.written && v.n == was.n && v.m == was.m && v.base == was.base && v.known == was.known
      && |was.received| <= |v.received|
    }

    /** The first segment of a fire that wraps: up to the end of the ring. */
    method FireToEnd(polls: seq<Poll>) returns (done: bool, rest: seq<Poll>)
      requires Valid() && pbPos < pbPut
      modifies ibMap, this`ibPut, this`ibGet, this`pbPut, this`v, this`r
      modifies this`devIbPut, this`devIbGet, this`devAddr, this`devLeft, this`received
      ensures Valid() && Kept(old(v)) && |rest| <= |polls|
      ensures v.entries == if done then old(v).entries + [ToEnd(End(old(v).entries), v.n)] else old(v).entries
      ensures done ==>
                pbPut == 0 && End(v.entries) + Slot(|v.written|, v.n) == |v.written| && Slot(End(v.entries), v.n) == 0
      ensures Completes(old(v), 1, polls, done, rest)
    {
      FireCases(End(v.entries), |v.written|, v.n);
      var size := PbSize();
      done, rest := Push(pbBase + pbPut, size - pbPut, ToEnd(End(v.entries), v.n), polls);
      if done {
        pbPut := 0;
      }
    }

    /** A fire of `k` segments completes without waiting when that many entries are free, and otherwise when
        that many polls let the device drain; it uses up no more of those. One that does not complete
        has used up all polls. */
    ghost predicate Completes(was: Stream, k: nat, polls: seq<Poll>, done: bool, rest: seq<Poll>)
      reads this
    {
      && (|was.entries| + k < was.knownIb + was.m ==> done && rest == polls && v.knownIb == was.knownIb)
      && (Roomy() && k <= Draining(polls, v.n) ==> done)
      && (Roomy() ==> Draining(polls, v.n) <= Draining(rest, v.n) + k)
      && (!done ==> rest == [])
    }

    /** `pb_size`, in bytes. */
    method PbSize() returns (size: nat)
      requires 2 <= pbOrder && pbMap.Length == Pow2(pbOrder - 2)
      ensures size == 4 * pbMap.Length
    {
      MaskAdvance(0, pbOrder);
      size := Pow2(pbOrder);
    }

    /** The last segment of a fire, which ends where the words end. */
    method PushRest(base: nat, len: nat, polls: seq<Poll>) returns (done: bool, rest: seq<Poll>)
      requires Valid()
      requires
        var p := End(v.entries);
        && p < |v.written| && base == pbBase + 4 * Slot(p, v.n) && len == 4 * (|v.written| - p)
        && Slot(p, v.n) + (|v.written| - p) <= v.n
      modifies ibMap, this`ibPut, this`ibGet, this`v, this`r
      modifies this`devIbPut, this`devIbGet, this`devAddr, this`devLeft, this`received
      ensures Consistent() && Kept(old(v)) && |rest| <= |polls|
      ensures
        var p, w := End(old(v).entries), |v.written|;
        v.entries == if done then old(v).entries + [Segment(p, w - p)] else old(v).entries
      ensures done ==> End(v.entries) == |v.written|
      ensures Completes(old(v), 1, polls, done, rest)
    {
      done, rest := Push(base, len, Segment(End(v.entries), |v.written| - End(v.entries)), polls);
    }

    /** The last segment of a fire, if it is not empty. */
    method FireRest(base: nat, len: nat, polls: seq<Poll>) returns (done: bool, rest: seq<Poll>)
      requires Valid()
      requires
        var p := End(v.entries);
        && base == pbBase + 4 * Slot(p, v.n) && len == 4 * (|v.written| - p)
        && Slot(p, v.n) + (|v.written| - p) <= v.n
      modifies ibMap, this`ibPut, this`ibGet, this`pbPut, this`v, this`r
      modifies this`devIbPut, this`devIbGet, this`devAddr, this`devLeft, this`received
      ensures Valid() && Kept(old(v)) && |rest| <= |polls|
      ensures
        var p, w := End(old(v).entries), |v.written|;
        && v.entries == (if done && p < w then old(v).entries + [Segment(p, w - p)] else old(v).entries)
        && Completes(old(v), if p < w then 1 else 0, polls, done, rest)
      ensures done ==> End(v.entries) == |v.written|
    {
      done, rest := true, polls;
      if len > 0 {
        done, rest := PushRest(base, len, rest);
        if !done {
          return;
        }
      }
      pbPut := pbPos;
    }

    /** A fire that does not wrap. */
    method FireStraight(polls: seq<Poll>) returns (done: bool, rest: seq<Poll>)
      requires Valid() && pbPut < pbPos
      modifies ibMap, this`ibPut, this`ibGet, this`pbPut, this`v, this`r
      modifies this`devIbPut, this`devIbGet, this`devAddr, this`devLeft, this`received
      ensures Valid() && Kept(old(v)) && |rest| <= |polls|
      ensures done ==> End(v.entries) == |v.written| && v.entries == old(v).entries + Unpublished(old(v))
      ensures Completes(old(v), |Unpublished(old(v))|, polls, done, rest)
    {
      FireCases(End(v.entries), |v.written|, v.n);
      done, rest := FireRest(pbBase + pbPut, pbPos - pbPut, polls);
    }

    /** `fire`: publish everything written so far. */
    method FireRing(polls: seq<Poll>) returns (done: bool, rest: seq<Poll>)
      requires Valid()
      modifies ibMap, this`ibPut, this`ibGet, this`pbPut, this`v, this`r
      modifies this`devIbPut, this`devIbGet, this`devAddr, this`devLeft, this`received
      ensures Valid() && Kept(old(v)) && |rest| <= |polls|
      ensures done ==> End(v.entries) == |v.written| && v.entries == old(v).entries + Unpublished(old(v))
      ensures Completes(old(v), |Unpublished(old(v))|, polls, done, rest)
    {
      FireCases(End(v.entries), |v.written|, v.n);
      done, rest := true, polls;
      if pbPos > pbPut {
        done, rest := FireStraight(rest);
      } else if pbPos < pbPut {
        done, rest := FireAround(rest);
      }
    }

    /** The second segment of a fire that wraps: from the start of the ring. */
    method FireFromStart(polls: seq<Poll>) returns (done: bool, rest: seq<Poll>)
      requires Valid() && Slot(End(v.entries), v.n) == 0 && End(v.entries) + Slot(|v.written|, v.n) == |v.written|
      modifies ibMap, this`ibPut, this`ibGet, this`pbPut, this`v, this`r
      modifies this`devIbPut, this`devIbGet, this`devAddr, this`devLeft, this`received
      ensures Valid() && Kept(old(v)) && |rest| <= |polls|
      ensures
        var p, w := End(old(v).entries), |v.written|;
        && v.entries == (if done && p < w then old(v).entries + [Segment(p, w - p)] else old(v).entries)
        && Completes(old(v), if p < w then 1 else 0, polls, done, rest)
      ensures done ==> End(v.entries) == |v.written|
    {
      done, rest := FireRest(pbBase, pbPos, polls);
    }

    /** A fire around the end of the ring. */
    method FireAround(polls: seq<Poll>) returns (done: bool, rest: seq<Poll>)
      requires Valid() && pbPos < pbPut
      modifies ibMap, this`ibPut, this`ibGet, this`pbPut, this`v, this`r
      modifies this`devIbPut, this`devIbGet, this`devAddr, this`devLeft, this`received
      ensures Valid() && Kept(old(v)) && |rest| <= |polls|
      ensures done ==> End(v.entries) == |v.written| && v.entries == old(v).entries + Unpublished(old(v))
      ensures Completes(old(v), |Unpublished(old(v))|, polls, done, rest)
    {
      ghost var es, p, w := v.entries, End(v.entries), |v.written|;
      FireCases(p, w, v.n);
      done, rest := FireToEnd(polls);
      if done {
        ghost var first := v.entries;
        done, rest := FireFromStart(rest);
        if done {
          FiredTwice(p, w, v.n, es, first, v.entries);
        }
      }
    }

    /** Writing one word into a free cell. */
    method StoreWord(word: nat)
      requires Valid() && CellFree(v)
      modifies pbMap, this`pbPos, this`v, this`r
      ensures Valid() && v == AfterWrite(old(v), word)
    {
      WriteOk(v, r, word);
      pbMap[pbPos / 4] := word;
      pbPos := PbNext(pbPos, |v.written|);
      v := AfterWrite(v, word);
      r := r.(pbPos := pbPos);
    }

    /** The guard of the waiting loop of `out`. */
    method CellTaken() returns (taken: bool)
      requires Consistent()
      ensures taken <==> !CellFree(v)
    {
      var next := PbNext(pbPos, |v.written|);
      WriteOk(v, r, 0);
      taken := next == pbGet;
    }

    /** The waiting loop of `out` has published what was written and used up at most one draining poll for
        every segment of that, and one more after which a cell is free. */
    ghost predicate MadeRoom(was: Stream, polls: seq<Poll>, rest: seq<Poll>)
      requires Core(was)
      reads this
    {
      && v.written == was.written && v.n == was.n && v.m == was.m && |was.received| <= |v.received|
      && |rest| <= |polls|
      && ((rest == polls && v == was)
          || (End(v.entries) == |v.written|
              && (Roomy() ==> CellFree(v) || Draining(polls, v.n) <= Draining(rest, v.n) + |Unpublished(was)|)))
    }

    /** One turn of the waiting loop: fire, then poll. */
    method MakeRoom(ghost was: Stream, ghost polls: seq<Poll>, now: seq<Poll>) returns (ok: bool, rest: seq<Poll>)
      requires Valid() && Core(was) && MadeRoom(was, polls, now) && !CellFree(v)
      modifies pbMap, ibMap, this
      ensures Valid() && v.written == was.written && v.n == was.n && v.m == was.m && |was.received| <= |v.received|
      ensures ok ==> MadeRoom(was, polls, rest) && |rest| < |now|
      ensures !ok ==> rest == [] && !CellFree(v)
      ensures !ok && Roomy() ==> Draining(polls, v.n) <= |Unpublished(was)|
    {
      ok, rest := FireRing(now);
      if !ok || rest == [] {
        return false, rest;
      }
      UpdateGet(rest[0]);
      rest := rest[1..];
    }

    /** `out`: while the ring is full, fire and poll the device; then write the word. The fire comes first:
        so the word is written when a cell is free, and otherwise when more polls let the device drain than
        there are segments to publish. */
    method OutRing(word: nat, polls: seq<Poll>) returns (done: bool, rest: seq<Poll>)
      requires Valid()
      modifies pbMap, ibMap, this
      ensures Valid() && v.written == if done then old(v).written + [word] else old(v).written
      ensures v.n == old(v).n && v.m == old(v).m && |old(v).received| <= |v.received| && |rest| <= |polls|
      ensures CellFree(old(v)) ==> done && rest == polls
      ensures Roomy() && |Unpublished(old(v))| < Draining(polls, v.n) ==> done
      ensures !done ==> rest == []
    {
      rest := polls;
      done := true;
      var taken := CellTaken();
      while taken
        invariant Valid() && MadeRoom(old(v), polls, rest)
        invariant taken <==> !CellFree(v)
        invariant CellFree(old(v)) ==> rest == polls && !taken
        decreases |rest|
      {
        done, rest := MakeRoom(old(v), polls, rest);
        if !done {
          return;
        }
        taken := CellTaken();
      }
      StoreWord(word);
      done := true;
    }

    // -------------------------------------------------------------- every run

    /** Any sequence of writes, fires and device progress: which of them completed. What is written are the
        words of the completed writes, in order, and the device has received a prefix of it. Operations whose
        polls let the device drain often enough complete; so all words of such a sequence are written,
        and received once it ends in a fire and enough progress of the device. */
    method Run(ops: seq<Op>) returns (done: seq<bool>)
      requires Valid()
      modifies pbMap, ibMap, this
      ensures Valid() && v.n == old(v).n && v.m == old(v).m
      ensures |done| == |ops| && v.written == old(v).written + Words(ops, done)
      ensures old(received) <= received <= v.written
      ensures Roomy() ==> forall i :: 0 <= i < |ops| && Served(ops[i], v.n) ==> done[i]
      ensures Roomy() && (forall i :: 0 <= i < |ops| ==> Served(ops[i], v.n)) ==>
                v.written == old(v).written + AllWords(ops)
      ensures Roomy() && Delivers(ops, v.n) ==> received == v.written
    {
      done := [];
      for i := 0 to |ops|
        invariant Valid() && Told(old(v), ops[..i], done)
      {
        assert ops[..i + 1] == ops[..i] + [ops[i]];
        var ok := Continue(old(v), ops[..i], done, ops[i]);
        done := done + [ok];
      }
      assert ops[..|ops|] == ops;
      ReceivedPrefix(v);
      if forall i :: 0 <= i < |ops| ==> done[i] {
        ServedWords(ops, done);
      }
    }

    /** What the operations so far have done. */
    ghost predicate Told(was: Stream, ops: seq<Op>, done: seq<bool>)
      reads this
    {
      && v.n == was.n && v.m == was.m && |was.received| <= |v.received|
      && |done| == |ops| && v.written == was.written + Words(ops, done)
      && (Roomy() ==>
            && (forall j :: 0 <= j < |ops| && Served(ops[j], v.n) ==> done[j])
            && (Publishes(ops, v.n) ==> End(v.entries) == |v.written|)
            && (Delivers(ops, v.n) ==> |received| == |v.written|))
    }

    method Continue(ghost was: Stream, ghost ops: seq<Op>, ghost done: seq<bool>, op: Op) returns (ok: bool)
      requires Valid() && Told(was, ops, done)
      modifies pbMap, ibMap, this
      ensures Valid() && Told(was, ops + [op], done + [ok])
    {
      ok := Do(op);
      assert (ops + [op])[..|ops|] == ops && (done + [ok])[..|ops|] == done;
      WordsStep(ops, done, op, ok);
    }

    /** One operation. */
    method Do(op: Op) returns (done: bool)
      requires Valid()
      modifies pbMap, ibMap, this
      ensures Valid() && v.n == old(v).n && v.m == old(v).m && |old(v).received| <= |v.received|
      ensures v.written == old(v).written + Written(op, done)
      ensures Roomy() && Served(op, v.n) ==> done
      ensures op.Fire? && done ==> End(v.entries) == |v.written|
      ensures op.Device? ==> v.entries == old(v).entries
      ensures op.Device? && v.n <= op.k ==> |received| == End(v.entries)
    {
      match op
      case Write(word, polls) =>
        FiredAtMostTwo(v);
        var rest;
        done, rest := OutRing(word, polls);
      case Fire(polls) =>
        FiredAtMostTwo(v);
        var rest;
        done, rest := FireRing(polls);
      case Device(k) =>
        DeviceRun(k);
        done := true;
    }

    /** Nothing is lost: a fire whose polls let the device drain twice completes, and once a fire has
        completed and the device has had time for a ring, it has received every word written. */
    method Flush(polls: seq<Poll>, k: nat) returns (done: bool)
      requires Valid() && v.n <= k
      modifies ibMap, this
      ensures Valid() && v.written == old(v).written
      ensures Roomy() && 2 <= Draining(polls, v.n) ==> done
      ensures done ==> received == v.written
    {
      FiredAtMostTwo(v);
      var rest;
      done, rest := FireRing(polls);
      if done {
        DeviceRun(k);
        ReceivedPrefix(v);
      }
    }
  }

  function Farthest(from: nat, k: nat, end: nat): nat {
    if from + k <= end then from + k else end
  }

  lemma FiredAtMostTwo(v: Stream)
    requires Core(v)
    ensures |Unpublished(v)| <= 2
  {
  }

  datatype Op = Write(word: nat, polls: seq<Poll>) | Fire(polls: seq<Poll>) | Device(k: nat)

  function Written(op: Op, done: bool): seq<nat> {
    if op.Write? && done then [op.word] else []
  }

  /** The words of the writes that completed, in order. */
  function Words(ops: seq<Op>, done: seq<bool>): seq<nat>
    requires |ops| == |done|
  {
    if ops == [] then []
    else
      var n := |ops| - 1;
      Words(ops[..n], done[..n]) + Written(ops[n], done[n])
  }

  lemma WordsStep(ops: seq<Op>, done: seq<bool>, op: Op, ok: bool)
    requires |ops| == |done|
    ensures Words(ops + [op], done + [ok]) == Words(ops, done) + Written(op, ok)
  {
    assert (ops + [op])[..|ops|] == ops && (done + [ok])[..|ops|] == done;
  }

  /** The device drains often enough for the operation: twice for a fire, and once more for a write. */
  predicate Served(op: Op, n: nat) {
    match op
    case Write(_, polls) => 3 <= Draining(polls, n)
    case Fire(polls) => 2 <= Draining(polls, n)
    case Device(_) => true
  }

  /** The last operation is a fire that completes. */
  predicate Publishes(ops: seq<Op>, n: nat) {
    ops != [] && ops[|ops| - 1].Fire? && Served(ops[|ops| - 1], n)
  }

  /** The device runs for a ring behind such a fire. */
  predicate Delivers(ops: seq<Op>, n: nat) {
    ops != [] && ops[|ops| - 1].Device? && n <= ops[|ops| - 1].k && Publishes(ops[..|ops| - 1], n)
  }

  /** If the device drains often enough for every operation, all words are written. */
  lemma {:induction false} ServedWords(ops: seq<Op>, done: seq<bool>)
    requires |ops| == |done| && forall i :: 0 <= i < |ops| ==> done[i]
    ensures Words(ops, done) == AllWords(ops)
  {
    if ops != [] {
      ServedWords(ops[..|ops| - 1], done[..|ops| - 1]);
    }
  }

  /** The words of all writes, in order. */
  function AllWords(ops: seq<Op>): seq<nat> {
    if ops == [] then []
    else AllWords(ops[..|ops| - 1]) + if ops[|ops| - 1].Write? then [ops[|ops| - 1].word] else []
  }
}
