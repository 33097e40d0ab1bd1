/**
 * The two bitflags sets of the crate, `EventFlags` and `LoopFlags`, and the
 * `from_bits_truncate` decoding the callback trampoline applies.
 *
 * Both sets take their bit values from constants of the foreign libevent
 * headers (`EV_*`, `EVLOOP_*`). Their numbers are not fixed here: each
 * constant is a single bit, named by its position in a `SysConstants` value,
 * and `Valid()` states what the model relies on, that no two constants of
 * one set share a bit.
 */
module Flags {
  import opened Ints

  /** The position of a single one bit in a `u32`. */
  type BitPos = i: nat | i < 32

  /** The libevent constants behind the flag sets, as the linked build defines them. */
  datatype SysConstants = SysConstants(
    evTimeout: BitPos, evRead: BitPos, evWrite: BitPos, evSignal: BitPos,
    evPersist: BitPos, evEt: BitPos, evFinalize: BitPos, evClosed: BitPos,
    evloopOnce: BitPos, evloopNonblock: BitPos, evloopNoExitOnEmpty: BitPos)
  {
    /** The eight known `EventFlags` bits, in declaration order. */
    function EventBits(): seq<BitPos>
    {
      [evTimeout, evRead, evWrite, evSignal, evPersist, evEt, evFinalize, evClosed]
    }

    /** The three known `LoopFlags` bits, in declaration order. */
    function LoopBits(): seq<BitPos>
    {
      [evloopOnce, evloopNonblock, evloopNoExitOnEmpty]
    }

    predicate Valid()
    {
      Distinct(EventBits()) && Distinct(LoopBits())
    }
  }

  predicate Distinct(s: seq<BitPos>)
  {
    forall i, j :: 0 <= i < j < |s| ==> s[i] != s[j]
  }

  /** A set of `EventFlags`; `bits` is bitflags' `bits()`. */
  datatype EventFlags = EventFlags(bits: Word)

  /** A set of `LoopFlags`; `bits` is bitflags' `bits()`. */
  datatype LoopFlags = LoopFlags(bits: Word)

  /** `EventFlags::all()`: the eight known event bits. */
  function AllEvents(c: SysConstants): (all: Word)
    ensures forall k :: k in all <==> k in c.EventBits()
  {
    {c.evTimeout, c.evRead, c.evWrite, c.evSignal, c.evPersist, c.evEt, c.evFinalize, c.evClosed}
  }

  /** The bit positions of a sequence of constants. */
  function Positions(s: seq<BitPos>): set<nat>
  {
    set k | k in s
  }

  /** Constants on pairwise different bits give as many positions as there are constants. */
  lemma {:induction false} DistinctPositions(s: seq<BitPos>)
    requires Distinct(s)
    ensures |Positions(s)| == |s|
  {
    if s != [] {
      var front := s[..|s| - 1];
      assert Positions(s) == Positions(front) + {s[|s| - 1]};
      DistinctPositions(front);
    }
  }

  /** With distinct constants, `EventFlags::all()` holds eight different flags. */
  lemma AllEventsCount(c: SysConstants)
    requires c.Valid()
    ensures |AllEvents(c)| == |c.EventBits()| == 8
  {
    assert AllEvents(c) == Positions(c.EventBits());
    DistinctPositions(c.EventBits());
  }

  /** `EventFlags::PERSIST`: a single known event flag. */
  function Persist(c: SysConstants): (f: EventFlags)
    ensures |f.bits| == 1 && f.bits <= AllEvents(c)
  {
    EventFlags({c.evPersist})
  }

  /** `LoopFlags::ONCE`: a single known loop flag. */
  function Once(c: SysConstants): (f: LoopFlags)
    ensures |f.bits| == 1 && f.bits <= Positions(c.LoopBits())
  {
    LoopFlags({c.evloopOnce})
  }

  /** `LoopFlags::NONBLOCK`: a single known loop flag. */
  function NonBlock(c: SysConstants): (f: LoopFlags)
    ensures |f.bits| == 1 && f.bits <= Positions(c.LoopBits())
  {
    LoopFlags({c.evloopNonblock})
  }

  /** `LoopFlags::empty()`: no loop flag, libevent's default mode. */
  function NoLoopFlags(): (f: LoopFlags)
    ensures |f.bits| == 0
  {
    LoopFlags({})
  }

  /**
   * `EventFlags::from_bits_truncate`: every known event bit of `raw` is kept,
   * every known bit absent from `raw` stays absent, and every unknown bit is
   * dropped.
   */
  function FromBitsTruncate(c: SysConstants, raw: Word): (f: EventFlags)
    ensures f.bits <= AllEvents(c)
    ensures forall k :: k in AllEvents(c) ==> (k in f.bits <==> k in raw)
  {
    EventFlags(raw * AllEvents(c))
  }

  /** Decoding an already decoded value changes nothing. */
  lemma TruncateIdempotent(c: SysConstants, raw: Word)
    ensures FromBitsTruncate(c, FromBitsTruncate(c, raw).bits) == FromBitsTruncate(c, raw)
  {
  }

  /**
   * When the known event bits fit in a C `short`, flags sent to libevent
   * through `bits() as c_short` and read back through `as u32` and
   * `from_bits_truncate` decode to exactly what was sent, minus unknown bits.
   */
  lemma ShortCastKeepsEventFlags(c: SysConstants, f: EventFlags)
    requires forall k :: k in AllEvents(c) ==> k < 16
    ensures FromBitsTruncate(c, SignExtend(ToCShort(f.bits))) == FromBitsTruncate(c, f.bits)
  {
  }

  /** The three loop modes the facade uses are pairwise different. */
  lemma LoopModesDistinct(c: SysConstants)
    requires c.Valid()
    ensures NonBlock(c) != Once(c)
    ensures NonBlock(c) != NoLoopFlags() && Once(c) != NoLoopFlags()
  {
    assert c.LoopBits()[0] != c.LoopBits()[1];
    assert c.evloopNonblock in NonBlock(c).bits;
  }
}
