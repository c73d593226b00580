/** How one scatter-gather request is cut into descriptors.

    `Chunk` is the descriptor that starts at a given byte offset; `Plan` is the whole
    request cut in one go. `PlanIsByteExact` compares the plan with the flat byte image
    of the scatter list, which is defined without reference to descriptors. */
module Transfer {
  import Bits
  import Ring

  /** One element of the scatter list: `len` bytes of host memory at bus address `addr`. */
  datatype Sg = Sg(len: nat, addr: nat)

  datatype Request = Request(id: nat, sgl: seq<Sg>, count: nat, epAddr: nat)

  const PAGE_SIZE: nat := 4096

  /** `apertureSize` is 0 when keyhole mode is off. `blenMax` is the longest descriptor
      of the device: 2^28 - 1, or 2^15 on the EQDMA 5.0 soft core. A streaming queue
      (`st`, host to card) has no device address: there `epAddr` of a request is the
      packet size it asks for. `rngsz` is the number of descriptor slots. */
  datatype Conf = Conf(st: bool, c2h: bool, apertureSize: nat, blenMax: nat, rngsz: nat)
  {
    predicate Valid()
    {
      blenMax > 0 && rngsz > 0 && (apertureSize == 0 || Bits.IsPow2(apertureSize)) && (st ==> !c2h)
    }

    predicate Keyhole()
    {
      !st && apertureSize != 0
    }

    /** A streaming request asks for a packet size, cut to 32 bits before it is limited; with
        nothing left of it no descriptor carries a byte. */
    predicate Moves(req: Request)
    {
      st ==> req.epAddr == 0 || req.epAddr % Ring.U32 != 0
    }

    /** The most bytes one descriptor of `req` may carry. */
    function MaxLen(req: Request): (a: nat)
      requires Valid()
      ensures a > 0 <==> Moves(req)
    {
      if st then (if req.epAddr != 0 then Min(req.epAddr % Ring.U32, PAGE_SIZE) else PAGE_SIZE)
      else if apertureSize != 0 then apertureSize
      else blenMax
    }
  }

  function Min(a: nat, b: nat): nat
  {
    if a < b then a else b
  }

  /** One descriptor. Source and destination swap with the direction; a streaming
      descriptor has no destination. `valid` stands for the DV bit of a memory-mapped
      descriptor and for the zero-header flag of a streaming one. */
  datatype Desc = Desc(src: nat, dst: nat, len: nat, sop: bool, eop: bool, valid: bool)

  function TotalLen(sgl: seq<Sg>): nat
  {
    if sgl == [] then 0 else sgl[0].len + TotalLen(sgl[1..])
  }

  predicate Positive(sgl: seq<Sg>)
  {
    forall i :: 0 <= i < |sgl| ==> sgl[i].len > 0
  }

  /** What callers guarantee: a non-empty list of positive lengths adding up to `count`. */
  predicate WellFormed(req: Request)
  {
    req.sgl != [] && Positive(req.sgl) && TotalLen(req.sgl) == req.count
  }

  /** The element that holds byte `off`, and the offset inside it. */
  function Locate(sgl: seq<Sg>, off: nat): (r: (nat, nat))
    requires off < TotalLen(sgl)
    ensures r.0 < |sgl| && r.1 < sgl[r.0].len
  {
    if off < sgl[0].len then (0, off)
    else
      var (i, o) := Locate(sgl[1..], off - sgl[0].len);
      (i + 1, o)
  }

  /** Bus address of every byte of the list, in order. */
  function BusImage(sgl: seq<Sg>): (r: seq<nat>)
    ensures |r| == TotalLen(sgl)
  {
    if sgl == [] then []
    else seq(sgl[0].len, k requires 0 <= k => sgl[0].addr + k) + BusImage(sgl[1..])
  }

  /** Device address of byte `o`: linear, or folded into the keyhole window. */
  function EpByte(conf: Conf, req: Request, o: nat): nat
    requires conf.Valid()
  {
    if conf.st then 0
    else if conf.apertureSize != 0 then req.epAddr + o % conf.apertureSize
    else req.epAddr + o
  }

  lemma {:induction false} LocateImage(sgl: seq<Sg>, off: nat)
    requires off < TotalLen(sgl)
    ensures BusImage(sgl)[off] == sgl[Locate(sgl, off).0].addr + Locate(sgl, off).1
  {
    if off >= sgl[0].len {
      LocateImage(sgl[1..], off - sgl[0].len);
    }
  }

  /** Moving forward inside one element, or exactly to its end. */
  lemma {:induction false} LocateStep(sgl: seq<Sg>, off: nat, k: nat)
    requires Positive(sgl) && off < TotalLen(sgl)
    requires Locate(sgl, off).1 + k <= sgl[Locate(sgl, off).0].len
    ensures off + k <= TotalLen(sgl)
    ensures var (i, o) := Locate(sgl, off);
            if o + k < sgl[i].len then off + k < TotalLen(sgl) && Locate(sgl, off + k) == (i, o + k)
            else if i + 1 < |sgl| then off + k < TotalLen(sgl) && Locate(sgl, off + k) == (i + 1, 0)
            else off + k == TotalLen(sgl)
  {
    if off >= sgl[0].len {
      LocateStep(sgl[1..], off - sgl[0].len, k);
    } else if off + k == sgl[0].len && 1 < |sgl| {
      assert sgl[1..][0] == sgl[1];
    }
  }

  lemma {:induction false} LocateFirst(sgl: seq<Sg>)
    requires Positive(sgl) && sgl != []
    ensures TotalLen(sgl) > 0 && Locate(sgl, 0) == (0, 0)
  {
  }

  /** Bytes carried by the descriptor that starts at `off`: to the end of the element,
      the longest descriptor, or the end of the keyhole window, whichever comes first. */
  function ChunkLen(conf: Conf, req: Request, off: nat): (n: nat)
    requires conf.Valid() && WellFormed(req) && off < req.count
    ensures (0 < n <==> conf.Moves(req)) && off + n <= req.count
  {
    var (i, o) := Locate(req.sgl, off);
    var cut := Min(req.sgl[i].len - o, conf.MaxLen(req));
    var n := if conf.Keyhole() then Min(cut, conf.apertureSize - off % conf.apertureSize) else cut;
    LocateStep(req.sgl, off, n);
    n
  }

  /** Limits of a descriptor: a streaming one carries the packet size asked for, in 32 bits, but at
      most a page, and a page when none is asked for; a memory-mapped one the aperture or the most
      the device takes. */
  lemma MaxLenIs(conf: Conf, req: Request)
    requires conf.Valid()
    ensures conf.st && req.epAddr == 0 ==> conf.MaxLen(req) == 4096
    ensures conf.st && req.epAddr != 0 ==>
      conf.MaxLen(req) == if req.epAddr % 0x1_0000_0000 < 4096 then req.epAddr % 0x1_0000_0000 else 4096
    ensures !conf.st && conf.apertureSize != 0 ==> conf.MaxLen(req) == conf.apertureSize
    ensures !conf.st && conf.apertureSize == 0 ==> conf.MaxLen(req) == conf.blenMax
  {
  }

  /** A descriptor is as long as it can be: `m` bytes from `off` on fit in it exactly when they lie
      in one element, within the limit, and in keyhole mode within one lap of the window. */
  lemma ChunkIsLongest(conf: Conf, req: Request, off: nat, m: nat)
    requires conf.Valid() && WellFormed(req) && off < req.count
    ensures m <= ChunkLen(conf, req, off) <==>
      && Locate(req.sgl, off).1 + m <= req.sgl[Locate(req.sgl, off).0].len && m <= conf.MaxLen(req)
      && (!conf.st && conf.apertureSize != 0 ==> off % conf.apertureSize + m <= conf.apertureSize)
  {
  }

  /** The descriptor that starts at byte `off`, before its packet flags are set. */
  function Chunk(conf: Conf, req: Request, off: nat): Desc
    requires conf.Valid() && WellFormed(req) && off < req.count
  {
    var (i, o) := Locate(req.sgl, off);
    var bus := req.sgl[i].addr + o;
    var ep := EpByte(conf, req, off);
    if conf.c2h then Desc(ep, bus, ChunkLen(conf, req, off), false, false, true)
    else Desc(bus, ep, ChunkLen(conf, req, off), false, false, true)
  }

  /** Descriptors from byte `off` to the end, at most `max` of them. */
  function Cut(conf: Conf, req: Request, off: nat, max: nat): (ds: seq<Desc>)
    requires conf.Valid() && WellFormed(req) && off <= req.count
    ensures |ds| <= max
    decreases max
  {
    if max == 0 || off == req.count then []
    else [Chunk(conf, req, off)] + Cut(conf, req, off + ChunkLen(conf, req, off), max - 1)
  }

  /** Byte offset reached after at most `max` descriptors. */
  function CutEnd(conf: Conf, req: Request, off: nat, max: nat): (e: nat)
    requires conf.Valid() && WellFormed(req) && off <= req.count
    ensures off <= e <= req.count
    ensures off < req.count && max > 0 ==> (off < e <==> conf.Moves(req))
    decreases max
  {
    if max == 0 || off == req.count then off
    else CutEnd(conf, req, off + ChunkLen(conf, req, off), max - 1)
  }

  /** The whole request from byte `off`, cut in one go. A request that does not move has no
      finite cut, and its plan is empty. */
  function Plan(conf: Conf, req: Request, off: nat): (ds: seq<Desc>)
    requires conf.Valid() && WellFormed(req) && off <= req.count
    ensures ds != [] <==> off < req.count && conf.Moves(req)
    decreases req.count - off
  {
    if off == req.count || !conf.Moves(req) then []
    else [Chunk(conf, req, off)] + Plan(conf, req, off + ChunkLen(conf, req, off))
  }

  /** An interrupted pass followed by the rest is the uninterrupted plan. */
  lemma {:induction false} CutThenPlan(conf: Conf, req: Request, off: nat, max: nat)
    requires conf.Valid() && WellFormed(req) && off <= req.count && conf.Moves(req)
    ensures Cut(conf, req, off, max) + Plan(conf, req, CutEnd(conf, req, off, max)) == Plan(conf, req, off)
    decreases max
  {
    hide ChunkLen, Chunk;
    if max > 0 && off < req.count {
      var n := ChunkLen(conf, req, off);
      var head, cut, rest := [Chunk(conf, req, off)], Cut(conf, req, off + n, max - 1), CutEnd(conf, req, off + n, max - 1);
      CutThenPlan(conf, req, off + n, max - 1);
      assert CutEnd(conf, req, off, max) == rest;
      assert (head + cut) + Plan(conf, req, rest) == head + (cut + Plan(conf, req, rest));
    }
  }

  lemma CutNext(conf: Conf, req: Request, off: nat, max: nat)
    requires conf.Valid() && WellFormed(req) && off < req.count && 0 < max
    ensures var n := ChunkLen(conf, req, off);
      && Cut(conf, req, off, max) == [Chunk(conf, req, off)] + Cut(conf, req, off + n, max - 1)
      && CutEnd(conf, req, off, max) == CutEnd(conf, req, off + n, max - 1)
  {
  }

  /** A pass stops early only when it has used up its descriptors. */
  lemma {:induction false} CutFull(conf: Conf, req: Request, off: nat, max: nat)
    requires conf.Valid() && WellFormed(req) && off <= req.count
    ensures CutEnd(conf, req, off, max) < req.count ==> |Cut(conf, req, off, max)| == max
    ensures off < req.count && max > 0 ==> |Cut(conf, req, off, max)| > 0
    decreases max
  {
    if max > 0 && off < req.count {
      CutFull(conf, req, off + ChunkLen(conf, req, off), max - 1);
    }
  }

  /** A pass with more room than it needs does no more. */
  lemma {:induction false} CutShorter(conf: Conf, req: Request, off: nat, max: nat)
    requires conf.Valid() && WellFormed(req) && off <= req.count
    ensures var n := |Cut(conf, req, off, max)|;
      Cut(conf, req, off, n) == Cut(conf, req, off, max) && CutEnd(conf, req, off, n) == CutEnd(conf, req, off, max)
    decreases max
  {
    hide ChunkLen, Chunk;
    if max > 0 && off < req.count {
      CutShorter(conf, req, off + ChunkLen(conf, req, off), max - 1);
    }
  }

  /** Two passes in a row are one longer pass. */
  lemma {:induction false} CutJoin(conf: Conf, req: Request, off: nat, a: nat, b: nat)
    requires conf.Valid() && WellFormed(req) && off <= req.count && |Cut(conf, req, off, a)| == a
    ensures Cut(conf, req, off, a) + Cut(conf, req, CutEnd(conf, req, off, a), b) == Cut(conf, req, off, a + b)
    ensures CutEnd(conf, req, CutEnd(conf, req, off, a), b) == CutEnd(conf, req, off, a + b)
    decreases a
  {
    hide ChunkLen, Chunk;
    if a > 0 {
      var n := ChunkLen(conf, req, off);
      CutJoin(conf, req, off + n, a - 1, b);
      var head, cut := [Chunk(conf, req, off)], Cut(conf, req, off + n, a - 1);
      var rest := Cut(conf, req, CutEnd(conf, req, off, a), b);
      assert (head + cut) + rest == head + (cut + rest);
    }
  }

  // ---------------------------------------------------------------- bytes

  /** One transferred byte: where it sits in host memory and on the device. */
  datatype BytePair = BytePair(bus: nat, ep: nat)

  function DescBytes(conf: Conf, d: Desc): (r: seq<BytePair>)
    ensures |r| == d.len
  {
    seq(d.len, k requires 0 <= k =>
      if conf.st then BytePair(d.src + k, 0)
      else if conf.c2h then BytePair(d.dst + k, d.src + k)
      else BytePair(d.src + k, d.dst + k))
  }

  function Bytes(conf: Conf, ds: seq<Desc>): seq<BytePair>
  {
    if ds == [] then [] else DescBytes(conf, ds[0]) + Bytes(conf, ds[1..])
  }

  /** What the request asks for, byte by byte, with no mention of descriptors. */
  function Wanted(conf: Conf, req: Request, off: nat): (r: seq<BytePair>)
    requires conf.Valid() && WellFormed(req) && off <= req.count
    ensures |r| == req.count - off
  {
    seq(req.count - off, k requires 0 <= k < req.count - off =>
      BytePair(BusImage(req.sgl)[off + k], EpByte(conf, req, off + k)))
  }

  /** The byte at place `o` of element `i`: its own bus address, and on the device the address of
      the request plus its place in the request, folded into the window in keyhole mode. */
  lemma WantedIs(conf: Conf, req: Request, i: nat, o: nat)
    requires conf.Valid() && WellFormed(req) && i < |req.sgl| && o < req.sgl[i].len
    ensures var at := TotalLen(req.sgl[..i]) + o;
      && at < req.count
      && Wanted(conf, req, 0)[at].bus == req.sgl[i].addr + o
      && (!conf.st ==> Wanted(conf, req, 0)[at].ep
                       == req.epAddr + if conf.apertureSize == 0 then at else at % conf.apertureSize)
  {
    ImageAt(req.sgl, i, o);
  }

  lemma {:induction false} ImageAt(sgl: seq<Sg>, i: nat, o: nat)
    requires i < |sgl| && o < sgl[i].len
    ensures TotalLen(sgl[..i]) + o < TotalLen(sgl) && BusImage(sgl)[TotalLen(sgl[..i]) + o] == sgl[i].addr + o
  {
    if i > 0 {
      ImageAt(sgl[1..], i - 1, o);
      assert sgl[..i][0] == sgl[0] && sgl[..i][1..] == sgl[1..][..i - 1];
    }
  }

  lemma EpStep(conf: Conf, req: Request, off: nat, k: nat)
    requires conf.Valid() && !conf.st
    requires conf.apertureSize != 0 ==> off % conf.apertureSize + k < conf.apertureSize
    ensures EpByte(conf, req, off + k) == EpByte(conf, req, off) + k
  {
    if conf.apertureSize != 0 {
      Ring.ModStep(off, k, conf.apertureSize);
    }
  }

  lemma BusStep(sgl: seq<Sg>, off: nat, k: nat)
    requires Positive(sgl) && off < TotalLen(sgl)
    requires k < sgl[Locate(sgl, off).0].len - Locate(sgl, off).1
    ensures off + k < TotalLen(sgl)
    ensures BusImage(sgl)[off + k] == sgl[Locate(sgl, off).0].addr + Locate(sgl, off).1 + k
  {
    LocateStep(sgl, off, k);
    LocateImage(sgl, off + k);
  }

  lemma ChunkByte(conf: Conf, req: Request, off: nat, k: nat)
    requires conf.Valid() && WellFormed(req) && off < req.count && k < ChunkLen(conf, req, off)
    ensures DescBytes(conf, Chunk(conf, req, off))[k] == Wanted(conf, req, off)[k]
  {
    var (i, o) := Locate(req.sgl, off);
    BusStep(req.sgl, off, k);
    assert Wanted(conf, req, off)[k] == BytePair(req.sgl[i].addr + o + k, EpByte(conf, req, off + k));
    if conf.st {
      assert DescBytes(conf, Chunk(conf, req, off))[k] == BytePair(req.sgl[i].addr + o + k, 0);
    } else {
      EpStep(conf, req, off, k);
      assert DescBytes(conf, Chunk(conf, req, off))[k] == BytePair(req.sgl[i].addr + o + k, EpByte(conf, req, off) + k);
    }
  }

  /** One descriptor carries exactly the wanted bytes of its range. */
  lemma ChunkBytes(conf: Conf, req: Request, off: nat)
    requires conf.Valid() && WellFormed(req) && off < req.count
    ensures DescBytes(conf, Chunk(conf, req, off)) == Wanted(conf, req, off)[..ChunkLen(conf, req, off)]
  {
    forall k | 0 <= k < ChunkLen(conf, req, off)
      ensures DescBytes(conf, Chunk(conf, req, off))[k] == Wanted(conf, req, off)[k]
    {
      ChunkByte(conf, req, off, k);
    }
  }

  lemma TakeSplit<T>(w: seq<T>, n: nat, m: nat)
    requires n <= m <= |w|
    ensures w[..m] == w[..n] + w[n..][..m - n]
  {
  }

  lemma WantedSuffix(conf: Conf, req: Request, off: nat, n: nat)
    requires conf.Valid() && WellFormed(req) && off + n <= req.count
    ensures Wanted(conf, req, off)[n..] == Wanted(conf, req, off + n)
  {
  }

  /** The descriptors of a pass carry exactly the wanted bytes up to where the pass ends. */
  lemma {:induction false} CutIsByteExact(conf: Conf, req: Request, off: nat, max: nat)
    requires conf.Valid() && WellFormed(req) && off <= req.count
    ensures Bytes(conf, Cut(conf, req, off, max)) == Wanted(conf, req, off)[..CutEnd(conf, req, off, max) - off]
    decreases max
  {
    if max > 0 && off < req.count {
      hide ChunkLen, Chunk, Wanted, DescBytes;
      var n, end := ChunkLen(conf, req, off), CutEnd(conf, req, off, max);
      WantedSuffix(conf, req, off, n);
      CutIsByteExact(conf, req, off + n, max - 1);
      ChunkBytes(conf, req, off);
      assert Cut(conf, req, off, max)[1..] == Cut(conf, req, off + n, max - 1);
      var want := Wanted(conf, req, off);
      TakeSplit(want, n, end - off);
    }
  }

  /** The plan transfers every byte of the request exactly once, in order, each between
      its own bus address and its own device address, if and only if the request moves. */
  lemma {:induction false} PlanIsByteExact(conf: Conf, req: Request, off: nat)
    requires conf.Valid() && WellFormed(req) && off <= req.count
    ensures Bytes(conf, Plan(conf, req, off)) == Wanted(conf, req, off) <==> off == req.count || conf.Moves(req)
    decreases req.count - off
  {
    if off < req.count && !conf.Moves(req) {
      assert |Wanted(conf, req, off)| > 0;
    } else if off < req.count {
      var n := ChunkLen(conf, req, off);
      var rest := Plan(conf, req, off + n);
      PlanIsByteExact(conf, req, off + n);
      ChunkBytes(conf, req, off);
      WantedSuffix(conf, req, off, n);
      assert Plan(conf, req, off)[1..] == rest;
      var want := Wanted(conf, req, off);
      assert want == want[..n] + want[n..];
    }
  }

  function EpOf(conf: Conf, d: Desc): nat
  {
    if conf.c2h then d.src else d.dst
  }

  /** With the keyhole on, no descriptor leaves the aperture window. */
  lemma {:induction false} PlanStaysInWindow(conf: Conf, req: Request, off: nat, i: nat)
    requires conf.Valid() && WellFormed(req) && off <= req.count
    requires conf.Keyhole() && i < |Plan(conf, req, off)|
    ensures var d := Plan(conf, req, off)[i];
            req.epAddr <= EpOf(conf, d) && EpOf(conf, d) + d.len <= req.epAddr + conf.apertureSize
    decreases i
  {
    if i > 0 {
      PlanStaysInWindow(conf, req, off + ChunkLen(conf, req, off), i - 1);
    }
  }
}
