/** The word of a memory-mapped descriptor that holds its length below its flags. */
module DescWord {
  import opened Transfer

  const DV: bv32 := 1 << 28
  const SOP: bv32 := 1 << 29
  const EOP: bv32 := 1 << 30

  /** The word as the driver assembles it: the length with the flags or'ed in. */
  function FlagLen(len: bv32, sop: bool, eop: bool): bv32
  {
    len | DV | (if sop then SOP else 0) | (if eop then EOP else 0)
  }

  /** What the device reads back from it. */
  function ReadLen(w: bv32): bv32 { w & 0x0FFF_FFFF }

  predicate ReadSop(w: bv32) { w & SOP != 0 }

  predicate ReadEop(w: bv32) { w & EOP != 0 }

  /** The device reads back what was meant, a valid descriptor with its length, for every setting
      of the packet flags if and only if the length stays clear of the flags. */
  lemma WordIsFaithful(len: bv32)
    ensures (forall sop, eop :: var w := FlagLen(len, sop, eop);
               ReadLen(w) == len && ReadSop(w) == sop && ReadEop(w) == eop && w & DV != 0 && w & 0x8000_0000 == 0)
            <==> len < 0x1000_0000
  {
    if len >= 0x1000_0000 {
      assert ReadLen(FlagLen(len, false, false)) != len;
    } else {
      forall sop, eop
        ensures var w := FlagLen(len, sop, eop);
          ReadLen(w) == len && ReadSop(w) == sop && ReadEop(w) == eop && w & DV != 0 && w & 0x8000_0000 == 0
      {
        ReadBack(len, sop, eop);
      }
    }
  }

  lemma ReadBack(len: bv32, sop: bool, eop: bool)
    requires len < 0x1000_0000
    ensures var w := FlagLen(len, sop, eop);
      ReadLen(w) == len && ReadSop(w) == sop && ReadEop(w) == eop && w & DV != 0 && w & 0x8000_0000 == 0
  {
  }

  /** Every descriptor of every memory-mapped request has a length that fits if and only if the
      longest one may: an aperture accepted at start may still be too large. */
  lemma LengthsFit(conf: Conf)
    requires conf.Valid() && !conf.st
    ensures (forall req: Request, off: nat | WellFormed(req) && off < req.count :: ChunkLen(conf, req, off) < 0x1000_0000)
            <==> (if conf.apertureSize != 0 then conf.apertureSize else conf.blenMax) < 0x1000_0000
  {
    var max := if conf.apertureSize != 0 then conf.apertureSize else conf.blenMax;
    var req := Request(0, [Sg(max, 0)], max, 0);
    assert TotalLen([Sg(max, 0)]) == max + TotalLen([]);
    assert [Sg(max, 0)][1..] == [];
    assert WellFormed(req);
    assert Locate(req.sgl, 0) == (0, 0);
    assert conf.Keyhole() ==> 0 % conf.apertureSize == 0;
    assert ChunkLen(conf, req, 0) == max;
  }
}
