/** Program counters of the debugger (forth-elf/src/program-counter.ts): a
    position in the top-level token stream, or a position inside the code of
    a signature entry. */
module ProgramCounter {

  datatype Pc =
    | TokStream(index: int)
    | SigEntry(sigIx: int, tokIx: int)

  /** `pcEqual` as written: its switch has a case for `tokstream` only, so
      for a `sigEntry` first argument it falls off the end and returns
      `undefined`, which every caller reads as false. */
  predicate PcEqual(pc1: Pc, pc2: Pc) {
    match pc1
    case TokStream(i) => pc2.TokStream? && i == pc2.index
    case SigEntry(_, _) => false
  }

  /** For a `tokstream` first argument, `pcEqual` is equality of the two pcs. */
  lemma PcEqualOnTokStream(pc1: Pc, pc2: Pc)
    requires pc1.TokStream?
    ensures PcEqual(pc1, pc2) <==> pc2.TokStream? && pc2.index == pc1.index
    ensures PcEqual(pc1, pc2) <==> pc1 == pc2
  {
  }

  /** The defect: a `sigEntry` pc is not equal to itself. */
  lemma PcEqualNotReflexive()
    ensures !PcEqual(SigEntry(0, 0), SigEntry(0, 0))
  {
  }

  /** `pcEqual` with the missing `sigEntry` case compared field by field. */
  predicate PcEqualFixed(pc1: Pc, pc2: Pc) {
    match pc1
    case TokStream(i) => pc2.TokStream? && i == pc2.index
    case SigEntry(s, t) => pc2.SigEntry? && s == pc2.sigIx && t == pc2.tokIx
  }

  /** The corrected comparison is exactly equality of pcs, and agrees with
      `pcEqual` wherever `pcEqual` has a case. */
  lemma PcEqualFixedIsEquality(pc1: Pc, pc2: Pc)
    ensures PcEqualFixed(pc1, pc2) <==> pc1 == pc2
    ensures pc1.TokStream? ==> (PcEqualFixed(pc1, pc2) <==> PcEqual(pc1, pc2))
  {
  }

  /** `isExactTok(pc, index)` */
  predicate IsExactTok(pc: Pc, index: int) {
    pc.TokStream? && index == pc.index
  }

  lemma IsExactTokMeans(pc: Pc, index: int)
    ensures IsExactTok(pc, index) <==> pc == TokStream(index)
  {
  }

  /** `pcNext`: one token further, in the same stream or signature entry. */
  function PcNext(pc: Pc): (r: Pc)
    ensures r.TokStream? == pc.TokStream?
    ensures r.TokStream? ==> r.index == pc.index + 1
    ensures r.SigEntry? ==> r.sigIx == pc.sigIx && r.tokIx == pc.tokIx + 1
  {
    match pc
    case TokStream(i) => TokStream(i + 1)
    case SigEntry(s, t) => SigEntry(s, t + 1)
  }

  /** `pcPrev`: one token back, in the same stream or signature entry. */
  function PcPrev(pc: Pc): (r: Pc)
    ensures r.TokStream? == pc.TokStream?
    ensures r.TokStream? ==> r.index == pc.index - 1
    ensures r.SigEntry? ==> r.sigIx == pc.sigIx && r.tokIx == pc.tokIx - 1
  {
    match pc
    case TokStream(i) => TokStream(i - 1)
    case SigEntry(s, t) => SigEntry(s, t - 1)
  }

  /** `pcPrev` and `pcNext` undo each other. */
  lemma PrevNextInverse(pc: Pc)
    ensures PcPrev(PcNext(pc)) == pc
    ensures PcNext(PcPrev(pc)) == pc
  {
  }

  /** `isExactTok` follows `pcNext`: the successor of the pc at token `i` is
      the pc at token `i + 1`, and only that. */
  lemma ExactTokNext(pc: Pc, index: int)
    ensures IsExactTok(PcNext(pc), index + 1) <==> IsExactTok(pc, index)
  {
  }
}
