/** The constant lookup tables that translate GE selectors into GL enumerations. */
module Tables {
  import opened GL
  import opened GE

  /** aLookup: source blend selector -> GL factor. Doubled selectors share the
      undoubled GL factor (the shader doubles); entry 10 (FIXA) is never read, the
      fixed colour goes through the resolver instead. */
  const ALookup: seq<BlendFactor> := [
    DstColor, OneMinusDstColor, SrcAlpha, OneMinusSrcAlpha, DstAlpha, OneMinusDstAlpha,
    SrcAlpha, OneMinusSrcAlpha, DstAlpha, OneMinusDstAlpha, ConstantColor]

  /** bLookup: destination blend selector -> GL factor. */
  const BLookup: seq<BlendFactor> := [
    SrcColor, OneMinusSrcColor, SrcAlpha, OneMinusSrcAlpha, DstAlpha, OneMinusDstAlpha,
    SrcAlpha, OneMinusSrcAlpha, DstAlpha, OneMinusDstAlpha, ConstantColor]

  /** eqLookupNoMinMax: blend equation selector -> GL equation when MIN/MAX are missing. */
  const EqLookupNoMinMax: seq<BlendEquation> := [
    FuncAdd, FuncSubtract, FuncReverseSubtract, FuncAdd, FuncAdd, FuncAdd]

  /** eqLookup: blend equation selector -> GL equation; ABSDIFF falls back to MAX. */
  const EqLookup: seq<BlendEquation> := [
    FuncAdd, FuncSubtract, FuncReverseSubtract, Min, Max, Max]

  /** cullingMode: cull index -> face. */
  const CullingMode: seq<CullFace> := [Front, Back]

  /** ztests: GE comparison -> GL comparison, for depth and stencil tests. */
  const ZTests: seq<CompareFunc> := [
    Never, Always, Equal, NotEqual, Less, LEqual, Greater, GEqual]

  /** stencilOps: GE stencil op -> GL stencil op; the two reserved codes keep. */
  const StencilOpsTable: seq<StencilOp> := [
    OpKeep, OpZero, OpReplace, OpInvert, OpIncr, OpDecr, OpKeep, OpKeep]

  /** logicOps: GE logic op -> GL logic op (only compiled where GL has logic ops). */
  const LogicOpsTable: seq<LogicOp> := [
    LogicClear, LogicAnd, LogicAndReverse, LogicCopy,
    LogicAndInverted, LogicNoop, LogicXor, LogicOr,
    LogicNor, LogicEquiv, LogicInvert, LogicOrReverse,
    LogicCopyInverted, LogicOrInverted, LogicNand, LogicSet]

  /** Every table covers the whole range of its selector. */
  lemma TablesCoverSelectors()
    ensures |ALookup| == |BLookup| == BlendFix + 1
    ensures |EqLookup| == |EqLookupNoMinMax| == 6
    ensures |CullingMode| == 2 && |ZTests| == 8 && |StencilOpsTable| == 8 && |LogicOpsTable| == 16
  {
  }

  /** Each doubled selector maps to the same GL factor as its undoubled twin, and no
      table entry is one of the factors the resolver introduces (ONE, ZERO, INVALID). */
  lemma BlendLookupShape(sel: int)
    requires 0 <= sel < BlendFix
    ensures BlendDoubleSrcAlpha <= sel ==> ALookup[sel] == ALookup[sel - 4] && BLookup[sel] == BLookup[sel - 4]
    ensures ALookup[sel] !in {Zero, One, InvalidEnum} && BLookup[sel] !in {Zero, One, InvalidEnum}
  {
  }

  /** The reserved stencil-op codes 6 and 7 keep the stencil value. */
  lemma ReservedStencilOpsKeep()
    ensures StencilOpsTable[6] == OpKeep && StencilOpsTable[7] == OpKeep
  {
  }

  /** Without MIN/MAX support no selector yields MIN or MAX, and the two equation
      tables agree on ADD, SUBTRACT and REVERSE_SUBTRACT. */
  lemma EquationTablesAgree(i: EqIndex)
    ensures EqLookupNoMinMax[i] !in {Min, Max}
    ensures i < 3 ==> EqLookup[i] == EqLookupNoMinMax[i]
    ensures 3 <= i ==> EqLookupNoMinMax[i] == FuncAdd
  {
  }

  /** The GE comparison each ztests entry stands for. */
  function ZTestIndex(f: CompareFunc): (i: Index8)
    ensures ZTests[i] == f
  {
    match f
    case Never => CompNever
    case Always => CompAlways
    case Equal => CompEqual
    case NotEqual => CompNotEqual
    case Less => CompLess
    case LEqual => CompLEqual
    case Greater => CompGreater
    case GEqual => CompGEqual
  }

  /** ztests is a bijection: every GE comparison gets its own GL comparison. */
  lemma ZTestsBijective(i: Index8)
    ensures ZTestIndex(ZTests[i]) == i
  {
  }

  /** The meaning of a GE logic operation on one bit, by the GE operation names. */
  function GeLogicBit(op: Nibble, s: bool, d: bool): bool {
    if op == GeLogicClear then false
    else if op == GeLogicAnd then s && d
    else if op == GeLogicAndReverse then s && !d
    else if op == GeLogicCopy then s
    else if op == GeLogicAndInverted then !s && d
    else if op == GeLogicNoop then d
    else if op == GeLogicXor then s != d
    else if op == GeLogicOr then s || d
    else if op == GeLogicNor then !(s || d)
    else if op == GeLogicEquiv then s == d
    else if op == GeLogicInverted then !d
    else if op == GeLogicOrReverse then s || !d
    else if op == GeLogicCopyInverted then !s
    else if op == GeLogicOrInverted then !s || d
    else if op == GeLogicNand then !(s && d)
    else true
  }

  /** The native logic-op table computes exactly the GE operation it is indexed by. */
  lemma LogicOpsTableFaithful(op: Nibble, s: bool, d: bool)
    ensures LogicOpBit(LogicOpsTable[op], s, d) == GeLogicBit(op, s, d)
  {
  }
}
