/** The blend decisions of the state mapper as functions of the registers:
    the logic-op emulation, the stencil-to-alpha blending, the fixed-function factor
    pipeline with its one-blend-colour reconciliation, and the alpha-channel plan. */
module BlendState {
  import opened GL
  import opened GE
  import opened Tables
  import opened BlendColor

  /** Source factor, destination factor and equation for one channel group. */
  datatype BlendTriple = BlendTriple(src: BlendFactor, dst: BlendFactor, eq: BlendEquation)

  /** "Normally, we would add src + 0": the triple that blends nothing. */
  const PlainWrite := BlendTriple(One, Zero, FuncAdd)

  /** Blending with the plain triple writes the source unchanged, which is why the
      mapper may disable blending instead of setting it. */
  lemma PlainWriteIsNoBlend(s: real, d: real, ca: real)
    requires 0.0 <= s <= 1.0
    ensures BlendValue(PlainWrite.src, PlainWrite.dst, PlainWrite.eq, s, d, ca) == s
  {
  }

  // ---------------------------------------------------------------------------
  // ApplyStencilReplaceAndLogicOp

  /** The factors and equation that stand in for a GE logic op when GL has no
      native logic ops; the plain triple when it has, or when the op is off. */
  function LogicOpBlend(supportsLogicOp: bool, logicOpEnabled: bool, logicOp: Nibble): (t: BlendTriple)
    ensures supportsLogicOp || !logicOpEnabled ==> t == PlainWrite
    ensures !supportsLogicOp && logicOpEnabled ==>
      (logicOp == GeLogicClear ==> t == BlendTriple(Zero, Zero, FuncAdd)) &&
      (logicOp == GeLogicCopy ==> t == PlainWrite) &&
      (logicOp == GeLogicNoop ==> t == BlendTriple(Zero, One, FuncAdd)) &&
      (logicOp == GeLogicInverted ==> t == BlendTriple(One, One, FuncSubtract)) &&
      (logicOp in {GeLogicOr, GeLogicOrInverted, GeLogicSet} ==> t == BlendTriple(One, One, FuncAdd)) &&
      (logicOp !in {GeLogicClear, GeLogicNoop, GeLogicInverted, GeLogicOr, GeLogicOrInverted, GeLogicSet} ==> t == PlainWrite)
    ensures IsFixedWeight(t.src) && IsFixedWeight(t.dst)
  {
    if supportsLogicOp || !logicOpEnabled then PlainWrite
    else if logicOp == GeLogicClear then BlendTriple(Zero, Zero, FuncAdd)
    else if logicOp == GeLogicInverted then BlendTriple(One, One, FuncSubtract)
    else if logicOp == GeLogicNoop then BlendTriple(Zero, One, FuncAdd)
    else if logicOp == GeLogicOr || logicOp == GeLogicOrInverted || logicOp == GeLogicSet then BlendTriple(One, One, FuncAdd)
    else PlainWrite   // AND, AND_REVERSE, COPY, COPY_INVERTED, AND_INVERTED, NOR, NAND, EQUIV, XOR, OR_REVERSE
  }

  /** CLEAR, COPY and NOOP are emulated exactly: on every channel the blend writes
      what the logic op computes bit by bit (all zeros, the source, the destination). */
  lemma LogicOpEmulationExact(logicOp: Nibble, s: real, d: real)
    requires logicOp == GeLogicClear || logicOp == GeLogicCopy || logicOp == GeLogicNoop
    requires 0.0 <= s <= 1.0 && 0.0 <= d <= 1.0
    ensures var t := LogicOpBlend(false, true, logicOp);
      BlendValue(t.src, t.dst, t.eq, s, d, 0.0) ==
        if logicOp == GeLogicClear then 0.0 else if logicOp == GeLogicCopy then s else d
    ensures forall sb: bool, db: bool ::
      GeLogicBit(logicOp, sb, db) == if logicOp == GeLogicClear then false else if logicOp == GeLogicCopy then sb else db
  {
  }

  /** Which alpha equations the blends that accumulate a stencil value use: those the
      source selects, or those that compute the stencil update. The draw engine uses
      the first; StencilAlphaEquationAsWrittenLoses shows where they part. */
  datatype StencilEquations = AsWritten | Corrected

  /** The alpha equation for a stencil value that the shader writes as alpha and the
      blender accumulates. As written, a decrement uses SUBTRACT and an inversion
      REVERSE_SUBTRACT; the corrected equations are the other way round. */
  function StencilAlphaEquation(v: StencilEquations, t: StencilValueType): BlendEquation {
    match t
    case StencilDecr4 | StencilDecr8 => if v == AsWritten then FuncSubtract else FuncReverseSubtract
    case StencilInvert => if v == AsWritten then FuncReverseSubtract else FuncSubtract
    case _ => FuncAdd
  }

  /** With the shader writing the step (or one, for INVERT) as alpha and factors
      (ONE, ONE), the corrected equations store the incremented, decremented or
      inverted stencil value, clamped as the fixed-point target clamps it. The
      equations as written store the step minus the stored value for a decrement,
      and the stored value minus the shader's for an inversion, which is always zero
      when the shader writes one. */
  lemma StencilAlphaEquationUpdates(t: StencilValueType, s: real, d: real)
    requires 0.0 <= s <= 1.0 && 0.0 <= d <= 1.0
    ensures t in {StencilIncr4, StencilIncr8} ==>
      BlendValue(One, One, StencilAlphaEquation(Corrected, t), s, d, 0.0) == Clamp01(d + s) &&
      BlendValue(One, One, StencilAlphaEquation(AsWritten, t), s, d, 0.0) == Clamp01(d + s)
    ensures t in {StencilDecr4, StencilDecr8} ==>
      BlendValue(One, One, StencilAlphaEquation(Corrected, t), s, d, 0.0) == Clamp01(d - s) &&
      BlendValue(One, One, StencilAlphaEquation(AsWritten, t), s, d, 0.0) == Clamp01(s - d)
    ensures t == StencilInvert ==>
      BlendValue(One, One, StencilAlphaEquation(Corrected, t), s, d, 0.0) == Clamp01(s - d) &&
      BlendValue(One, One, StencilAlphaEquation(AsWritten, t), s, d, 0.0) == Clamp01(d - s)
    ensures t == StencilInvert && s == 1.0 ==>
      BlendValue(One, One, StencilAlphaEquation(Corrected, t), s, d, 0.0) == 1.0 - d &&
      BlendValue(One, One, StencilAlphaEquation(AsWritten, t), s, d, 0.0) == 0.0
  {
  }

  /** The equations as written lose the stencil value: a decrement by 1/255 of a
      stored 10/255 writes 0 instead of 9/255, and inverting a stored 64/255 writes
      0 instead of 191/255. */
  lemma StencilAlphaEquationAsWrittenLoses()
    ensures BlendValue(One, One, StencilAlphaEquation(AsWritten, StencilDecr8), 1.0 / 255.0, 10.0 / 255.0, 0.0) == 0.0
    ensures BlendValue(One, One, StencilAlphaEquation(Corrected, StencilDecr8), 1.0 / 255.0, 10.0 / 255.0, 0.0) == 9.0 / 255.0
    ensures BlendValue(One, One, StencilAlphaEquation(AsWritten, StencilInvert), 1.0, 64.0 / 255.0, 0.0) == 0.0
    ensures BlendValue(One, One, StencilAlphaEquation(Corrected, StencilInvert), 1.0, 64.0 / 255.0, 0.0) == 191.0 / 255.0
  {
  }

  /** What a blend step does to the GL blend state: switch blending off (factors and
      equations stay as they were), or set factors and equations and switch it on. */
  datatype BlendUpdate = BlendDisabled | BlendEnabled(funcs: BlendFuncs, eqs: BlendEqs)

  /** The stencil value type ApplyStencilReplaceAndLogicOp works with: only a shader
      that replaces alpha with the stencil value has one, otherwise KEEP. */
  function ReplaceStencilType(replaceAlpha: ReplaceAlphaType, stencilType: StencilValueType): (t: StencilValueType)
    ensures replaceAlpha == ReplaceAlphaYes ==> t == stencilType
    ensures replaceAlpha != ReplaceAlphaYes ==> t == StencilKeep
  {
    if replaceAlpha == ReplaceAlphaYes then stencilType else StencilKeep
  }

  /** ApplyStencilReplaceAndLogicOp: the RGB channels follow the logic-op triple; the
      alpha channel accumulates the shader's stencil output for INCR, DECR and
      INVERT and takes it unchanged otherwise, in which case blending is switched
      off exactly when the RGB triple is the plain one. */
  function StencilReplaceBlend(v: StencilEquations, t: StencilValueType, rgb: BlendTriple): (u: BlendUpdate)
    ensures t in {StencilIncr4, StencilIncr8, StencilDecr4, StencilDecr8, StencilInvert} ==>
      u == BlendEnabled(BlendFuncs(rgb.src, rgb.dst, One, One), BlendEqs(rgb.eq, StencilAlphaEquation(v, t)))
    ensures t !in {StencilIncr4, StencilIncr8, StencilDecr4, StencilDecr8, StencilInvert} ==>
      (u.BlendDisabled? <==> rgb == PlainWrite) &&
      (u.BlendEnabled? ==> u == BlendEnabled(BlendFuncs(rgb.src, rgb.dst, One, Zero), BlendEqs(rgb.eq, FuncAdd)))
  {
    match t
    case StencilIncr4 | StencilIncr8 | StencilDecr4 | StencilDecr8 | StencilInvert =>
      BlendEnabled(BlendFuncs(rgb.src, rgb.dst, One, One), BlendEqs(rgb.eq, StencilAlphaEquation(v, t)))
    case _ =>
      if rgb.src == One && rgb.dst == Zero && rgb.eq == FuncAdd then BlendDisabled
      else BlendEnabled(BlendFuncs(rgb.src, rgb.dst, One, Zero), BlendEqs(rgb.eq, FuncAdd))
  }

  /** The GL blend state after a blend update. */
  function ApplyBlendUpdate(s: GLSnapshot, u: BlendUpdate): GLSnapshot {
    match u
    case BlendDisabled => s.(blend := s.blend.(enabled := false))
    case BlendEnabled(funcs, eqs) => s.(blend := BlendSetting(true, funcs, eqs, s.blend.color))
  }

  /** The GL state after ApplyStencilReplaceAndLogicOp. */
  function StencilReplaceAndLogicOpState(v: StencilEquations, s: GLSnapshot, g: GeState, f: Features,
                                         replaceAlpha: ReplaceAlphaType, stencilType: StencilValueType): GLSnapshot
  {
    var rgb := LogicOpBlend(f.logicOp, g.logicOpEnabled, g.logicOp);
    ApplyBlendUpdate(s, StencilReplaceBlend(v, ReplaceStencilType(replaceAlpha, stencilType), rgb))
  }

  /** Whatever the stencil type and logic op, the step writes to the RGB channels what
      the logic-op triple computes, and to alpha the source value or the stencil
      update: d + s for an increment; for a decrement d - s with the corrected
      equations and s - d as written; for an inversion s - d corrected and d - s as
      written (all clamped). */
  lemma StencilReplaceAndLogicOpMeaning(v: StencilEquations, g: GeState, f: Features, replaceAlpha: ReplaceAlphaType,
                                        stencilType: StencilValueType, s0: GLSnapshot, sa: real, da: real)
    requires 0.0 <= sa <= 1.0 && 0.0 <= da <= 1.0
    ensures var s1 := StencilReplaceAndLogicOpState(v, s0, g, f, replaceAlpha, stencilType);
      var t := ReplaceStencilType(replaceAlpha, stencilType);
      var fs, es := s1.blend.funcs, s1.blend.eqs;
      (!s1.blend.enabled ==> LogicOpBlend(f.logicOp, g.logicOpEnabled, g.logicOp) == PlainWrite && t !in {StencilIncr4, StencilIncr8, StencilDecr4, StencilDecr8, StencilInvert}) &&
      (s1.blend.enabled ==>
         (IsFixedWeight(fs.srcAlpha) && IsFixedWeight(fs.dstAlpha) &&
          BlendValue(fs.srcAlpha, fs.dstAlpha, es.alpha, sa, da, 0.0) ==
            (if t in {StencilIncr4, StencilIncr8} then Clamp01(da + sa)
             else if t in {StencilDecr4, StencilDecr8} then (if v == Corrected then Clamp01(da - sa) else Clamp01(sa - da))
             else if t == StencilInvert then (if v == Corrected then Clamp01(sa - da) else Clamp01(da - sa))
             else sa)))
  {
  }

  // ---------------------------------------------------------------------------
  // ApplyBlendState: constant alpha

  /** The alpha of the blend colour (constantAlpha) and the factor that carries it
      into the alpha blend (constantAlphaGL). */
  datatype ConstantAlphaChoice = ConstantAlphaChoice(value: Fraction, factor: BlendFactor)

  function FractionValue(q: Fraction): real
    requires q.den > 0
  {
    q.num as real / q.den as real
  }

  /** constantAlpha and constantAlphaGL. Only a stencil test whose value the shader
      does not write as alpha needs them; then the alpha is the reference value, or
      the 4- or 8-bit increment, and the factor is ZERO, CONSTANT_ALPHA or ONE. */
  function ConstantAlphaOf(stencilTestEnabled: bool, replaceAlpha: ReplaceAlphaType,
                           t: StencilValueType, stencilRef: byte): (c: ConstantAlphaChoice)
    ensures c.value.den > 0 && c.value.num <= c.value.den
    ensures !(stencilTestEnabled && replaceAlpha == ReplaceAlphaNo) ==> c == ConstantAlphaChoice(Fraction(1, 1), One)
    ensures stencilTestEnabled && replaceAlpha == ReplaceAlphaNo ==>
      (t == StencilUniform ==> c.value == Fraction(stencilRef, 255)) &&
      (t in {StencilIncr4, StencilDecr4} ==> c.value == Fraction(1, 15)) &&
      (t in {StencilIncr8, StencilDecr8} ==> c.value == Fraction(1, 255)) &&
      (t in {StencilKeep, StencilZero, StencilOne, StencilInvert} ==> c.value == Fraction(1, 1))
    ensures c.factor == Zero <==> c.value.num == 0
    ensures c.factor == One <==> c.value.num == c.value.den
    ensures c.factor == ConstantAlpha <==> 0 < c.value.num < c.value.den
  {
    var value :=
      if !(stencilTestEnabled && replaceAlpha == ReplaceAlphaNo) then Fraction(1, 1)
      else match t
        case StencilUniform => Fraction(stencilRef, 255)
        case StencilIncr4 | StencilDecr4 => Fraction(1, 15)
        case StencilIncr8 | StencilDecr8 => Fraction(1, 255)
        case _ => Fraction(1, 1);
    var factor :=
      if !(stencilTestEnabled && replaceAlpha == ReplaceAlphaNo) then One
      else if value.num == 0 then Zero
      else if value.num < value.den then ConstantAlpha
      else One;
    ConstantAlphaChoice(value, factor)
  }

  /** The factor is always one whose weight is exactly the constant alpha: using ZERO
      or ONE instead of CONSTANT_ALPHA never changes the blend. */
  lemma ConstantAlphaFactorExact(stencilTestEnabled: bool, replaceAlpha: ReplaceAlphaType,
                                 t: StencilValueType, stencilRef: byte)
    ensures var c := ConstantAlphaOf(stencilTestEnabled, replaceAlpha, t, stencilRef);
      IsFixedWeight(c.factor) && Weight(c.factor, FractionValue(c.value)) == FractionValue(c.value)
    ensures var c := ConstantAlphaOf(stencilTestEnabled, replaceAlpha, t, stencilRef);
      stencilTestEnabled && replaceAlpha == ReplaceAlphaNo && t == StencilUniform ==>
        FractionValue(c.value) == stencilRef as real / 255.0 &&
        (c.factor == Zero <==> stencilRef == 0) && (c.factor == One <==> stencilRef == 255)
  {
    var c := ConstantAlphaOf(stencilTestEnabled, replaceAlpha, t, stencilRef);
    if c.value.num == c.value.den {
      assert FractionValue(c.value) == 1.0;
    }
  }

  // ---------------------------------------------------------------------------
  // ApplyBlendState: blend factors

  /** The selector after clamping the invalid codes above FIXA/FIXB onto it. */
  function ClampSelector(sel: Nibble): (r: int)
    ensures sel > BlendFix ==> r == BlendFix
    ensures sel <= BlendFix ==> r == sel
  {
    if sel > BlendFix then BlendFix else sel
  }

  /** toDualSource: the source-alpha factors read the second shader output instead. */
  function ToDualSource(f: BlendFactor): (r: BlendFactor)
    ensures r != SrcAlpha && r != OneMinusSrcAlpha
    ensures f == SrcAlpha ==> r == Src1Alpha
    ensures f == OneMinusSrcAlpha ==> r == OneMinusSrc1Alpha
    ensures r == Src1Alpha <==> f in {SrcAlpha, Src1Alpha}
    ensures r == OneMinusSrc1Alpha <==> f in {OneMinusSrcAlpha, OneMinusSrc1Alpha}
    ensures f != SrcAlpha && f != OneMinusSrcAlpha ==> r == f
  {
    match f
    case SrcAlpha => Src1Alpha
    case OneMinusSrcAlpha => OneMinusSrc1Alpha
    case _ => f
  }

  /** A 565 target has no alpha: a factor selected as (doubled) destination alpha is
      ZERO and one selected as its inverse is ONE. */
  function Override565(fmt: FrameBufFormat, sel: int, f: BlendFactor): (r: BlendFactor)
    ensures fmt == Format565 && sel in {BlendDstAlpha, BlendDoubleDstAlpha} ==> r == Zero
    ensures fmt == Format565 && sel in {BlendInvDstAlpha, BlendDoubleInvDstAlpha} ==> r == One
    ensures fmt != Format565 || sel !in {BlendDstAlpha, BlendDoubleDstAlpha, BlendInvDstAlpha, BlendDoubleInvDstAlpha} ==> r == f
  {
    if fmt != Format565 then f
    else if sel == BlendDstAlpha || sel == BlendDoubleDstAlpha then Zero
    else if sel == BlendInvDstAlpha || sel == BlendDoubleInvDstAlpha then One
    else f
  }

  /** The weight of a factor that reads destination alpha, for destination alpha a. */
  function DstAlphaWeight(f: BlendFactor, a: real): real
    requires f == DstAlpha || f == OneMinusDstAlpha
  {
    if f == DstAlpha then a else 1.0 - a
  }

  /** The two colour factors before the fixed colours are reconciled, with the
      approximation flags of blendColor2Func. */
  datatype FactorPair = FactorPair(a: BlendFactor, b: BlendFactor, approxA: bool, approxB: bool)

  /** One colour factor: the table entry for its selector, or blendColor2Func for a
      fixed colour, with the 565 override applied; and the approximation flag. */
  function SelectFactor(fmt: FrameBufFormat, sel: int, fix: Rgb24, table: seq<BlendFactor>): (BlendFactor, bool)
    requires 0 <= sel <= BlendFix && |table| == BlendFix + 1
  {
    var f := if sel == BlendFix then BlendColor2Func(fix, false) else (table[sel], false);
    (Override565(fmt, sel, f.0), f.1)
  }

  /** Table lookup or blendColor2Func, then the 565 override, then ONE for a source
      premultiplied in the shader, then the dual-source substitution. */
  function BaseFactors(g: GeState, f: Features, replaceAlpha: ReplaceAlphaType, usePreSrc: bool): FactorPair {
    var fa := SelectFactor(g.frameBufFormat, ClampSelector(g.blendFuncA), g.fixA, ALookup);
    var fb := SelectFactor(g.frameBufFormat, ClampSelector(g.blendFuncB), g.fixB, BLookup);
    var a2 := if usePreSrc then One else fa.0;
    var dual := replaceAlpha == ReplaceAlphaDualSource && f.dualSourceBlend;
    FactorPair(if dual then ToDualSource(a2) else a2, if dual then ToDualSource(fb.0) else fb.0, fa.1, fb.1)
  }

  /** A factor is left unresolved only for a fixed colour that is neither near white
      nor near black; the flag is raised only for fixed colours that are not
      bit-exact; no factor is a constant-colour one; and on a 565 target the
      (doubled) destination-alpha selectors give ZERO, their inverses ONE, which is
      the weight the table factor has when destination alpha is 0, while every
      other selector keeps its table entry. */
  lemma SelectFactorShape(fmt: FrameBufFormat, sel: int, fix: Rgb24, table: seq<BlendFactor>)
    requires 0 <= sel <= BlendFix && (table == ALookup || table == BLookup)
    ensures var r := SelectFactor(fmt, sel, fix, table);
      (r.0 == InvalidEnum <==> sel == BlendFix && BlendColor2Func(fix, false).0 == InvalidEnum) &&
      (r.1 <==> sel == BlendFix && fix != 0 && fix != 0xFF_FFFF) &&
      r.0 != ConstantColor && r.0 != OneMinusConstantColor && r.0 != ConstantAlpha &&
      (fmt == Format565 ==> r.0 != DstAlpha && r.0 != OneMinusDstAlpha) &&
      (fmt == Format565 && sel in {BlendDstAlpha, BlendDoubleDstAlpha} ==> r.0 == Zero) &&
      (fmt == Format565 && sel in {BlendInvDstAlpha, BlendDoubleInvDstAlpha} ==> r.0 == One) &&
      (fmt == Format565 && sel != BlendFix && table[sel] in {DstAlpha, OneMinusDstAlpha} ==>
         IsFixedWeight(r.0) && Weight(r.0, 0.0) == DstAlphaWeight(table[sel], 0.0)) &&
      (sel != BlendFix && (fmt != Format565 || table[sel] !in {DstAlpha, OneMinusDstAlpha}) ==> r.0 == table[sel])
  {
    if sel != BlendFix { BlendLookupShape(sel); }
  }

  /** The same for both factors, after the premultiplied source and the dual-source
      substitution. */
  lemma BaseFactorsShape(g: GeState, f: Features, replaceAlpha: ReplaceAlphaType, usePreSrc: bool)
    ensures var p := BaseFactors(g, f, replaceAlpha, usePreSrc);
      var selA, selB := ClampSelector(g.blendFuncA), ClampSelector(g.blendFuncB);
      (p.a == InvalidEnum <==> selA == BlendFix && !usePreSrc && BlendColor2Func(g.fixA, false).0 == InvalidEnum) &&
      (p.b == InvalidEnum <==> selB == BlendFix && BlendColor2Func(g.fixB, false).0 == InvalidEnum) &&
      (p.approxA <==> selA == BlendFix && g.fixA != 0 && g.fixA != 0xFF_FFFF) &&
      (p.approxB <==> selB == BlendFix && g.fixB != 0 && g.fixB != 0xFF_FFFF) &&
      p.a !in {ConstantColor, OneMinusConstantColor, ConstantAlpha} &&
      p.b !in {ConstantColor, OneMinusConstantColor, ConstantAlpha} &&
      (usePreSrc ==> p.a == One) &&
      (g.frameBufFormat == Format565 ==> p.a !in {DstAlpha, OneMinusDstAlpha} && p.b !in {DstAlpha, OneMinusDstAlpha}) &&
      (g.frameBufFormat == Format565 && !usePreSrc && selA in {BlendDstAlpha, BlendDoubleDstAlpha} ==> p.a == Zero) &&
      (g.frameBufFormat == Format565 && !usePreSrc && selA in {BlendInvDstAlpha, BlendDoubleInvDstAlpha} ==> p.a == One) &&
      (g.frameBufFormat == Format565 && selB in {BlendDstAlpha, BlendDoubleDstAlpha} ==> p.b == Zero) &&
      (g.frameBufFormat == Format565 && selB in {BlendInvDstAlpha, BlendDoubleInvDstAlpha} ==> p.b == One) &&
      (replaceAlpha == ReplaceAlphaDualSource && f.dualSourceBlend ==>
         p.a !in {SrcAlpha, OneMinusSrcAlpha} && p.b !in {SrcAlpha, OneMinusSrcAlpha}) &&
      (replaceAlpha == ReplaceAlphaDualSource && f.dualSourceBlend && !usePreSrc ==>
         (selA in {BlendSrcAlpha, BlendDoubleSrcAlpha} ==> p.a == Src1Alpha) &&
         (selA in {BlendInvSrcAlpha, BlendDoubleInvSrcAlpha} ==> p.a == OneMinusSrc1Alpha)) &&
      (replaceAlpha == ReplaceAlphaDualSource && f.dualSourceBlend ==>
         (selB in {BlendSrcAlpha, BlendDoubleSrcAlpha} ==> p.b == Src1Alpha) &&
         (selB in {BlendInvSrcAlpha, BlendDoubleInvSrcAlpha} ==> p.b == OneMinusSrc1Alpha))
  {
    SelectFactorShape(g.frameBufFormat, ClampSelector(g.blendFuncA), g.fixA, ALookup);
    SelectFactorShape(g.frameBufFormat, ClampSelector(g.blendFuncB), g.fixB, BLookup);
  }


  /** Selectors above FIXA/FIXB are clamped to them: a selector from 11 to 15 gives the
      same factors and approximation flags as the fixed colour. */
  lemma OutOfRangeSelectorsAreFixed(g: GeState, f: Features, replaceAlpha: ReplaceAlphaType, usePreSrc: bool)
    ensures g.blendFuncA > BlendFix ==>
      BaseFactors(g, f, replaceAlpha, usePreSrc) == BaseFactors(g.(blendFuncA := BlendFix), f, replaceAlpha, usePreSrc)
    ensures g.blendFuncB > BlendFix ==>
      BaseFactors(g, f, replaceAlpha, usePreSrc) == BaseFactors(g.(blendFuncB := BlendFix), f, replaceAlpha, usePreSrc)
  {
  }

  // ---------------------------------------------------------------------------
  // ApplyBlendState: reconciling the two fixed colours with one blend colour

  /** What the GL blend colour is set from: the default white (only when the
      constant alpha needs it), or one of the fixed colours. */
  datatype ColorChoice = DefaultColor | FixedColor(fix: Rgb24)

  datatype Resolution = Resolution(a: BlendFactor, b: BlendFactor, color: ColorChoice)

  /** Both factors need a fixed colour that is neither near white nor near black, and
      the two colours are neither similar nor complementary: one blend colour cannot
      serve both. */
  predicate Unreconcilable(p: FactorPair, fixA: Rgb24, fixB: Rgb24) {
    p.a == InvalidEnum && p.b == InvalidEnum &&
    !BlendColorSimilar(ToVec(fixA), OneMinus(ToVec(fixB)), DefaultMargin) &&
    !BlendColorSimilar(ToVec(fixA), ToVec(fixB), DefaultMargin)
  }

  /** The choice of factors and blend colour when FIXA or FIXB is selected. */
  function ResolveFixedColors(selA: int, selB: int, fixA: Rgb24, fixB: Rgb24, p: FactorPair, usePreSrc: bool): Resolution {
    if selA != BlendFix && selB != BlendFix then Resolution(p.a, p.b, DefaultColor)
    else
      var va, vb := ToVec(fixA), ToVec(fixB);
      if p.a == InvalidEnum && p.b != InvalidEnum then Resolution(ConstantColor, p.b, FixedColor(fixA))
      else if p.a != InvalidEnum && p.b == InvalidEnum then Resolution(p.a, ConstantColor, FixedColor(fixB))
      else if p.a == InvalidEnum && p.b == InvalidEnum then
        if BlendColorSimilar(va, OneMinus(vb), DefaultMargin) then Resolution(ConstantColor, OneMinusConstantColor, FixedColor(fixA))
        else if BlendColorSimilar(va, vb, DefaultMargin) then Resolution(ConstantColor, ConstantColor, FixedColor(fixA))
        else
          var nearZeroA := BlendColorSimilar(va, Black, ApproxMargin);
          var nearZeroB := BlendColorSimilar(vb, Black, ApproxMargin);
          if nearZeroA || BlendColorSimilar(va, White, ApproxMargin) then
            Resolution(if nearZeroA then Zero else One, ConstantColor, FixedColor(fixB))
          else
            Resolution(ConstantColor, if nearZeroB then Zero else One, FixedColor(fixA))
      else if selA == BlendFix && !usePreSrc && p.approxA then Resolution(ConstantColor, p.b, FixedColor(fixA))
      else if p.approxB then Resolution(p.a, ConstantColor, FixedColor(fixB))
      else Resolution(p.a, p.b, DefaultColor)
  }

  /** The blend colour a resolution sets, as a colour vector. */
  function ChosenColor(r: Resolution): Vec3 {
    match r.color
    case DefaultColor => White
    case FixedColor(fix) => ToVec(fix)
  }

  /** The colour a factor multiplies by when the blend colour is c; none for the
      factors that read the fragment or the framebuffer. */
  predicate Approximates(f: BlendFactor, c: Vec3, fix: Rgb24, margin: Fraction) {
    match f
    case Zero => BlendColorSimilar(Black, ToVec(fix), margin)
    case One => BlendColorSimilar(White, ToVec(fix), margin)
    case ConstantColor => BlendColorSimilar(c, ToVec(fix), margin)
    case OneMinusConstantColor => BlendColorSimilar(OneMinus(c), ToVec(fix), margin)
    case _ => false
  }

  /** The resolution always ends with valid factors, uses the constant colour only
      when it sets the blend colour, and keeps factors that need no fixed colour. */
  lemma ResolveWellFormed(selA: int, selB: int, fixA: Rgb24, fixB: Rgb24, p: FactorPair, usePreSrc: bool)
    requires p.a == InvalidEnum ==> selA == BlendFix && !usePreSrc
    requires p.b == InvalidEnum ==> selB == BlendFix
    requires p.approxB ==> selB == BlendFix
    requires p.a !in {ConstantColor, OneMinusConstantColor, ConstantAlpha}
    requires p.b !in {ConstantColor, OneMinusConstantColor, ConstantAlpha}
    requires usePreSrc ==> p.a == One
    ensures var r := ResolveFixedColors(selA, selB, fixA, fixB, p, usePreSrc);
      r.a != InvalidEnum && r.b != InvalidEnum &&
      (r.color.DefaultColor? ==> r.a !in {ConstantColor, OneMinusConstantColor} && r.b !in {ConstantColor, OneMinusConstantColor}) &&
      (selA != BlendFix ==> r.a == p.a) && (selB != BlendFix ==> r.b == p.b) &&
      (usePreSrc ==> r.a == One) &&
      (r.color.FixedColor? ==> r.color.fix == fixA || r.color.fix == fixB) &&
      r.a != ConstantAlpha && r.b != ConstantAlpha &&
      (r.a == p.a || r.a in {Zero, One, ConstantColor, OneMinusConstantColor}) &&
      (r.b == p.b || r.b in {Zero, One, ConstantColor, OneMinusConstantColor})
  {
  }

  lemma ResolutionWellFormed(g: GeState, f: Features, replaceAlpha: ReplaceAlphaType, usePreSrc: bool)
    ensures var p := BaseFactors(g, f, replaceAlpha, usePreSrc);
      var selA, selB := ClampSelector(g.blendFuncA), ClampSelector(g.blendFuncB);
      var r := ResolveFixedColors(selA, selB, g.fixA, g.fixB, p, usePreSrc);
      r.a != InvalidEnum && r.b != InvalidEnum &&
      (r.color.DefaultColor? ==> r.a !in {ConstantColor, OneMinusConstantColor} && r.b !in {ConstantColor, OneMinusConstantColor}) &&
      (selA != BlendFix ==> r.a == p.a) && (selB != BlendFix ==> r.b == p.b) &&
      (usePreSrc ==> r.a == One) &&
      (r.color.FixedColor? ==> r.color.fix == g.fixA || r.color.fix == g.fixB) &&
      r.a != ConstantAlpha && r.b != ConstantAlpha
  {
    BaseFactorsShape(g, f, replaceAlpha, usePreSrc);
    var p := BaseFactors(g, f, replaceAlpha, usePreSrc);
    ResolveWellFormed(ClampSelector(g.blendFuncA), ClampSelector(g.blendFuncB), g.fixA, g.fixB, p, usePreSrc);
  }

  /** The resolver's part of FixedColorsApproximated, for any pair of factors in
      which a factor standing for a fixed colour is unresolved or a unit colour near it. */
  lemma ResolveApproximates(selA: int, selB: int, fixA: Rgb24, fixB: Rgb24, p: FactorPair, usePreSrc: bool)
    requires selA == BlendFix && !usePreSrc ==>
      p.a == InvalidEnum || (p.a in {Zero, One} && Approximates(p.a, White, fixA, DefaultMargin))
    requires selB == BlendFix ==>
      p.b == InvalidEnum || (p.b in {Zero, One} && Approximates(p.b, White, fixB, DefaultMargin))
    requires p.a == InvalidEnum ==> selA == BlendFix && !usePreSrc
    requires p.b == InvalidEnum ==> selB == BlendFix
    ensures var r := ResolveFixedColors(selA, selB, fixA, fixB, p, usePreSrc);
      !Unreconcilable(p, fixA, fixB) ==>
        (selA == BlendFix && !usePreSrc ==> Approximates(r.a, ChosenColor(r), fixA, DefaultMargin)) &&
        (selB == BlendFix ==> Approximates(r.b, ChosenColor(r), fixB, DefaultMargin))
  {
    var va, vb := ToVec(fixA), ToVec(fixB);
    var r := ResolveFixedColors(selA, selB, fixA, fixB, p, usePreSrc);
    if p.a == InvalidEnum && p.b == InvalidEnum && !Unreconcilable(p, fixA, fixB) {
      if BlendColorSimilar(va, OneMinus(vb), DefaultMargin) {
        SimilarToComplement(va, vb, DefaultMargin);
        assert r == Resolution(ConstantColor, OneMinusConstantColor, FixedColor(fixA));
      } else {
        SimilarSymmetric(va, vb, DefaultMargin);
        assert r == Resolution(ConstantColor, ConstantColor, FixedColor(fixA));
      }
    }
  }

  /** Unless the two fixed colours cannot be reconciled, every factor that stands for
      a fixed colour multiplies by a colour within 0.1 of it in every channel (the
      source factor only when the shader does not premultiply it). */
  lemma FixedColorsApproximated(g: GeState, f: Features, replaceAlpha: ReplaceAlphaType, usePreSrc: bool)
    ensures var p := BaseFactors(g, f, replaceAlpha, usePreSrc);
      var selA, selB := ClampSelector(g.blendFuncA), ClampSelector(g.blendFuncB);
      var r := ResolveFixedColors(selA, selB, g.fixA, g.fixB, p, usePreSrc);
      !Unreconcilable(p, g.fixA, g.fixB) ==>
        (selA == BlendFix && !usePreSrc ==> Approximates(r.a, ChosenColor(r), g.fixA, DefaultMargin)) &&
        (selB == BlendFix ==> Approximates(r.b, ChosenColor(r), g.fixB, DefaultMargin))
  {
    var p := BaseFactors(g, f, replaceAlpha, usePreSrc);
    var selA, selB := ClampSelector(g.blendFuncA), ClampSelector(g.blendFuncB);
    BaseFactorsShape(g, f, replaceAlpha, usePreSrc);
    UnitFactorApproximates(g.fixA);
    UnitFactorApproximates(g.fixB);
    if selA == BlendFix && !usePreSrc {
      assert p.a == BlendColor2Func(g.fixA, false).0;
    }
    if selB == BlendFix {
      assert p.b == BlendColor2Func(g.fixB, false).0;
    }
    ResolveApproximates(selA, selB, g.fixA, g.fixB, p, usePreSrc);
  }

  /** When the colours cannot be reconciled, one factor gets its fixed colour exactly
      and the other is ZERO or ONE: for the source factor always within 0.25, for the
      destination factor ZERO only within 0.25 of black. */
  lemma UnreconcilableFallback(g: GeState, f: Features, replaceAlpha: ReplaceAlphaType, usePreSrc: bool)
    ensures var p := BaseFactors(g, f, replaceAlpha, usePreSrc);
      var selA, selB := ClampSelector(g.blendFuncA), ClampSelector(g.blendFuncB);
      var r := ResolveFixedColors(selA, selB, g.fixA, g.fixB, p, usePreSrc);
      Unreconcilable(p, g.fixA, g.fixB) ==>
        (r.b == ConstantColor && r.color == FixedColor(g.fixB) && Approximates(r.a, ChosenColor(r), g.fixA, ApproxMargin)) ||
        (r.a == ConstantColor && r.color == FixedColor(g.fixA) && (r.b == Zero ==> Approximates(r.b, ChosenColor(r), g.fixB, ApproxMargin)))
  {
    BaseFactorsShape(g, f, replaceAlpha, usePreSrc);
    SimilarSymmetric(ToVec(g.fixA), Black, ApproxMargin);
    SimilarSymmetric(ToVec(g.fixA), White, ApproxMargin);
    SimilarSymmetric(ToVec(g.fixB), Black, ApproxMargin);
  }

  // ---------------------------------------------------------------------------
  // ApplyBlendState: alpha channel and equations

  /** Factors and equation of the alpha channel: the shader's stencil value is
      accumulated, replaced, or imitated with the constant alpha, and the stored
      alpha is kept when there is no stencil test. Only a decrement or an inversion
      blends with an equation other than ADD. */
  function AlphaBlendPlan(v: StencilEquations, replaceAlpha: ReplaceAlphaType, stencilTestEnabled: bool,
                          t: StencilValueType, constantAlphaFactor: BlendFactor): (r: BlendTriple)
    ensures r.src == Zero || r.src == One || r.src == constantAlphaFactor
    ensures r.dst == Zero || r.dst == One
    ensures r.eq != FuncAdd ==>
      t in {StencilDecr4, StencilDecr8, StencilInvert} && r.eq == StencilAlphaEquation(v, t) &&
      (replaceAlpha != ReplaceAlphaNo || stencilTestEnabled)
  {
    if replaceAlpha != ReplaceAlphaNo then
      match t
      case StencilIncr4 | StencilIncr8 | StencilDecr4 | StencilDecr8 | StencilInvert =>
        BlendTriple(One, One, StencilAlphaEquation(v, t))
      case _ => BlendTriple(One, Zero, FuncAdd)
    else if stencilTestEnabled then
      match t
      case StencilKeep => BlendTriple(Zero, One, FuncAdd)
      case StencilOne => BlendTriple(One, One, FuncAdd)
      case StencilZero => BlendTriple(Zero, Zero, FuncAdd)
      case StencilUniform => BlendTriple(constantAlphaFactor, Zero, FuncAdd)
      case StencilIncr4 | StencilIncr8 => BlendTriple(constantAlphaFactor, One, FuncAdd)
      case StencilDecr4 | StencilDecr8 => BlendTriple(constantAlphaFactor, One, StencilAlphaEquation(v, t))
      case StencilInvert => BlendTriple(One, One, StencilAlphaEquation(v, t))
    else BlendTriple(Zero, One, FuncAdd)
  }

  /** What the alpha plan stores when the shader writes the stencil value itself,
      for shader alpha s and stored alpha d: the stencil update for an increment,
      decrement or invert (with the decrement and inversion differences the other
      way round as written), and the shader's value otherwise. */
  lemma AlphaPlanReplaceMeaning(v: StencilEquations, replaceAlpha: ReplaceAlphaType, stencilTestEnabled: bool,
                                t: StencilValueType, cf: BlendFactor, s: real, d: real)
    requires replaceAlpha != ReplaceAlphaNo && IsFixedWeight(cf)
    requires 0.0 <= s <= 1.0 && 0.0 <= d <= 1.0
    ensures var p := AlphaBlendPlan(v, replaceAlpha, stencilTestEnabled, t, cf);
      IsFixedWeight(p.src) && IsFixedWeight(p.dst) &&
      var r := BlendValue(p.src, p.dst, p.eq, s, d, 0.0);
      (t in {StencilIncr4, StencilIncr8} ==> r == Clamp01(d + s)) &&
      (t in {StencilDecr4, StencilDecr8} ==> r == if v == Corrected then Clamp01(d - s) else Clamp01(s - d)) &&
      (t == StencilInvert ==> r == if v == Corrected then Clamp01(s - d) else Clamp01(d - s)) &&
      (t !in {StencilIncr4, StencilIncr8, StencilDecr4, StencilDecr8, StencilInvert} ==> r == s)
  {
  }

  /** What the alpha plan stores when the shader does not write the stencil value,
      for shader alpha s, stored alpha d and a constant alpha ca carried by a factor
      of exactly that weight: the stored value without a stencil test or with KEEP,
      zero for ZERO, s + d for ONE, s * ca for a plain value, and d + s * ca for an
      increment imitated with the constant alpha (clamped). */
  lemma AlphaPlanStencilMeaning(v: StencilEquations, stencilTestEnabled: bool, t: StencilValueType, cf: BlendFactor,
                                ca: real, s: real, d: real)
    requires IsFixedWeight(cf) && Weight(cf, ca) == ca
    requires 0.0 <= s <= 1.0 && 0.0 <= d <= 1.0 && 0.0 <= ca <= 1.0
    ensures var p := AlphaBlendPlan(v, ReplaceAlphaNo, stencilTestEnabled, t, cf);
      IsFixedWeight(p.src) && IsFixedWeight(p.dst) &&
      var r := BlendValue(p.src, p.dst, p.eq, s, d, ca);
      (!stencilTestEnabled || t == StencilKeep ==> r == d) &&
      (stencilTestEnabled ==>
         (t == StencilZero ==> r == 0.0) &&
         (t == StencilOne ==> r == Clamp01(s + d)) &&
         (t == StencilUniform ==> r == s * ca) &&
         (t in {StencilIncr4, StencilIncr8} ==> r == Clamp01(d + s * ca)))
  {
    var p := AlphaBlendPlan(v, ReplaceAlphaNo, stencilTestEnabled, t, cf);
    var r := BlendValue(p.src, p.dst, p.eq, s, d, ca);
    if !stencilTestEnabled || t == StencilKeep {
      assert p == BlendTriple(Zero, One, FuncAdd);
      assert r == Clamp01(s * 0.0 + d * 1.0);
    } else {
      match t {
        case StencilZero =>
          assert r == Clamp01(s * 0.0 + d * 0.0);
        case StencilOne =>
          assert r == Clamp01(s * 1.0 + d * 1.0);
        case StencilUniform =>
          assert r == Clamp01(s * ca + d * 0.0);
          assert 0.0 <= s * ca <= 1.0 by {
            assert s * ca <= 1.0 * ca;
          }
        case StencilIncr4 | StencilIncr8 =>
          assert r == Clamp01(s * ca + d * 1.0);
        case _ =>
      }
    }
  }

  /** The decrements and the inversion under a stencil test that the shader does not
      write: for a decrement d - s * ca with the corrected equations and s * ca - d as
      written; for an inversion s - d corrected and d - s as written (all clamped). */
  lemma AlphaPlanStencilUpdates(v: StencilEquations, t: StencilValueType, cf: BlendFactor, ca: real, s: real, d: real)
    requires IsFixedWeight(cf) && Weight(cf, ca) == ca
    requires 0.0 <= s <= 1.0 && 0.0 <= d <= 1.0 && 0.0 <= ca <= 1.0
    ensures var p := AlphaBlendPlan(v, ReplaceAlphaNo, true, t, cf);
      IsFixedWeight(p.src) && IsFixedWeight(p.dst) &&
      var r := BlendValue(p.src, p.dst, p.eq, s, d, ca);
      (t in {StencilDecr4, StencilDecr8} ==> r == if v == Corrected then Clamp01(d - s * ca) else Clamp01(s * ca - d)) &&
      (t == StencilInvert ==> r == if v == Corrected then Clamp01(s - d) else Clamp01(d - s))
  {
    var p := AlphaBlendPlan(v, ReplaceAlphaNo, true, t, cf);
    var r := BlendValue(p.src, p.dst, p.eq, s, d, ca);
    if t in {StencilDecr4, StencilDecr8} {
      if v == Corrected {
        assert r == Clamp01(d * 1.0 - s * ca);
      } else {
        assert r == Clamp01(s * ca - d * 1.0);
      }
    } else if t == StencilInvert {
      if v == Corrected {
        assert r == Clamp01(s * 1.0 - d * 1.0);
      } else {
        assert r == Clamp01(d * 1.0 - s * 1.0);
      }
    }
  }

  /** The colour equation: the MIN/MAX entries only when the host blends with them. */
  function ColorEquation(f: Features, eq: EqIndex): (e: BlendEquation)
    ensures !f.blendMinMax ==> e != Min && e != Max
    ensures e in {FuncAdd, FuncSubtract, FuncReverseSubtract} ==> e == EqLookupNoMinMax[eq]
    ensures eq < 3 ==> e == EqLookupNoMinMax[eq]
    ensures f.blendMinMax && eq == 3 ==> e == Min
    ensures f.blendMinMax && eq >= 4 ==> e == Max
    ensures !f.blendMinMax && eq >= 3 ==> e == FuncAdd
  {
    if f.blendMinMax then EqLookup[eq] else EqLookupNoMinMax[eq]
  }

  /** A fixed colour as the GL blend colour, with the given alpha. */
  function ColorWithAlpha(fix: Rgb24, alpha: Fraction): BlendColorValue {
    var v := ToVec(fix);
    BlendColorValue(v.x, v.y, v.z, alpha)
  }

  /** The blend colour after a resolution: the chosen fixed colour with the constant
      alpha, white with the constant alpha when only CONSTANT_ALPHA needs it, and
      otherwise the colour as it was. */
  function BlendColorAfter(prev: BlendColorValue, r: Resolution, ca: ConstantAlphaChoice): BlendColorValue {
    match r.color
    case FixedColor(fix) => ColorWithAlpha(fix, ca.value)
    case DefaultColor => if ca.factor == ConstantAlpha then BlendColorValue(255, 255, 255, ca.value) else prev
  }

  /** The GL blend state of the fixed-function path of ApplyBlendState. */
  function FixedFunctionBlend(v: StencilEquations, s: GLSnapshot, g: GeState, f: Features, replaceAlpha: ReplaceAlphaType,
                              t: StencilValueType, usePreSrc: bool): GLSnapshot
  {
    var ca := ConstantAlphaOf(g.stencilTestEnabled, replaceAlpha, t, g.stencilTestRef);
    var p := BaseFactors(g, f, replaceAlpha, usePreSrc);
    var r := ResolveFixedColors(ClampSelector(g.blendFuncA), ClampSelector(g.blendFuncB), g.fixA, g.fixB, p, usePreSrc);
    var alpha := AlphaBlendPlan(v, replaceAlpha, g.stencilTestEnabled, t, ca.factor);
    s.(blend := BlendSetting(true,
                             BlendFuncs(r.a, r.b, alpha.src, alpha.dst),
                             BlendEqs(ColorEquation(f, g.blendEq), alpha.eq),
                             BlendColorAfter(s.blend.color, r, ca)))
  }

  /** Which of the two blend paths a draw takes: the shader blends (or there is no
      blending to do) and only the stencil and logic-op state is set, or the
      fixed-function blend is set up. */
  predicate UsesStencilReplacePath(rb: ReplaceBlendType, shaderBlendOk: bool) {
    rb == ReplaceBlendNo || (rb == ReplaceBlendCopyFbo && shaderBlendOk)
  }

  /** The GL state after ApplyBlendState; shaderBlendOk is what ApplyShaderBlending
      returned, when the copy-framebuffer path asked for it. */
  function BlendStateAfter(v: StencilEquations, s: GLSnapshot, g: GeState, f: Features, cfg: Config, h: Collaborators,
                           shaderBlendOk: bool): GLSnapshot
  {
    var rb := h.replaceBlendWithShader(!cfg.disableSlowFramebufEffects, g.frameBufFormat);
    var ra := h.replaceAlphaWithStencil(rb);
    if UsesStencilReplacePath(rb, shaderBlendOk) then StencilReplaceAndLogicOpState(v, s, g, f, ra, h.stencilType)
    else FixedFunctionBlend(v, s, g, f, ra, h.stencilType, rb == ReplaceBlendPreSrc || rb == ReplaceBlendPreSrc2xAlpha)
  }

  /** s1 differs from s at most in the blend enable, factors, equations and colour. */
  predicate OnlyBlendChanged(s: GLSnapshot, s1: GLSnapshot) {
    s1 == s.(blend := s1.blend)
  }

  predicate NoInvalidFactor(fs: BlendFuncs) {
    fs.srcRGB != InvalidEnum && fs.dstRGB != InvalidEnum && fs.srcAlpha != InvalidEnum && fs.dstAlpha != InvalidEnum
  }

  predicate ColorReadsDstAlpha(fs: BlendFuncs) {
    fs.srcRGB == DstAlpha || fs.srcRGB == OneMinusDstAlpha || fs.dstRGB == DstAlpha || fs.dstRGB == OneMinusDstAlpha
  }

  predicate UsesConstantColor(fs: BlendFuncs) {
    fs.srcRGB == ConstantColor || fs.srcRGB == OneMinusConstantColor ||
    fs.dstRGB == ConstantColor || fs.dstRGB == OneMinusConstantColor
  }

  predicate UsesConstantAlpha(fs: BlendFuncs) {
    fs.srcRGB == ConstantAlpha || fs.dstRGB == ConstantAlpha || fs.srcAlpha == ConstantAlpha || fs.dstAlpha == ConstantAlpha
  }

  /** The factor-level argument behind FixedFunctionBlendProperties: a well-formed
      resolution combined with an alpha plan whose source factor is the constant-alpha
      choice reads only the blend colour that BlendColorAfter sets. */
  lemma FixedFunctionFactorsWellFormed(fmt: FrameBufFormat, r: Resolution, alpha: BlendTriple, ca: ConstantAlphaChoice,
                                       fixA: Rgb24, fixB: Rgb24, prev: BlendColorValue)
    requires r.a != InvalidEnum && r.b != InvalidEnum && r.a != ConstantAlpha && r.b != ConstantAlpha
    requires r.color.DefaultColor? ==> r.a !in {ConstantColor, OneMinusConstantColor} && r.b !in {ConstantColor, OneMinusConstantColor}
    requires r.color.FixedColor? ==> r.color.fix == fixA || r.color.fix == fixB
    requires fmt == Format565 ==> r.a !in {DstAlpha, OneMinusDstAlpha} && r.b !in {DstAlpha, OneMinusDstAlpha}
    requires alpha.src == Zero || alpha.src == One || alpha.src == ca.factor
    requires alpha.dst == Zero || alpha.dst == One
    requires ca.factor == Zero || ca.factor == One || ca.factor == ConstantAlpha
    ensures var fs := BlendFuncs(r.a, r.b, alpha.src, alpha.dst);
      var c := BlendColorAfter(prev, r, ca);
      NoInvalidFactor(fs) &&
      (fmt == Format565 ==> !ColorReadsDstAlpha(fs)) &&
      (UsesConstantColor(fs) ==> c == ColorWithAlpha(fixA, ca.value) || c == ColorWithAlpha(fixB, ca.value)) &&
      (UsesConstantAlpha(fs) ==> c.alpha == ca.value)
  {
  }

  /** On the fixed-function path no factor is invalid, a 565 target is never
      blended with destination alpha, the constant-colour factors read one of the two
      fixed colours, and the constant-alpha factor reads the constant alpha. */
  lemma FixedFunctionBlendProperties(v: StencilEquations, s: GLSnapshot, g: GeState, f: Features, replaceAlpha: ReplaceAlphaType,
                                     t: StencilValueType, usePreSrc: bool)
    ensures var s1 := FixedFunctionBlend(v, s, g, f, replaceAlpha, t, usePreSrc);
      var ca := ConstantAlphaOf(g.stencilTestEnabled, replaceAlpha, t, g.stencilTestRef);
      var fs := s1.blend.funcs;
      OnlyBlendChanged(s, s1) && s1.blend.enabled &&
      NoInvalidFactor(fs) &&
      (g.frameBufFormat == Format565 ==>
         !ColorReadsDstAlpha(fs)) &&
      (UsesConstantColor(fs) ==>
         s1.blend.color == ColorWithAlpha(g.fixA, ca.value) || s1.blend.color == ColorWithAlpha(g.fixB, ca.value)) &&
      (UsesConstantAlpha(fs) ==> s1.blend.color.alpha == ca.value)
  {
    var ca := ConstantAlphaOf(g.stencilTestEnabled, replaceAlpha, t, g.stencilTestRef);
    var p := BaseFactors(g, f, replaceAlpha, usePreSrc);
    var r := ResolveFixedColors(ClampSelector(g.blendFuncA), ClampSelector(g.blendFuncB), g.fixA, g.fixB, p, usePreSrc);
    var alpha := AlphaBlendPlan(v, replaceAlpha, g.stencilTestEnabled, t, ca.factor);
    BaseFactorsShape(g, f, replaceAlpha, usePreSrc);
    ResolveWellFormed(ClampSelector(g.blendFuncA), ClampSelector(g.blendFuncB), g.fixA, g.fixB, p, usePreSrc);
    FixedFunctionFactorsWellFormed(g.frameBufFormat, r, alpha, ca, g.fixA, g.fixB, s.blend.color);
  }

  /** On the stencil-replace path the factors are ZERO and ONE only. */
  lemma StencilReplacePathFactors(v: StencilEquations, s: GLSnapshot, g: GeState, f: Features, replaceAlpha: ReplaceAlphaType, t: StencilValueType)
    ensures var s1 := StencilReplaceAndLogicOpState(v, s, g, f, replaceAlpha, t);
      var fs := s1.blend.funcs;
      OnlyBlendChanged(s, s1) &&
      (s1.blend.enabled ==> fs.srcRGB in {Zero, One} && fs.dstRGB in {Zero, One} && fs.srcAlpha in {Zero, One} && fs.dstAlpha in {Zero, One}) &&
      (s1.blend.enabled ==> NoInvalidFactor(fs) && !ColorReadsDstAlpha(fs) && !UsesConstantColor(fs) && !UsesConstantAlpha(fs))
  {
    var u := StencilReplaceBlend(v, ReplaceStencilType(replaceAlpha, t), LogicOpBlend(f.logicOp, g.logicOpEnabled, g.logicOp));
    if u.BlendEnabled? {
      assert u.funcs.srcRGB in {Zero, One};
    }
  }

  /** ApplyBlendState touches only the blend enable, factors, equations and colour,
      and leaves blending enabled on the fixed-function path. When it blends, no
      factor is invalid, a 565 target is never blended with destination alpha, and
      the blend colour the factors read was set in this call: the constant-colour
      factors read one of the two fixed colours, and the constant-alpha factor reads
      the stencil-derived constant alpha. */
  lemma BlendStateAfterProperties(v: StencilEquations, s: GLSnapshot, g: GeState, f: Features, cfg: Config, h: Collaborators, shaderBlendOk: bool)
    ensures var s1 := BlendStateAfter(v, s, g, f, cfg, h, shaderBlendOk);
      var rb := h.replaceBlendWithShader(!cfg.disableSlowFramebufEffects, g.frameBufFormat);
      var ra := h.replaceAlphaWithStencil(rb);
      var ca := ConstantAlphaOf(g.stencilTestEnabled, ra, h.stencilType, g.stencilTestRef);
      var fs := s1.blend.funcs;
      OnlyBlendChanged(s, s1) &&
      (!UsesStencilReplacePath(rb, shaderBlendOk) ==> s1.blend.enabled) &&
      (s1.blend.enabled ==> NoInvalidFactor(fs)) &&
      (s1.blend.enabled && g.frameBufFormat == Format565 ==>
         !ColorReadsDstAlpha(fs)) &&
      (s1.blend.enabled && (UsesConstantColor(fs)) ==>
         !UsesStencilReplacePath(rb, shaderBlendOk) &&
         (s1.blend.color == ColorWithAlpha(g.fixA, ca.value) || s1.blend.color == ColorWithAlpha(g.fixB, ca.value))) &&
      (s1.blend.enabled && UsesConstantAlpha(fs) ==>
         !UsesStencilReplacePath(rb, shaderBlendOk) && s1.blend.color.alpha == ca.value)
  {
    var rb := h.replaceBlendWithShader(!cfg.disableSlowFramebufEffects, g.frameBufFormat);
    var ra := h.replaceAlphaWithStencil(rb);
    var s1 := BlendStateAfter(v, s, g, f, cfg, h, shaderBlendOk);
    var ca := ConstantAlphaOf(g.stencilTestEnabled, ra, h.stencilType, g.stencilTestRef);
    if UsesStencilReplacePath(rb, shaderBlendOk) {
      assert s1 == StencilReplaceAndLogicOpState(v, s, g, f, ra, h.stencilType);
      StencilReplacePathFactors(v, s, g, f, ra, h.stencilType);
    } else {
      var usePreSrc := rb == ReplaceBlendPreSrc || rb == ReplaceBlendPreSrc2xAlpha;
      assert s1 == FixedFunctionBlend(v, s, g, f, ra, h.stencilType, usePreSrc);
      FixedFunctionBlendProperties(v, s, g, f, ra, h.stencilType, usePreSrc);
    }
  }
}
