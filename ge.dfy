/** The emulated graphics engine's side: the register fields the state mapper reads
    (already decoded from the command registers), the host capabilities and
    configuration it consults, and the results of the helpers it calls that live in
    other files. */
module GE {

  type byte = x: int | 0 <= x < 256
  /** A 24-bit register value (a fixed blend colour or the colour write mask). */
  type Rgb24 = x: int | 0 <= x < 0x100_0000
  type Nibble = x: int | 0 <= x < 16
  type Index8 = x: int | 0 <= x < 8
  type Bit = x: int | 0 <= x < 2
  /** Blend equation selector: one of the six entries of the equation tables. */
  type EqIndex = x: int | 0 <= x < 6

  // Source blend selectors (GE_SRCBLEND_*); the destination ones share the numbering.
  const BlendSrcAlpha := 2
  const BlendInvSrcAlpha := 3
  const BlendDstAlpha := 4
  const BlendInvDstAlpha := 5
  const BlendDoubleSrcAlpha := 6
  const BlendDoubleInvSrcAlpha := 7
  const BlendDoubleDstAlpha := 8
  const BlendDoubleInvDstAlpha := 9
  /** GE_SRCBLEND_FIXA and GE_DSTBLEND_FIXB: use the fixed colour. */
  const BlendFix := 10

  // Comparison selectors (GE_COMP_*), in the order of the ztests table.
  const CompNever := 0
  const CompAlways := 1
  const CompEqual := 2
  const CompNotEqual := 3
  const CompLess := 4
  const CompLEqual := 5
  const CompGreater := 6
  const CompGEqual := 7

  // Logic operation selectors (GE_LOGIC_*), in the order of the logicOps table.
  const GeLogicClear := 0
  const GeLogicAnd := 1
  const GeLogicAndReverse := 2
  const GeLogicCopy := 3
  const GeLogicAndInverted := 4
  const GeLogicNoop := 5
  const GeLogicXor := 6
  const GeLogicOr := 7
  const GeLogicNor := 8
  const GeLogicEquiv := 9
  const GeLogicInverted := 10
  const GeLogicOrReverse := 11
  const GeLogicCopyInverted := 12
  const GeLogicOrInverted := 13
  const GeLogicNand := 14
  const GeLogicSet := 15

  /** GE_PRIM_RECTANGLES, the primitive type that is never culled. */
  const PrimRectangles := 6

  datatype FrameBufFormat = Format565 | Format5551 | Format4444 | Format8888

  /** How the stencil value reaches the alpha channel (result of ReplaceAlphaWithStencilType). */
  datatype StencilValueType =
    | StencilZero | StencilOne | StencilKeep | StencilInvert
    | StencilIncr4 | StencilIncr8 | StencilDecr4 | StencilDecr8
    | StencilUniform

  /** How blending is split between fixed function and shader (result of ReplaceBlendWithShader). */
  datatype ReplaceBlendType =
    | ReplaceBlendNo | ReplaceBlendStandard
    | ReplaceBlendPreSrc | ReplaceBlendPreSrc2xAlpha
    | ReplaceBlend2xAlpha | ReplaceBlend2xSrc
    | ReplaceBlendCopyFbo

  /** Whether the shader writes the stencil value as alpha (result of ReplaceAlphaWithStencil). */
  datatype ReplaceAlphaType = ReplaceAlphaNo | ReplaceAlphaYes | ReplaceAlphaDualSource

  /** The register fields of one draw call, as the gstate accessors decode them. */
  datatype GeState = GeState(
    blendFuncA: Nibble,
    blendFuncB: Nibble,
    blendEq: EqIndex,
    fixA: Rgb24,
    fixB: Rgb24,
    stencilTestEnabled: bool,
    stencilTestFunction: Index8,
    stencilTestRef: byte,
    stencilTestMask: byte,
    stencilOpSFail: Index8,
    stencilOpZFail: Index8,
    stencilOpZPass: Index8,
    depthTestEnabled: bool,
    depthTestFunction: Index8,
    depthWriteEnabled: bool,
    pmskc: Rgb24,
    pmska: byte,
    cullEnabled: bool,
    cullMode: Bit,
    logicOpEnabled: bool,
    logicOp: Nibble,
    modeClear: bool,
    modeThrough: bool,
    clearModeColorMask: bool,
    clearModeAlphaMask: bool,
    clearModeDepthMask: bool,
    ditherEnabled: bool,
    textureMapEnabled: bool,
    alphaTestEnabled: bool,
    colorTestEnabled: bool,
    frameBufFormat: FrameBufFormat)

  /** Host capabilities (gstate_c feature flags). */
  datatype Features = Features(
    anyFramebufferFetch: bool,
    logicOp: bool,
    dualSourceBlend: bool,
    blendMinMax: bool)

  /** Global configuration read by the mapper (g_Config). */
  datatype Config = Config(
    alwaysDepthWrite: bool,
    disableStencilTest: bool,
    disableSlowFramebufEffects: bool,
    nonBufferedRendering: bool,   // iRenderingMode == FB_NON_BUFFERED_MODE
    enableVR: bool)

  /** The result of ConvertViewportAndScissor. */
  datatype ViewportAndScissor = ViewportAndScissor(
    scissorEnable: bool,
    scissorX: int, scissorY: int, scissorW: int, scissorH: int,
    viewportX: real, viewportY: real, viewportW: real, viewportH: real,
    depthRangeMin: real, depthRangeMax: real,
    dirtyProj: bool)

  /** What the helpers and collaborators defined in other files contribute to one draw call. */
  datatype Collaborators = Collaborators(
    replaceBlendWithShader: (bool, FrameBufFormat) -> ReplaceBlendType,
    replaceAlphaWithStencil: ReplaceBlendType -> ReplaceAlphaType,
    stencilType: StencilValueType,      // ReplaceAlphaWithStencilType()
    viewportAndScissor: ViewportAndScissor,
    pixelHeight: int,                   // PSP_CoreParameter().pixelHeight
    numFlips: int,                      // gpuStats.numFlips
    hasHmd: bool,                       // g_has_hmd
    needShaderTexClamp: bool)           // gstate_c.needShaderTexClamp after SetTexture
}
