/** OpenGL enumerations used by the state mapper, and the state values that the
    GL state cache records for them. */
module GL {

  type u32 = x: int | 0 <= x < 0x1_0000_0000

  /** Blend factors (glBlendFuncSeparate). InvalidEnum is GL_INVALID_ENUM, which the
      fixed-colour resolver uses as "cannot be expressed as ONE or ZERO". */
  datatype BlendFactor =
    | Zero | One
    | SrcColor | OneMinusSrcColor | DstColor | OneMinusDstColor
    | SrcAlpha | OneMinusSrcAlpha | DstAlpha | OneMinusDstAlpha
    | ConstantColor | OneMinusConstantColor | ConstantAlpha
    | Src1Alpha | OneMinusSrc1Alpha
    | InvalidEnum

  /** Blend equations (glBlendEquationSeparate). */
  datatype BlendEquation = FuncAdd | FuncSubtract | FuncReverseSubtract | Min | Max

  /** Depth and stencil comparison functions. */
  datatype CompareFunc = Never | Always | Equal | NotEqual | Less | LEqual | Greater | GEqual

  /** Stencil operations (glStencilOp). */
  datatype StencilOp = OpKeep | OpZero | OpReplace | OpInvert | OpIncr | OpDecr

  /** Faces for glCullFace. */
  datatype CullFace = Front | Back

  /** Logic operations (glLogicOp). */
  datatype LogicOp =
    | LogicClear | LogicAnd | LogicAndReverse | LogicCopy
    | LogicAndInverted | LogicNoop | LogicXor | LogicOr
    | LogicNor | LogicEquiv | LogicInvert | LogicOrReverse
    | LogicCopyInverted | LogicOrInverted | LogicNand | LogicSet

  /** The meaning of a GL logic op on one bit of the source s and the destination d,
      as the OpenGL specification tabulates it; the op acts on every bit alike. */
  function LogicOpBit(op: LogicOp, s: bool, d: bool): bool {
    match op
    case LogicClear => false
    case LogicAnd => s && d
    case LogicAndReverse => s && !d
    case LogicCopy => s
    case LogicAndInverted => !s && d
    case LogicNoop => d
    case LogicXor => s != d
    case LogicOr => s || d
    case LogicNor => !(s || d)
    case LogicEquiv => s == d
    case LogicInvert => !d
    case LogicOrReverse => s || !d
    case LogicCopyInverted => !s
    case LogicOrInverted => !s || d
    case LogicNand => !(s && d)
    case LogicSet => true
  }

  /** A factor whose weight does not depend on the fragment's colours. */
  predicate IsFixedWeight(f: BlendFactor) {
    f == Zero || f == One || f == ConstantAlpha
  }

  /** The weight of such a factor; constantAlpha is the alpha of the blend colour. */
  function Weight(f: BlendFactor, constantAlpha: real): real
    requires IsFixedWeight(f)
  {
    match f
    case Zero => 0.0
    case One => 1.0
    case ConstantAlpha => constantAlpha
  }

  function Clamp01(x: real): real {
    if x < 0.0 then 0.0 else if x > 1.0 then 1.0 else x
  }

  /** What GL blending writes to one normalised channel of a fixed-point target, for
      source value s and destination value d, when both factors have fixed weights. */
  function BlendValue(sf: BlendFactor, df: BlendFactor, eq: BlendEquation, s: real, d: real, constantAlpha: real): real
    requires IsFixedWeight(sf) && IsFixedWeight(df)
  {
    var ws, wd := Weight(sf, constantAlpha), Weight(df, constantAlpha);
    match eq
    case FuncAdd => Clamp01(s * ws + d * wd)
    case FuncSubtract => Clamp01(s * ws - d * wd)
    case FuncReverseSubtract => Clamp01(d * wd - s * ws)
    case Min => if s < d then s else d
    case Max => if s < d then d else s
  }

  /** Arguments of glBlendFuncSeparate: RGB source, RGB destination, alpha source, alpha destination. */
  datatype BlendFuncs = BlendFuncs(srcRGB: BlendFactor, dstRGB: BlendFactor, srcAlpha: BlendFactor, dstAlpha: BlendFactor)

  /** Arguments of glBlendEquationSeparate. */
  datatype BlendEqs = BlendEqs(rgb: BlendEquation, alpha: BlendEquation)

  /** A non-negative fraction num/den; used for the alpha of the blend colour. */
  datatype Fraction = Fraction(num: nat, den: nat)

  /** The blend colour: RGB in units of 1/255, alpha as an exact fraction. */
  datatype BlendColorValue = BlendColorValue(r: int, g: int, b: int, alpha: Fraction)

  datatype ColorMask = ColorMask(r: bool, g: bool, b: bool, a: bool)

  /** Arguments of glStencilFunc: function, reference and test mask. */
  datatype StencilFunc = StencilFunc(func: CompareFunc, ref: int, mask: int)

  /** Arguments of glStencilOp: stencil fail, depth fail, depth pass. */
  datatype StencilOps = StencilOps(sFail: StencilOp, zFail: StencilOp, zPass: StencilOp)

  datatype ScissorRect = ScissorRect(x: int, y: int, w: int, h: int)

  datatype ViewportRect = ViewportRect(x: real, y: real, w: real, h: real)

  datatype DepthRange = DepthRange(near: real, far: real)

  /** Blending: enable flag, glBlendFuncSeparate, glBlendEquationSeparate, glBlendColor. */
  datatype BlendSetting = BlendSetting(enabled: bool, funcs: BlendFuncs, eqs: BlendEqs, color: BlendColorValue)

  /** Colour logic op: enable flag and glLogicOp. */
  datatype LogicOpSetting = LogicOpSetting(enabled: bool, op: LogicOp)

  /** Face culling: enable flag and glCullFace. */
  datatype CullSetting = CullSetting(enabled: bool, mode: CullFace)

  /** Depth test: enable flag, glDepthFunc and glDepthMask. */
  datatype DepthSetting = DepthSetting(test: bool, func: CompareFunc, write: bool)

  /** Stencil test: enable flag, glStencilFunc, glStencilOp and glStencilMask. */
  datatype StencilSetting = StencilSetting(test: bool, func: StencilFunc, ops: StencilOps, writeMask: u32)

  /** Scissor test: enable flag and glScissor. */
  datatype ScissorSetting = ScissorSetting(test: bool, rect: ScissorRect)

  /** Everything the GL state cache records, grouped by GL feature: for each piece
      of state, the value last passed to its set/enable/disable. */
  datatype GLSnapshot = GLSnapshot(
    blend: BlendSetting,
    dither: bool,
    logicOp: LogicOpSetting,
    cull: CullSetting,
    depth: DepthSetting,
    colorMask: ColorMask,
    stencil: StencilSetting,
    scissor: ScissorSetting,
    viewport: ViewportRect,
    depthRange: DepthRange)

  /** The GL state cache (glstate): one field per GL feature, each overwritten in
      place by the state mapper. */
  class GLState {
    var blend: BlendSetting
    var dither: bool
    var logicOp: LogicOpSetting
    var cull: CullSetting
    var depth: DepthSetting
    var colorMask: ColorMask
    var stencil: StencilSetting
    var scissor: ScissorSetting
    var viewport: ViewportRect
    var depthRange: DepthRange

    /** The cache's current contents as a value. */
    function Snapshot(): GLSnapshot
      reads this
    {
      GLSnapshot(blend, dither, logicOp, cull, depth, colorMask, stencil, scissor, viewport, depthRange)
    }

    constructor (initial: GLSnapshot)
      ensures Snapshot() == initial
    {
      blend := initial.blend;
      dither := initial.dither;
      logicOp := initial.logicOp;
      cull := initial.cull;
      depth := initial.depth;
      colorMask := initial.colorMask;
      stencil := initial.stencil;
      scissor := initial.scissor;
      viewport := initial.viewport;
      depthRange := initial.depthRange;
    }
  }
}
