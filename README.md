# PPSSPP GE-to-OpenGL state mapping, modelled in Dafny

This project models the per-draw state mapper of PPSSPP's OpenGL backend,
`GPU/GLES/StateMapping.cpp`. For every draw call the mapper turns the PSP
graphics engine's (GE) fixed-function registers into OpenGL pipeline state and
writes it into the GL state cache (`glstate`):

- the blend selectors, the two fixed 24-bit blend colours and the blend equation;
- the stencil test, its operations and how the stencil value reaches the alpha channel;
- the logic op, culling, depth test and depth writes;
- the per-channel write masks;
- the clear and through modes;
- the framebuffer format;
- scissor and viewport.

It also keeps a per-frame budget of framebuffer copies for blending done in the
shader.

The model has eight modules:

| file | module | contents |
|---|---|---|
| `gl.dfy` | `GL` | GL enumerations, the value of one blended channel, and the state cache `GLState` as a class with one field per GL feature |
| `ge.dfy` | `GE` | decoded register fields (`GeState`), host features, configuration, and the results of helpers defined in other files (`Collaborators`) |
| `tables.dfy` | `Tables` | the constant lookup tables (`aLookup`, `bLookup`, `eqLookup`, `eqLookupNoMinMax`, `cullingMode`, `ztests`, `stencilOps`, `logicOps`) |
| `blend_color.dfy` | `BlendColor` | `blendColor2Func` and `blendColorSimilar` on byte channels |
| `blend_state.dfy` | `BlendState` | the blend decisions of `ApplyStencilReplaceAndLogicOp` and `ApplyBlendState` as functions |
| `shader_blend.dfy` | `ShaderBlend` | the copy-budget counter of `ApplyShaderBlending` |
| `draw_state.dfy` | `DrawState` | the non-blend part of `ApplyDrawState`, and `ApplyDepthState`, as functions on a snapshot of the GL state |
| `draw_engine.dfy` | `DrawEngine` | the class `TransformDrawEngine` |

The methods of `TransformDrawEngine` write the GL cache and the engine's own
flags in place. Each is proved to leave exactly the state that the
specification functions describe.

Colours are kept as bytes. Each float comparison of the source becomes an exact
comparison on channel/255:

- ≥ 0.99 is a byte ≥ 253;
- ≤ 0.01 is a byte ≤ 2;
- the margin 0.1 is a byte difference ≤ 25;
- the margin 0.25 is a byte difference ≤ 63.

The constant alpha is an exact fraction: ref/255, 1/15, 1/255 or 1.

The configuration modelled is the desktop build (not `USING_GLES2`, not
`ANDROID`, not `MOBILE_DEVICE`). There, `toDualSource` substitutes the second
source output, `eqLookup` has MIN and MAX, and native logic ops are compiled in.

A refused framebuffer copy clears `allowShaderBlend` for the current draw only
(`GPU/GLES/StateMapping.cpp:348`). `ApplyBlendState` sets it again at the start
of every call (`:328`). Further requests in the same frame are refused by the
copy counter, not by the flag.

The blends that accumulate a stencil value in the alpha channel come in two
variants, selected by a `StencilEquations` parameter:

- `AsWritten` uses the equations the source selects. A decrement uses SUBTRACT and an inversion REVERSE_SUBTRACT.
- `Corrected` uses the other way round, which computes the stencil update.

The draw engine's methods use `AsWritten`, so they model the program as it is.
The meaning lemmas state what each variant stores (see "## Findings").

## Model

| member | source | states |
|---|---|---|
| Tables.TablesCoverSelectors | GPU/GLES/StateMapping.cpp:42-133 | every table has exactly one entry per value of its selector (11 blend factors, 6 equations, 2 faces, 8 comparisons, 8 stencil ops, 16 logic ops) |
| Tables.BlendLookupShape | GPU/GLES/StateMapping.cpp:42-68 | a doubled selector maps to the GL factor of its undoubled twin in both tables; no table entry is ZERO, ONE or INVALID |
| Tables.ReservedStencilOpsKeep | GPU/GLES/StateMapping.cpp:104-113 | the reserved stencil-op codes 6 and 7 map to KEEP |
| Tables.EquationTablesAgree | GPU/GLES/StateMapping.cpp:70-92 | without MIN/MAX no selector yields MIN or MAX; both tables agree on ADD, SUBTRACT and REVERSE_SUBTRACT; the other selectors fall back to ADD |
| Tables.ZTestIndex | GPU/GLES/StateMapping.cpp:99-102 | every GL comparison is the `ztests` entry of some GE comparison |
| Tables.ZTestsBijective | GPU/GLES/StateMapping.cpp:99-102 | `ztests` is a bijection from GE comparisons to GL comparisons |
| Tables.LogicOpsTableFaithful | GPU/GLES/StateMapping.cpp:115-134 | the native logic op of each table entry computes, bit for bit, the GE logic op that indexes it |
| BlendColor.ToRgb24OfFromRgb | GPU/GLES/StateMapping.cpp:158 | packing the decoded channels of a 24-bit colour gives the register value back |
| BlendColor.FromRgbInverse | GPU/GLES/StateMapping.cpp:158 | decoding a packed colour gives its channels back, so the decoding is a bijection |
| BlendColor.ExactColors | GPU/GLES/StateMapping.cpp:150-153 | 0xFFFFFF is exactly all-255 channels and 0 exactly all-0 channels |
| BlendColor.NearOne | GPU/GLES/StateMapping.cpp:159 | channel/255 ≥ 0.99 holds exactly for bytes ≥ 253 |
| BlendColor.NearZero | GPU/GLES/StateMapping.cpp:161 | channel/255 ≤ 0.01 holds exactly for bytes ≤ 2 |
| BlendColor.BlendColor2Func | GPU/GLES/StateMapping.cpp:149-164 | ONE for 0xFFFFFF and ZERO for 0 with the approximation flag untouched; for any other colour the flag is set, and the result is ONE iff every channel is ≥ 253, ZERO iff every channel is ≤ 2, otherwise INVALID |
| BlendColor.BlendColorSimilar | GPU/GLES/StateMapping.cpp:166-171 | with margin 0.1 the colours are similar iff every channel differs by at most 25 bytes; with margin 0.25, at most 63 |
| BlendColor.SimilarSymmetric | GPU/GLES/StateMapping.cpp:166-171 | similarity does not depend on the order of the colours |
| BlendColor.SimilarToComplement | GPU/GLES/StateMapping.cpp:463 | a is similar to 1 − b exactly when 1 − a is similar to b |
| BlendColor.UnitFactorApproximates | GPU/GLES/StateMapping.cpp:155-162 | when `blendColor2Func` picks ONE or ZERO, that unit colour is within 0.01 (so within 0.1) of the fixed colour in every channel |
| BlendState.PlainWriteIsNoBlend | GPU/GLES/StateMapping.cpp:219-222 | blending with (ONE, ZERO, ADD) writes the source unchanged, which is why blending can be switched off instead |
| BlendState.LogicOpBlend | GPU/GLES/StateMapping.cpp:219-276 | the plain triple when GL has logic ops or the op is off. Otherwise: CLEAR gives (ZERO, ZERO, ADD) and NOOP (ZERO, ONE, ADD); INVERTED gives (ONE, ONE, SUBTRACT); OR, OR_INVERTED and SET give (ONE, ONE, ADD); every other op, COPY included, keeps the plain triple. The weights are always fixed |
| BlendState.LogicOpEmulationExact | GPU/GLES/StateMapping.cpp:228-257 | for CLEAR, COPY and NOOP the blend writes on every channel what the logic op computes on every bit: zero, the source, the destination |
| BlendState.StencilAlphaEquationUpdates | GPU/GLES/StateMapping.cpp:280-302 | with factors (ONE, ONE) both variants store d + s for INCR. The corrected equations store d − s for DECR and s − d for INVERT, so 1 − d when the shader writes 1. As written, DECR stores s − d and INVERT stores d − s, so INVERT always stores 0 when the shader writes 1 (all clamped) |
| BlendState.StencilAlphaEquationAsWrittenLoses | GPU/GLES/StateMapping.cpp:289-301 | with the equations as written, a DECR_8 step of 1/255 on a stored 10/255 writes 0 instead of 9/255, and INVERT of a stored 64/255 writes 0 instead of 191/255 |
| BlendState.ReplaceStencilType | GPU/GLES/StateMapping.cpp:214-217 | the stencil type is the draw's own stencil value type when the shader replaces alpha with the stencil value, and KEEP otherwise |
| BlendState.StencilReplaceBlend | GPU/GLES/StateMapping.cpp:278-313 | INCR, DECR and INVERT enable blending with the logic-op colour triple, alpha factors (ONE, ONE) and the variant's alpha equation: ADD for INCR; as written SUBTRACT for DECR and REVERSE_SUBTRACT for INVERT. Any other type disables blending exactly when the triple is (ONE, ZERO, ADD), and otherwise uses alpha factors (ONE, ZERO) with ADD |
| BlendState.StencilReplaceAndLogicOpMeaning | GPU/GLES/StateMapping.cpp:213-314 | blending is off only for the plain triple without an accumulating stencil type. When it is on, the stored alpha (clamped) is: d + s for INCR; s − d for DECR and d − s for INVERT as written (d − s and s − d corrected); s for the rest |
| BlendState.ConstantAlphaOf | GPU/GLES/StateMapping.cpp:376-404 | the constant alpha is a fraction in [0, 1]. It is 1 with factor ONE unless the stencil test is on and alpha is not replaced; then it is ref/255 for UNIFORM, 1/15 for INCR_4/DECR_4, 1/255 for INCR_8/DECR_8 and 1 otherwise. The factor is ZERO iff the alpha is 0, ONE iff it is 1, and CONSTANT_ALPHA iff it lies strictly between |
| BlendState.ConstantAlphaFactorExact | GPU/GLES/StateMapping.cpp:376-404 | the chosen factor always weighs exactly the constant alpha; for UNIFORM the alpha is ref/255, the factor is ZERO iff ref = 0 and ONE iff ref = 255 |
| BlendState.ToDualSource | GPU/GLES/StateMapping.cpp:136-147 | SRC_ALPHA becomes SRC1_ALPHA and ONE_MINUS_SRC_ALPHA becomes ONE_MINUS_SRC1_ALPHA; a second-output factor comes only from one of those or from itself; no source-alpha factor survives, and every other factor is unchanged |
| BlendState.SelectFactorShape | GPU/GLES/StateMapping.cpp:406-425 | a factor is INVALID iff its selector is the fixed colour and `blendColor2Func` finds it neither near white nor near black; the approximation flag is raised iff the fixed colour is not exactly 0 or 0xFFFFFF; no factor is a constant one; on a 565 target the (doubled) destination-alpha selectors give ZERO and their inverses ONE, the weight the table factor has at destination alpha 0, and every other table selector keeps its table entry |
| BlendState.Override565 | GPU/GLES/StateMapping.cpp:412-425 | on a 565 target the (doubled) destination-alpha selectors become ZERO and the (doubled) inverse ones ONE; any other selector or format keeps the factor |
| BlendState.BaseFactorsShape | GPU/GLES/StateMapping.cpp:406-438 | the same for both factors after clamping, the premultiplied source (ONE) and the dual-source substitution, which removes every source-alpha factor: a (doubled) SRC_ALPHA selector gives SRC1_ALPHA and its inverse ONE_MINUS_SRC1_ALPHA, for the destination factor and for the source factor unless the source is premultiplied; on a 565 target a (doubled) destination-alpha selector gives ZERO and its inverse ONE for the destination factor, and for the source factor unless the source is premultiplied |
| BlendState.OutOfRangeSelectorsAreFixed | GPU/GLES/StateMapping.cpp:371-374 | a source or destination selector above FIXA/FIXB gives the same factors and approximation flags as FIXA/FIXB itself |
| BlendState.ResolveWellFormed | GPU/GLES/StateMapping.cpp:451-501 | after resolution neither factor is INVALID; a constant-colour factor is used only when a fixed colour is set as the blend colour; the colour set is fixA or fixB; factors that needed no fixed colour are kept |
| BlendState.ResolutionWellFormed | GPU/GLES/StateMapping.cpp:406-501 | the resolution of the register-derived factors has the properties above |
| BlendState.ResolveApproximates | GPU/GLES/StateMapping.cpp:451-498 | unless the colours are unreconcilable, each factor standing for a fixed colour multiplies by a colour within 0.1 of it |
| BlendState.FixedColorsApproximated | GPU/GLES/StateMapping.cpp:406-501 | for the register-derived factors: every factor standing for a fixed colour multiplies by a colour within 0.1 of it, unless the two colours are unreconcilable |
| BlendState.UnreconcilableFallback | GPU/GLES/StateMapping.cpp:471-486 | when the colours are unreconcilable, one factor gets its fixed colour exactly and the other is ZERO or ONE; the source factor is then within 0.25, and a ZERO destination factor is within 0.25 of black |
| BlendState.AlphaBlendPlan | GPU/GLES/StateMapping.cpp:519-582 | the alpha source factor is ZERO, ONE or the constant-alpha factor, and the alpha destination factor is ZERO or ONE. The equation is ADD except for a decrement or an inversion, which use the variant's equation, and only when alpha is replaced or the stencil test is on |
| BlendState.AlphaPlanReplaceMeaning | GPU/GLES/StateMapping.cpp:520-545 | when the shader writes the stencil value, the stored alpha (clamped) is: d + s for INCR; s − d for DECR and d − s for INVERT as written (d − s and s − d corrected); s otherwise |
| BlendState.AlphaPlanStencilMeaning | GPU/GLES/StateMapping.cpp:546-582 | without alpha replacement the stored alpha is kept without a stencil test or with KEEP. With the test on it is 0 for ZERO, s + d (clamped) for ONE, s·ca for UNIFORM, and d + s·ca (clamped) for the increments |
| BlendState.AlphaPlanStencilUpdates | GPU/GLES/StateMapping.cpp:567-577 | with the stencil test on and alpha not replaced, the stored alpha (clamped) is s·ca − d for the decrements and d − s for INVERT as written (d − s·ca and s − d corrected) |
| BlendState.ColorEquation | GPU/GLES/StateMapping.cpp:584-588 | selectors 0-2 give ADD, SUBTRACT and REVERSE_SUBTRACT from either table; with host MIN/MAX selector 3 gives MIN and 4-5 (MAX, ABSDIFF) give MAX, without them 3-5 give ADD |
| BlendState.FixedFunctionFactorsWellFormed | GPU/GLES/StateMapping.cpp:440-449 | a well-formed resolution with an alpha plan reads only the blend colour that is set: the constant-colour factors read a fixed colour, the constant-alpha factor reads the constant alpha |
| BlendState.FixedFunctionBlendProperties | GPU/GLES/StateMapping.cpp:362-588 | the fixed-function path changes only the blend state and enables blending. No factor is INVALID. A 565 target never blends with destination alpha. The constant-colour factors read fixA or fixB with the constant alpha, and the constant-alpha factor reads the constant alpha |
| BlendState.StencilReplacePathFactors | GPU/GLES/StateMapping.cpp:213-314 | the stencil-replace path changes only the blend state and, when it blends, uses only ZERO and ONE |
| BlendState.BlendStateAfterProperties | GPU/GLES/StateMapping.cpp:318-589 | `ApplyBlendState` changes only the blend state. It blends on the fixed-function path. When it blends, no factor is INVALID, a 565 target never reads destination alpha, and the blend colour read by a constant factor was set in this call |
| ShaderBlend.RunBlitsCountsTrailingRun | GPU/GLES/StateMapping.cpp:178-189 | after any sequence of requests, the counter holds the last frame and the length of the trailing run of requests made in that frame |
| ShaderBlend.LastBlitAllowedWithinBudget | GPU/GLES/StateMapping.cpp:178-194 | a request may copy exactly when it is among the first 48 of its frame's uninterrupted run |
| DrawState.ChannelWrittenThreshold | GPU/GLES/StateMapping.cpp:707-712 | a mask byte of 0 writes the channel and 0xFF does not; the threshold `< 128` is the top bit of the mask byte |
| DrawState.StencilWriteMaskComplements | GPU/GLES/StateMapping.cpp:750-754 | outside 5551 the stencil write mask is the bitwise complement of the PSP mask, widened with ones; in 5551 the one stencil bit is written iff the top mask bit is clear |
| DrawState.CullIndexFlips | GPU/GLES/StateMapping.cpp:683 | buffered rendering culls the face the GE names and non-buffered rendering culls the other face |
| DrawState.LogicOpStep | GPU/GLES/StateMapping.cpp:667-678 | the logic-op section leaves blend, dither, scissor, viewport and depth range alone |
| DrawState.CullStep | GPU/GLES/StateMapping.cpp:679-686 | the culling section leaves blend, dither, scissor, viewport and depth range alone |
| DrawState.DepthStep | GPU/GLES/StateMapping.cpp:688-705 | the depth section leaves blend, dither, scissor, viewport and depth range alone |
| DrawState.MaskStep | GPU/GLES/StateMapping.cpp:707-738 | the mask section leaves blend, dither, scissor, viewport and depth range alone |
| DrawState.StencilStep | GPU/GLES/StateMapping.cpp:740-757 | the stencil section leaves blend, dither, scissor, viewport and depth range alone |
| DrawState.ScissorViewportState | GPU/GLES/StateMapping.cpp:760-787 | the scissor and viewport section changes only scissor, viewport and depth range |
| DrawState.DepthUpdateMatchesDepthWrites | GPU/GLES/StateMapping.cpp:640-646 | from any cache, the framebuffer manager is told of a depth update exactly when GL ends up with both the depth test and depth writes on |
| DrawState.StencilTestRule | GPU/GLES/StateMapping.cpp:653-665 | the stencil test is on iff the draw uses the stencil (alpha clear mask, or the stencil register) and it is not disabled; normal mode writes alpha only with a stencil test and a stencil type other than KEEP; clear mode replaces with mask 0xFF |
| DrawState.ClearModeDrawsEverything | GPU/GLES/StateMapping.cpp:630-646 | in clear mode nothing is culled, the depth test always passes, no logic op applies, and depth is written iff the clear writes depth or depth writes are forced |
| DrawState.NormalModeLogicOpFaithful | GPU/GLES/StateMapping.cpp:667-678 | in normal mode a GL logic op is enabled iff the GE logic op is on and not COPY, and it then computes the GE op bit for bit |
| DrawState.ScreenMirroring | GPU/GLES/StateMapping.cpp:773-785 | non-buffered rendering mirrors the scissor and viewport rectangles vertically, and mirroring again gives the GE rectangles back |
| DrawState.ScissorRule | GPU/GLES/StateMapping.cpp:766-787 | the scissor test is on iff the GE scissor is enabled and no VR headset is in use; buffered rendering keeps both rectangles as converted |
| DrawState.NormalModeFrame | GPU/GLES/StateMapping.cpp:666-758 | normal mode leaves blend, dither, scissor, viewport and depth range alone |
| DrawState.RasterStateKeepsBlend | GPU/GLES/StateMapping.cpp:619-791 | nothing after `ApplyBlendState` in `ApplyDrawState` touches the blend state |
| DrawState.DepthStateAfter | GPU/GLES/StateMapping.cpp:591-598 | without a depth test nothing changes; otherwise only the depth function changes, to ALWAYS iff the draw is on top or the GE comparison is ALWAYS, and else to the `ztests` image of the GE comparison |
| DrawEngine.ShaderBlendingFlagsMeaning | GPU/GLES/StateMapping.cpp:173-200 | with framebuffer fetch: allowed, nothing changes. Otherwise the request is counted in its frame and allowed iff the count is at most 48. An allowed request asks for the framebuffer texture and the blend uniform; a refused one unbinds the texture |
| DrawEngine.GrantedCopyIsBound | GPU/GLES/StateMapping.cpp:341-346 | a granted framebuffer copy leaves only the stencil and logic-op state, and the late step binds the copy |
| DrawEngine.RefusedCopyFallsBack | GPU/GLES/StateMapping.cpp:341-349 | a refused copy disallows shader blending, unbinds the framebuffer texture and falls back to fixed-function blending |
| DrawEngine.BlendUnbindsUnlessCopy | GPU/GLES/StateMapping.cpp:334-363 | after `ApplyBlendState` a framebuffer texture is still bound only when a copy was granted and it was bound before |
| DrawEngine.LateConsumesRequest | GPU/GLES/StateMapping.cpp:794-818 | after a normal draw's late step no texture request is pending, and the texture is bound iff it was bound or requested |
| DrawEngine.TransformDrawEngine.constructor | GPU/GLES/StateMapping.cpp:180-181 | a new engine starts with no texture bound or requested and the counter at frame −1 with no copies, as the statics at these lines; shader blending not allowed, the texture marked changed, no dirty uniforms and no depth update are this model's choice of initial state, since the engine's own constructor is not part of this model |
| DrawEngine.TransformDrawEngine.ResetShaderBlending | GPU/GLES/StateMapping.cpp:202-210 | unbinds the framebuffer texture and changes nothing else |
| DrawEngine.TransformDrawEngine.ApplyShaderBlending | GPU/GLES/StateMapping.cpp:173-200 | the new flags and the result are those of `ShaderBlendingFlags` |
| DrawEngine.TransformDrawEngine.ApplyStencilReplaceAndLogicOp | GPU/GLES/StateMapping.cpp:213-314 | the GL cache becomes `StencilReplaceAndLogicOpState` of the old cache, with the equations as written |
| DrawEngine.TransformDrawEngine.SetBlendColor | GPU/GLES/StateMapping.cpp:440-501 | only the blend colour changes, to `BlendColorAfter` |
| DrawEngine.TransformDrawEngine.ApplyFixedFunctionBlend | GPU/GLES/StateMapping.cpp:362-588 | the GL cache becomes `FixedFunctionBlend` and the flags `FixedFunctionFlags` of the old ones, with the equations as written |
| DrawEngine.TransformDrawEngine.SetFixedFunctionBlend | GPU/GLES/StateMapping.cpp:362-588 | the GL cache becomes `FixedFunctionBlend` of the old cache, with the equations as written |
| DrawEngine.TransformDrawEngine.ApplyBlendState | GPU/GLES/StateMapping.cpp:318-589 | the flags become `BlendFlags` and the GL cache `BlendStateAfter` of the old ones, with the equations as written |
| DrawEngine.TransformDrawEngine.ApplyDepthState | GPU/GLES/StateMapping.cpp:591-598 | the GL cache becomes `DepthStateAfter` of the old cache |
| DrawEngine.TransformDrawEngine.ApplyClearModeState | GPU/GLES/StateMapping.cpp:630-665 | the GL cache becomes `ClearModeState`; a depth update is reported iff the clear writes depth |
| DrawEngine.TransformDrawEngine.ApplyClearModeMasks | GPU/GLES/StateMapping.cpp:631-651 | the GL cache becomes `ClearModeMasks` of the old cache |
| DrawEngine.TransformDrawEngine.ApplyClearModeStencil | GPU/GLES/StateMapping.cpp:653-665 | the GL cache becomes `ClearModeStencil` of the old cache |
| DrawEngine.TransformDrawEngine.ApplyLogicOp | GPU/GLES/StateMapping.cpp:667-678 | the GL cache becomes `LogicOpStep` of the old cache |
| DrawEngine.TransformDrawEngine.ApplyCulling | GPU/GLES/StateMapping.cpp:679-686 | the GL cache becomes `CullStep` of the old cache |
| DrawEngine.TransformDrawEngine.ApplyDepthTest | GPU/GLES/StateMapping.cpp:688-705 | the GL cache becomes `DepthStep`; a depth update is reported iff the test is on and depth is written |
| DrawEngine.TransformDrawEngine.ApplyColorMask | GPU/GLES/StateMapping.cpp:707-738 | the GL cache becomes `MaskStep` of the old cache |
| DrawEngine.TransformDrawEngine.ApplyStencilTest | GPU/GLES/StateMapping.cpp:740-757 | the GL cache becomes `StencilStep` of the old cache |
| DrawEngine.TransformDrawEngine.ApplyNormalModeState | GPU/GLES/StateMapping.cpp:666-758 | the GL cache becomes `NormalModeState`, and the depth update is reported as `DepthUpdateReported` says |
| DrawEngine.TransformDrawEngine.ApplyScissorAndViewport | GPU/GLES/StateMapping.cpp:760-787 | the GL cache becomes `ScissorViewportState` of the old cache |
| DrawEngine.TransformDrawEngine.MarkProjectionDirty | GPU/GLES/StateMapping.cpp:789-791 | the projection uniform is marked dirty iff the viewport conversion asks for it |
| DrawEngine.TransformDrawEngine.ApplyRasterState | GPU/GLES/StateMapping.cpp:619-791 | the GL cache becomes `RasterStateAfter`, with the depth report and the projection uniform updated |
| DrawEngine.TransformDrawEngine.ApplyDrawState | GPU/GLES/StateMapping.cpp:600-792 | the flags become `DrawFlags`, and the GL cache becomes `RasterStateAfter` applied to `BlendStateAfter` of the old cache, with the equations as written |
| DrawEngine.TransformDrawEngine.ApplyDrawStateLate | GPU/GLES/StateMapping.cpp:794-819 | the flags become `LateFlags` of the old flags |

## Left out

- Raw GL calls (`glActiveTexture`, `glBindTexture`, `glTexParameteri`) are not modelled. Only their effect on `fboTexBound_` and `fboTexNeedBind_` is kept.
- Calls into collaborators are reduced to their recorded effects:
  - `SetTexture` and `ApplyTexture` (texture cache), `BindTestTexture` (fragment-test cache);
  - `BindFramebufferColor`, `RebindFramebuffer` and the render-size queries (framebuffer manager).
  - `SetDepthUpdated` is kept as the `depthUpdated` flag, and `DirtyUniform` as the set of dirty uniforms.
- `ReplaceBlendWithShader`, `ReplaceAlphaWithStencil`, `ReplaceAlphaWithStencilType` and `ConvertViewportAndScissor` are defined in other files and are not part of this model. Their results are inputs (`Collaborators`), as are `gpuStats.numFlips`, the screen's pixel height and `g_has_hmd`.
- Logging, one-shot reports (`*_REPORT_ONCE`, including the warning over 24 copies per frame) and `PROFILE_THIS_SCOPE` produce no state and are left out.
- The `USING_GLES2`, `ANDROID` and `MOBILE_DEVICE` variants are left out; the desktop build is modelled. This includes the Android-only substitution at `GPU/GLES/StateMapping.cpp:505-512`. In non-buffered rendering it replaces DST_ALPHA with ZERO and ONE_MINUS_DST_ALPHA with ONE, whatever the target format.
- `DrawEngine.TransformDrawEngine`: `lastFrameBlit` and `blitsThisFrame` are function-local statics in the source, shared by every engine. In the model they are fields of each engine, which is the same only while there is a single engine.
- VR head tracking and the key map are declarations and foreign calls, not mapping logic. Only the "VR enabled and a headset present" test that disables the scissor is kept.
- Float rounding is not modelled:
  - blend-colour channels and the constant alpha are exact rationals;
  - viewport and depth-range values are Dafny reals, passed through without the float-to-GL conversions.
  The thresholds 0.99, 0.01, 0.1 and 0.25 never fall on a byte boundary, so the byte tests are the same as the float tests.
- Register decoding (`gstate.getBlendFuncA()` and the like) is not modelled. The decoded fields are bounded integers. The blend equation selector is taken as 0..5, the range of the equation tables.
- `glstate.dither.set(GL_TRUE)` (`GPU/GLES/StateMapping.cpp:626`) is folded into the dither enable flag.
- `gstate_c.textureChanged` is a boolean. The kinds of texture change are not distinguished.
- `DrawEngine.TransformDrawEngine.ApplyShaderBlending`: `blitsThisFrame` is an unbounded integer, so the source's `int` overflow, after 2^31 requests in one frame, is not modelled.
- The GL state cache groups each feature's enable flag with its parameters (`BlendSetting`, `StencilSetting`, ...). Each source statement still writes its own field of the group.
- The sections of `ApplyBlendState` and `ApplyDrawState` are split into methods of their own (clear-mode masks and stencil, the fixed-function blend, the projection update). The statements and their order within each section are kept. Two updates of engine flags move to the start or end of a section, because they touch no GL state:
  - the fixed-function blend marks the blend uniform before, not between, the GL writes;
  - clear mode records the depth update before the other writes.

## Findings

| source | as written | input that shows it | evidently intended | confidence | as-written member | corrected member |
|---|---|---|---|---|---|---|
| GPU/GLES/StateMapping.cpp:289-301 | the alpha equation is SUBTRACT for DECR_4/DECR_8 and REVERSE_SUBTRACT for INVERT. SUBTRACT computes s − d and REVERSE_SUBTRACT computes d − s, so with factors (ONE, ONE) a decrement stores step − stored value and an inversion stores stored value − 1. The same swap is at `:529-540` and `:567-577`. The draw engine is modelled with these equations (`AsWritten`). | DECR_8, shader step s = 1/255, stored d = 10/255: writes 0 instead of 9/255. INVERT, shader output 1, stored 64/255: writes 0 instead of 191/255 | DECR uses REVERSE_SUBTRACT (d − s) and INVERT uses SUBTRACT (1 − d), as the comments "subtract the incremented value" and "reverse subtracting will essentially invert" describe. The `Corrected` variant of the stencil alpha equation, `AlphaBlendPlan` and the blend-state functions has this behaviour, proved in `StencilAlphaEquationUpdates`, `AlphaPlanReplaceMeaning` and `AlphaPlanStencilUpdates` | not executed; the arithmetic of the GL blend equations | BlendState.StencilAlphaEquationAsWrittenLoses | BlendState.StencilAlphaEquationUpdates |
