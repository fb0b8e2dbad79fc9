/** The draw engine's state-application methods: each one writes the GL state cache
    and the engine's own flags in place, and is proved to leave exactly the state
    the functions of BlendState, ShaderBlend and DrawState describe. */
module DrawEngine {
  import opened GL
  import opened GE
  import opened Tables
  import opened BlendState
  import opened ShaderBlend
  import opened DrawState

  /** Uniforms the shader manager is told to re-upload. */
  datatype DirtyUniform = DirtyShaderBlend | DirtyTexClamp | DirtyProjMatrix

  /** The engine-side state the mapper updates, as a value: the framebuffer-texture
      flags, the copy budget counter, gstate_c.allowShaderBlend, whether the texture
      changed since it was last set, the uniforms marked dirty, and whether the
      framebuffer manager has been told that depth was written. */
  datatype EngineFlags = EngineFlags(
    fboTexNeedBind: bool,
    fboTexBound: bool,
    counter: BlitCounter,
    allowShaderBlend: bool,
    textureChanged: bool,
    dirty: set<DirtyUniform>,
    depthUpdated: bool)

  // ---------------------------------------------------------------------------
  // Specification of the flag updates

  /** ResetShaderBlending: the framebuffer texture is unbound. */
  function ResetFlags(e: EngineFlags): EngineFlags {
    e.(fboTexBound := false)
  }

  /** ApplyShaderBlending: the new flags and whether the shader may blend. */
  function ShaderBlendingFlags(e: EngineFlags, f: Features, numFlips: int): (EngineFlags, bool) {
    if f.anyFramebufferFetch then (e, true)
    else
      var d := CountBlit(e.counter, numFlips);
      if d.allowed then (e.(counter := d.counter, fboTexNeedBind := true, dirty := e.dirty + {DirtyShaderBlend}), true)
      else (ResetFlags(e.(counter := d.counter)), false)
  }

  /** The fixed-function path: the framebuffer texture is unbound, and the blend
      uniform is marked when the shader premultiplies a fixed source colour. */
  function FixedFunctionFlags(e: EngineFlags, g: GeState, usePreSrc: bool): EngineFlags {
    var e1 := ResetFlags(e);
    if usePreSrc && ClampSelector(g.blendFuncA) == BlendFix then e1.(dirty := e1.dirty + {DirtyShaderBlend}) else e1
  }

  /** The replace-blend decision of a draw. */
  function ReplaceBlendOf(g: GeState, cfg: Config, h: Collaborators): ReplaceBlendType {
    h.replaceBlendWithShader(!cfg.disableSlowFramebufEffects, g.frameBufFormat)
  }

  /** ApplyBlendState: the new flags and what ApplyShaderBlending returned (false when
      it was not asked). */
  function BlendFlags(e: EngineFlags, g: GeState, f: Features, cfg: Config, h: Collaborators): (EngineFlags, bool) {
    var e0 := e.(allowShaderBlend := !cfg.disableSlowFramebufEffects);
    var rb := ReplaceBlendOf(g, cfg, h);
    if rb == ReplaceBlendNo then (ResetFlags(e0), false)
    else if rb == ReplaceBlendCopyFbo then
      var r := ShaderBlendingFlags(e0, f, h.numFlips);
      if r.1 then r else (FixedFunctionFlags(r.0.(allowShaderBlend := false), g, false), false)
    else (FixedFunctionFlags(e0, g, rb == ReplaceBlendPreSrc || rb == ReplaceBlendPreSrc2xAlpha), false)
  }

  /** The texture step at the start of ApplyDrawState. */
  function TextureFlags(e: EngineFlags, g: GeState, h: Collaborators): EngineFlags {
    if e.textureChanged && !g.modeClear && g.textureMapEnabled then
      e.(textureChanged := false, dirty := if h.needShaderTexClamp then e.dirty + {DirtyTexClamp} else e.dirty)
    else e
  }

  /** ApplyDrawState: the flags after the texture step, the blend state, the depth
      report and the projection update. */
  function DrawFlags(e: EngineFlags, g: GeState, f: Features, cfg: Config, h: Collaborators): EngineFlags {
    var e1 := BlendFlags(TextureFlags(e, g, h), g, f, cfg, h).0;
    e1.(depthUpdated := e1.depthUpdated || DepthUpdateReported(g, cfg),
        dirty := if h.viewportAndScissor.dirtyProj then e1.dirty + {DirtyProjMatrix} else e1.dirty)
  }

  /** What ApplyShaderBlending returned during ApplyDrawState. */
  function DrawShaderBlendOk(e: EngineFlags, g: GeState, f: Features, cfg: Config, h: Collaborators): bool {
    BlendFlags(TextureFlags(e, g, h), g, f, cfg, h).1
  }

  /** ApplyDrawStateLate: a requested framebuffer texture is bound. */
  function LateFlags(e: EngineFlags, g: GeState): EngineFlags {
    if !g.modeClear && e.fboTexNeedBind then e.(fboTexBound := true, fboTexNeedBind := false) else e
  }

  // ---------------------------------------------------------------------------
  // Properties of the flag updates

  /** With framebuffer fetch the shader may always blend and nothing is counted.
      Without it, a copy request is granted exactly when the budget allows it; a
      granted one asks for the framebuffer texture and the blend uniform, a refused
      one unbinds the texture; both count the request. */
  lemma ShaderBlendingFlagsMeaning(e: EngineFlags, f: Features, numFlips: int)
    ensures f.anyFramebufferFetch ==> ShaderBlendingFlags(e, f, numFlips) == (e, true)
    ensures var r := ShaderBlendingFlags(e, f, numFlips);
      var d := CountBlit(e.counter, numFlips);
      !f.anyFramebufferFetch ==>
      r.0.counter == d.counter && r.0.counter.lastFrame == numFlips &&
      (r.1 <==> r.0.counter.count <= 2 * MaxReasonableBlitsPerFrame) &&
      (r.1 ==> r.0.fboTexNeedBind && DirtyShaderBlend in r.0.dirty && r.0.fboTexBound == e.fboTexBound) &&
      (!r.1 ==> !r.0.fboTexBound && r.0.fboTexNeedBind == e.fboTexNeedBind && r.0.dirty == e.dirty)
  {
  }

  /** A draw whose blending is done in the shader from a copy of the framebuffer gets
      that copy bound by the late step, and its GL state is the stencil and logic-op
      state only. */
  lemma GrantedCopyIsBound(e: EngineFlags, s: GLSnapshot, g: GeState, f: Features, cfg: Config, h: Collaborators)
    requires ReplaceBlendOf(g, cfg, h) == ReplaceBlendCopyFbo && !f.anyFramebufferFetch && !g.modeClear
    requires CountBlit(e.counter, h.numFlips).allowed
    ensures var e1 := DrawFlags(e, g, f, cfg, h);
      var ok := DrawShaderBlendOk(e, g, f, cfg, h);
      ok && LateFlags(e1, g).fboTexBound && !LateFlags(e1, g).fboTexNeedBind &&
      e1.allowShaderBlend == !cfg.disableSlowFramebufEffects &&
      BlendStateAfter(AsWritten, s, g, f, cfg, h, ok) ==
        StencilReplaceAndLogicOpState(AsWritten, s, g, f, h.replaceAlphaWithStencil(ReplaceBlendCopyFbo), h.stencilType)
  {
    var e0 := TextureFlags(e, g, h);
    assert e0.counter == e.counter;
  }

  /** A copy request over budget falls back to fixed-function blending: shader
      blending is disallowed until the next draw, the framebuffer texture is unbound,
      and GL blending is on. */
  lemma RefusedCopyFallsBack(e: EngineFlags, s: GLSnapshot, g: GeState, f: Features, cfg: Config, h: Collaborators)
    requires ReplaceBlendOf(g, cfg, h) == ReplaceBlendCopyFbo && !f.anyFramebufferFetch
    requires !CountBlit(e.counter, h.numFlips).allowed
    ensures var e1 := DrawFlags(e, g, f, cfg, h);
      var ok := DrawShaderBlendOk(e, g, f, cfg, h);
      !ok && !e1.allowShaderBlend && !e1.fboTexBound && e1.fboTexNeedBind == e.fboTexNeedBind &&
      BlendStateAfter(AsWritten, s, g, f, cfg, h, ok).blend.enabled
  {
    var e0 := TextureFlags(e, g, h);
    assert e0.counter == e.counter && e0.fboTexNeedBind == e.fboTexNeedBind;
    BlendStateAfterProperties(AsWritten, s, g, f, cfg, h, false);
  }

  /** Only a granted copy keeps a framebuffer texture bound across ApplyBlendState. */
  lemma BlendUnbindsUnlessCopy(e: EngineFlags, g: GeState, f: Features, cfg: Config, h: Collaborators)
    ensures var r := BlendFlags(e, g, f, cfg, h);
      r.0.fboTexBound ==> ReplaceBlendOf(g, cfg, h) == ReplaceBlendCopyFbo && r.1 && e.fboTexBound
  {
    var e0 := e.(allowShaderBlend := !cfg.disableSlowFramebufEffects);
    if ReplaceBlendOf(g, cfg, h) == ReplaceBlendCopyFbo {
      var r := ShaderBlendingFlags(e0, f, h.numFlips);
      assert r.0.fboTexBound ==> r.1 && e.fboTexBound;
    }
  }

  /** The late step leaves no framebuffer texture request pending after a normal draw. */
  lemma LateConsumesRequest(e: EngineFlags, g: GeState)
    requires !g.modeClear
    ensures !LateFlags(e, g).fboTexNeedBind
    ensures LateFlags(e, g).fboTexBound <==> e.fboTexBound || e.fboTexNeedBind
  {
  }

  // ---------------------------------------------------------------------------
  // The engine

  class TransformDrawEngine {
    /** The GL state cache the engine writes through. */
    const gl: GLState
    var fboTexNeedBind: bool
    var fboTexBound: bool
    /** lastFrameBlit and blitsThisFrame, function-local statics in the original. */
    var lastFrameBlit: int
    var blitsThisFrame: int
    var allowShaderBlend: bool
    var textureChanged: bool
    var dirtyUniforms: set<DirtyUniform>
    var depthUpdated: bool

    function Flags(): EngineFlags
      reads this
    {
      EngineFlags(fboTexNeedBind, fboTexBound, BlitCounter(lastFrameBlit, blitsThisFrame),
                  allowShaderBlend, textureChanged, dirtyUniforms, depthUpdated)
    }

    constructor (gl: GLState)
      ensures this.gl == gl
      ensures Flags() == EngineFlags(false, false, InitialCounter, false, true, {}, false)
    {
      this.gl := gl;
      fboTexNeedBind, fboTexBound := false, false;
      lastFrameBlit, blitsThisFrame := -1, 0;
      allowShaderBlend := false;
      textureChanged := true;
      dirtyUniforms := {};
      depthUpdated := false;
    }

    method ResetShaderBlending()
      modifies this
      ensures Flags() == ResetFlags(old(Flags()))
    {
      if fboTexBound {
        fboTexBound := false;
      }
    }

    method ApplyShaderBlending(f: Features, numFlips: int) returns (ok: bool)
      modifies this
      ensures (Flags(), ok) == ShaderBlendingFlags(old(Flags()), f, numFlips)
    {
      if f.anyFramebufferFetch {
        return true;
      }
      if lastFrameBlit != numFlips {
        blitsThisFrame := 0;
        lastFrameBlit := numFlips;
      }
      blitsThisFrame := blitsThisFrame + 1;
      if blitsThisFrame > MaxReasonableBlitsPerFrame * 2 {
        ResetShaderBlending();
        return false;
      }
      fboTexNeedBind := true;
      dirtyUniforms := dirtyUniforms + {DirtyShaderBlend};
      return true;
    }

    method ApplyStencilReplaceAndLogicOp(g: GeState, f: Features, replaceAlpha: ReplaceAlphaType,
                                         stencilType: StencilValueType)
      modifies gl
      ensures gl.Snapshot() == StencilReplaceAndLogicOpState(AsWritten, old(gl.Snapshot()), g, f, replaceAlpha, stencilType)
    {
      var t := ReplaceStencilType(replaceAlpha, stencilType);
      var rgb := LogicOpBlend(f.logicOp, g.logicOpEnabled, g.logicOp);
      match t {
        case StencilIncr4 | StencilIncr8 | StencilDecr4 | StencilDecr8 | StencilInvert =>
          gl.blend := BlendSetting(true, BlendFuncs(rgb.src, rgb.dst, One, One),
                                   BlendEqs(rgb.eq, StencilAlphaEquation(AsWritten, t)), gl.blend.color);
        case _ =>
          if rgb.src == One && rgb.dst == Zero && rgb.eq == FuncAdd {
            gl.blend := gl.blend.(enabled := false);
          } else {
            gl.blend := BlendSetting(true, BlendFuncs(rgb.src, rgb.dst, One, Zero),
                                     BlendEqs(rgb.eq, FuncAdd), gl.blend.color);
          }
      }
    }

    /** The blend colour a resolution asks for: the chosen fixed colour, or white
        when only the constant alpha is needed, with the constant alpha. */
    method SetBlendColor(r: Resolution, ca: ConstantAlphaChoice)
      modifies gl
      ensures gl.Snapshot() == old(gl.Snapshot()).(blend := old(gl.blend).(color := BlendColorAfter(old(gl.blend.color), r, ca)))
    {
      match r.color {
        case FixedColor(fix) =>
          gl.blend := gl.blend.(color := ColorWithAlpha(fix, ca.value));
        case DefaultColor =>
          if ca.factor == ConstantAlpha {
            gl.blend := gl.blend.(color := BlendColorValue(255, 255, 255, ca.value));
          }
      }
    }

    /** The fixed-function half of ApplyBlendState. */
    method ApplyFixedFunctionBlend(g: GeState, f: Features, replaceAlpha: ReplaceAlphaType,
                                   stencilType: StencilValueType, usePreSrc: bool)
      modifies this, gl
      ensures gl.Snapshot() == FixedFunctionBlend(AsWritten, old(gl.Snapshot()), g, f, replaceAlpha, stencilType, usePreSrc)
      ensures Flags() == FixedFunctionFlags(old(Flags()), g, usePreSrc)
    {
      ResetShaderBlending();
      if usePreSrc && ClampSelector(g.blendFuncA) == BlendFix {
        dirtyUniforms := dirtyUniforms + {DirtyShaderBlend};
      }
      SetFixedFunctionBlend(g, f, replaceAlpha, stencilType, usePreSrc);
    }

    /** The GL half of ApplyFixedFunctionBlend: factors, equations and blend colour. */
    method SetFixedFunctionBlend(g: GeState, f: Features, replaceAlpha: ReplaceAlphaType,
                                 stencilType: StencilValueType, usePreSrc: bool)
      modifies gl
      ensures gl.Snapshot() == FixedFunctionBlend(AsWritten, old(gl.Snapshot()), g, f, replaceAlpha, stencilType, usePreSrc)
    {
      gl.blend := gl.blend.(enabled := true);
      var ca := ConstantAlphaOf(g.stencilTestEnabled, replaceAlpha, stencilType, g.stencilTestRef);
      var p := BaseFactors(g, f, replaceAlpha, usePreSrc);
      var r := ResolveFixedColors(ClampSelector(g.blendFuncA), ClampSelector(g.blendFuncB), g.fixA, g.fixB, p, usePreSrc);
      SetBlendColor(r, ca);
      var alpha := AlphaBlendPlan(AsWritten, replaceAlpha, g.stencilTestEnabled, stencilType, ca.factor);
      gl.blend := gl.blend.(funcs := BlendFuncs(r.a, r.b, alpha.src, alpha.dst));
      if f.blendMinMax {
        gl.blend := gl.blend.(eqs := BlendEqs(EqLookup[g.blendEq], alpha.eq));
      } else {
        gl.blend := gl.blend.(eqs := BlendEqs(EqLookupNoMinMax[g.blendEq], alpha.eq));
      }
    }

    method ApplyBlendState(g: GeState, f: Features, cfg: Config, h: Collaborators)
      modifies this, gl
      ensures Flags() == BlendFlags(old(Flags()), g, f, cfg, h).0
      ensures gl.Snapshot() == BlendStateAfter(AsWritten, old(gl.Snapshot()), g, f, cfg, h, BlendFlags(old(Flags()), g, f, cfg, h).1)
    {
      allowShaderBlend := !cfg.disableSlowFramebufEffects;
      ghost var e0 := Flags();
      var replaceBlend := h.replaceBlendWithShader(allowShaderBlend, g.frameBufFormat);
      var replaceAlpha := h.replaceAlphaWithStencil(replaceBlend);
      var usePreSrc := false;
      match replaceBlend {
        case ReplaceBlendNo =>
          ResetShaderBlending();
          assert Flags() == BlendFlags(old(Flags()), g, f, cfg, h).0 by {
            assert Flags() == ResetFlags(e0);
          }
          ApplyStencilReplaceAndLogicOp(g, f, replaceAlpha, h.stencilType);
          return;
        case ReplaceBlendCopyFbo =>
          var ok := ApplyShaderBlending(f, h.numFlips);
          ghost var r := ShaderBlendingFlags(e0, f, h.numFlips);
          assert (Flags(), ok) == r;
          if ok {
            assert (Flags(), ok) == BlendFlags(old(Flags()), g, f, cfg, h);
            ApplyStencilReplaceAndLogicOp(g, f, replaceAlpha, h.stencilType);
            return;
          }
          allowShaderBlend := false;
        case ReplaceBlendPreSrc | ReplaceBlendPreSrc2xAlpha =>
          usePreSrc := true;
        case ReplaceBlendStandard | ReplaceBlend2xAlpha | ReplaceBlend2xSrc =>
      }
      assert BlendFlags(old(Flags()), g, f, cfg, h) == (FixedFunctionFlags(Flags(), g, usePreSrc), false);
      assert !UsesStencilReplacePath(replaceBlend, false);
      ApplyFixedFunctionBlend(g, f, replaceAlpha, h.stencilType, usePreSrc);
    }

    method ApplyDepthState(g: GeState, onTop: bool)
      modifies gl
      ensures gl.Snapshot() == DepthStateAfter(old(gl.Snapshot()), g, onTop)
    {
      if g.depthTestEnabled {
        if onTop {
          gl.depth := gl.depth.(func := Always);
        } else {
          gl.depth := gl.depth.(func := ZTests[g.depthTestFunction]);
        }
      }
    }

    /** The clear-mode part of ApplyDrawState. */
    method ApplyClearModeState(g: GeState, f: Features, cfg: Config)
      requires g.modeClear
      modifies this, gl
      ensures gl.Snapshot() == ClearModeState(old(gl.Snapshot()), g, f, cfg)
      ensures Flags() == old(Flags()).(depthUpdated := old(depthUpdated) || DepthUpdateReported(g, cfg))
    {
      if g.clearModeDepthMask || cfg.alwaysDepthWrite {
        depthUpdated := true;
      }
      ApplyClearModeMasks(g, f, cfg);
      ApplyClearModeStencil(g, cfg);
    }

    /** Clear mode: logic op, culling, depth and colour mask. */
    method ApplyClearModeMasks(g: GeState, f: Features, cfg: Config)
      modifies gl
      ensures gl.Snapshot() == ClearModeMasks(old(gl.Snapshot()), g, f, cfg)
    {
      if f.logicOp {
        gl.logicOp := gl.logicOp.(enabled := false);
      }
      gl.cull := gl.cull.(enabled := false);
      gl.depth := gl.depth.(test := true);
      gl.depth := gl.depth.(func := Always);
      gl.depth := gl.depth.(write := g.clearModeDepthMask || cfg.alwaysDepthWrite);
      var colorMask := g.clearModeColorMask;
      var alphaMask := g.clearModeAlphaMask;
      gl.colorMask := ColorMask(colorMask, colorMask, colorMask, alphaMask);
    }

    /** Clear mode: the stencil. */
    method ApplyClearModeStencil(g: GeState, cfg: Config)
      modifies gl
      ensures gl.Snapshot() == ClearModeStencil(old(gl.Snapshot()), g, cfg)
    {
      if g.clearModeAlphaMask && !cfg.disableStencilTest {
        gl.stencil := gl.stencil.(test := true);
        gl.stencil := gl.stencil.(ops := StencilOps(OpReplace, OpReplace, OpReplace));
        gl.stencil := gl.stencil.(func := StencilFunc(Always, 255, 0xFF));
        gl.stencil := gl.stencil.(writeMask := 0xFF);
      } else {
        gl.stencil := gl.stencil.(test := false);
      }
    }

    /** Normal mode, logic op section. */
    method ApplyLogicOp(g: GeState, f: Features)
      modifies gl
      ensures gl.Snapshot() == LogicOpStep(old(gl.Snapshot()), g, f)
    {
      if f.logicOp {
        if g.logicOpEnabled && g.logicOp != GeLogicCopy {
          gl.logicOp := gl.logicOp.(enabled := true);
          gl.logicOp := gl.logicOp.(op := LogicOpsTable[g.logicOp]);
        } else {
          gl.logicOp := gl.logicOp.(enabled := false);
        }
      }
    }

    /** Normal mode, culling section. */
    method ApplyCulling(g: GeState, cfg: Config, prim: int)
      modifies gl
      ensures gl.Snapshot() == CullStep(old(gl.Snapshot()), g, cfg, prim)
    {
      var cullEnabled := !g.modeThrough && prim != PrimRectangles && g.cullEnabled;
      if cullEnabled {
        gl.cull := gl.cull.(enabled := true);
        gl.cull := gl.cull.(mode := CullingMode[CullIndex(g.cullMode, cfg.nonBufferedRendering)]);
      } else {
        gl.cull := gl.cull.(enabled := false);
      }
    }

    /** Normal mode, depth test section. */
    method ApplyDepthTest(g: GeState, cfg: Config)
      requires !g.modeClear
      modifies this, gl
      ensures gl.Snapshot() == DepthStep(old(gl.Snapshot()), g, cfg)
      ensures Flags() == old(Flags()).(depthUpdated := old(depthUpdated) || DepthUpdateReported(g, cfg))
    {
      if g.depthTestEnabled {
        gl.depth := gl.depth.(test := true);
        gl.depth := gl.depth.(func := ZTests[g.depthTestFunction]);
        gl.depth := gl.depth.(write := g.depthWriteEnabled || cfg.alwaysDepthWrite);
        if g.depthWriteEnabled || cfg.alwaysDepthWrite {
          depthUpdated := true;
        }
      } else {
        gl.depth := gl.depth.(test := false);
      }
    }

    /** Normal mode, colour mask section. */
    method ApplyColorMask(g: GeState, stencilType: StencilValueType)
      modifies gl
      ensures gl.Snapshot() == MaskStep(old(gl.Snapshot()), g, stencilType)
    {
      var rmask := ChannelWritten(g.pmskc % 256);
      var gmask := ChannelWritten((g.pmskc / 256) % 256);
      var bmask := ChannelWritten((g.pmskc / 65536) % 256);
      var amask := ChannelWritten(g.pmska);
      if !g.stencilTestEnabled {
        amask := false;
      } else if stencilType == StencilKeep {
        amask := false;
      }
      gl.colorMask := ColorMask(rmask, gmask, bmask, amask);
    }

    /** Normal mode, stencil test section. */
    method ApplyStencilTest(g: GeState, cfg: Config)
      modifies gl
      ensures gl.Snapshot() == StencilStep(old(gl.Snapshot()), g, cfg)
    {
      var abits: int := g.pmska;
      if g.stencilTestEnabled && !cfg.disableStencilTest {
        gl.stencil := gl.stencil.(test := true);
        gl.stencil := gl.stencil.(func := StencilFunc(ZTests[g.stencilTestFunction], g.stencilTestRef, g.stencilTestMask));
        gl.stencil := gl.stencil.(ops := StencilOps(StencilOpsTable[g.stencilOpSFail], StencilOpsTable[g.stencilOpZFail],
                                                    StencilOpsTable[g.stencilOpZPass]));
        if g.frameBufFormat == Format5551 {
          gl.stencil := gl.stencil.(writeMask := if abits <= 0x7F then 0xFF else 0x00);
        } else {
          gl.stencil := gl.stencil.(writeMask := 0xFFFF_FFFF - abits);
        }
      } else {
        gl.stencil := gl.stencil.(test := false);
      }
    }

    /** The normal-mode part of ApplyDrawState, section by section. */
    method ApplyNormalModeState(g: GeState, f: Features, cfg: Config, prim: int, stencilType: StencilValueType)
      requires !g.modeClear
      modifies this, gl
      ensures gl.Snapshot() == NormalModeState(old(gl.Snapshot()), g, f, cfg, prim, stencilType)
      ensures Flags() == old(Flags()).(depthUpdated := old(depthUpdated) || DepthUpdateReported(g, cfg))
    {
      ApplyLogicOp(g, f);
      ApplyCulling(g, cfg, prim);
      ApplyDepthTest(g, cfg);
      ApplyColorMask(g, stencilType);
      ApplyStencilTest(g, cfg);
    }

    /** The scissor and viewport part of ApplyDrawState. */
    method ApplyScissorAndViewport(cfg: Config, h: Collaborators)
      modifies gl
      ensures gl.Snapshot() == ScissorViewportState(old(gl.Snapshot()), cfg, h)
    {
      var vp := h.viewportAndScissor;
      var useBufferedRendering := !cfg.nonBufferedRendering;
      if cfg.enableVR && h.hasHmd {
        gl.scissor := gl.scissor.(test := false);
      } else if vp.scissorEnable {
        gl.scissor := gl.scissor.(test := true);
        var scissorY := vp.scissorY;
        if !useBufferedRendering {
          scissorY := h.pixelHeight - vp.scissorH - vp.scissorY;
        }
        gl.scissor := gl.scissor.(rect := ScissorRect(vp.scissorX, scissorY, vp.scissorW, vp.scissorH));
      } else {
        gl.scissor := gl.scissor.(test := false);
      }
      var viewportY := vp.viewportY;
      if !useBufferedRendering {
        viewportY := h.pixelHeight as real - vp.viewportH - vp.viewportY;
      }
      gl.viewport := ViewportRect(vp.viewportX, viewportY, vp.viewportW, vp.viewportH);
      gl.depthRange := DepthRange(vp.depthRangeMin, vp.depthRangeMax);
    }

    /** A viewport change that moved the projection marks its uniform dirty. */
    method MarkProjectionDirty(h: Collaborators)
      modifies this
      ensures Flags() == old(Flags()).(dirty := if h.viewportAndScissor.dirtyProj then old(dirtyUniforms) + {DirtyProjMatrix}
                                                else old(dirtyUniforms))
    {
      if h.viewportAndScissor.dirtyProj {
        dirtyUniforms := dirtyUniforms + {DirtyProjMatrix};
      }
    }

    /** The second half of ApplyDrawState, after the blend state: dither, the
        clear-mode or normal-mode state, the scissor and viewport, and the projection
        update. */
    method ApplyRasterState(g: GeState, f: Features, cfg: Config, h: Collaborators, prim: int)
      modifies this, gl
      ensures gl.Snapshot() == RasterStateAfter(old(gl.Snapshot()), g, f, cfg, h, prim)
      ensures Flags() == old(Flags()).(depthUpdated := old(depthUpdated) || DepthUpdateReported(g, cfg),
                                       dirty := if h.viewportAndScissor.dirtyProj then old(dirtyUniforms) + {DirtyProjMatrix}
                                                else old(dirtyUniforms))
    {
      ghost var s0 := gl.Snapshot();
      if g.ditherEnabled {
        gl.dither := true;
      } else {
        gl.dither := false;
      }
      ghost var sDither := gl.Snapshot();
      assert sDither == DitherState(s0, g);

      if g.modeClear {
        ApplyClearModeState(g, f, cfg);
      } else {
        ApplyNormalModeState(g, f, cfg, prim, h.stencilType);
      }
      assert gl.Snapshot() == ModeState(sDither, g, f, cfg, prim, h.stencilType);

      ApplyScissorAndViewport(cfg, h);
      MarkProjectionDirty(h);
    }

    method ApplyDrawState(g: GeState, f: Features, cfg: Config, h: Collaborators, prim: int)
      modifies this, gl
      ensures Flags() == DrawFlags(old(Flags()), g, f, cfg, h)
      ensures gl.Snapshot() ==
        RasterStateAfter(BlendStateAfter(AsWritten, old(gl.Snapshot()), g, f, cfg, h, DrawShaderBlendOk(old(Flags()), g, f, cfg, h)),
                         g, f, cfg, h, prim)
    {
      if textureChanged && !g.modeClear && g.textureMapEnabled {
        textureChanged := false;
        if h.needShaderTexClamp {
          dirtyUniforms := dirtyUniforms + {DirtyTexClamp};
        }
      }
      ghost var eTex := Flags();
      assert eTex == TextureFlags(old(Flags()), g, h);
      ApplyBlendState(g, f, cfg, h);
      ApplyRasterState(g, f, cfg, h, prim);
    }

    method ApplyDrawStateLate(g: GeState)
      modifies this
      ensures Flags() == LateFlags(old(Flags()), g)
    {
      if !g.modeClear {
        if fboTexNeedBind {
          fboTexBound := true;
          fboTexNeedBind := false;
        }
      }
    }
  }
}
