/** The non-blend part of ApplyDrawState and ApplyDepthState as functions of the GL
    state cache: dither, the clear-mode and normal-mode raster state, and the
    scissor and viewport. */
module DrawState {
  import opened GL
  import opened GE
  import opened Tables

  // ---------------------------------------------------------------------------
  // Register helpers

  /** Byte k (0 = red, 1 = green, 2 = blue) of a 24-bit register. */
  function ChannelByte(x: Rgb24, k: int): byte
    requires 0 <= k < 3
  {
    if k == 0 then x % 256 else if k == 1 then (x / 256) % 256 else (x / 65536) % 256
  }

  function Pow2(k: nat): nat {
    if k == 0 then 1 else 2 * Pow2(k - 1)
  }

  lemma Pow2Byte()
    ensures Pow2(7) == 128 && Pow2(8) == 256
  {
    assert Pow2(2) == 4;
    assert Pow2(4) == 16;
    assert Pow2(6) == 64;
  }

  /** Bit i of a non-negative number. */
  function Bit(x: nat, i: nat): nat {
    if i == 0 then x % 2 else Bit(x / 2, i - 1)
  }

  /** Subtracting from 2^k - 1 complements each of the low k bits. */
  lemma {:induction false} ComplementBits(k: nat, x: nat, i: nat)
    requires x < Pow2(k) && i < k
    ensures Bit(Pow2(k) - 1 - x, i) == 1 - Bit(x, i)
  {
    if i > 0 {
      assert Pow2(k) == 2 * Pow2(k - 1);
      assert (Pow2(k) - 1 - x) / 2 == Pow2(k - 1) - 1 - x / 2;
      ComplementBits(k - 1, x / 2, i - 1);
    }
  }

  /** The top bit of a (k+1)-bit number is set exactly when it is at least 2^k. */
  lemma {:induction false} TopBit(k: nat, x: nat)
    requires x < Pow2(k + 1)
    ensures Bit(x, k) == (if x < Pow2(k) then 0 else 1)
  {
    if k > 0 {
      assert Pow2(k + 1) == 2 * Pow2(k);
      assert Pow2(k) == 2 * Pow2(k - 1);
      TopBit(k - 1, x / 2);
    }
  }

  /** The PSP mask protects the bits that are set; GL can only mask whole channels,
      so a channel is written when fewer than half of its mask byte is set, that is
      when its top bit is clear. */
  predicate ChannelWritten(maskByte: byte) {
    maskByte < 128
  }

  /** The threshold is exact for the masks GL can express, and is decided by the
      top bit of the mask byte. */
  lemma ChannelWrittenThreshold(maskByte: byte)
    ensures maskByte == 0 ==> ChannelWritten(maskByte)
    ensures maskByte == 0xFF ==> !ChannelWritten(maskByte)
    ensures ChannelWritten(maskByte) <==> Bit(maskByte, 7) == 0
  {
    Pow2Byte();
    TopBit(7, maskByte);
  }

  /** The GL stencil write mask for the PSP stencil mask abits. The 5551 format
      keeps one stencil bit, written unless the top mask bit protects it; the other
      formats write the complement of abits, widened to 32 bits with ones. */
  function StencilWriteMask(fmt: FrameBufFormat, abits: byte): u32 {
    if fmt == Format5551 then (if abits <= 0x7F then 0xFF else 0)
    else 0xFFFF_FFFF - abits
  }

  /** Outside 5551 the mask writes exactly the stencil bits the PSP mask leaves
      unprotected, and all bits above the eight the target stores; in 5551 it writes
      the one stencil bit unless the top bit of the PSP mask protects it. */
  lemma StencilWriteMaskComplements(fmt: FrameBufFormat, abits: byte)
    ensures fmt != Format5551 ==>
      var m := StencilWriteMask(fmt, abits);
      m / 256 == 0xFF_FFFF && forall i :: 0 <= i < 8 ==> Bit(m % 256, i) == 1 - Bit(abits, i)
    ensures fmt == Format5551 ==>
      (StencilWriteMask(fmt, abits) != 0 <==> Bit(abits, 7) == 0)
  {
    Pow2Byte();
    if fmt != Format5551 {
      var m := StencilWriteMask(fmt, abits);
      assert m == 0xFFFF_FF00 + (255 - abits);
      assert m % 256 == Pow2(8) - 1 - abits;
      forall i | 0 <= i < 8
        ensures Bit(m % 256, i) == 1 - Bit(abits, i)
      {
        ComplementBits(8, abits, i);
      }
    } else {
      TopBit(7, abits);
    }
  }

  /** The culling table index: the GE cull mode, flipped when drawing straight to the
      screen, whose Y axis points the other way. */
  function CullIndex(cullMode: Bit, nonBuffered: bool): Bit {
    if nonBuffered then 1 - cullMode else cullMode
  }

  /** Buffered rendering culls the face the GE names; non-buffered rendering culls
      the other one. */
  lemma CullIndexFlips(cullMode: Bit)
    ensures CullingMode[CullIndex(cullMode, false)] == CullingMode[cullMode]
    ensures CullingMode[CullIndex(cullMode, true)] != CullingMode[CullIndex(cullMode, false)]
  {
  }

  /** The Y origin of a rectangle of height h at y, mirrored in a screen of height
      pixelHeight. */
  function FlipY(pixelHeight: int, y: int, h: int): int {
    pixelHeight - h - y
  }

  /** The same mirroring for the real-valued viewport. */
  function FlipYReal(pixelHeight: real, y: real, h: real): real {
    pixelHeight - h - y
  }

  // ---------------------------------------------------------------------------
  // ApplyDrawState

  /** Dither follows the GE dither flag. */
  function DitherState(s: GLSnapshot, g: GeState): GLSnapshot {
    s.(dither := g.ditherEnabled)
  }

  /** Clear mode, everything but the stencil: no logic op, no culling, depth test
      ALWAYS with writes as the clear's depth mask says, and the clear's colour mask. */
  function ClearModeMasks(s: GLSnapshot, g: GeState, f: Features, cfg: Config): GLSnapshot {
    var c := g.clearModeColorMask;
    s.(logicOp := if f.logicOp then s.logicOp.(enabled := false) else s.logicOp,
       cull := s.cull.(enabled := false),
       depth := DepthSetting(true, Always, g.clearModeDepthMask || cfg.alwaysDepthWrite),
       colorMask := ColorMask(c, c, c, g.clearModeAlphaMask))
  }

  /** Clear mode, stencil: clearing alpha writes the stencil with REPLACE 0xFF. */
  function ClearModeStencil(s: GLSnapshot, g: GeState, cfg: Config): GLSnapshot {
    if g.clearModeAlphaMask && !cfg.disableStencilTest then
      s.(stencil := StencilSetting(true, StencilFunc(Always, 255, 0xFF),
                                   StencilOps(OpReplace, OpReplace, OpReplace), 0xFF))
    else s.(stencil := s.stencil.(test := false))
  }

  /** Clear mode: no logic op (when GL has them), no culling, every fragment passes
      the depth test, the clear masks select what is written, and the stencil is
      replaced wholesale when alpha is cleared and stencil testing is allowed. */
  function ClearModeState(s: GLSnapshot, g: GeState, f: Features, cfg: Config): GLSnapshot {
    ClearModeStencil(ClearModeMasks(s, g, f, cfg), g, cfg)
  }

  /** Whether a normal-mode draw culls: never through-mode, never rectangles. */
  predicate CullsFaces(g: GeState, prim: int) {
    !g.modeThrough && prim != PrimRectangles && g.cullEnabled
  }

  /** Whether a normal-mode draw writes alpha: the alpha mask lets it, and the alpha
      channel carries a stencil value that changes. */
  predicate AlphaWritten(g: GeState, stencilType: StencilValueType) {
    ChannelWritten(g.pmska) && g.stencilTestEnabled && stencilType != StencilKeep
  }

  /** s1 agrees with s on everything the clear-mode and normal-mode state leave alone. */
  predicate ModeFrame(s: GLSnapshot, s1: GLSnapshot) {
    s1.blend == s.blend && s1.dither == s.dither && s1.scissor == s.scissor &&
    s1.viewport == s.viewport && s1.depthRange == s.depthRange
  }

  /** Normal mode, logic op: only where GL has logic ops, and COPY needs none. */
  function LogicOpStep(s: GLSnapshot, g: GeState, f: Features): (s1: GLSnapshot)
    ensures ModeFrame(s, s1)
  {
    if !f.logicOp then s
    else if g.logicOpEnabled && g.logicOp != GeLogicCopy then s.(logicOp := LogicOpSetting(true, LogicOpsTable[g.logicOp]))
    else s.(logicOp := s.logicOp.(enabled := false))
  }

  /** Normal mode, culling. */
  function CullStep(s: GLSnapshot, g: GeState, cfg: Config, prim: int): (s1: GLSnapshot)
    ensures ModeFrame(s, s1)
  {
    if CullsFaces(g, prim) then s.(cull := CullSetting(true, CullingMode[CullIndex(g.cullMode, cfg.nonBufferedRendering)]))
    else s.(cull := s.cull.(enabled := false))
  }

  /** Normal mode, depth test; the depth write flag is left alone when there is no test. */
  function DepthStep(s: GLSnapshot, g: GeState, cfg: Config): (s1: GLSnapshot)
    ensures ModeFrame(s, s1)
  {
    if g.depthTestEnabled then
      s.(depth := DepthSetting(true, ZTests[g.depthTestFunction], g.depthWriteEnabled || cfg.alwaysDepthWrite))
    else s.(depth := s.depth.(test := false))
  }

  /** Normal mode, channel write masks. */
  function MaskStep(s: GLSnapshot, g: GeState, stencilType: StencilValueType): (s1: GLSnapshot)
    ensures ModeFrame(s, s1)
  {
    s.(colorMask := ColorMask(ChannelWritten(ChannelByte(g.pmskc, 0)),
                              ChannelWritten(ChannelByte(g.pmskc, 1)),
                              ChannelWritten(ChannelByte(g.pmskc, 2)),
                              AlphaWritten(g, stencilType)))
  }

  /** Normal mode, stencil test. */
  function StencilStep(s: GLSnapshot, g: GeState, cfg: Config): (s1: GLSnapshot)
    ensures ModeFrame(s, s1)
  {
    if g.stencilTestEnabled && !cfg.disableStencilTest then
      s.(stencil := StencilSetting(true,
                                   StencilFunc(ZTests[g.stencilTestFunction], g.stencilTestRef, g.stencilTestMask),
                                   StencilOps(StencilOpsTable[g.stencilOpSFail], StencilOpsTable[g.stencilOpZFail],
                                              StencilOpsTable[g.stencilOpZPass]),
                                   StencilWriteMask(g.frameBufFormat, g.pmska)))
    else s.(stencil := s.stencil.(test := false))
  }

  /** Normal mode: the logic op, culling, depth test, channel masks and stencil test
      the GE registers select. */
  function NormalModeState(s: GLSnapshot, g: GeState, f: Features, cfg: Config, prim: int,
                           stencilType: StencilValueType): GLSnapshot
  {
    StencilStep(MaskStep(DepthStep(CullStep(LogicOpStep(s, g, f), g, cfg, prim), g, cfg), g, stencilType), g, cfg)
  }

  /** The clear-mode or normal-mode state. */
  function ModeState(s: GLSnapshot, g: GeState, f: Features, cfg: Config, prim: int,
                     stencilType: StencilValueType): GLSnapshot
  {
    if g.modeClear then ClearModeState(s, g, f, cfg) else NormalModeState(s, g, f, cfg, prim, stencilType)
  }

  /** Scissor (off in VR with a headset, since it does not apply there) and viewport,
      both mirrored vertically when drawing straight to the screen. */
  function ScissorViewportState(s: GLSnapshot, cfg: Config, h: Collaborators): (s1: GLSnapshot)
    ensures s1 == s.(scissor := s1.scissor, viewport := s1.viewport, depthRange := s1.depthRange)
  {
    var v := h.viewportAndScissor;
    var sScissor :=
      if cfg.enableVR && h.hasHmd then s.(scissor := s.scissor.(test := false))
      else if v.scissorEnable then
        var y := if cfg.nonBufferedRendering then FlipY(h.pixelHeight, v.scissorY, v.scissorH) else v.scissorY;
        s.(scissor := ScissorSetting(true, ScissorRect(v.scissorX, y, v.scissorW, v.scissorH)))
      else s.(scissor := s.scissor.(test := false));
    var vy := if cfg.nonBufferedRendering then FlipYReal(h.pixelHeight as real, v.viewportY, v.viewportH) else v.viewportY;
    sScissor.(viewport := ViewportRect(v.viewportX, vy, v.viewportW, v.viewportH),
              depthRange := DepthRange(v.depthRangeMin, v.depthRangeMax))
  }

  /** The GL state ApplyDrawState sets after the blend state. */
  function RasterStateAfter(s: GLSnapshot, g: GeState, f: Features, cfg: Config, h: Collaborators, prim: int): GLSnapshot {
    ScissorViewportState(ModeState(DitherState(s, g), g, f, cfg, prim, h.stencilType), cfg, h)
  }

  /** Whether ApplyDrawState reports a depth update to the framebuffer manager. */
  predicate DepthUpdateReported(g: GeState, cfg: Config) {
    if g.modeClear then g.clearModeDepthMask || cfg.alwaysDepthWrite
    else g.depthTestEnabled && (g.depthWriteEnabled || cfg.alwaysDepthWrite)
  }

  /** The framebuffer manager hears of a depth update exactly when GL will write
      depth, that is when both the depth test and depth writes end up enabled. */
  lemma DepthUpdateMatchesDepthWrites(s: GLSnapshot, g: GeState, f: Features, cfg: Config, h: Collaborators, prim: int)
    ensures var s1 := RasterStateAfter(s, g, f, cfg, h, prim);
      DepthUpdateReported(g, cfg) <==> s1.depth.test && s1.depth.write
  {
  }

  /** The stencil test ends up on exactly when the draw uses the stencil (the alpha
      clear mask in clear mode, the stencil test register otherwise) and stencil
      testing is not switched off; in normal mode alpha is written only when the
      stencil test is on in the GE and the stencil value changes. */
  lemma StencilTestRule(s: GLSnapshot, g: GeState, f: Features, cfg: Config, h: Collaborators, prim: int)
    ensures var s1 := RasterStateAfter(s, g, f, cfg, h, prim);
      (s1.stencil.test <==> (if g.modeClear then g.clearModeAlphaMask else g.stencilTestEnabled) && !cfg.disableStencilTest) &&
      (!g.modeClear && s1.colorMask.a ==> g.stencilTestEnabled && h.stencilType != StencilKeep) &&
      (g.modeClear && s1.stencil.test ==> s1.stencil.ops.zPass == OpReplace && s1.stencil.writeMask == 0xFF)
  {
  }

  /** In clear mode every fragment is drawn: nothing is culled, the depth test always
      passes, and no logic op is applied when GL has them; depth is written exactly
      when the clear writes depth or depth writes are forced. */
  lemma ClearModeDrawsEverything(s: GLSnapshot, g: GeState, f: Features, cfg: Config, h: Collaborators, prim: int)
    requires g.modeClear
    ensures var s1 := RasterStateAfter(s, g, f, cfg, h, prim);
      !s1.cull.enabled && s1.depth.test && s1.depth.func == Always && (f.logicOp ==> !s1.logicOp.enabled) &&
      (s1.depth.write <==> g.clearModeDepthMask || cfg.alwaysDepthWrite)
  {
    var sM := ModeState(DitherState(s, g), g, f, cfg, prim, h.stencilType);
    assert sM == ClearModeState(DitherState(s, g), g, f, cfg);
  }

  /** A normal-mode draw enables a GL logic op only for a GE logic op other than
      COPY, and then computes the GE operation bit for bit. */
  lemma NormalModeLogicOpFaithful(s: GLSnapshot, g: GeState, f: Features, cfg: Config, h: Collaborators, prim: int,
                                  sb: bool, db: bool)
    requires !g.modeClear && f.logicOp
    ensures var s1 := RasterStateAfter(s, g, f, cfg, h, prim);
      (s1.logicOp.enabled <==> g.logicOpEnabled && g.logicOp != GeLogicCopy) &&
      (s1.logicOp.enabled ==> LogicOpBit(s1.logicOp.op, sb, db) == GeLogicBit(g.logicOp, sb, db))
  {
    LogicOpsTableFaithful(g.logicOp, sb, db);
  }

  /** Drawing straight to the screen mirrors the scissor and viewport rectangles: the
      bottom edge of the GL rectangle is where the top edge of the GE rectangle was,
      and mirroring twice gives the rectangle back. */
  lemma ScreenMirroring(s: GLSnapshot, cfg: Config, h: Collaborators)
    requires cfg.nonBufferedRendering
    ensures var s1 := ScissorViewportState(s, cfg, h);
      var v := h.viewportAndScissor;
      s1.viewport.y + s1.viewport.h == h.pixelHeight as real - v.viewportY &&
      FlipYReal(h.pixelHeight as real, s1.viewport.y, s1.viewport.h) == v.viewportY &&
      (s1.scissor.test ==> s1.scissor.rect.y + s1.scissor.rect.h == h.pixelHeight - v.scissorY &&
                           FlipY(h.pixelHeight, s1.scissor.rect.y, s1.scissor.rect.h) == v.scissorY)
  {
  }

  /** The scissor test is on exactly when the GE scissor is enabled and no VR headset
      is in use; buffered rendering keeps the rectangles as they are. */
  lemma ScissorRule(s: GLSnapshot, cfg: Config, h: Collaborators)
    ensures var s1 := ScissorViewportState(s, cfg, h);
      var v := h.viewportAndScissor;
      (s1.scissor.test <==> v.scissorEnable && !(cfg.enableVR && h.hasHmd)) &&
      (!cfg.nonBufferedRendering ==>
         s1.viewport == ViewportRect(v.viewportX, v.viewportY, v.viewportW, v.viewportH) &&
         (s1.scissor.test ==> s1.scissor.rect == ScissorRect(v.scissorX, v.scissorY, v.scissorW, v.scissorH)))
  {
  }

  lemma NormalModeFrame(s: GLSnapshot, g: GeState, f: Features, cfg: Config, prim: int, t: StencilValueType)
    ensures ModeFrame(s, NormalModeState(s, g, f, cfg, prim, t))
  {
    var s1 := LogicOpStep(s, g, f);
    var s2 := CullStep(s1, g, cfg, prim);
    var s3 := DepthStep(s2, g, cfg);
    var s4 := MaskStep(s3, g, t);
    assert ModeFrame(s, s4);
  }

  /** The raster state never touches the blend state ApplyBlendState has just set. */
  lemma RasterStateKeepsBlend(s: GLSnapshot, g: GeState, f: Features, cfg: Config, h: Collaborators, prim: int)
    ensures RasterStateAfter(s, g, f, cfg, h, prim).blend == s.blend
  {
    var sD := DitherState(s, g);
    assert sD.blend == s.blend;
    var sM := ModeState(sD, g, f, cfg, prim, h.stencilType);
    if g.modeClear {
      assert sM.blend == sD.blend;
    } else {
      NormalModeFrame(sD, g, f, cfg, prim, h.stencilType);
    }
  }

  // ---------------------------------------------------------------------------
  // ApplyDepthState

  /** With the depth test on, a draw on top of everything always passes it and any
      other draw uses the GE comparison; with it off nothing changes. */
  function DepthStateAfter(s: GLSnapshot, g: GeState, onTop: bool): (s1: GLSnapshot)
    ensures !g.depthTestEnabled ==> s1 == s
    ensures s1 == s.(depth := s.depth.(func := s1.depth.func))
    ensures g.depthTestEnabled ==> (s1.depth.func == Always <==> onTop || g.depthTestFunction == CompAlways)
    ensures g.depthTestEnabled && !onTop ==> ZTestIndex(s1.depth.func) == g.depthTestFunction
  {
    if !g.depthTestEnabled then s
    else if onTop then s.(depth := s.depth.(func := Always))
    else
      ZTestsBijective(g.depthTestFunction);
      s.(depth := s.depth.(func := ZTests[g.depthTestFunction]))
  }
}
