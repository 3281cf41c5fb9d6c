/** The part of the X server that RandR requests read and change
    (RandR protocol specification, section 7, "Extension Requests"). */
module RandR {
  import opened Ints

  type Crtc = nat    // 0 is None
  type Output = nat  // 0 is None
  type ModeId = nat  // 0 is None

  const ROTATE_0: bv16 := 1
  const ROTATE_90: bv16 := 2
  const ROTATE_180: bv16 := 4
  const ROTATE_270: bv16 := 8
  const REFLECT_X: bv16 := 16
  const REFLECT_Y: bv16 := 32

  datatype Size = Size(width: uint16, height: uint16)

  /** The smallest and the largest screen a server supports. */
  datatype SizeRange = SizeRange(min: Size, max: Size)
  {
    predicate Has(width: int, height: int) {
      min.width <= width <= max.width && min.height <= height <= max.height
    }
  }

  datatype Rect = Rect(x: int16, y: int16, width: uint16, height: uint16)

  predicate NeedSwapWidthHeight(rotation: bv16) {
    rotation & ROTATE_90 != 0 || rotation & ROTATE_270 != 0
  }

  function SwapWithRotation(rotation: bv16, size: Size): Size {
    if NeedSwapWidthHeight(rotation) then Size(size.height, size.width) else size
  }

  datatype CrtcInfo = CrtcInfo(
    x: int16, y: int16, size: Size, mode: ModeId, rotation: bv16, outputs: seq<Output>,
    possibleOutputs: set<Output>, rotations: set<bv16>)
  {
    /** The part of the screen the CRTC shows. */
    function GetRect(): Rect {
      var s := SwapWithRotation(rotation, size);
      Rect(x, y, s.width, s.height)
    }

    predicate Active() { outputs != [] }
  }

  lemma TurnedIff(rotation: bv16)
    ensures rotation & 15 in {1, 4} ==> !NeedSwapWidthHeight(rotation)
    ensures rotation & 15 in {2, 8} ==> NeedSwapWidthHeight(rotation)
  {
    assert rotation & 2 == (rotation & 15) & 2;
    assert rotation & 8 == (rotation & 15) & 8;
  }

  /** Turned by 90 or 270 degrees (bits 2 and 8), a CRTC shows its mode with width and height exchanged; turned by 0 or
      180 (bits 1 and 4) it does not; reflections (bits 16 and 32) play no part. */
  lemma TurnedRect(info: CrtcInfo)
    ensures info.rotation & 15 in {1, 4} ==>
              info.GetRect() == Rect(info.x, info.y, info.size.width, info.size.height)
    ensures info.rotation & 15 in {2, 8} ==>
              info.GetRect() == Rect(info.x, info.y, info.size.height, info.size.width)
  {
    TurnedIff(info.rotation);
  }

  datatype CrtcConfig = CrtcConfig(
    crtc: Crtc, outputs: seq<Output>, x: int16, y: int16, rotation: bv16, mode: ModeId)

  function DisableConfig(c: Crtc): CrtcConfig { CrtcConfig(c, [], 0, 0, ROTATE_0, 0) }

  datatype Server = Server(
    crtcs: map<Crtc, CrtcInfo>, outputs: map<Output, Crtc>, width: uint16, height: uint16,
    modes: map<ModeId, Size>, outputModes: map<Output, set<ModeId>>, sizes: SizeRange)

  predicate RectFits(r: Rect, width: int, height: int) {
    r.x + r.width <= width && r.y + r.height <= height
  }

  /** Every active CRTC lies inside a screen of this size. */
  predicate CrtcsFit(crtcs: map<Crtc, CrtcInfo>, width: int, height: int) {
    forall c | c in crtcs && crtcs[c].Active() :: RectFits(crtcs[c].GetRect(), width, height)
  }

  predicate ScreenFits(s: Server) { CrtcsFit(s.crtcs, s.width, s.height) }

  predicate CrtcConsistent(s: Server, c: Crtc)
    requires c in s.crtcs
  {
    var info := s.crtcs[c];
    && (forall o | o in info.outputs :: o in s.outputs && s.outputs[o] == c && o in info.possibleOutputs)
    && (if info.outputs == [] then info.mode == 0 && info.size == Size(0, 0)
        else info.mode in s.modes && info.size == s.modes[info.mode])
  }

  /** The CRTC table and the output table agree, and a CRTC has a mode exactly when it has outputs. */
  predicate Consistent(s: Server) {
    && 0 !in s.crtcs && 0 !in s.outputs && 0 !in s.modes
    && (forall c | c in s.crtcs :: CrtcConsistent(s, c))
    && (forall o | o in s.outputs && s.outputs[o] != 0 ::
          s.outputs[o] in s.crtcs && o in s.crtcs[s.outputs[o]].outputs)
  }

  /** A SetScreenSize is refused for a size out of range and for one that would cut off an active CRTC. */
  predicate AllowsScreenSize(s: Server, width: int, height: int) {
    s.sizes.Has(width, height) && CrtcsFit(s.crtcs, width, height)
  }

  function ConfigSize(s: Server, cfg: CrtcConfig): Size {
    if cfg.mode in s.modes then s.modes[cfg.mode] else Size(0, 0)
  }

  function ConfigRect(s: Server, cfg: CrtcConfig): Rect {
    var size := SwapWithRotation(cfg.rotation, ConfigSize(s, cfg));
    Rect(cfg.x, cfg.y, size.width, size.height)
  }

  /** What the specification lets a server refuse a SetCrtcConfig for: an unknown CRTC, outputs
      without a mode or the reverse, an output the CRTC cannot drive or that another CRTC drives,
      a mode or rotation it does not support, and a CRTC that would leave the screen. */
  predicate AllowsCrtcConfig(s: Server, cfg: CrtcConfig) {
    && cfg.crtc in s.crtcs
    && if cfg.outputs == [] then cfg.mode == 0
       else
         && cfg.mode in s.modes
         && cfg.rotation in s.crtcs[cfg.crtc].rotations
         && (forall o | o in cfg.outputs ::
               && o in s.outputs && s.outputs[o] in {0, cfg.crtc}
               && o in s.crtcs[cfg.crtc].possibleOutputs
               && o in s.outputModes && cfg.mode in s.outputModes[o])
         && RectFits(ConfigRect(s, cfg), s.width, s.height)
  }

  function Configure(s: Server, info: CrtcInfo, cfg: CrtcConfig): CrtcInfo {
    info.(x := cfg.x, y := cfg.y, size := ConfigSize(s, cfg), mode := cfg.mode,
          rotation := cfg.rotation, outputs := cfg.outputs)
  }

  /** The state after the server has carried out a SetCrtcConfig. */
  function ApplyCrtcConfig(s: Server, cfg: CrtcConfig): Server {
    if cfg.crtc !in s.crtcs then s
    else s.(crtcs := s.crtcs[cfg.crtc := Configure(s, s.crtcs[cfg.crtc], cfg)],
            outputs := map o | o in s.outputs ::
              if o in cfg.outputs then cfg.crtc
              else if s.outputs[o] == cfg.crtc then 0
              else s.outputs[o])
  }

  /** What a single request can do to the server: nothing, another screen size, or one CRTC configured. */
  ghost predicate IsRequested(s: Server, s': Server) {
    || s' == s.(width := s'.width, height := s'.height)
    || exists cfg: CrtcConfig :: s' == ApplyCrtcConfig(s, cfg)
  }

  /** The server went from `s` to `s'` through these states, one request at a time. */
  ghost predicate IsHistory(s: Server, history: seq<Server>, s': Server) {
    && history != [] && history[0] == s && history[|history| - 1] == s'
    && forall i | 0 <= i < |history| - 1 :: IsRequested(history[i], history[i + 1])
  }

  /** What came later is a history of its own. */
  lemma SinceThen(before: seq<Server>, s: Server, history: seq<Server>, s': Server)
    requires before != [] && before <= history
    requires IsHistory(before[0], before, s) && IsHistory(before[0], history, s')
    ensures IsHistory(s, history[|before| - 1..], s')
  {
    var since := |before| - 1;
    var rest := history[since..];
    assert rest[0] == before[since];
    forall i | 0 <= i < |rest| - 1 ensures IsRequested(rest[i], rest[i + 1]) {
      assert IsRequested(history[since + i], history[since + i + 1]);
    }
  }

  /** The server as its clients see it. An obedient server refuses a request only when the
      specification says so; any other server may refuse, and may also carry out, anything. */
  class XServer {
    var st: Server
    const obedient: bool
    ghost var history: seq<Server>  // the state after every request so far

    /** Nothing but requests has changed the server. */
    ghost predicate Recorded()
      reads this
    {
      history != [] && IsHistory(history[0], history, st)
    }

    lemma HistorySince(before: seq<Server>, s: Server)
      requires Recorded() && before != [] && before <= history && IsHistory(before[0], before, s)
      ensures IsHistory(s, history[|before| - 1..], st)
    {
      SinceThen(before, s, history, st);
    }

    constructor (st: Server, obedient: bool)
      ensures Recorded()
      ensures this.st == st && this.obedient == obedient && history == [st]
    {
      this.st := st;
      this.obedient := obedient;
      history := [st];
    }

    method SetScreenSize(width: uint16, height: uint16) returns (ok: bool)
      requires Recorded()
      modifies this
      ensures Recorded()
      ensures st == if ok then old(st).(width := width, height := height) else old(st)
      ensures obedient ==> (ok <==> AllowsScreenSize(old(st), width, height))
      ensures history == old(history) + [st]
    {
      ok := *;
      if obedient {
        ok := AllowsScreenSize(st, width, height);
      }
      if ok {
        st := st.(width := width, height := height);
      }
      history := history + [st];
    }

    method SetCrtcConfig(cfg: CrtcConfig) returns (ok: bool)
      requires Recorded()
      modifies this
      ensures Recorded()
      ensures st == if ok then ApplyCrtcConfig(old(st), cfg) else old(st)
      ensures obedient && AllowsCrtcConfig(old(st), cfg) ==> ok
      ensures history == old(history) + [st]
    {
      ok := *;
      if obedient {
        ok := AllowsCrtcConfig(st, cfg);
      }
      if ok {
        st := ApplyCrtcConfig(st, cfg);
      }
      history := history + [st];
    }
  }
}
