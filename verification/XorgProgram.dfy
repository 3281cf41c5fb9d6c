/** The combined effect of many SetCrtcConfig requests, in whatever order they are made. */
module XorgProgram {
  import opened RandR

  type Configs = map<Crtc, CrtcConfig>

  ghost predicate Claims(cfgs: Configs, c: Crtc, o: Output) {
    c in cfgs && o in cfgs[c].outputs
  }

  ghost predicate Unclaimed(cfgs: Configs, o: Output) {
    forall c: Crtc :: !Claims(cfgs, c, o)
  }

  /** No output appears in two configurations. */
  ghost predicate OneOwner(cfgs: Configs) {
    && (forall c | c in cfgs :: cfgs[c].crtc == c)
    && forall c: Crtc, d: Crtc, o: Output | Claims(cfgs, c, o) && Claims(cfgs, d, o) :: c == d
  }

  /** `f` is the server `s` after every configuration in `cfgs` has been carried out. */
  ghost predicate IsProgrammed(s: Server, cfgs: Configs, f: Server) {
    && f == s.(crtcs := f.crtcs, outputs := f.outputs)
    && f.crtcs.Keys == s.crtcs.Keys && f.outputs.Keys == s.outputs.Keys
    && (forall c | c in s.crtcs :: f.crtcs[c] == if c in cfgs then Configure(s, s.crtcs[c], cfgs[c]) else s.crtcs[c])
    && (forall c: Crtc, o: Output | Claims(cfgs, c, o) && o in s.outputs :: f.outputs[o] == c)
    && (forall o | o in s.outputs && Unclaimed(cfgs, o) ::
          f.outputs[o] == if s.outputs[o] in cfgs then 0 else s.outputs[o])
  }

  lemma ProgramNone(s: Server)
    ensures IsProgrammed(s, map[], s)
  {
  }

  lemma SameModesSameConfigure(s: Server, f: Server, info: CrtcInfo, cfg: CrtcConfig)
    requires f.modes == s.modes
    ensures Configure(f, info, cfg) == Configure(s, info, cfg)
  {
  }

  lemma ClaimOneMore(s: Server, done: Configs, cfg: CrtcConfig, f: Server, c: Crtc, o: Output)
    requires cfg.crtc in s.crtcs && OneOwner(done[cfg.crtc := cfg]) && IsProgrammed(s, done, f)
    requires Claims(done[cfg.crtc := cfg], c, o) && o in s.outputs
    ensures ApplyCrtcConfig(f, cfg).outputs[o] == c
  {
    hide Configure;
    if c != cfg.crtc {
      assert Claims(done, c, o);
      assert !Claims(done[cfg.crtc := cfg], cfg.crtc, o);
    }
  }

  lemma NoClaimOneMore(s: Server, done: Configs, cfg: CrtcConfig, f: Server, o: Output)
    requires 0 !in s.crtcs && cfg.crtc in s.crtcs && cfg.crtc !in done && IsProgrammed(s, done, f)
    requires o in s.outputs && Unclaimed(done[cfg.crtc := cfg], o)
    ensures ApplyCrtcConfig(f, cfg).outputs[o] == if s.outputs[o] in done[cfg.crtc := cfg] then 0 else s.outputs[o]
  {
    hide Configure;
    var all := done[cfg.crtc := cfg];
    assert !Claims(all, cfg.crtc, o);
    forall c: Crtc ensures !Claims(done, c, o) {
      assert !Claims(all, c, o);
    }
    assert Unclaimed(done, o);
  }

  /** One more request extends the combined effect, so the order of the requests does not matter. */
  lemma ProgramOneMore(s: Server, done: Configs, cfg: CrtcConfig, f: Server)
    requires 0 !in s.crtcs && cfg.crtc in s.crtcs && cfg.crtc !in done
    requires OneOwner(done[cfg.crtc := cfg])
    requires IsProgrammed(s, done, f)
    ensures IsProgrammed(s, done[cfg.crtc := cfg], ApplyCrtcConfig(f, cfg))
  {
    hide Configure, OneOwner, Claims, Unclaimed;
    SameModesSameConfigure(s, f, s.crtcs[cfg.crtc], cfg);
    var all := done[cfg.crtc := cfg];
    var g := ApplyCrtcConfig(f, cfg);
    forall c: Crtc, o: Output | Claims(all, c, o) && o in s.outputs ensures g.outputs[o] == c {
      ClaimOneMore(s, done, cfg, f, c, o);
    }
    forall o | o in s.outputs && Unclaimed(all, o)
      ensures g.outputs[o] == if s.outputs[o] in all then 0 else s.outputs[o]
    {
      NoClaimOneMore(s, done, cfg, f, o);
    }
  }

  ghost predicate AllInside(s: Server, cfgs: Configs) {
    forall c | c in cfgs && cfgs[c].outputs != [] :: RectFits(ConfigRect(s, cfgs[c]), s.width, s.height)
  }

  /** Requests that stay inside the screen keep every active CRTC inside it. */
  lemma ProgramFits(s: Server, cfgs: Configs, f: Server)
    requires IsProgrammed(s, cfgs, f) && ScreenFits(s) && AllInside(s, cfgs)
    ensures ScreenFits(f)
  {
    forall c | c in f.crtcs && f.crtcs[c].Active() ensures RectFits(f.crtcs[c].GetRect(), f.width, f.height) {
      if c in cfgs {
        assert f.crtcs[c].GetRect() == ConfigRect(s, cfgs[c]);
      }
    }
  }

  /** Outputs are only claimed from nowhere or from the CRTC that keeps them. */
  ghost predicate ClaimsOnlyFree(s: Server, cfgs: Configs) {
    forall c: Crtc, o: Output | Claims(cfgs, c, o) :: o in s.outputs && (s.outputs[o] == 0 || s.outputs[o] == c)
  }

  /** What a configuration needs for the tables to stay consistent once it is carried out. */
  ghost predicate WellFormedConfig(s: Server, cfg: CrtcConfig)
    requires cfg.crtc in s.crtcs
  {
    if cfg.outputs == [] then cfg.mode == 0
    else cfg.mode in s.modes && forall o | o in cfg.outputs :: o in s.crtcs[cfg.crtc].possibleOutputs
  }

  lemma UntouchedStaysConsistent(s: Server, cfgs: Configs, f: Server, c: Crtc)
    requires Consistent(s) && ClaimsOnlyFree(s, cfgs) && IsProgrammed(s, cfgs, f)
    requires c in s.crtcs && c !in cfgs
    ensures CrtcConsistent(f, c)
  {
    assert CrtcConsistent(s, c);
    forall o | o in f.crtcs[c].outputs ensures o in f.outputs && f.outputs[o] == c {
      assert Unclaimed(cfgs, o);
    }
  }

  lemma ProgramStaysConsistent(s: Server, cfgs: Configs, f: Server)
    requires Consistent(s) && OneOwner(cfgs) && ClaimsOnlyFree(s, cfgs)
    requires forall c | c in cfgs :: c in s.crtcs && WellFormedConfig(s, cfgs[c])
    requires IsProgrammed(s, cfgs, f)
    ensures Consistent(f)
  {
    forall c | c in f.crtcs ensures CrtcConsistent(f, c) {
      if c in cfgs {
        forall o | o in cfgs[c].outputs ensures o in f.outputs && f.outputs[o] == c && o in f.crtcs[c].possibleOutputs {
          assert Claims(cfgs, c, o);
        }
      } else {
        UntouchedStaysConsistent(s, cfgs, f, c);
      }
    }
    forall o | o in f.outputs && f.outputs[o] != 0
      ensures f.outputs[o] in f.crtcs && o in f.crtcs[f.outputs[o]].outputs
    {
      if !Unclaimed(cfgs, o) {
        var c: Crtc :| Claims(cfgs, c, o);
        assert f.outputs[o] == c && f.crtcs[c].outputs == cfgs[c].outputs;
      }
    }
  }

  ghost predicate AllRequestsAllowed(s: Server, cfgs: Configs) {
    && ClaimsOnlyFree(s, cfgs)
    && forall c | c in cfgs :: AllowsCrtcConfig(s, cfgs[c])
  }

  /** Carrying out some of the requests does not make another one inadmissible. */
  lemma StillAllowed(s: Server, cfgs: Configs, done: Configs, f: Server, c: Crtc)
    requires 0 !in s.crtcs && OneOwner(cfgs) && AllRequestsAllowed(s, cfgs)
    requires done.Keys <= cfgs.Keys && forall d | d in done :: done[d] == cfgs[d]
    requires IsProgrammed(s, done, f)
    requires c in cfgs && c !in done
    ensures AllowsCrtcConfig(f, cfgs[c])
  {
    assert AllowsCrtcConfig(s, cfgs[c]);
    forall o | o in cfgs[c].outputs ensures o in f.outputs && f.outputs[o] in {0, c} {
      assert Claims(cfgs, c, o);
      forall d: Crtc ensures !Claims(done, d, o) {
        assert Claims(done, d, o) ==> Claims(cfgs, d, o);
      }
      assert Unclaimed(done, o);
    }
  }

  // ---- Switching CRTCs off ----

  ghost function DisableAll(cs: set<Crtc>): Configs { map c | c in cs :: DisableConfig(c) }

  lemma DisableOneMore(s: Server, cs: set<Crtc>, c: Crtc, f: Server)
    requires 0 !in s.crtcs && c in s.crtcs && c !in cs
    requires IsProgrammed(s, DisableAll(cs), f)
    ensures IsProgrammed(s, DisableAll(cs + {c}), ApplyCrtcConfig(f, DisableConfig(c)))
  {
    assert DisableAll(cs + {c}) == DisableAll(cs)[c := DisableConfig(c)];
    ProgramOneMore(s, DisableAll(cs), DisableConfig(c), f);
  }

  lemma DisableNone(s: Server)
    ensures IsProgrammed(s, DisableAll({}), s)
  {
    assert DisableAll({}) == map[];
  }
}
