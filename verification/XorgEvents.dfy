/** How the cached tables follow the server: every change is announced by events that wait in a
    queue, and are handled one at a time while the server may already have moved on. */
module XorgEvents {
  import opened Ints
  import opened RandR

  datatype Event =
    | CrtcChange(crtc: Crtc, x: int16, y: int16, size: Size, rotation: bv16, mode: ModeId)
    | OutputChange(output: Output, outputCrtc: Crtc)

  /** handleCrtcChanged: the server's present answer, with the event's own fields on top. */
  function Refreshed(current: CrtcInfo, e: Event): CrtcInfo
    requires e.CrtcChange?
  {
    current.(x := e.x, y := e.y, size := e.size, rotation := e.rotation, mode := e.mode)
  }

  /** The tables after one event; `server` is the server's state when the event is handled. */
  function HandleEvent(server: Server, crtcs: map<Crtc, CrtcInfo>, outputs: map<Output, Crtc>, e: Event)
    : (map<Crtc, CrtcInfo>, map<Output, Crtc>)
  {
    match e
    case CrtcChange(c, _, _, _, _, _) =>
      if c in server.crtcs then (crtcs[c := Refreshed(server.crtcs[c], e)], outputs) else (crtcs, outputs)
    case OutputChange(o, c) =>
      if o in outputs then (crtcs, outputs[o := c])
      else if o in server.outputs then (crtcs, outputs[o := server.outputs[o]])
      else (crtcs, outputs)
  }

  predicate Truthful(s: Server, e: Event) {
    match e
    case CrtcChange(c, _, _, _, _, _) => c in s.crtcs && s.crtcs[c] == Refreshed(s.crtcs[c], e)
    case OutputChange(o, c) => o in s.outputs && s.outputs[o] == c
  }

  predicate IsAbout(e: Event, c: Crtc) { e.CrtcChange? && e.crtc == c }

  predicate IsAboutOutput(e: Event, o: Output) { e.OutputChange? && e.output == o }

  /** The events announce the change from `s` to `s'`: none of them lies and no change goes unmentioned. */
  ghost predicate Announces(s: Server, s': Server, es: seq<Event>) {
    && s'.crtcs.Keys == s.crtcs.Keys && s'.outputs.Keys == s.outputs.Keys
    && (forall e | e in es :: Truthful(s', e))
    && (forall c | c in s.crtcs && s'.crtcs[c] != s.crtcs[c] :: exists e :: e in es && IsAbout(e, c))
    && (forall o | o in s.outputs && s'.outputs[o] != s.outputs[o] :: exists e :: e in es && IsAboutOutput(e, o))
  }

  /** RandR announces a SetCrtcConfig by one event for the CRTC and one for each output that moved. */
  lemma CrtcConfigIsAnnounced(s: Server, cfg: CrtcConfig, es: seq<Event>)
    requires cfg.crtc in s.crtcs
    requires var s' := ApplyCrtcConfig(s, cfg); var info := s'.crtcs[cfg.crtc];
             && CrtcChange(cfg.crtc, info.x, info.y, info.size, info.rotation, info.mode) in es
             && (forall o | o in s.outputs && s'.outputs[o] != s.outputs[o] :: OutputChange(o, s'.outputs[o]) in es)
             && (forall e | e in es ::
                   || e == CrtcChange(cfg.crtc, info.x, info.y, info.size, info.rotation, info.mode)
                   || (e.OutputChange? && e.output in s.outputs && e.outputCrtc == s'.outputs[e.output]))
    ensures Announces(s, ApplyCrtcConfig(s, cfg), es)
  {
    var s' := ApplyCrtcConfig(s, cfg);
    var info := s'.crtcs[cfg.crtc];
    var e := CrtcChange(cfg.crtc, info.x, info.y, info.size, info.rotation, info.mode);
    assert e in es && IsAbout(e, cfg.crtc);
    forall o | o in s.outputs && s'.outputs[o] != s.outputs[o] ensures exists e :: e in es && IsAboutOutput(e, o) {
      assert IsAboutOutput(OutputChange(o, s'.outputs[o]), o);
    }
  }

  lemma {:induction false} MovedOutputs(s: Server, moved: set<Output>) returns (es: seq<Event>)
    requires moved <= s.outputs.Keys
    ensures forall o | o in moved :: OutputChange(o, s.outputs[o]) in es
    ensures forall e | e in es :: e.OutputChange? && e.output in moved && e.outputCrtc == s.outputs[e.output]
    decreases |moved|
  {
    if moved == {} {
      es := [];
    } else {
      var o :| o in moved;
      var others := MovedOutputs(s, moved - {o});
      es := [OutputChange(o, s.outputs[o])] + others;
    }
  }

  /** Whatever a request does can be announced; a new screen size needs no events of these two kinds. */
  lemma RequestIsAnnounced(s: Server, s': Server) returns (es: seq<Event>)
    requires IsRequested(s, s')
    ensures Announces(s, s', es)
    ensures s'.crtcs == s.crtcs && s'.outputs == s.outputs ==> es == []
  {
    if s'.crtcs == s.crtcs && s'.outputs == s.outputs {
      es := [];
    } else {
      var cfg: CrtcConfig :| s' == ApplyCrtcConfig(s, cfg);
      var moved := MovedOutputs(s', set o | o in s.outputs && s'.outputs[o] != s.outputs[o]);
      var info := s'.crtcs[cfg.crtc];
      es := [CrtcChange(cfg.crtc, info.x, info.y, info.size, info.rotation, info.mode)] + moved;
      CrtcConfigIsAnnounced(s, cfg, es);
    }
  }

  /** `made` counts the server's moves. */
  datatype World = World(
    server: Server, made: nat, crtcs: map<Crtc, CrtcInfo>, outputs: map<Output, Crtc>, queue: seq<Event>)

  ghost predicate ServerMoves(w: World, w': World) {
    && w'.made == w.made + 1 && w'.crtcs == w.crtcs && w'.outputs == w.outputs
    && w.queue <= w'.queue && Announces(w.server, w'.server, w'.queue[|w.queue|..])
  }

  ghost predicate EventHandled(w: World, w': World) {
    && w.queue != [] && w'.queue == w.queue[1..] && w'.server == w.server && w'.made == w.made
    && (w'.crtcs, w'.outputs) == HandleEvent(w.server, w.crtcs, w.outputs, w.queue[0])
  }

  /** The server changes and queues its announcements, or the head of the queue is handled. */
  ghost predicate Step(w: World, w': World) {
    ServerMoves(w, w') || EventHandled(w, w')
  }

  ghost predicate IsRun(run: seq<World>) {
    run != [] && forall i | 0 <= i < |run| - 1 :: Step(run[i], run[i + 1])
  }

  /** A run in which the server goes through this history, from a time when the tables were up to date. */
  ghost predicate IsRunOf(run: seq<World>, history: seq<Server>) {
    && IsRun(run)
    && run[0].made == 0 && run[0].queue == []
    && run[0].crtcs == run[0].server.crtcs && run[0].outputs == run[0].server.outputs
    && forall i | 0 <= i < |run| :: run[i].made < |history| && run[i].server == history[run[i].made]
  }

  /** The server has come to the end of its history and every announcement has been handled. */
  ghost predicate IsOver(run: seq<World>, history: seq<Server>) {
    run != [] && run[|run| - 1].made == |history| - 1 && run[|run| - 1].queue == []
  }

  lemma OneMoreStep(run: seq<World>, history: seq<Server>, w: World)
    requires IsRunOf(run, history) && Step(run[|run| - 1], w)
    requires w.made < |history| && w.server == history[w.made]
    ensures IsRunOf(run + [w], history)
  {
    hide Step;
    var more := run + [w];
    forall i | 0 <= i < |more| - 1 ensures Step(more[i], more[i + 1]) {
      assert i < |run| - 1 ==> more[i] == run[i] && more[i + 1] == run[i + 1];
    }
  }

  /** No interleaving gets stuck: the server can make its remaining changes, and the queue can be emptied. */
  lemma {:induction false} RunCanEnd(s: Server, history: seq<Server>, s': Server, run: seq<World>)
    returns (rest: seq<World>)
    requires IsHistory(s, history, s') && IsRunOf(run, history)
    ensures IsRunOf(run + rest, history) && IsOver(run + rest, history)
    decreases |history| - run[|run| - 1].made, |run[|run| - 1].queue|
  {
    hide Announces, IsRequested;
    var w := run[|run| - 1];
    if IsOver(run, history) {
      rest := [];
      assert run + rest == run;
    } else {
      var w';
      if w.made < |history| - 1 {
        var es := RequestIsAnnounced(w.server, history[w.made + 1]);
        w' := World(history[w.made + 1], w.made + 1, w.crtcs, w.outputs, w.queue + es);
        assert w'.queue[|w.queue|..] == es;
      } else {
        var tables := HandleEvent(w.server, w.crtcs, w.outputs, w.queue[0]);
        w' := World(w.server, w.made, tables.0, tables.1, w.queue[1..]);
      }
      OneMoreStep(run, history, w');
      var later := RunCanEnd(s, history, s', run + [w']);
      rest := [w'] + later;
      assert run + rest == run + [w'] + later;
    }
  }

  // ---- The invariant: handling what is queued would bring every entry up to date ----

  function SettledCrtc(entry: CrtcInfo, queue: seq<Event>, c: Crtc, current: CrtcInfo): CrtcInfo
    decreases |queue|
  {
    if queue == [] then entry
    else SettledCrtc(if IsAbout(queue[0], c) then Refreshed(current, queue[0]) else entry, queue[1..], c, current)
  }

  function SettledOutput(entry: Crtc, queue: seq<Event>, o: Output): Crtc
    decreases |queue|
  {
    if queue == [] then entry
    else SettledOutput(if IsAboutOutput(queue[0], o) then queue[0].outputCrtc else entry, queue[1..], o)
  }

  ghost predicate Settles(w: World) {
    && w.crtcs.Keys == w.server.crtcs.Keys && w.outputs.Keys == w.server.outputs.Keys
    && (forall c | c in w.crtcs :: SettledCrtc(w.crtcs[c], w.queue, c, w.server.crtcs[c]) == w.server.crtcs[c])
    && (forall o | o in w.outputs :: SettledOutput(w.outputs[o], w.queue, o) == w.server.outputs[o])
  }

  /** Truthful news overrides whatever came before; no news leaves it alone. */
  lemma {:induction false} NewsOverrides(entry: CrtcInfo, before: CrtcInfo, queue: seq<Event>, es: seq<Event>,
                                         c: Crtc, s: Server)
    requires c in s.crtcs && forall e | e in es :: Truthful(s, e)
    requires (exists e :: e in es && IsAbout(e, c)) ||
             (s.crtcs[c] == before && SettledCrtc(entry, queue, c, before) == before)
    ensures SettledCrtc(entry, queue + es, c, s.crtcs[c]) == s.crtcs[c]
    decreases |queue| + |es|
  {
    var now := s.crtcs[c];
    if queue != [] {
      assert (queue + es)[1..] == queue[1..] + es;
      var next := if IsAbout(queue[0], c) then Refreshed(now, queue[0]) else entry;
      NewsOverrides(next, before, queue[1..], es, c, s);
    } else if es != [] {
      assert queue + es == es;
      assert Truthful(s, es[0]);
      var next := if IsAbout(es[0], c) then Refreshed(now, es[0]) else entry;
      assert IsAbout(es[0], c) ==> next == now && SettledCrtc(next, [], c, now) == now;
      if IsAbout(es[0], c) {
        NewsOverrides(next, now, [], es[1..], c, s);
      } else {
        NewsOverrides(next, before, [], es[1..], c, s);
      }
      assert [] + es[1..] == es[1..];
    } else {
      assert queue + es == [];
    }
  }

  lemma {:induction false} OutputNewsOverrides(entry: Crtc, queue: seq<Event>, es: seq<Event>, o: Output, s: Server)
    requires o in s.outputs && forall e | e in es :: Truthful(s, e)
    requires (exists e :: e in es && IsAboutOutput(e, o)) || SettledOutput(entry, queue, o) == s.outputs[o]
    ensures SettledOutput(entry, queue + es, o) == s.outputs[o]
    decreases |queue| + |es|
  {
    if queue != [] {
      assert (queue + es)[1..] == queue[1..] + es;
      OutputNewsOverrides(if IsAboutOutput(queue[0], o) then queue[0].outputCrtc else entry, queue[1..], es, o, s);
    } else if es != [] {
      assert queue + es == es;
      assert Truthful(s, es[0]);
      OutputNewsOverrides(if IsAboutOutput(es[0], o) then es[0].outputCrtc else entry, [], es[1..], o, s);
      assert [] + es[1..] == es[1..];
    } else {
      assert queue + es == [];
    }
  }

  lemma StepKeepsSettling(w: World, w': World)
    requires Settles(w) && Step(w, w')
    ensures Settles(w')
  {
    if ServerMoves(w, w') {
      var es := w'.queue[|w.queue|..];
      assert w'.queue == w.queue + es;
      forall c | c in w'.crtcs ensures SettledCrtc(w'.crtcs[c], w'.queue, c, w'.server.crtcs[c]) == w'.server.crtcs[c] {
        NewsOverrides(w.crtcs[c], w.server.crtcs[c], w.queue, es, c, w'.server);
      }
      forall o | o in w'.outputs ensures SettledOutput(w'.outputs[o], w'.queue, o) == w'.server.outputs[o] {
        OutputNewsOverrides(w.outputs[o], w.queue, es, o, w'.server);
      }
    } else {
      forall c | c in w'.crtcs ensures SettledCrtc(w'.crtcs[c], w'.queue, c, w'.server.crtcs[c]) == w'.server.crtcs[c] {
        assert SettledCrtc(w.crtcs[c], w.queue, c, w.server.crtcs[c]) == w.server.crtcs[c];
      }
      forall o | o in w'.outputs ensures SettledOutput(w'.outputs[o], w'.queue, o) == w'.server.outputs[o] {
        assert SettledOutput(w.outputs[o], w.queue, o) == w.server.outputs[o];
      }
    }
  }

  /** Once every event has been handled the cached tables are the server's, whatever the interleaving. */
  lemma {:induction false} DrainedMeansUpToDate(run: seq<World>)
    requires IsRun(run)
    requires run[0].queue == [] && run[0].crtcs == run[0].server.crtcs && run[0].outputs == run[0].server.outputs
    ensures Settles(run[|run| - 1])
    ensures run[|run| - 1].queue == [] ==>
              && run[|run| - 1].crtcs == run[|run| - 1].server.crtcs
              && run[|run| - 1].outputs == run[|run| - 1].server.outputs
  {
    var last := run[|run| - 1];
    if |run| > 1 {
      var front := run[..|run| - 1];
      DrainedMeansUpToDate(front);
      assert Step(run[|run| - 2], run[|run| - 1]);
      StepKeepsSettling(front[|front| - 1], last);
    }
    if last.queue == [] {
      forall c | c in last.crtcs ensures last.crtcs[c] == last.server.crtcs[c] {
        assert SettledCrtc(last.crtcs[c], last.queue, c, last.server.crtcs[c]) == last.server.crtcs[c];
      }
      forall o | o in last.outputs ensures last.outputs[o] == last.server.outputs[o] {
        assert SettledOutput(last.outputs[o], last.queue, o) == last.server.outputs[o];
      }
    }
  }

  lemma OverMeansUpToDate(run: seq<World>, history: seq<Server>)
    requires IsRunOf(run, history) && IsOver(run, history)
    ensures run[|run| - 1].crtcs == history[|history| - 1].crtcs
    ensures run[|run| - 1].outputs == history[|history| - 1].outputs
  {
    hide Step;
    DrainedMeansUpToDate(run);
  }
}
